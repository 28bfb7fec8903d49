/** The synchronizer's main flow: every configured source repository is
    queued for mirroring into a working copy under the clone directory, named
    after the last segment of its URL, and the queue is processed. */
module Synchronizer {
  import opened Text
  import opened Tool
  import opened Config
  import opened GitRepos
  import opened RepoQueues

  /** `url.split('/')[-1]`: what follows the last slash of `url`, or all of
      `url` when it has none. */
  function LastSegment(url: string): string
  {
    var parts := Split(url, '/');
    parts[|parts| - 1]
  }

  /** The last segment is a slash-free suffix of the URL, and it starts right
      after a slash unless it is the whole URL. */
  lemma LastSegmentSpec(url: string)
    ensures var seg := LastSegment(url);
      && '/' !in seg
      && |seg| <= |url|
      && url[|url| - |seg|..] == seg
      && (|seg| == |url| || url[|url| - |seg| - 1] == '/')
  {
    var parts := Split(url, '/');
    var seg := parts[|parts| - 1];
    JoinSplit(url, '/');
    if |parts| >= 2 {
      JoinLast(parts, '/');
      var front := Join(parts[..|parts| - 1], '/');
      assert url == front + ['/'] + seg;
      assert url[|url| - |seg|..] == seg;
    } else {
      assert url == seg;
    }
  }

  /** A URL that ends with a slash followed by slash-free text has that text
      as its last segment. */
  lemma LastSegmentAfterSlash(prefix: string, name: string)
    requires '/' !in name
    ensures LastSegment(prefix + "/" + name) == name
  {
    SplitAppendLast(prefix, name, '/');
  }

  /** A URL that ends with a slash has an empty last segment. */
  lemma LastSegmentTrailingSlash(url: string)
    requires url != [] && url[|url| - 1] == '/'
    ensures LastSegment(url) == ""
  {
    LastSegmentSpec(url);
  }

  /** `dir / Path(name)` for a slash-free `name`, with `dir` as pathlib
      prints it: an empty name and `.` add nothing, a name under the current
      directory `.` stands alone, and a name under the root `/` gets no
      second slash. */
  function JoinName(dir: Path, name: string): (p: Path)
    requires '/' !in name
    ensures name == "" || name == "." ==> p == dir
    ensures name != "" && name != "." && dir != "." ==> |p| > |name| && p[|p| - |name|..] == name && p[|p| - |name| - 1] == '/'
    ensures name != "" && name != "." && dir != "." && !(dir != [] && dir[|dir| - 1] == '/') ==> |p| == |dir| + 1 + |name| && p[..|dir|] == dir
    ensures name != "" && name != "." && dir != "." && dir != [] && dir[|dir| - 1] == '/' ==> |p| == |dir| + |name| && p[..|dir|] == dir
    ensures name != "" && name != "." && dir == "." ==> p == name
  {
    if name == "" || name == "." then dir
    else if dir == "." then name
    else if dir != [] && dir[|dir| - 1] == '/' then dir + name
    else dir + "/" + name
  }

  /** The working copy of the repository at `url`: `clone_dir` joined with
      the last segment of the URL. */
  function RepoDir(cloneDir: Path, url: string): Path
  {
    LastSegmentSpec(url);
    JoinName(cloneDir, LastSegment(url))
  }

  /** A source URL whose last segment is a name gets its own directory
      directly under `clone_dir`, named after that segment. */
  lemma RepoDirUnderCloneDir(cloneDir: Path, prefix: string, name: string)
    requires '/' !in name && name != "" && name != "."
    requires cloneDir != "." && cloneDir != [] && cloneDir[|cloneDir| - 1] != '/'
    ensures RepoDir(cloneDir, prefix + "/" + name) == cloneDir + "/" + name
  {
    LastSegmentAfterSlash(prefix, name);
  }

  /** `https://github.com/LUMC/git-synchronizer.git` is cloned into
      `git-synchronizer.git` under the clone directory. */
  lemma RepoDirExample(cloneDir: Path)
    requires cloneDir != "." && cloneDir != [] && cloneDir[|cloneDir| - 1] != '/'
    ensures RepoDir(cloneDir, "https://github.com/LUMC" + "/" + "git-synchronizer.git")
         == cloneDir + "/" + "git-synchronizer.git"
  {
    RepoDirUnderCloneDir(cloneDir, "https://github.com/LUMC", "git-synchronizer.git");
  }

  /** A source URL that ends with a slash is cloned into `clone_dir` itself. */
  lemma RepoDirTrailingSlash(cloneDir: Path, url: string)
    requires url != [] && url[|url| - 1] == '/'
    ensures RepoDir(cloneDir, url) == cloneDir
  {
    LastSegmentTrailingSlash(url);
  }

  /** The repository one configuration entry describes. The ensures unfold
      the definition for the proofs that use it. */
  function RepoFor(cloneDir: Path, e: Entry): (repo: GitRepo)
    ensures repo.mainUrl == e.sourceUrl && repo.mirrorUrls == e.destUrls
    ensures repo.repoDir == RepoDir(cloneDir, e.sourceUrl)
  {
    GitRepo(e.sourceUrl, e.destUrls, RepoDir(cloneDir, e.sourceUrl))
  }

  /** The repositories `main` queues for a parsed configuration, one per
      entry, in order. The ensures unfold the definition for the proofs that
      use it. */
  function Repos(cloneDir: Path, configuration: seq<Entry>): (repos: seq<GitRepo>)
    ensures |repos| == |configuration|
    ensures forall i :: 0 <= i < |configuration| ==> repos[i] == RepoFor(cloneDir, configuration[i])
  {
    seq(|configuration|, i requires 0 <= i < |configuration| => RepoFor(cloneDir, configuration[i]))
  }

  /** The repositories `main` queues for the lines of a configuration file.
      The ensures unfold the definition for the proofs that use it;
      `JobFromLine` states what each job is. */
  function Jobs(cloneDir: Path, configLines: seq<string>): (jobs: seq<GitRepo>)
    ensures |jobs| == |configLines|
    ensures forall i :: 0 <= i < |configLines| ==> jobs[i] == RepoFor(cloneDir, ParseLine(configLines[i]))
  {
    Repos(cloneDir, seq(|configLines|, i requires 0 <= i < |configLines| => ParseLine(configLines[i])))
  }

  /** The repository queued for line `i`: its main URL and mirror URLs are
      the tab-free fields that, joined by tabs, give back the cleaned line;
      its working copy is `clone_dir` joined with the slash-free tail of the
      main URL that follows its last slash. */
  lemma JobFromLine(cloneDir: Path, configLines: seq<string>, i: nat)
    requires i < |configLines|
    ensures var job := Jobs(cloneDir, configLines)[i];
      var seg := LastSegment(job.mainUrl);
      && Join([job.mainUrl] + job.mirrorUrls, Tab) == CleanLine(configLines[i])
      && Tab !in job.mainUrl
      && (forall k :: 0 <= k < |job.mirrorUrls| ==> Tab !in job.mirrorUrls[k])
      && '/' !in seg
      && |seg| <= |job.mainUrl| && job.mainUrl[|job.mainUrl| - |seg|..] == seg
      && (|seg| == |job.mainUrl| || job.mainUrl[|job.mainUrl| - |seg| - 1] == '/')
      && job.repoDir == JoinName(cloneDir, seg)
  {
    var job := Jobs(cloneDir, configLines)[i];
    ParseLineRoundTrip(configLines[i]);
    LastSegmentSpec(job.mainUrl);
  }

  /** The loop of `main` that builds a `GitRepo` per entry and puts it on a
      new queue: the queue holds them in configuration order, each an
      unfinished task. */
  method QueueRepos(cloneDir: Path, configuration: seq<Entry>) returns (repoQueue: RepoQueue)
    ensures fresh(repoQueue) && repoQueue.Valid()
    ensures repoQueue.queue == Repos(cloneDir, configuration)
    ensures repoQueue.unfinishedTasks == |configuration|
  {
    repoQueue := new RepoQueue();
    ghost var repos := Repos(cloneDir, configuration);
    for i := 0 to |configuration|
      invariant fresh(repoQueue) && repoQueue.Valid()
      invariant repoQueue.queue == repos[..i]
      invariant repoQueue.unfinishedTasks == i
    {
      var entry := configuration[i];
      var gitRepo := GitRepo(entry.sourceUrl, entry.destUrls, JoinName(cloneDir, LastSegment(entry.sourceUrl)));
      assert gitRepo == repos[i];
      var _ := repoQueue.Put(RepoObject(gitRepo));
      assert repos[..i] + [repos[i]] == repos[..i + 1];
    }
    assert repos[..|configuration|] == repos;
  }

  /** `main` after argument parsing and reading the configuration: it queues
      one repository per line and processes the queue with `threads` workers.
      `joined` is false when `main` would wait forever on `join`. */
  method Synchronize(cloneDir: Path, configLines: seq<string>, threads: int, host: Host, ghost run: MirrorRun)
    returns (joined: bool)
    requires Mirrors(run, host.tool)
    modifies host
    ensures var jobs := Jobs(cloneDir, configLines);
      host.State() == Workers(if threads > 0 then threads else 0, old(host.State()), run, jobs).world
    ensures var jobs := Jobs(cloneDir, configLines);
      joined <==> jobs == [] || (threads >= 1 && Drain(old(host.State()), run, jobs).outcome.Done?)
  {
    var configuration := ParseConfig(configLines);
    var repoQueue := QueueRepos(cloneDir, configuration);
    ghost var jobs := Jobs(cloneDir, configLines);
    assert repoQueue.queue == jobs;
    ghost var w0 := host.State();
    joined := repoQueue.Process(threads, host, run);
    ProcessReturns(if threads > 0 then threads else 0, w0, run, jobs, |jobs|);
  }
}
