/** One repository to mirror, and the protocol that mirrors it: a mirror clone
    if there is no working copy yet, a fetch, then a push of all branches and
    a push of all tags to every mirror, in that order, stopping at the first
    command that fails. */
module GitRepos {
  import opened Tool

  /** `GitRepo(main_url, mirror_urls, repo_dir)`. Nothing changes its fields
      after construction. */
  datatype GitRepo = GitRepo(mainUrl: string, mirrorUrls: seq<string>, repoDir: Path)
  {
    /** `git_repo_args`: the prefix that runs git inside the working copy. */
    function GitRepoArgs(): Argv
    {
      ["git", "-C", repoDir]
    }

    function CloneArgv(): Argv
    {
      ["git", "clone", "--mirror", mainUrl, repoDir]
    }

    function FetchArgv(): Argv
    {
      GitRepoArgs() + ["fetch"]
    }

    function PushArgv(flag: string, url: string): Argv
    {
      GitRepoArgs() + ["push", flag, url]
    }

    /** One push with `flag` per URL, in the order of the URLs. */
    function PushCommands(flag: string, urls: seq<string>): (cmds: seq<Argv>)
      ensures |cmds| == |urls|
      decreases |urls|
    {
      if urls == [] then [] else [PushArgv(flag, urls[0])] + PushCommands(flag, urls[1..])
    }


    /** The commands `push_branches` issues. */
    function BranchPushes(): seq<Argv>
    {
      PushCommands("--all", mirrorUrls)
    }

    /** The commands `push_tags` issues. */
    function TagPushes(): seq<Argv>
    {
      PushCommands("--tags", mirrorUrls)
    }

    /** The commands `clone` issues, given whether `repo_dir` exists. */
    function CloneCommands(present: bool): seq<Argv>
    {
      if present then [] else [CloneArgv()]
    }

    /** Every command `mirror` would issue if none failed, given whether
        `repo_dir` exists when it starts. */
    function Commands(present: bool): seq<Argv>
    {
      CloneCommands(present) + [FetchArgv()] + BranchPushes() + TagPushes()
    }

    /** The commands of step `step` of `mirror`: the clone, the fetch, the
        branch pushes and the tag pushes; whether the clone is issued depends
        on the host the clone step starts from. */
    function StepCommands(w: World, step: nat): seq<Argv>
    {
      if step == 0 then CloneCommands(repoDir in w.paths)
      else if step == 1 then [FetchArgv()]
      else if step == 2 then BranchPushes()
      else TagPushes()
    }

    /** The steps of `mirror` from `step` on; a step that raises ends it. */
    function RunSteps(w: World, tool: Oracle, step: nat): Report
      decreases 4 - step
    {
      if step >= 4 then Report(w, Done)
      else
        var r := Exec(w, tool, StepCommands(w, step));
        if r.outcome.Done? then RunSteps(r.world, tool, step + 1) else r
    }

    /** What `mirror` does to the host. */
    function RunMirror(w: World, tool: Oracle): Report
    {
      RunSteps(w, tool, 0)
    }

    /** `clone`: a mirror clone into `repo_dir`, only if nothing exists there. */
    method Clone(host: Host) returns (outcome: Outcome)
      modifies host
      ensures Report(host.State(), outcome)
           == Exec(old(host.State()), host.tool, CloneCommands(repoDir in old(host.paths)))
    {
      if repoDir !in host.paths {
        outcome := host.Run(["git", "clone", "--mirror", mainUrl, repoDir]);
      } else {
        outcome := Done;
      }
    }

    /** `fetch`. */
    method Fetch(host: Host) returns (outcome: Outcome)
      modifies host
      ensures Report(host.State(), outcome) == Exec(old(host.State()), host.tool, [FetchArgv()])
    {
      outcome := host.Run(GitRepoArgs() + ["fetch"]);
    }

    /** One push with `flag` to each mirror URL in turn; the first push that
        fails raises, and the mirrors after it are not pushed to. */
    method Push(host: Host, flag: string) returns (outcome: Outcome)
      modifies host
      ensures Report(host.State(), outcome)
           == Exec(old(host.State()), host.tool, PushCommands(flag, mirrorUrls))
    {
      ghost var w0 := host.State();
      ghost var cmds := PushCommands(flag, mirrorUrls);
      outcome := Done;
      for i := 0 to |mirrorUrls|
        invariant outcome == Done
        invariant Exec(w0, host.tool, cmds[..i]) == Report(host.State(), Done)
      {
        PushCommandsAt(this, flag, mirrorUrls, i);
        outcome := host.Run(GitRepoArgs() + ["push", flag, mirrorUrls[i]]);
        ExecAppend(w0, host.tool, cmds[..i], [cmds[i]]);
        assert cmds[..i] + [cmds[i]] == cmds[..i + 1];
        if outcome.CalledProcessError? {
          ExecAppend(w0, host.tool, cmds[..i + 1], cmds[i + 1..]);
          assert cmds[..i + 1] + cmds[i + 1..] == cmds;
          return;
        }
      }
      assert cmds[..|mirrorUrls|] == cmds;
    }

    /** `push_branches`: `push --all` to every mirror. */
    method PushBranches(host: Host) returns (outcome: Outcome)
      modifies host
      ensures Report(host.State(), outcome) == Exec(old(host.State()), host.tool, BranchPushes())
    {
      outcome := Push(host, "--all");
    }

    /** `push_tags`: `push --tags` to every mirror. */
    method PushTags(host: Host) returns (outcome: Outcome)
      modifies host
      ensures Report(host.State(), outcome) == Exec(old(host.State()), host.tool, TagPushes())
    {
      outcome := Push(host, "--tags");
    }

    /** `mirror`: clone, fetch, push branches, push tags; the first step that
        raises ends it. */
    method Mirror(host: Host) returns (outcome: Outcome)
      modifies host
      ensures Report(host.State(), outcome) == RunMirror(old(host.State()), host.tool)
    {
      outcome := Clone(host);
      if outcome.CalledProcessError? { return; }
      outcome := Fetch(host);
      if outcome.CalledProcessError? { return; }
      outcome := PushBranches(host);
      if outcome.CalledProcessError? { return; }
      outcome := PushTags(host);
    }
  }

  /** The `i`-th push goes to the `i`-th URL. */
  lemma {:induction false} PushCommandsAt(repo: GitRepo, flag: string, urls: seq<string>, i: nat)
    requires i < |urls|
    ensures repo.PushCommands(flag, urls)[i] == repo.PushArgv(flag, urls[i])
    decreases i
  {
    if i > 0 {
      PushCommandsAt(repo, flag, urls[1..], i - 1);
    }
  }

  /** Step by step is all at once: `mirror` runs the protocol's commands in
      order, stopping at the first that fails. */
  lemma RunMirrorFlat(repo: GitRepo, w: World, tool: Oracle)
    ensures repo.RunMirror(w, tool) == Exec(w, tool, repo.Commands(repo.repoDir in w.paths))
  {
    var present := repo.repoDir in w.paths;
    var cc := repo.CloneCommands(present);
    var bp := repo.BranchPushes();
    var tp := repo.TagPushes();
    assert repo.Commands(present) == cc + ([repo.FetchArgv()] + (bp + tp));
    ExecAppend(w, tool, cc, [repo.FetchArgv()] + (bp + tp));
    var r0 := Exec(w, tool, cc);
    if r0.outcome.Done? {
      ExecAppend(r0.world, tool, [repo.FetchArgv()], bp + tp);
      var r1 := Exec(r0.world, tool, [repo.FetchArgv()]);
      if r1.outcome.Done? {
        ExecAppend(r1.world, tool, bp, tp);
        var r2 := Exec(r1.world, tool, bp);
        if r2.outcome.Done? {
          var r3 := Exec(r2.world, tool, tp);
          assert repo.RunSteps(r2.world, tool, 3) == (if r3.outcome.Done? then repo.RunSteps(r3.world, tool, 4) else r3);
        }
      }
    }
  }

  /** The order of the protocol: the clone first if `repo_dir` is missing,
      then the fetch, then the branch push to every mirror in list order, then
      the tag push to every mirror in list order. */
  lemma CommandsLayout(repo: GitRepo, present: bool)
    ensures var cmds := repo.Commands(present);
      var c := if present then 0 else 1;
      var n := |repo.mirrorUrls|;
      && |cmds| == c + 1 + 2 * n
      && (!present ==> cmds[0] == ["git", "clone", "--mirror", repo.mainUrl, repo.repoDir])
      && cmds[c] == ["git", "-C", repo.repoDir, "fetch"]
      && (forall i :: 0 <= i < n ==>
            cmds[c + 1 + i] == ["git", "-C", repo.repoDir, "push", "--all", repo.mirrorUrls[i]])
      && (forall i :: 0 <= i < n ==>
            cmds[c + 1 + n + i] == ["git", "-C", repo.repoDir, "push", "--tags", repo.mirrorUrls[i]])
  {
    var pre := repo.CloneCommands(present) + [repo.FetchArgv()];
    var branches := repo.BranchPushes();
    var tags := repo.TagPushes();
    var cmds := repo.Commands(present);
    var c := if present then 0 else 1;
    var n := |repo.mirrorUrls|;
    assert cmds == (pre + branches) + tags;
    assert |pre| == c + 1 && |branches| == n && |tags| == n;
    assert cmds[c] == pre[c] == repo.FetchArgv();
    assert !present ==> cmds[0] == pre[0] == repo.CloneArgv();
    forall i | 0 <= i < n
      ensures cmds[c + 1 + i] == repo.PushArgv("--all", repo.mirrorUrls[i])
    {
      assert (pre + branches)[c + 1 + i] == branches[i];
      PushCommandsAt(repo, "--all", repo.mirrorUrls, i);
    }
    forall i | 0 <= i < n
      ensures cmds[c + 1 + n + i] == repo.PushArgv("--tags", repo.mirrorUrls[i])
    {
      assert cmds[c + 1 + n + i] == tags[i];
      PushCommandsAt(repo, "--tags", repo.mirrorUrls, i);
    }
  }

  /** Every command but the clone runs inside the working copy: it starts with
      `git -C <repo_dir>`. */
  lemma CommandsInWorkingCopy(repo: GitRepo, present: bool)
    ensures var cmds := repo.Commands(present);
      forall k :: (if present then 0 else 1) <= k < |cmds| ==>
        |cmds[k]| >= 3 && cmds[k][..3] == ["git", "-C", repo.repoDir]
  {
    var cmds := repo.Commands(present);
    var c := if present then 0 else 1;
    var n := |repo.mirrorUrls|;
    CommandsLayout(repo, present);
    forall k | c <= k < |cmds|
      ensures |cmds[k]| >= 3 && cmds[k][..3] == repo.GitRepoArgs()
    {
      if k == c {
      } else if k < c + 1 + n {
        var i := k - c - 1;
        assert cmds[c + 1 + i] == repo.PushArgv("--all", repo.mirrorUrls[i]);
      } else {
        var i := k - c - 1 - n;
        assert cmds[c + 1 + n + i] == repo.PushArgv("--tags", repo.mirrorUrls[i]);
      }
    }
  }

  /** The only clone among the protocol's commands is the first one, and it is
      there exactly when `repo_dir` is missing. */
  lemma CloneOnlyWhenMissing(repo: GitRepo, present: bool)
    ensures var cmds := repo.Commands(present);
      forall k :: 0 <= k < |cmds| ==> (IsClone(cmds[k]) <==> k == 0 && !present)
  {
    var cmds := repo.Commands(present);
    CommandsLayout(repo, present);
    CommandsInWorkingCopy(repo, present);
    forall k | 0 <= k < |cmds|
      ensures IsClone(cmds[k]) <==> k == 0 && !present
    {
      if k >= (if present then 0 else 1) {
        assert cmds[k][1] == cmds[k][..3][1] == "-C";
      }
    }
  }

  /** A `mirror` that completed leaves `repo_dir` in place, whether it was
      there before or the clone created it. */
  lemma MirrorLeavesWorkingCopy(repo: GitRepo, w: World, tool: Oracle)
    requires repo.RunMirror(w, tool).outcome.Done?
    ensures repo.repoDir in repo.RunMirror(w, tool).world.paths
  {
    RunMirrorFlat(repo, w, tool);
    var present := repo.repoDir in w.paths;
    var cc := repo.CloneCommands(present);
    var rest := [repo.FetchArgv()] + repo.BranchPushes() + repo.TagPushes();
    assert repo.Commands(present) == cc + rest;
    ExecAppend(w, tool, cc, rest);
    var r0 := Exec(w, tool, cc);
    assert r0.outcome.Done?;
    if !present {
      assert cc == [repo.CloneArgv()];
      assert IsClone(repo.CloneArgv());
      assert repo.repoDir in r0.world.paths;
    }
    ExecIssuesPrefix(r0.world, tool, rest);
  }

  /** After `mirror`, `repo_dir` exists exactly when it existed before or the
      tool accepted the clone, whatever happened to the fetch and the pushes
      after it. */
  lemma WorkingCopyAfterMirror(repo: GitRepo, w: World, tool: Oracle)
    ensures repo.repoDir in repo.RunMirror(w, tool).world.paths
        <==> repo.repoDir in w.paths || tool(w.log, repo.CloneArgv())
  {
    RunMirrorFlat(repo, w, tool);
    var present := repo.repoDir in w.paths;
    var cmds := repo.Commands(present);
    if present {
      ExecIssuesPrefix(w, tool, cmds);
    } else {
      var rest := [repo.FetchArgv()] + repo.BranchPushes() + repo.TagPushes();
      assert cmds[0] == repo.CloneArgv() && cmds[1..] == rest;
      assert IsClone(repo.CloneArgv());
      if tool(w.log, repo.CloneArgv()) {
        var w1 := World(w.paths + Creates(repo.CloneArgv()), w.log + [repo.CloneArgv()]);
        assert Exec(w, tool, cmds) == Exec(w1, tool, rest);
        ExecIssuesPrefix(w1, tool, rest);
      }
    }
  }

  /** Idempotence of `clone`: once a `mirror` has left `repo_dir` in place
      (it completed, or only its fetch or a push failed), a second `mirror`
      of the same repository issues no clone. Run twice, the only clone is
      the very first command, and only when `repo_dir` was missing. */
  lemma MirrorTwiceClonesOnce(repo: GitRepo, w: World, tool: Oracle)
    requires repo.repoDir in repo.RunMirror(w, tool).world.paths
    ensures var w1 := repo.RunMirror(w, tool).world;
      var w2 := repo.RunMirror(w1, tool).world;
      forall k :: |w.log| <= k < |w2.log| ==>
        (IsClone(w2.log[k]) <==> k == |w.log| && repo.repoDir !in w.paths)
  {
    var present := repo.repoDir in w.paths;
    var w1 := repo.RunMirror(w, tool).world;
    var w2 := repo.RunMirror(w1, tool).world;
    RunMirrorFlat(repo, w, tool);
    RunMirrorFlat(repo, w1, tool);
    var cmds1 := repo.Commands(present);
    var cmds2 := repo.Commands(true);
    CloneOnlyWhenMissing(repo, present);
    CloneOnlyWhenMissing(repo, true);
    ExecIssuesPrefix(w, tool, cmds1);
    ExecIssuesPrefix(w1, tool, cmds2);
    assert |w1.log| > |w.log|;
    assert w1.log == w.log + cmds1[..|w1.log| - |w.log|];
    assert w2.log == w1.log + cmds2[..|w2.log| - |w1.log|];
    forall k | |w.log| <= k < |w2.log|
      ensures IsClone(w2.log[k]) <==> k == |w.log| && !present
    {
      if k < |w1.log| {
        assert w2.log[k] == cmds1[k - |w.log|];
      } else {
        assert w2.log[k] == cmds2[k - |w1.log|];
      }
    }
  }

  /** The scheduled re-run after a failed fetch or push: the first `mirror`
      cloned, then failed; the second issues no clone. */
  lemma AcceptedCloneNotRepeated(repo: GitRepo, w: World, tool: Oracle)
    requires repo.repoDir !in w.paths && tool(w.log, repo.CloneArgv())
    ensures var w1 := repo.RunMirror(w, tool).world;
      var w2 := repo.RunMirror(w1, tool).world;
      forall k :: |w1.log| <= k < |w2.log| ==> !IsClone(w2.log[k])
  {
    WorkingCopyAfterMirror(repo, w, tool);
    MirrorTwiceClonesOnce(repo, w, tool);
    var w1 := repo.RunMirror(w, tool).world;
    RunMirrorFlat(repo, w, tool);
    ExecIssuesPrefix(w, tool, repo.Commands(false));
  }

  /** An accepted clone also creates the directories above `repo_dir`: a
      later `mirror` of a repository whose `repo_dir` is one of them (a blank
      configuration line, or a source URL ending in `/`, gives `clone_dir`
      itself) finds it present and issues no clone. */
  lemma ParentOfCloneNotCloned(repo: GitRepo, other: GitRepo, w: World, tool: Oracle, i: nat)
    requires 0 < i < |repo.repoDir| && repo.repoDir[i] == '/' && other.repoDir == repo.repoDir[..i]
    requires repo.repoDir !in w.paths && tool(w.log, repo.CloneArgv())
    ensures var w1 := repo.RunMirror(w, tool).world;
      var w2 := other.RunMirror(w1, tool).world;
      && other.repoDir in w1.paths
      && forall k :: |w1.log| <= k < |w2.log| ==> !IsClone(w2.log[k])
  {
    RunMirrorFlat(repo, w, tool);
    var cmds := repo.Commands(false);
    var rest := [repo.FetchArgv()] + repo.BranchPushes() + repo.TagPushes();
    assert cmds[0] == repo.CloneArgv() && cmds[1..] == rest;
    assert IsClone(repo.CloneArgv());
    assert other.repoDir in Parents(repo.repoDir);
    var w0 := World(w.paths + Creates(repo.CloneArgv()), w.log + [repo.CloneArgv()]);
    assert Exec(w, tool, cmds) == Exec(w0, tool, rest);
    ExecIssuesPrefix(w0, tool, rest);
    var w1 := repo.RunMirror(w, tool).world;
    RunMirrorFlat(other, w1, tool);
    CloneOnlyWhenMissing(other, true);
    ExecIssuesPrefix(w1, tool, other.Commands(true));
    var w2 := other.RunMirror(w1, tool).world;
    forall k | |w1.log| <= k < |w2.log|
      ensures !IsClone(w2.log[k])
    {
      assert w2.log[k] == other.Commands(true)[k - |w1.log|];
    }
  }

  /** Fail-fast across mirrors: when every command before the branch push to
      mirror `i` succeeds and that push fails, `mirror` raises that push's
      error, and nothing after it is issued: no later mirror and no tag push
      is attempted. */
  lemma BranchPushFailureStops(repo: GitRepo, w: World, tool: Oracle, i: nat)
    requires i < |repo.mirrorUrls|
    requires var cmds := repo.Commands(repo.repoDir in w.paths);
      var pos := (if repo.repoDir in w.paths then 0 else 1) + 1 + i;
      && (forall k :: 0 <= k < pos ==> Accepted(w, tool, cmds, k))
      && !Accepted(w, tool, cmds, pos)
    ensures var r := repo.RunMirror(w, tool);
      var pos := (if repo.repoDir in w.paths then 0 else 1) + 1 + i;
      && r.outcome == CalledProcessError(["git", "-C", repo.repoDir, "push", "--all", repo.mirrorUrls[i]])
      && r.world.log == w.log + repo.Commands(repo.repoDir in w.paths)[..pos + 1]
  {
    var cmds := repo.Commands(repo.repoDir in w.paths);
    var pos := (if repo.repoDir in w.paths then 0 else 1) + 1 + i;
    CommandsLayout(repo, repo.repoDir in w.paths);
    RunMirrorFlat(repo, w, tool);
    ExecStopsAt(w, tool, cmds, pos);
  }
}
