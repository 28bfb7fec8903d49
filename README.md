# git-synchronizer in Dafny

git-synchronizer mirrors a set of git repositories. A tab-separated
configuration file lists, one per line, a source URL followed by the mirror
URLs it must be pushed to. For each line the program:

1. derives a working directory under the clone directory, named after the
   last `/`-segment of the source URL;
2. builds a `GitRepo` and puts it on a `RepoQueue`.

Worker threads then take repositories off the queue. For each one, `mirror`:

1. makes a `git clone --mirror` into the working directory, if that
   directory does not exist yet;
2. runs `git fetch`;
3. pushes all branches to every mirror;
4. pushes all tags to every mirror.

Every command runs with `check=True`, so the first failing command raises
and nothing after it runs.

This project models that core in six modules:

- `Text` (`text.dfy`): Python's `str.split` with a one-character separator,
  `str.join` and `str.strip(chars)`.
- `Config` (`config.dfy`): `parse_config`, over the lines the file's
  `readlines` returns.
- `Tool` (`tool.dfy`): the external `git` binary, modelled as an oracle.
  - The oracle judges each command line (accepted or rejected) given every
    command issued before it, so a network failure at any moment can be
    modelled.
  - The filesystem is the set of paths that exist. A successful
    `git clone --mirror <url> <dir>` adds `<dir>` and every directory above
    it (each prefix of `<dir>` that ends before a `/`) to that set.
  - `Host.Run` is `subprocess.run(..., check=True)`.
  - `Exec` is a sequence of such runs that stops at the first failure.
- `GitRepos` (`gitrepo.dfy`): the `GitRepo` record and its methods.
  - `clone`, `fetch`, `push_branches`, `push_tags` and `mirror` are methods
    that issue commands on a `Host`.
  - Each one is proved equal to `Exec` over the command list it issues.
- `RepoQueues` (`repoqueue.dfy`): the `RepoQueue` class.
  - It holds the FIFO contents of the underlying `queue.Queue` and its count
    of unfinished tasks.
  - `put` rejects anything that is not a `GitRepo`.
  - `worker` loops on `get_nowait` / `mirror` / `task_done`.
  - `process` runs its workers one after another.
  - The specification functions `Drain` (one worker) and `Workers` (several
    workers in sequence) are stated for any per-repository mirror function.
    `Mirrors(run, tool)` ties such a function to `GitRepo.mirror`.
- `Synchronizer` (`synchronizer.dfy`): the working-directory derivation and
  `main`'s flow: parse, queue one repository per line, process.

Three facts about the code shape the model:

- **A failing repository blocks `process`.** `worker` catches only
  `queue.Empty` (lines 103-108). A `CalledProcessError` raised by `mirror`
  at line 110 is not caught:
  - the exception ends that worker thread;
  - `task_done` at line 111 is never called for that repository;
  - `self.join()` at line 119 then waits forever.

  The model returns `joined == false` for that case.
  `RepoQueues.ProcessCompletesAll` shows that a single failure, seen by the
  first worker, leaves a task unfinished whatever the number of threads.
  In the one-after-another schedule the model fixes, the number of threads
  changes nothing when the first worker meets no failure
  (`RepoQueues.ThreadCountIrrelevantWithoutFailure`).
- **The queue is FIFO.** `RepoQueue` is a `queue.Queue`, which hands out
  items in the order they were put, and the model keeps that order
  (`RepoQueues.DrainAppend`).
- **`put` raises `ValueError`** with the message "Only GitRepo objects can
  be submitted to this queue" for any item that is not a `GitRepo`
  (lines 90-96).

## Model

| member | source | states |
|---|---|---|
| Text.Split | src/git_synchronizer/git_synchronizer.py:130-131 | `split('\t')` always yields at least one field, and no field contains the separator |
| Text.SplitCount | src/git_synchronizer/git_synchronizer.py:130-131 | there is exactly one field more than the string has separators |
| Text.JoinSplit | src/git_synchronizer/git_synchronizer.py:130-131 | joining the fields of a split with the separator gives back the original string |
| Text.SplitJoin | src/git_synchronizer/git_synchronizer.py:130-131 | splitting a join of separator-free parts gives back those parts, so a split is the only separator-free decomposition |
| Text.Leading | src/git_synchronizer/git_synchronizer.py:129 | the leading run that `strip` removes is the longest prefix made of the stripped characters |
| Text.Trailing | src/git_synchronizer/git_synchronizer.py:129 | the trailing run that `strip` removes is the longest suffix made of the stripped characters |
| Text.Strip | src/git_synchronizer/git_synchronizer.py:129 | `str.strip(chars)`: the text left after `Leading` and `Trailing` characters are removed; `Text.StripPadded` states what it removes |
| Text.StripPadded | src/git_synchronizer/git_synchronizer.py:129 | `strip(os.linesep)` removes exactly the terminator padding around a text that neither starts nor ends with a terminator character |
| Config.CleanLine | src/git_synchronizer/git_synchronizer.py:129 | `line.strip(os.linesep)`; `Config.ParseLineRoundTrip` and `Config.ParseWrittenLine` state what the parsed fields rebuild from it |
| Config.ParseLine | src/git_synchronizer/git_synchronizer.py:129-131 | neither the source URL nor any destination URL of an entry contains a tab |
| Config.ParseLineDestCount | src/git_synchronizer/git_synchronizer.py:130-131 | a line has as many destinations as its stripped text has tabs |
| Config.ParseConfig | src/git_synchronizer/git_synchronizer.py:124-133 | the loop yields exactly one entry per line, in file order, and the i-th entry is the parse of the i-th line |
| Config.ParseLineRoundTrip | src/git_synchronizer/git_synchronizer.py:129-131 | the source followed by the destinations, joined by tabs, reproduces the terminator-stripped line |
| Config.ParseLineUnique | src/git_synchronizer/git_synchronizer.py:129-131 | any tab-free source and destinations that join to the stripped line are the parsed entry |
| Config.ParseLineNoTab | src/git_synchronizer/git_synchronizer.py:129-131 | a line has no destinations exactly when it has no tab, and then the whole stripped line is the source |
| Config.CleanWritten | src/git_synchronizer/git_synchronizer.py:129 | stripping a written text, with or without its newline, gives it back when it neither starts nor ends with a newline, the empty text included |
| Config.ParseWrittenLine | tests/test_config.py:6-10 | a line written as source and destinations joined by tabs, with or without its newline, parses back to them, whenever the written text neither starts nor ends with a newline (an empty source or a blank line included) |
| Config.ParseThreeFields | src/git_synchronizer/git_synchronizer.py:129-131 | `"A\tB\tC"` parses to `("A", ["B", "C"])` |
| Tool.Host.Run | src/git_synchronizer/git_synchronizer.py:40-45 | a command is appended to the log; it raises `CalledProcessError` exactly when the tool rejects it; only an accepted clone creates a path |
| Tool.Exec | src/git_synchronizer/git_synchronizer.py:40-45 | commands run with `check=True`, one after another; `Tool.ExecIssuesPrefix`, `Tool.ExecFailFast` and `Tool.ExecStopsAt` state that it issues a prefix, every issued command but the last was accepted, and the first rejection ends it |
| Tool.ExecIssuesPrefix | src/git_synchronizer/git_synchronizer.py:40-45 | a fail-fast run issues a prefix of its commands: all of them when it completes, up to and including the failing one otherwise; no path disappears |
| Tool.ExecAppend | src/git_synchronizer/git_synchronizer.py:40-45 | running two command lists back to back runs the second only if the first completed |
| Tool.ExecFailFast | src/git_synchronizer/git_synchronizer.py:40-45 | every command issued before the last was accepted; the run completes exactly when all commands were issued and accepted; otherwise the last issued command is the rejected one |
| Tool.ExecStopsAt | src/git_synchronizer/git_synchronizer.py:40-45 | the first rejected command is the run's error, and the commands issued are exactly those up to it |
| Tool.ExecPaths | src/git_synchronizer/git_synchronizer.py:47-53 | a path that exists after a run existed before, or was created, as target or as a directory above it, by a mirror clone that the run issued and the tool accepted |
| GitRepos.GitRepo.GitRepoArgs | src/git_synchronizer/git_synchronizer.py:39 | `git_repo_args`, `git -C <repo_dir>`; `GitRepos.CommandsInWorkingCopy` states that every command but the clone starts with it |
| GitRepos.GitRepo.CloneArgv | src/git_synchronizer/git_synchronizer.py:50-51 | the clone command line; `GitRepos.CommandsLayout` states its place and `GitRepos.CloneOnlyWhenMissing` when it is issued |
| GitRepos.GitRepo.FetchArgv | src/git_synchronizer/git_synchronizer.py:56 | the fetch command line; `GitRepos.CommandsLayout` states its place |
| GitRepos.GitRepo.PushArgv | src/git_synchronizer/git_synchronizer.py:60 | the push command line for one flag and one mirror; `GitRepos.PushCommandsAt` states that the i-th push goes to the i-th mirror |
| GitRepos.GitRepo.BranchPushes | src/git_synchronizer/git_synchronizer.py:58-62 | the commands of `push_branches`; `GitRepos.CommandsLayout` states one `push --all` per mirror in list order |
| GitRepos.GitRepo.TagPushes | src/git_synchronizer/git_synchronizer.py:64-68 | the commands of `push_tags`; `GitRepos.CommandsLayout` states one `push --tags` per mirror in list order |
| GitRepos.GitRepo.Commands | src/git_synchronizer/git_synchronizer.py:70-76 | every command `mirror` would issue if none failed; `GitRepos.CommandsLayout` fixes its length and each position |
| GitRepos.GitRepo.RunSteps | src/git_synchronizer/git_synchronizer.py:70-76 | the steps of `mirror` from a given one on, a raised error ending them; `GitRepos.RunMirrorFlat` states their result |
| GitRepos.GitRepo.RunMirror | src/git_synchronizer/git_synchronizer.py:70-76 | what `mirror` does to the host; `GitRepos.RunMirrorFlat` states it is the fail-fast run of `Commands` |
| GitRepos.GitRepo.PushCommands | src/git_synchronizer/git_synchronizer.py:58-68 | there is one push command per mirror URL |
| GitRepos.PushCommandsAt | src/git_synchronizer/git_synchronizer.py:58-68 | the i-th push command goes to the i-th mirror URL |
| GitRepos.GitRepo.Clone | src/git_synchronizer/git_synchronizer.py:47-53 | `clone` issues `git clone --mirror <main_url> <repo_dir>` only when `repo_dir` does not exist; otherwise nothing changes |
| GitRepos.GitRepo.Fetch | src/git_synchronizer/git_synchronizer.py:55-56 | `fetch` issues `git -C <repo_dir> fetch` through `run` |
| GitRepos.GitRepo.Push | src/git_synchronizer/git_synchronizer.py:58-68 | the loop over the mirror URLs leaves the host exactly as the fail-fast run of the push commands does |
| GitRepos.GitRepo.PushBranches | src/git_synchronizer/git_synchronizer.py:58-62 | `push_branches` is the fail-fast run of one `push --all` per mirror |
| GitRepos.GitRepo.PushTags | src/git_synchronizer/git_synchronizer.py:64-68 | `push_tags` is the fail-fast run of one `push --tags` per mirror |
| GitRepos.GitRepo.Mirror | src/git_synchronizer/git_synchronizer.py:70-76 | `mirror` leaves the host and outcome that running clone, fetch, branch pushes and tag pushes step by step does |
| GitRepos.RunMirrorFlat | src/git_synchronizer/git_synchronizer.py:70-76 | running `mirror` step by step equals running its whole command list fail-fast |
| GitRepos.CommandsLayout | src/git_synchronizer/git_synchronizer.py:47-76 | the command order: the optional clone, the fetch, the branch push to each mirror in list order, then the tag push to each mirror in list order, and no other command |
| GitRepos.CommandsInWorkingCopy | src/git_synchronizer/git_synchronizer.py:39-68 | every command except the clone starts with `git -C <repo_dir>` |
| GitRepos.CloneOnlyWhenMissing | src/git_synchronizer/git_synchronizer.py:47-53 | a command of `mirror` is a clone exactly when it is the first and `repo_dir` is missing |
| GitRepos.MirrorLeavesWorkingCopy | src/git_synchronizer/git_synchronizer.py:47-76 | a `mirror` that completes leaves `repo_dir` in place |
| GitRepos.MirrorTwiceClonesOnce | src/git_synchronizer/git_synchronizer.py:47-76 | once a `mirror` has left `repo_dir` in place, even one whose fetch or push failed, a second `mirror` issues no clone; across both runs the only clone is the very first command, and only when `repo_dir` was missing |
| GitRepos.WorkingCopyAfterMirror | src/git_synchronizer/git_synchronizer.py:47-53 | after `mirror`, `repo_dir` exists exactly when it existed before or the tool accepted the clone, whatever the later steps did |
| GitRepos.AcceptedCloneNotRepeated | src/git_synchronizer/git_synchronizer.py:47-76 | after a `mirror` whose clone was accepted, whether it completed or not, a second `mirror` issues no clone |
| GitRepos.ParentOfCloneNotCloned | src/git_synchronizer/git_synchronizer.py:47-53 | an accepted clone also creates the directories above `repo_dir`, so a later `mirror` of a repository whose `repo_dir` is one of them issues no clone |
| GitRepos.BranchPushFailureStops | src/git_synchronizer/git_synchronizer.py:58-76 | when the branch push to mirror i fails, `mirror` raises that push's error and issues nothing after it: no later mirror and no tag push |
| RepoQueues.Drain | src/git_synchronizer/git_synchronizer.py:98-111 | a worker takes at most the queued jobs, takes all of them when it meets no failure, and at least one when it fails |
| RepoQueues.DrainAppend | src/git_synchronizer/git_synchronizer.py:98-111 | FIFO: a worker mirrors the jobs queued first before any later one, and reaches the later ones only if all earlier ones completed |
| RepoQueues.DrainStopsAtFailure | src/git_synchronizer/git_synchronizer.py:98-111 | the worker stops at the first failing `mirror`: every earlier job completed, and the failing job is the last one taken |
| RepoQueues.Workers | src/git_synchronizer/git_synchronizer.py:113-121 | the workers together take at most the queued jobs, and mark done at most the jobs they took |
| RepoQueues.RepoQueue.constructor | src/git_synchronizer/git_synchronizer.py:84-88 | a new queue is empty with no unfinished tasks |
| RepoQueues.RepoQueue.Put | src/git_synchronizer/git_synchronizer.py:90-96 | a `GitRepo` is appended at the back and adds an unfinished task; any other value raises `ValueError` with the source's message and leaves the queue unchanged |
| RepoQueues.RepoQueue.GetNowait | src/git_synchronizer/git_synchronizer.py:106-108 | `get_nowait` removes and returns the front of the queue, or signals `queue.Empty` on an empty queue |
| RepoQueues.RepoQueue.TaskDone | src/git_synchronizer/git_synchronizer.py:111 | `task_done` removes one unfinished task, and fails when there is none |
| RepoQueues.RepoQueue.Worker | src/git_synchronizer/git_synchronizer.py:98-111 | the `while True` loop leaves the host, the queue and the unfinished count as `Drain` says; it ends with an empty queue unless a `mirror` raised |
| RepoQueues.RepoQueue.Process | src/git_synchronizer/git_synchronizer.py:113-121 | `process` with its workers run one after another leaves the state `Workers` describes; `join` returns exactly when no task is unfinished |
| RepoQueues.WorkersOnEmpty | src/git_synchronizer/git_synchronizer.py:113-121 | workers that find the queue empty change nothing |
| RepoQueues.ThreadCountIrrelevantWithoutFailure | src/git_synchronizer/git_synchronizer.py:113-121 | when no `mirror` fails, any number of threads (at least one) gives the result of one thread, with every job done |
| RepoQueues.FailureLeavesTaskUnfinished | src/git_synchronizer/git_synchronizer.py:98-121 | when the first worker's `mirror` raises, fewer jobs are marked done than were taken, whatever the number of threads |
| RepoQueues.ProcessCompletesAll | src/git_synchronizer/git_synchronizer.py:113-121 | every job is marked done exactly when there is none, or when at least one worker runs and the first worker meets no failure |
| RepoQueues.ProcessReturns | src/git_synchronizer/git_synchronizer.py:113-121 | `join` in `process` returns exactly when no older task was pending and every queued job was mirrored without failure |
| Synchronizer.LastSegment | src/git_synchronizer/git_synchronizer.py:165 | `url.split('/')[-1]`; `Synchronizer.LastSegmentSpec` states what it is |
| Synchronizer.LastSegmentSpec | src/git_synchronizer/git_synchronizer.py:165 | `url.split('/')[-1]` is a slash-free suffix of the URL that follows a slash or is the whole URL |
| Synchronizer.LastSegmentAfterSlash | src/git_synchronizer/git_synchronizer.py:165 | the last segment of `prefix/name` is `name` when `name` has no slash |
| Synchronizer.LastSegmentTrailingSlash | src/git_synchronizer/git_synchronizer.py:165 | a URL that ends with a slash has an empty last segment |
| Synchronizer.JoinName | src/git_synchronizer/git_synchronizer.py:165 | `clone_dir / Path(name)`: an empty name or `.` gives `clone_dir`; under `.` the name stands alone; otherwise the name is the last component, after a slash, and `clone_dir` is a prefix, followed by one added slash unless it already ends in one |
| Synchronizer.RepoDir | src/git_synchronizer/git_synchronizer.py:165 | `clone_dir / Path(source_url.split('/')[-1])`; `Synchronizer.RepoDirUnderCloneDir`, `Synchronizer.RepoDirExample` and `Synchronizer.RepoDirTrailingSlash` state its value |
| Synchronizer.RepoDirUnderCloneDir | src/git_synchronizer/git_synchronizer.py:165 | the working copy of `prefix/name` is `clone_dir/name` |
| Synchronizer.RepoDirExample | src/git_synchronizer/git_synchronizer.py:163-165 | `https://github.com/LUMC/git-synchronizer.git` is cloned into `clone_dir/git-synchronizer.git` |
| Synchronizer.RepoDirTrailingSlash | src/git_synchronizer/git_synchronizer.py:165 | a source URL that ends with a slash is cloned into `clone_dir` itself |
| Synchronizer.QueueRepos | src/git_synchronizer/git_synchronizer.py:158-167 | the loop of `main` leaves a new queue holding one repository per entry, in configuration order, each an unfinished task |
| Synchronizer.JobFromLine | src/git_synchronizer/git_synchronizer.py:156-166 | the repository queued for a line has tab-free main and mirror URLs that, joined by tabs, give back the stripped line, and its working copy is `clone_dir` joined with the slash-free tail of the main URL after its last slash |
| Synchronizer.Synchronize | src/git_synchronizer/git_synchronizer.py:153-168 | `main` leaves the host as the workers mirroring every configured repository do; it returns exactly when there is nothing to mirror, or when at least one thread runs and no `mirror` fails |

## Left out

- Threads: `process` starts its workers as threads. The model runs them one
  after another, each to its end. This is one schedule among those the
  threads may take; interleavings and the thread safety of `queue.Queue` are
  not modelled.
- RepoQueues.RepoQueue.Process: with `joined == false` the call returns in
  the model. The real `join` never returns.
- `subprocess.run` and the `git` binary: the model keeps only the command
  line, the accept/reject verdict and the directories a successful clone
  creates. It leaves
  out the captured stdout and stderr, the exit code, the returned
  `CompletedProcess` objects, and any effect of `git` on the repositories
  themselves.
- A rejected clone changes no path. git may leave behind the directories
  above the target that it created before it failed, and `Path.exists()`
  would see them; a later repository whose `repo_dir` is one of them would
  then skip its clone in the program but not in the model.
- `Path.absolute()`: paths are strings taken as given. The working copy
  path in the commands is `repo_dir` as built, not its absolute form.
- Synchronizer.JoinName: pathlib's normalisation is modelled only for `.`,
  an empty name, the directory `.` and the root `/`. Other cases, such as
  repeated slashes, are left out because `dir` is taken as pathlib prints it.
- Path identity: the set of existing paths compares paths as strings. A
  successful clone adds its target and the directories above it, but not
  other spellings of them, such as `c/..`, `c/./x` or a path through a
  symbolic link, which `Path.exists()` would resolve. pathlib keeps `..`
  in a joined path (`Path('a') / '..'` is `a/..`), and so does `JoinName`.
- `os.linesep` is `"\n"`, as on POSIX hosts; on Windows it is `"\r\n"`.
- `argument_parser`, `main`'s argument handling, and opening and reading
  the configuration file: I/O. `Synchronize` starts from the list of lines
  `readlines` returns, the clone directory and the thread count.
- The `block` and `timeout` arguments of `put`: the queue is unbounded, so
  they have no effect.
- `_process_errors`: the code never writes or reads it.
- The argument-parsing stubs `src/git_synchronizer/git-synchronizer.py` and
  `src/git_mirrorer/git-mirrorer.py`, `setup.py`, and the tests, which drive
  a real `git`.
