/** The queue of repositories to mirror and the workers that drain it. The
    workers are modelled one after another, each running to its end before the
    next starts: one of the schedules the threads of `process` may take. */
module RepoQueues {
  import opened Tool
  import opened GitRepos

  datatype Option<T> = None | Some(value: T)

  /** A value handed to `put`: a `GitRepo`, or a value of any other type. */
  datatype PyObject = RepoObject(repo: GitRepo) | OtherObject(typeName: string)

  /** How `put` ends: the item is queued, or `ValueError` is raised. */
  datatype PutOutcome = Queued | ValueError(message: string)

  const NotARepo: string := "Only GitRepo objects can be submitted to this queue"

  /** What `mirror` does to the host, for one repository. The workers are
      specified for any such function; `Mirroring` is the one `GitRepo.mirror`
      defines. */
  type MirrorRun = (World, GitRepo) -> Report

  function Mirroring(tool: Oracle): MirrorRun
  {
    (w: World, repo: GitRepo) => repo.RunMirror(w, tool)
  }

  /** `run` is what `GitRepo.mirror` does with `tool` answering. */
  ghost predicate Mirrors(run: MirrorRun, tool: Oracle)
  {
    forall w: World, repo: GitRepo {:trigger repo.RunMirror(w, tool)} :: run(w, repo) == repo.RunMirror(w, tool)
  }

  lemma MirroringMirrors(tool: Oracle)
    ensures Mirrors(Mirroring(tool), tool)
  {
  }

  /** What one worker does, from the host and the queue it starts with: the
      host afterwards, how many jobs it took off the queue, and how it ended. */
  datatype DrainReport = DrainReport(world: World, taken: nat, outcome: Outcome)

  /** The jobs a worker marked done: every job it took, except the one whose
      `mirror` raised. */
  function Completed(d: DrainReport): nat
  {
    if d.outcome.Done? || d.taken == 0 then d.taken else d.taken - 1
  }

  /** One worker on its own: it mirrors the jobs in queue order until the
      queue is empty or a `mirror` raises, which ends the worker. */
  function Drain(w: World, mirror: MirrorRun, jobs: seq<GitRepo>): (d: DrainReport)
    ensures d.taken <= |jobs|
    ensures d.outcome.Done? ==> d.taken == |jobs|
    ensures d.outcome.CalledProcessError? ==> d.taken >= 1
    decreases |jobs|
  {
    if jobs == [] then DrainReport(w, 0, Done)
    else
      var r := mirror(w, jobs[0]);
      if r.outcome.CalledProcessError? then DrainReport(r.world, 1, r.outcome)
      else
        var d := Drain(r.world, mirror, jobs[1..]);
        DrainReport(d.world, d.taken + 1, d.outcome)
  }

  /** The host, the number of jobs taken off the queue and the number marked
      done after `n` workers ran one after another on the same queue. */
  datatype ProcessReport = ProcessReport(world: World, taken: nat, completed: nat)

  /** `n` workers, the last of them draining what the first `n - 1` left:
      together they take at most the queued jobs, and mark done at most the
      jobs they took. */
  function Workers(n: nat, w: World, mirror: MirrorRun, jobs: seq<GitRepo>): (p: ProcessReport)
    ensures p.completed <= p.taken <= |jobs|
    decreases n
  {
    if n == 0 then ProcessReport(w, 0, 0)
    else
      var p := Workers(n - 1, w, mirror, jobs);
      var d := Drain(p.world, mirror, jobs[p.taken..]);
      ProcessReport(d.world, p.taken + d.taken, p.completed + Completed(d))
  }

  /** `RepoQueue`: an unbounded FIFO queue of repositories with the count of
      unfinished tasks `join` waits on. */
  class RepoQueue {
    var queue: seq<GitRepo>
    var unfinishedTasks: nat

    /** Every queued job is an unfinished task; a job whose `mirror` raised
        stays unfinished after it left the queue. */
    ghost predicate Valid()
      reads this
    {
      |queue| <= unfinishedTasks
    }

    constructor ()
      ensures Valid() && queue == [] && unfinishedTasks == 0
    {
      queue := [];
      unfinishedTasks := 0;
    }

    /** `put`: only a `GitRepo` is appended; anything else raises `ValueError`
        and leaves the queue as it was. */
    method Put(item: PyObject) returns (outcome: PutOutcome)
      requires Valid()
      modifies this
      ensures Valid()
      ensures item.RepoObject? ==>
        outcome == Queued && queue == old(queue) + [item.repo] && unfinishedTasks == old(unfinishedTasks) + 1
      ensures item.OtherObject? ==>
        outcome == ValueError(NotARepo) && queue == old(queue) && unfinishedTasks == old(unfinishedTasks)
    {
      if item.RepoObject? {
        queue := queue + [item.repo];
        unfinishedTasks := unfinishedTasks + 1;
        outcome := Queued;
      } else {
        outcome := ValueError(NotARepo);
      }
    }

    /** `get_nowait`: the front of the queue, or `queue.Empty` (here `None`). */
    method GetNowait() returns (r: Option<GitRepo>)
      requires Valid()
      modifies this
      ensures Valid()
      ensures old(queue) == [] ==> r == None && queue == []
      ensures old(queue) != [] ==> r == Some(old(queue)[0]) && queue == old(queue)[1..]
      ensures unfinishedTasks == old(unfinishedTasks)
    {
      if queue == [] {
        r := None;
      } else {
        r := Some(queue[0]);
        queue := queue[1..];
      }
    }

    /** `task_done`: one unfinished task fewer; called more often than there
        are unfinished tasks it raises `ValueError` (here `false`). */
    method TaskDone() returns (ok: bool)
      modifies this
      ensures ok == (old(unfinishedTasks) > 0)
      ensures unfinishedTasks == if ok then old(unfinishedTasks) - 1 else old(unfinishedTasks)
      ensures queue == old(queue)
    {
      ok := unfinishedTasks > 0;
      if ok {
        unfinishedTasks := unfinishedTasks - 1;
      }
    }

    /** `worker`: mirrors repositories off the front of the queue until it is
        empty. The exception of a `mirror` that fails is not caught: it ends
        the worker, and `task_done` is never called for that job. */
    method Worker(host: Host, ghost run: MirrorRun) returns (outcome: Outcome)
      requires Valid() && Mirrors(run, host.tool)
      modifies this, host
      ensures Valid()
      ensures var d := Drain(old(host.State()), run, old(queue));
        && host.State() == d.world && outcome == d.outcome
        && queue == old(queue)[d.taken..]
        && unfinishedTasks == old(unfinishedTasks) - Completed(d)
      ensures outcome.Done? ==> queue == [] && unfinishedTasks == old(unfinishedTasks) - |old(queue)|
    {
      ghost var w0 := host.State();
      ghost var q0 := queue;
      ghost var u0 := unfinishedTasks;
      outcome := Done;
      while true
        invariant Valid() && outcome == Done
        invariant |queue| <= |q0| && queue == q0[|q0| - |queue|..]
        invariant unfinishedTasks == u0 - (|q0| - |queue|)
        invariant var d := Drain(host.State(), run, queue);
          Drain(w0, run, q0) == DrainReport(d.world, d.taken + |q0| - |queue|, d.outcome)
        decreases |queue|
      {
        var repo := GetNowait();
        if repo.None? {
          break;
        }
        outcome := repo.value.Mirror(host);
        if outcome.CalledProcessError? {
          return;
        }
        var ok := TaskDone();
        assert ok;
      }
    }

    /** `process` with the workers run one after another; `joined` says
        whether `join` returns, which it does only once every task is done.
        When it is false the call never returns. */
    method Process(numberOfThreads: int, host: Host, ghost run: MirrorRun) returns (joined: bool)
      requires Valid() && Mirrors(run, host.tool)
      modifies this, host
      ensures Valid()
      ensures var p := Workers(if numberOfThreads > 0 then numberOfThreads else 0,
                               old(host.State()), run, old(queue));
        && p.taken <= |old(queue)|
        && host.State() == p.world && queue == old(queue)[p.taken..]
        && unfinishedTasks == old(unfinishedTasks) - p.completed
      ensures joined == (unfinishedTasks == 0)
    {
      var threads: nat := if numberOfThreads > 0 then numberOfThreads else 0;
      ghost var w0 := host.State();
      ghost var q0 := queue;
      ghost var u0 := unfinishedTasks;
      for t := 0 to threads
        invariant Valid()
        invariant var p := Workers(t, w0, run, q0);
          host.State() == p.world && queue == q0[p.taken..] && unfinishedTasks == u0 - p.completed
      {
        ghost var p := Workers(t, w0, run, q0);
        ghost var d := Drain(p.world, run, queue);
        var _ := Worker(host, run);
        assert q0[p.taken..][d.taken..] == q0[p.taken + d.taken..];
      }
      joined := unfinishedTasks == 0;
    }
  }

  /** Queue order: the jobs of `a` are all mirrored before any job of `b`, and
      the jobs of `b` only if every job of `a` completed. */
  lemma {:induction false} DrainAppend(w: World, mirror: MirrorRun, a: seq<GitRepo>, b: seq<GitRepo>)
    ensures Drain(w, mirror, a + b) ==
      var d := Drain(w, mirror, a);
      if d.outcome.Done? then
        var e := Drain(d.world, mirror, b);
        DrainReport(e.world, e.taken + |a|, e.outcome)
      else d
    decreases |a|
  {
    if a == [] {
      assert a + b == b;
    } else {
      assert (a + b)[0] == a[0];
      assert (a + b)[1..] == a[1..] + b;
      var r := mirror(w, a[0]);
      if r.outcome.Done? {
        DrainAppend(r.world, mirror, a[1..], b);
      }
    }
  }

  /** A worker stops at the first failure: every job before the one that
      raised was mirrored to completion, and the one that raised is the last
      job the worker took. */
  lemma {:induction false} DrainStopsAtFailure(w: World, mirror: MirrorRun, jobs: seq<GitRepo>)
    requires Drain(w, mirror, jobs).outcome.CalledProcessError?
    ensures var d := Drain(w, mirror, jobs);
      var e := Drain(w, mirror, jobs[..d.taken - 1]);
      && e.outcome.Done?
      && mirror(e.world, jobs[d.taken - 1]) == Report(d.world, d.outcome)
    decreases |jobs|
  {
    var d := Drain(w, mirror, jobs);
    var r := mirror(w, jobs[0]);
    if r.outcome.CalledProcessError? {
      assert jobs[..d.taken - 1] == [];
    } else {
      DrainStopsAtFailure(r.world, mirror, jobs[1..]);
      var d1 := Drain(r.world, mirror, jobs[1..]);
      var before := jobs[..d.taken - 1];
      assert before[0] == jobs[0] && before[1..] == jobs[1..][..d1.taken - 1];
      assert jobs[d.taken - 1] == jobs[1..][d1.taken - 1];
    }
  }

  /** Workers that find the queue empty change nothing. */
  lemma {:induction false} WorkersOnEmpty(n: nat, w: World, mirror: MirrorRun)
    ensures Workers(n, w, mirror, []) == ProcessReport(w, 0, 0)
    decreases n
  {
    if n > 0 {
      WorkersOnEmpty(n - 1, w, mirror);
      var jobs: seq<GitRepo> := [];
      assert jobs[0..] == jobs;
      assert Drain(w, mirror, jobs) == DrainReport(w, 0, Done);
    }
  }

  /** In the one-after-another schedule the model fixes, when the first
      worker meets no failure the number of threads makes no difference: the
      first worker takes every job and marks it done, and the others find the
      queue empty. */
  lemma {:induction false} ThreadCountIrrelevantWithoutFailure(n: nat, w: World, mirror: MirrorRun, jobs: seq<GitRepo>)
    requires n >= 1
    requires Drain(w, mirror, jobs).outcome.Done?
    ensures Workers(n, w, mirror, jobs) == Workers(1, w, mirror, jobs)
    ensures Workers(n, w, mirror, jobs).taken == |jobs|
    ensures Workers(n, w, mirror, jobs).completed == |jobs|
    decreases n
  {
    assert jobs[0..] == jobs;
    if n > 1 {
      ThreadCountIrrelevantWithoutFailure(n - 1, w, mirror, jobs);
      var p := Workers(n - 1, w, mirror, jobs);
      var rest: seq<GitRepo> := jobs[p.taken..];
      assert rest == [];
      assert Drain(p.world, mirror, rest) == DrainReport(p.world, 0, Done);
    }
  }

  /** When the first worker's `mirror` raises, the task of that job is never
      marked done, whatever the workers after it do. */
  lemma {:induction false} FailureLeavesTaskUnfinished(n: nat, w: World, mirror: MirrorRun, jobs: seq<GitRepo>)
    requires n >= 1
    requires Drain(w, mirror, jobs).outcome.CalledProcessError?
    ensures Workers(n, w, mirror, jobs).completed < Workers(n, w, mirror, jobs).taken
    decreases n
  {
    assert jobs[0..] == jobs;
    if n > 1 {
      FailureLeavesTaskUnfinished(n - 1, w, mirror, jobs);
    }
  }

  /** Every job is marked done exactly when there is none, or when some worker
      runs and the first worker meets no failure: a single failing `mirror`
      leaves its task unfinished forever, whatever the number of threads. */
  lemma ProcessCompletesAll(n: nat, w: World, mirror: MirrorRun, jobs: seq<GitRepo>)
    ensures Workers(n, w, mirror, jobs).completed == |jobs|
        <==> jobs == [] || (n >= 1 && Drain(w, mirror, jobs).outcome.Done?)
  {
    if n >= 1 {
      if Drain(w, mirror, jobs).outcome.Done? {
        ThreadCountIrrelevantWithoutFailure(n, w, mirror, jobs);
      } else {
        FailureLeavesTaskUnfinished(n, w, mirror, jobs);
      }
    }
  }

  /** `process` returns exactly when every queued job was mirrored, there were
      no unfinished tasks left over from before, and at least one worker ran
      (or there was nothing to do). */
  lemma ProcessReturns(n: nat, w: World, mirror: MirrorRun, jobs: seq<GitRepo>, unfinished: nat)
    requires |jobs| <= unfinished
    ensures unfinished - Workers(n, w, mirror, jobs).completed == 0
        <==> unfinished == |jobs| && (jobs == [] || (n >= 1 && Drain(w, mirror, jobs).outcome.Done?))
  {
    ProcessCompletesAll(n, w, mirror, jobs);
  }
}
