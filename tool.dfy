/** The external revision-control tool, seen from the synchronizer: a command
    line goes in, success or failure comes out. The tool is an oracle that may
    answer differently as time passes (a network outage, a remote that comes
    back), so its verdict depends on every command issued before. Of the
    tool's effects on the local filesystem, the model keeps one: a successful
    mirror clone creates its target directory and every missing directory
    above it. A rejected command, a rejected clone included, changes no path. */
module Tool {

  /** A filesystem path, as the string handed to the tool. */
  type Path = string

  /** A command line, program name first. */
  type Argv = seq<string>

  /** The tool's verdict on a command, given every command issued before it. */
  type Oracle = (seq<Argv>, Argv) -> bool

  /** What the synchronizer can observe of the host: the paths that exist and
      the commands issued so far, oldest first. */
  datatype World = World(paths: set<Path>, log: seq<Argv>)

  /** A command sequence either runs to completion or stops with the
      `CalledProcessError` of the command that failed. */
  datatype Outcome = Done | CalledProcessError(argv: Argv)

  /** The host after running a command sequence, and how the sequence ended. */
  datatype Report = Report(world: World, outcome: Outcome)

  /** `git clone --mirror <url> <dir>`. */
  predicate IsClone(argv: Argv)
  {
    |argv| == 5 && argv[0] == "git" && argv[1] == "clone" && argv[2] == "--mirror"
  }

  /** The directories above `p`: every prefix of `p` that ends just before
      one of its slashes (the root itself aside). */
  function Parents(p: Path): set<Path>
  {
    set i | 0 < i < |p| && p[i] == '/' :: p[..i]
  }

  /** The paths a successful command creates: the target of a mirror clone
      and the directories above it, which `git clone` creates when missing. */
  function Creates(argv: Argv): set<Path>
  {
    if IsClone(argv) then {argv[4]} + Parents(argv[4]) else {}
  }

  /** Runs `cmds` in order, each one only if every earlier one succeeded
      (`subprocess.run(..., check=True)` raises on the first failure). */
  function Exec(w: World, tool: Oracle, cmds: seq<Argv>): Report
    decreases |cmds|
  {
    if cmds == [] then Report(w, Done)
    else if tool(w.log, cmds[0]) then
      Exec(World(w.paths + Creates(cmds[0]), w.log + [cmds[0]]), tool, cmds[1..])
    else Report(World(w.paths, w.log + [cmds[0]]), CalledProcessError(cmds[0]))
  }

  /** The commands a run issues are a prefix of `cmds` appended to the log:
      all of them when the run is `Done`, up to and including the failing one
      otherwise; and no path disappears. */
  lemma {:induction false} ExecIssuesPrefix(w: World, tool: Oracle, cmds: seq<Argv>)
    ensures var r := Exec(w, tool, cmds);
      && |w.log| <= |r.world.log| <= |w.log| + |cmds|
      && r.world.log == w.log + cmds[..|r.world.log| - |w.log|]
      && (r.outcome.Done? ==> |r.world.log| == |w.log| + |cmds|)
      && (r.outcome.CalledProcessError? ==>
            |r.world.log| > |w.log| && r.outcome.argv == cmds[|r.world.log| - |w.log| - 1])
      && w.paths <= r.world.paths
    decreases |cmds|
  {
    if cmds == [] {
      assert cmds[..0] == [];
    } else if tool(w.log, cmds[0]) {
      var w1 := World(w.paths + Creates(cmds[0]), w.log + [cmds[0]]);
      ExecIssuesPrefix(w1, tool, cmds[1..]);
      var r := Exec(w1, tool, cmds[1..]);
      var n := |r.world.log| - |w.log|;
      assert cmds[..n] == [cmds[0]] + cmds[1..][..n - 1];
    } else {
      assert cmds[..1] == [cmds[0]];
    }
  }

  /** Running `a + b` is running `a` and, only if it completed, `b` after it. */
  lemma {:induction false} ExecAppend(w: World, tool: Oracle, a: seq<Argv>, b: seq<Argv>)
    ensures Exec(w, tool, a + b) ==
      var r := Exec(w, tool, a);
      if r.outcome.Done? then Exec(r.world, tool, b) else r
    decreases |a|
  {
    if a != [] {
      assert (a + b)[0] == a[0];
      assert (a + b)[1..] == a[1..] + b;
      if tool(w.log, a[0]) {
        ExecAppend(World(w.paths + Creates(a[0]), w.log + [a[0]]), tool, a[1..], b);
      }
    } else {
      assert a + b == b;
    }
  }

  /** The tool accepts the `k`-th command of `cmds`, issued after the ones
      before it. */
  predicate Accepted(w: World, tool: Oracle, cmds: seq<Argv>, k: nat)
    requires k < |cmds|
  {
    tool(w.log + cmds[..k], cmds[k])
  }

  /** Fail-fast: every command issued before the last was accepted by the tool;
      the run is `Done` exactly when all of `cmds` were issued and the last was
      accepted too; otherwise the last one issued is the one the tool
      rejected, and nothing after it was issued. */
  lemma {:induction false} ExecFailFast(w: World, tool: Oracle, cmds: seq<Argv>)
    ensures var r := Exec(w, tool, cmds);
      var n := |r.world.log| - |w.log|;
      && 0 <= n <= |cmds|
      && (forall k :: 0 <= k < n - 1 ==> Accepted(w, tool, cmds, k))
      && (r.outcome.Done? <==> n == |cmds| && (n == 0 || Accepted(w, tool, cmds, n - 1)))
      && (r.outcome.CalledProcessError? ==> n >= 1 && !Accepted(w, tool, cmds, n - 1))
    decreases |cmds|
  {
    ExecIssuesPrefix(w, tool, cmds);
    if cmds != [] {
      assert w.log + cmds[..0] == w.log;
    }
    if cmds != [] && tool(w.log, cmds[0]) {
      var w1 := World(w.paths + Creates(cmds[0]), w.log + [cmds[0]]);
      var r := Exec(w, tool, cmds);
      assert r == Exec(w1, tool, cmds[1..]);
      ExecFailFast(w1, tool, cmds[1..]);
      ExecIssuesPrefix(w1, tool, cmds[1..]);
      var n := |r.world.log| - |w.log|;
      var n1 := |r.world.log| - |w1.log|;
      assert n == n1 + 1;
      forall k | 1 <= k < |cmds|
        ensures Accepted(w, tool, cmds, k) == Accepted(w1, tool, cmds[1..], k - 1)
      {
        assert cmds[..k] == [cmds[0]] + cmds[1..][..k - 1];
        assert w.log + cmds[..k] == w1.log + cmds[1..][..k - 1];
      }
      if n >= 2 {
        assert Accepted(w, tool, cmds, n - 1) == Accepted(w1, tool, cmds[1..], n1 - 1);
      }
    }
  }

  /** The first command the tool rejects ends the run: its error is the
      outcome, and the commands issued are exactly those up to it. */
  lemma ExecStopsAt(w: World, tool: Oracle, cmds: seq<Argv>, pos: nat)
    requires pos < |cmds|
    requires forall k :: 0 <= k < pos ==> Accepted(w, tool, cmds, k)
    requires !Accepted(w, tool, cmds, pos)
    ensures Exec(w, tool, cmds) == Report(Exec(w, tool, cmds).world, CalledProcessError(cmds[pos]))
    ensures Exec(w, tool, cmds).world.log == w.log + cmds[..pos + 1]
  {
    ExecFailFast(w, tool, cmds);
    ExecIssuesPrefix(w, tool, cmds);
  }

  /** A path that a run reports existing either existed before or was created
      (as target or as a directory above it) by a mirror clone that the run
      issued and the tool accepted. */
  lemma {:induction false} ExecPaths(w: World, tool: Oracle, cmds: seq<Argv>, p: Path)
    requires p in Exec(w, tool, cmds).world.paths
    ensures p in w.paths || (exists k :: 0 <= k < |Exec(w, tool, cmds).world.log| - |w.log| && k < |cmds|
                                       && IsClone(cmds[k]) && p in Creates(cmds[k]) && Accepted(w, tool, cmds, k))
    decreases |cmds|
  {
    if cmds != [] && tool(w.log, cmds[0]) && p !in w.paths {
      var w1 := World(w.paths + Creates(cmds[0]), w.log + [cmds[0]]);
      var r := Exec(w, tool, cmds);
      assert r == Exec(w1, tool, cmds[1..]);
      ExecIssuesPrefix(w1, tool, cmds[1..]);
      assert w.log + cmds[..0] == w.log;
      if p in w1.paths {
        assert IsClone(cmds[0]) && p in Creates(cmds[0]) && Accepted(w, tool, cmds, 0);
      } else {
        ExecPaths(w1, tool, cmds[1..], p);
        var k :| 0 <= k < |r.world.log| - |w1.log| && k < |cmds[1..]|
          && IsClone(cmds[1..][k]) && p in Creates(cmds[1..][k]) && Accepted(w1, tool, cmds[1..], k);
        assert cmds[k + 1] == cmds[1..][k];
        assert cmds[..k + 1] == [cmds[0]] + cmds[1..][..k];
        assert w.log + cmds[..k + 1] == w1.log + cmds[1..][..k];
        assert Accepted(w, tool, cmds, k + 1);
      }
    }
  }

  /** The host the commands run on: the paths that exist and the log of every
      command issued, and the tool that judges them. */
  class Host {
    var paths: set<Path>
    var log: seq<Argv>
    const tool: Oracle

    constructor (existing: set<Path>, oracle: Oracle)
      ensures paths == existing && log == [] && tool == oracle
    {
      paths := existing;
      log := [];
      tool := oracle;
    }

    /** The observable state of the host. */
    function State(): World
      reads this
    {
      World(paths, log)
    }

    /** `subprocess.run(argv, check=True)`: issues the command; a command the
        tool rejects raises `CalledProcessError`. */
    method Run(argv: Argv) returns (outcome: Outcome)
      modifies this
      ensures log == old(log) + [argv]
      ensures outcome == if tool(old(log), argv) then Done else CalledProcessError(argv)
      ensures paths == if outcome.Done? then old(paths) + Creates(argv) else old(paths)
    {
      if tool(log, argv) {
        outcome := Done;
        paths := paths + Creates(argv);
      } else {
        outcome := CalledProcessError(argv);
      }
      log := log + [argv];
    }
  }
}
