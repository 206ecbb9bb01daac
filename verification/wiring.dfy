/**
 * Project2/shell.c, execute_pipeline: how the processes of a pipeline come to
 * hold the ends of its pipes.
 */
module Wiring {
  import opened Basics
  import opened Splitter

  /** What a descriptor refers to. */
  datatype Target = Original(fd: nat) | ReadEnd(pipe: nat) | WriteEnd(pipe: nat) | File(name: string)

  type Table = map<nat, Target>

  const STDIN: nat := 0

  const STDOUT: nat := 1

  // ----- Descriptor tables -----

  lemma {:induction false} PrefixFits(t: Table, k: nat)
    requires forall j: nat :: j < k ==> j in t
    ensures k <= |t|
    decreases k
  {
    if k > 0 {
      var u := t - {k - 1};
      assert t.Keys == u.Keys + {k - 1};
      PrefixFits(u, k - 1);
    }
  }

  /** The lowest unused descriptor, which is the one the kernel hands out. */
  function Lowest(t: Table, k: nat): (fd: nat)
    requires forall j: nat :: j < k ==> j in t
    ensures k <= fd && fd !in t && forall j: nat :: j < fd ==> j in t
    decreases |t| - k
  {
    PrefixFits(t, k);
    if k !in t then k
    else
      PrefixFits(t, k + 1);
      Lowest(t, k + 1)
  }

  function NewFd(t: Table): (fd: nat)
    ensures fd !in t && forall j: nat :: j < fd ==> j in t
  {
    Lowest(t, 0)
  }

  function Opened(t: Table, fd: nat, e: Target): Table { t[fd := e] }

  /** pipe(2) for pipe number n: two new descriptors. */
  function WithPipe(t: Table, n: nat): Table {
    Opened(Opened(t, ReadFd(t), ReadEnd(n)), WriteFd(t, n), WriteEnd(n))
  }

  function ReadFd(t: Table): nat { NewFd(t) }

  function WriteFd(t: Table, n: nat): nat { NewFd(Opened(t, NewFd(t), ReadEnd(n))) }

  function Dup2(t: Table, fd: nat, to: nat): Table
    requires fd in t
  {
    t[to := t[fd]]
  }

  function Close(t: Table, fd: nat): Table { t - {fd} }

  /** A process of the pipeline: its descriptors and the program it execs, if it gets that far. */
  datatype Stage = Stage(table: Table, program: Option<seq<string>>)

  function ChildTable(t: Table, n: nat): Table {
    Close(Dup2(WithPipe(t, n), WriteFd(t, n), STDOUT), ReadFd(t))
  }

  function ParentTable(t: Table, n: nat): Table {
    Close(Dup2(WithPipe(t, n), ReadFd(t), STDIN), WriteFd(t, n))
  }

  /** The last command's process; an output file that cannot be opened keeps it from running the program. */
  function LastStage(t: Table, c: Command, openOk: bool): Stage {
    match c.file
    case None => Stage(t, c.tokens)
    case Some(name) =>
      if !openOk then Stage(t, None)
      else
        var fd := NewFd(t);
        Stage(Dup2(Opened(t, fd, File(name)), fd, STDOUT), c.tokens)
  }

  /** The processes of a pipeline in order, the next pipe being number n. */
  function Wire(t: Table, cs: seq<Command>, n: nat, openOk: bool): seq<Stage>
    decreases |cs|
  {
    if cs == [] then []
    else if !cs[0].pipe then [LastStage(t, cs[0], openOk)]
    else [Stage(ChildTable(t, n), cs[0].tokens)] + Wire(ParentTable(t, n), cs[1..], n + 1, openOk)
  }

  /** What becomes of the attempt to spawn a stage: pipe(2) or fork(2) may fail. */
  datatype Fault = Works | NoPipe | NoFork

  /** The pipe whose fork failed stays open. */
  function AfterFault(fault: Fault, t: Table, n: nat): Table { if fault.NoFork? then WithPipe(t, n) else t }

  /**
   * The processes when spawning may fail: at the first failure the pipeline
   * ends with a process that runs no program.
   */
  function WireWith(faults: nat -> Fault, t: Table, cs: seq<Command>, n: nat, openOk: bool): seq<Stage>
    decreases |cs|
  {
    if cs == [] then []
    else if !cs[0].pipe then [LastStage(t, cs[0], openOk)]
    else if !faults(n).Works? then [Stage(AfterFault(faults(n), t, n), None)]
    else [Stage(ChildTable(t, n), cs[0].tokens)] + WireWith(faults, ParentTable(t, n), cs[1..], n + 1, openOk)
  }

  // ----- execute_pipeline -----

  class Kernel {
    const faults: nat -> Fault
    var procs: map<nat, Stage>
    var pipes: nat
    var nextPid: nat

    ghost predicate Valid()
      reads this
    {
      forall pid :: pid in procs ==> pid < nextPid
    }

    constructor (table: Table, faults: nat -> Fault)
      ensures Valid() && procs == map[0 := Stage(table, None)] && pipes == 0 && nextPid == 1 && this.faults == faults
    {
      this.faults := faults;
      procs, pipes, nextPid := map[0 := Stage(table, None)], 0, 1;
    }

    /** pipe(2), for the next attempt to spawn a stage. */
    method Pipe(pid: nat) returns (ok: bool, r: nat, w: nat)
      requires pid in procs
      modifies this`procs, this`pipes
      ensures pipes == old(pipes) + 1 && (ok <==> faults(old(pipes)) != NoPipe)
      ensures !ok ==> procs == old(procs)
      ensures ok ==>
        && procs == old(procs)[pid := old(procs[pid]).(table := WithPipe(old(procs[pid]).table, old(pipes)))]
        && r == ReadFd(old(procs[pid]).table) && w == WriteFd(old(procs[pid]).table, old(pipes))
    {
      ok, r, w := faults(pipes) != NoPipe, 0, 0;
      if ok {
        var t := procs[pid].table;
        r := NewFd(t);
        t := Opened(t, r, ReadEnd(pipes));
        w := NewFd(t);
        t := Opened(t, w, WriteEnd(pipes));
        procs := procs[pid := procs[pid].(table := t)];
      }
      pipes := pipes + 1;
    }

    method Fork(pid: nat) returns (child: nat)
      requires Valid() && pid in procs
      modifies this`procs, this`nextPid
      ensures child == old(nextPid) && nextPid == child + 1
      ensures procs == old(procs)[child := old(procs[pid])]
    {
      child := nextPid;
      nextPid := nextPid + 1;
      procs := procs[child := procs[pid]];
    }

    method DupTo(pid: nat, fd: nat, to: nat)
      requires pid in procs && fd in procs[pid].table
      modifies this`procs
      ensures procs == old(procs)[pid := old(procs[pid]).(table := Dup2(old(procs[pid]).table, fd, to))]
    {
      procs := procs[pid := procs[pid].(table := Dup2(procs[pid].table, fd, to))];
    }

    method CloseFd(pid: nat, fd: nat)
      requires pid in procs
      modifies this`procs
      ensures procs == old(procs)[pid := old(procs[pid]).(table := Close(old(procs[pid]).table, fd))]
    {
      procs := procs[pid := procs[pid].(table := Close(procs[pid].table, fd))];
    }

    method ExecProgram(pid: nat, program: Option<seq<string>>)
      requires pid in procs
      modifies this`procs
      ensures procs == old(procs)[pid := old(procs[pid]).(program := program)]
    {
      procs := procs[pid := procs[pid].(program := program)];
    }

    /** execute_pipeline for a command that feeds no pipe. */
    method RunLast(pid: nat, c: Command, openOk: bool)
      requires pid in procs && procs[pid].program == None && !c.pipe
      modifies this`procs
      ensures procs == old(procs)[pid := LastStage(old(procs[pid]).table, c, openOk)]
    {
      if c.file.Some? {
        if !openOk {
          assert procs == procs[pid := procs[pid]];
          return;
        }
        var fd := NewFd(procs[pid].table);
        procs := procs[pid := procs[pid].(table := Opened(procs[pid].table, fd, File(c.file.value)))];
        DupTo(pid, fd, STDOUT);
      }
      ExecProgram(pid, c.tokens);
    }

    /**
     * execute_pipeline up to the recursive call: a pipe, a child on its write
     * end, itself on its read end; or a failure on the way.
     */
    method Spawn(pid: nat, c: Command) returns (child: Option<nat>)
      requires Valid() && pid in procs && procs[pid].program == None && c.pipe
      modifies this
      ensures Valid() && pipes == old(pipes) + 1
      ensures child == if faults(old(pipes)).Works? then Some(old(nextPid)) else None
      ensures nextPid == if child.Some? then old(nextPid) + 1 else old(nextPid)
      ensures child.None? ==>
        procs == old(procs)[pid := Stage(AfterFault(faults(old(pipes)), old(procs[pid]).table, old(pipes)), None)]
      ensures child.Some? ==> Spawned(old(procs), procs, pid, old(nextPid), c, old(pipes))
    {
      var ok, r, w := Pipe(pid);
      if !ok || faults(pipes - 1) == NoFork {
        return None;
      }
      var forked := Fork(pid);
      child := Some(forked);
      Redirect(forked, w, STDOUT, r);
      ExecProgram(forked, c.tokens);
      Redirect(pid, r, STDIN, w);
    }

    /** One end of the pipe takes over stdin or stdout, the other is closed. */
    method Redirect(pid: nat, end: nat, to: nat, other: nat)
      requires pid in procs && end in procs[pid].table
      modifies this`procs
      ensures procs ==
              old(procs)[pid := old(procs[pid]).(table := Close(Dup2(old(procs[pid]).table, end, to), other))]
    {
      DupTo(pid, end, to);
      CloseFd(pid, other);
    }

    /**
     * execute_pipeline, run by process pid: stage k of WireWith is the process
     * forked k-th, and the last stage is pid itself.
     */
    method ExecutePipeline(pid: nat, cs: seq<Command>, openOk: bool) returns (ghost forked: nat)
      requires Valid() && pid in procs && procs[pid].program == None
      requires cs != [] && !cs[|cs| - 1].pipe
      modifies this
      ensures Valid() && nextPid == old(nextPid) + forked
      ensures AreWired(procs, old(nextPid), forked, pid,
                       WireWith(faults, old(procs[pid]).table, cs, old(pipes), openOk))
      ensures OthersKept(old(procs), procs, pid, old(nextPid))
      decreases |cs|
    {
      if !cs[0].pipe {
        RunLast(pid, cs[0], openOk);
        forked := 0;
      } else {
        ghost var before, n := procs, pipes;
        var child := Spawn(pid, cs[0]);
        if child.None? {
          assert WireWith(faults, before[pid].table, cs, n, openOk) == [procs[pid]];
          return 0;
        }
        ghost var spawned := procs;
        forked := ExecutePipeline(pid, cs[1..], openOk);
        WiredOneMore(before, spawned, procs, child.value, forked, pid, faults, cs, n, openOk);
        forked := forked + 1;
      }
    }
  }

  /** Processes first, first + 1, ... and, for the last stage, pid are the given stages. */
  ghost predicate AreWired(procs: map<nat, Stage>, first: nat, forked: nat, pid: nat, stages: seq<Stage>) {
    && |stages| == forked + 1
    && (forall k {:trigger stages[k]} :: 0 <= k < forked ==> Runs(procs, first + k, stages[k]))
    && Runs(procs, pid, stages[forked])
  }

  ghost predicate Runs(procs: map<nat, Stage>, pid: nat, stage: Stage) {
    pid in procs && procs[pid] == stage
  }

  /** Of the old processes only pid changed, and the new ones are numbered from first. */
  ghost predicate OthersKept(before: map<nat, Stage>, after: map<nat, Stage>, pid: nat, first: nat) {
    && (forall q :: q in before && q != pid ==> q in after && after[q] == before[q])
    && (forall q :: q in after ==> q in before || first <= q)
  }

  /** Process pid fed pipe number n from a child that runs c; no other process changed. */
  ghost predicate Spawned(before: map<nat, Stage>, after: map<nat, Stage>, pid: nat, child: nat, c: Command, n: nat)
    requires pid in before
  {
    var t := before[pid].table;
    after == before[child := Stage(ChildTable(t, n), c.tokens)][pid := Stage(ParentTable(t, n), None)]
  }

  lemma SpawnKept(before: map<nat, Stage>, spawned: map<nat, Stage>, after: map<nat, Stage>, child: nat, pid: nat,
                  c: Command, n: nat)
    requires pid in before && child !in before && Spawned(before, spawned, pid, child, c, n)
    requires OthersKept(spawned, after, pid, child + 1)
    ensures OthersKept(before, after, pid, child)
    ensures Runs(after, child, Stage(ChildTable(before[pid].table, n), c.tokens))
  {
  }

  lemma WiredOneMore(before: map<nat, Stage>, spawned: map<nat, Stage>, after: map<nat, Stage>, child: nat,
                     forked: nat, pid: nat, faults: nat -> Fault, cs: seq<Command>, n: nat, openOk: bool)
    requires cs != [] && cs[0].pipe && faults(n).Works?
    requires pid in before && child !in before && Spawned(before, spawned, pid, child, cs[0], n)
    requires OthersKept(spawned, after, pid, child + 1)
    requires AreWired(after, child + 1, forked, pid,
                      WireWith(faults, spawned[pid].table, cs[1..], n + 1, openOk))
    ensures OthersKept(before, after, pid, child)
    ensures AreWired(after, child, forked + 1, pid, WireWith(faults, before[pid].table, cs, n, openOk))
  {
    var t := before[pid].table;
    var first := Stage(ChildTable(t, n), cs[0].tokens);
    var rest := WireWith(faults, ParentTable(t, n), cs[1..], n + 1, openOk);
    SpawnKept(before, spawned, after, child, pid, cs[0], n);
    WiredBefore(after, child, forked, pid, first, rest, [first] + rest);
    assert WireWith(faults, t, cs, n, openOk) == [first] + rest;
  }

  lemma WiredBefore(procs: map<nat, Stage>, child: nat, forked: nat, pid: nat, first: Stage, rest: seq<Stage>,
                    stages: seq<Stage>)
    requires Runs(procs, child, first) && AreWired(procs, child + 1, forked, pid, rest)
    requires stages == [first] + rest
    ensures AreWired(procs, child, forked + 1, pid, stages)
  {
    forall k {:trigger stages[k]} | 0 <= k < forked + 1 ensures Runs(procs, child + k, stages[k]) {
      if k > 0 {
        assert stages[k] == rest[k - 1];
        assert child + 1 + (k - 1) == child + k;
      }
    }
  }

  // ----- Who holds which end -----

  ghost predicate Holds(t: Table, e: Target) {
    exists fd :: fd in t && t[fd] == e
  }

  /** Held at a descriptor other than stdin and stdout, so that later redirections do not drop it. */
  ghost predicate HoldsApart(t: Table, e: Target) {
    exists fd :: fd in t && fd > STDOUT && t[fd] == e
  }

  predicate PipeEnd(e: Target) { e.ReadEnd? || e.WriteEnd? }

  /** The table knows no pipe numbered n or higher, and keeps the older read ends apart. */
  ghost predicate NoPipeFrom(t: Table, n: nat) {
    && STDIN in t && STDOUT in t
    && (forall fd :: fd in t && PipeEnd(t[fd]) ==> t[fd].pipe < n)
    && (forall fd :: fd in t && t[fd].ReadEnd? ==> HoldsApart(t, t[fd]))
    && (forall fd :: fd in t ==> !t[fd].WriteEnd?)
  }

  lemma PipeFds(t: Table, n: nat)
    requires NoPipeFrom(t, n)
    ensures var r, w := ReadFd(t), WriteFd(t, n);
            r > STDOUT && w > STDOUT && r != w && r !in t && w !in t
            && WithPipe(t, n) == t[r := ReadEnd(n)][w := WriteEnd(n)]
  {
  }

  /** The child reads what the parent read, writes into the new pipe, and holds no other write end. */
  lemma ChildEnds(t: Table, n: nat)
    requires NoPipeFrom(t, n)
    ensures var c := ChildTable(t, n);
            && STDIN in c && c[STDIN] == t[STDIN] && STDOUT in c && c[STDOUT] == WriteEnd(n)
            && (forall m :: Holds(c, WriteEnd(m)) <==> m == n)
            && (forall m :: Holds(c, ReadEnd(m)) <==> Holds(t, ReadEnd(m)))
  {
    PipeFds(t, n);
    var c := ChildTable(t, n);
    forall m | Holds(t, ReadEnd(m)) ensures Holds(c, ReadEnd(m)) {
      var fd :| fd in t && t[fd] == ReadEnd(m);
      var fd' :| fd' in t && fd' > STDOUT && t[fd'] == ReadEnd(m);
      assert fd' in c && c[fd'] == ReadEnd(m);
    }
    forall m | Holds(c, ReadEnd(m)) ensures Holds(t, ReadEnd(m)) {
      var fd :| fd in c && c[fd] == ReadEnd(m);
      assert fd in t;
    }
    assert c[STDOUT] == WriteEnd(n);
    forall m | Holds(c, WriteEnd(m)) ensures m == n {
      var fd :| fd in c && c[fd] == WriteEnd(m);
    }
  }

  /** The parent reads the new pipe and holds no write end; it keeps every read end it had. */
  lemma ParentEnds(t: Table, n: nat)
    requires NoPipeFrom(t, n)
    ensures var p := ParentTable(t, n);
            && NoPipeFrom(p, n + 1) && p[STDIN] == ReadEnd(n) && p[STDOUT] == t[STDOUT]
            && (forall m :: Holds(p, ReadEnd(m)) <==> m == n || Holds(t, ReadEnd(m)))
  {
    PipeFds(t, n);
    var p := ParentTable(t, n);
    var r := ReadFd(t);
    assert r in p && p[r] == ReadEnd(n);
    assert HoldsApart(p, ReadEnd(n));
    forall fd | fd in t && t[fd].ReadEnd? ensures HoldsApart(p, t[fd]) {
      var fd' :| fd' in t && fd' > STDOUT && t[fd'] == t[fd];
      assert fd' in p && p[fd'] == t[fd];
    }
    forall m | Holds(p, ReadEnd(m)) ensures m == n || Holds(t, ReadEnd(m)) {
      var fd :| fd in p && p[fd] == ReadEnd(m);
      assert fd in t || fd == r;
    }
    forall m | Holds(t, ReadEnd(m)) ensures Holds(p, ReadEnd(m)) {
      var fd :| fd in t && t[fd] == ReadEnd(m);
      assert HoldsApart(p, t[fd]);
    }
  }

  /** Stage i of a pipeline whose last stage is last: what it reads and writes, and every pipe end it holds. */
  ghost predicate StageOk(s: Table, t: Table, n: nat, i: nat, last: nat, out: Target)
    requires STDIN in t
  {
    && STDIN in s && s[STDIN] == (if i == 0 then t[STDIN] else ReadEnd(n + i - 1))
    && STDOUT in s && s[STDOUT] == (if i < last then WriteEnd(n + i) else out)
    && (forall m: nat :: Holds(s, WriteEnd(m)) <==> i < last && m == n + i)
    && (forall m: nat :: Holds(s, ReadEnd(m)) <==> n <= m < n + i || Holds(t, ReadEnd(m)))
  }

  /** Where the last command's output goes. */
  function Output(t: Table, c: Command, openOk: bool): Target
    requires STDOUT in t
  {
    if c.file.Some? && openOk then File(c.file.value) else t[STDOUT]
  }

  ghost predicate WiredAs(stages: seq<Stage>, t: Table, n: nat, out: Target)
    requires STDIN in t
  {
    forall i {:trigger StageOk(stages[i].table, t, n, i, |stages| - 1, out)} :: 0 <= i < |stages| ==>
      StageOk(stages[i].table, t, n, i, |stages| - 1, out)
  }

  lemma LastEnds(t: Table, n: nat, c: Command, openOk: bool)
    requires NoPipeFrom(t, n) && !c.pipe
    ensures StageOk(LastStage(t, c, openOk).table, t, n, 0, 0, Output(t, c, openOk))
  {
    var s := LastStage(t, c, openOk).table;
    forall m: nat ensures !Holds(s, WriteEnd(m)) && (Holds(s, ReadEnd(m)) <==> Holds(t, ReadEnd(m))) {
      LastHolds(t, n, c, openOk, m);
    }
  }

  lemma LastHolds(t: Table, n: nat, c: Command, openOk: bool, m: nat)
    requires NoPipeFrom(t, n) && !c.pipe
    ensures var s := LastStage(t, c, openOk).table;
            !Holds(s, WriteEnd(m)) && (Holds(s, ReadEnd(m)) <==> Holds(t, ReadEnd(m)))
  {
    var s := LastStage(t, c, openOk).table;
    if Holds(t, ReadEnd(m)) {
      var fd :| fd in t && t[fd] == ReadEnd(m);
      var fd' :| fd' in t && fd' > STDOUT && t[fd'] == t[fd];
      assert fd' in s && s[fd'] == ReadEnd(m);
    }
    if Holds(s, ReadEnd(m)) {
      var fd :| fd in s && s[fd] == ReadEnd(m);
      assert fd in t;
    }
  }

  /** A stage of the pipeline behind the first pipe, seen from the whole pipeline. */
  lemma StageShift(s: Table, t: Table, n: nat, i: nat, last: nat, out: Target)
    requires NoPipeFrom(t, n)
    requires NoPipeFrom(ParentTable(t, n), n + 1) && StageOk(s, ParentTable(t, n), n + 1, i, last, out)
    ensures StageOk(s, t, n, i + 1, last + 1, out)
  {
    ParentEnds(t, n);
    var p := ParentTable(t, n);
    forall m: nat ensures Holds(s, ReadEnd(m)) <==> n <= m < n + (i + 1) || Holds(t, ReadEnd(m)) {
      assert Holds(s, ReadEnd(m)) <==> n + 1 <= m < n + 1 + i || Holds(p, ReadEnd(m));
    }
  }

  /**
   * Where the ends of a pipeline's pipes are, for any number of stages: stage
   * i reads pipe i - 1 and writes pipe i; nobody else holds that write end.
   * The read end of pipe i is held by every later stage, not only by the
   * next one, because the parent closes its write ends but keeps its read ends.
   */
  lemma {:induction false} PipelineWiring(t: Table, cs: seq<Command>, n: nat, openOk: bool)
    requires NoPipeFrom(t, n) && cs != []
    requires forall i :: 0 <= i < |cs| ==> (cs[i].pipe <==> i < |cs| - 1)
    ensures |Wire(t, cs, n, openOk)| == |cs|
    ensures WiredAs(Wire(t, cs, n, openOk), t, n, Output(t, cs[|cs| - 1], openOk))
    decreases |cs|
  {
    if |cs| == 1 {
      LastEnds(t, n, cs[0], openOk);
    } else {
      ChildEnds(t, n);
      ParentEnds(t, n);
      var p := ParentTable(t, n);
      var rest, out := Wire(p, cs[1..], n + 1, openOk), Output(t, cs[|cs| - 1], openOk);
      PipelineWiring(p, cs[1..], n + 1, openOk);
      assert cs[1..][|cs| - 2] == cs[|cs| - 1];
      WiredCons(Stage(ChildTable(t, n), cs[0].tokens), rest, t, n, out);
    }
  }

  lemma WiredCons(first: Stage, rest: seq<Stage>, t: Table, n: nat, out: Target)
    requires NoPipeFrom(t, n) && rest != []
    requires StageOk(first.table, t, n, 0, |rest|, out)
    requires NoPipeFrom(ParentTable(t, n), n + 1) && WiredAs(rest, ParentTable(t, n), n + 1, out)
    ensures WiredAs([first] + rest, t, n, out)
  {
    var stages := [first] + rest;
    forall i | 0 <= i < |stages| ensures StageOk(stages[i].table, t, n, i, |stages| - 1, out) {
      if i > 0 {
        assert StageOk(rest[i - 1].table, ParentTable(t, n), n + 1, i - 1, |rest| - 1, out);
        StageShift(rest[i - 1].table, t, n, i - 1, |rest| - 1, out);
      }
    }
  }

  /** The reader of pipe m sees end-of-file: no process that is still alive can write into it. */
  ghost predicate EndOfFile(stages: seq<Stage>, alive: set<nat>, m: nat) {
    forall i :: i in alive && i < |stages| ==> !Holds(stages[i].table, WriteEnd(m))
  }

  /** Writing into pipe m fails: no process that is still alive can read it. */
  ghost predicate BrokenPipe(stages: seq<Stage>, alive: set<nat>, m: nat) {
    forall i :: i in alive && i < |stages| ==> !Holds(stages[i].table, ReadEnd(m))
  }

  /**
   * Whatever processes are left, the stage after stage i sees end-of-file
   * exactly when stage i is gone; stage i is told that nobody reads only when
   * every later stage is gone.
   */
  lemma EndOfFileExact(t: Table, cs: seq<Command>, n: nat, openOk: bool, alive: set<nat>, i: nat)
    requires STDIN in t && STDOUT in t && forall fd :: fd in t ==> !PipeEnd(t[fd])
    requires i + 1 < |cs| && forall k :: 0 <= k < |cs| ==> (cs[k].pipe <==> k < |cs| - 1)
    ensures EndOfFile(Wire(t, cs, n, openOk), alive, n + i) <==> i !in alive
    ensures BrokenPipe(Wire(t, cs, n, openOk), alive, n + i) <==> forall k :: i < k < |cs| ==> k !in alive
  {
    PipelineWiring(t, cs, n, openOk);
    var stages := Wire(t, cs, n, openOk);
    assert !Holds(t, ReadEnd(n + i));
    forall k | 0 <= k < |stages|
      ensures Holds(stages[k].table, WriteEnd(n + i)) <==> k == i
      ensures Holds(stages[k].table, ReadEnd(n + i)) <==> i < k
    {
      assert StageOk(stages[k].table, t, n, k, |stages| - 1, Output(t, cs[|cs| - 1], openOk));
    }
  }

  // ----- When spawning fails -----

  /** Without a failure it is the whole pipeline. */
  lemma {:induction false} WorkingWire(faults: nat -> Fault, t: Table, cs: seq<Command>, n: nat, openOk: bool)
    requires forall m :: n <= m < n + |cs| ==> faults(m).Works?
    ensures WireWith(faults, t, cs, n, openOk) == Wire(t, cs, n, openOk)
    decreases |cs|
  {
    if cs != [] && cs[0].pipe {
      WorkingWire(faults, ParentTable(t, n), cs[1..], n + 1, openOk);
    }
  }

  /** Spawning works until the attempt for stage j, which fails. */
  ghost predicate FailsAt(faults: nat -> Fault, cs: seq<Command>, n: nat, j: nat) {
    && j < |cs| && (forall k :: 0 <= k <= j ==> cs[k].pipe)
    && (forall m :: n <= m < n + j ==> faults(m).Works?) && !faults(n + j).Works?
  }

  lemma FailsLater(faults: nat -> Fault, cs: seq<Command>, n: nat, j: nat)
    requires FailsAt(faults, cs, n, j) && j > 0
    ensures cs[0].pipe && faults(n).Works? && FailsAt(faults, cs[1..], n + 1, j - 1)
  {
  }

  lemma StuckEnds(t: Table, n: nat)
    requires NoPipeFrom(t, n)
    ensures forall m: nat :: !Holds(t, WriteEnd(m)) && (Holds(WithPipe(t, n), WriteEnd(m)) <==> m == n)
    ensures forall m: nat :: Holds(t, ReadEnd(m)) ==> Holds(WithPipe(t, n), ReadEnd(m))
  {
    PipeFds(t, n);
    var p := WithPipe(t, n);
    assert p[WriteFd(t, n)] == WriteEnd(n);
    forall m: nat | Holds(t, ReadEnd(m)) ensures Holds(p, ReadEnd(m)) {
      var fd :| fd in t && t[fd] == ReadEnd(m);
      assert fd in p && p[fd] == ReadEnd(m);
    }
  }

  /** The table of the process that gets stuck after j stages were spawned. */
  function StuckTable(fault: Fault, t: Table, n: nat, j: nat): Table
    decreases j
  {
    if j == 0 then AfterFault(fault, t, n)
    else StuckTable(fault, ParentTable(t, n), n + 1, j - 1)
  }

  lemma {:induction false} TruncatedStages(faults: nat -> Fault, t: Table, cs: seq<Command>, n: nat, openOk: bool,
                                           j: nat, fault: Fault)
    requires FailsAt(faults, cs, n, j) && fault == faults(n + j)
    ensures j <= |Wire(t, cs, n, openOk)|
    ensures WireWith(faults, t, cs, n, openOk) ==
            Wire(t, cs, n, openOk)[..j] + [Stage(StuckTable(fault, t, n, j), None)]
    decreases |cs|
  {
    if j > 0 {
      var p, rest := ParentTable(t, n), cs[1..];
      FailsLater(faults, cs, n, j);
      TruncatedStages(faults, p, rest, n + 1, openOk, j - 1, fault);
      var first, whole := Stage(ChildTable(t, n), cs[0].tokens), Wire(p, rest, n + 1, openOk);
      PrefixCons(first, whole, Stage(StuckTable(fault, p, n + 1, j - 1), None), j);
      assert Wire(t, cs, n, openOk) == [first] + whole;
      assert WireWith(faults, t, cs, n, openOk) == [first] + WireWith(faults, p, rest, n + 1, openOk);
    }
  }

  lemma PrefixCons(first: Stage, whole: seq<Stage>, stuck: Stage, j: nat)
    requires 0 < j <= |whole| + 1
    ensures [first] + (whole[..j - 1] + [stuck]) == ([first] + whole)[..j] + [stuck]
  {
  }

  lemma {:induction false} StuckWriteEnds(fault: Fault, t: Table, n: nat, j: nat, m: nat)
    requires NoPipeFrom(t, n)
    ensures Holds(StuckTable(fault, t, n, j), WriteEnd(m)) <==> fault.NoFork? && m == n + j
    decreases j
  {
    if j == 0 {
      StuckEnds(t, n);
    } else {
      ParentEnds(t, n);
      StuckWriteEnds(fault, ParentTable(t, n), n + 1, j - 1, m);
    }
  }

  /** It keeps the read ends it started with, and those of the pipes it made. */
  lemma {:induction false} StuckReadEnds(fault: Fault, t: Table, n: nat, j: nat, m: nat)
    requires NoPipeFrom(t, n) && (Holds(t, ReadEnd(m)) || n <= m < n + j)
    ensures Holds(StuckTable(fault, t, n, j), ReadEnd(m))
    decreases j
  {
    if j == 0 {
      StuckEnds(t, n);
    } else {
      ParentEnds(t, n);
      StuckReadEnds(fault, ParentTable(t, n), n + 1, j - 1, m);
    }
  }

  /**
   * The first failure, at stage j, leaves the stages before it as they are in
   * the whole pipeline. The process that was to become the rest of it runs no
   * program. It still holds every read end it made, so that none of the writers
   * is ever told that nobody reads; and it holds the new pipe's write end
   * exactly when it was fork that failed.
   */
  lemma FailureTruncates(faults: nat -> Fault, t: Table, cs: seq<Command>, n: nat, openOk: bool, j: nat)
    requires NoPipeFrom(t, n) && FailsAt(faults, cs, n, j)
    ensures var stuck := StuckTable(faults(n + j), t, n, j);
            && j <= |Wire(t, cs, n, openOk)|
            && WireWith(faults, t, cs, n, openOk) == Wire(t, cs, n, openOk)[..j] + [Stage(stuck, None)]
            && (forall m: nat :: n <= m < n + j ==> Holds(stuck, ReadEnd(m)))
            && (forall m: nat :: Holds(stuck, WriteEnd(m)) <==> faults(n + j).NoFork? && m == n + j)
  {
    TruncatedStages(faults, t, cs, n, openOk, j, faults(n + j));
    var stuck := StuckTable(faults(n + j), t, n, j);
    forall m: nat | n <= m < n + j ensures Holds(stuck, ReadEnd(m)) {
      StuckReadEnds(faults(n + j), t, n, j, m);
    }
    forall m: nat ensures Holds(stuck, WriteEnd(m)) <==> faults(n + j).NoFork? && m == n + j {
      StuckWriteEnds(faults(n + j), t, n, j, m);
    }
  }

  // ----- From the command line to the processes -----

  /** execute_pipeline never looks past the first command that feeds no pipe. */
  lemma {:induction false} WireReached(t: Table, cs: seq<Command>, n: nat, openOk: bool)
    ensures Wire(t, cs, n, openOk) == Wire(t, Reached(cs), n, openOk)
    decreases |cs|
  {
    if cs != [] && cs[0].pipe {
      WireReached(ParentTable(t, n), cs[1..], n + 1, openOk);
      assert Reached(cs)[1..] == Reached(cs[1..]);
    }
  }

  lemma {:induction false} WirePrograms(t: Table, cs: seq<Command>, n: nat, openOk: bool, k: nat)
    requires k < |cs| && forall i :: 0 <= i < |cs| ==> (cs[i].pipe <==> i < |cs| - 1)
    ensures k < |Wire(t, cs, n, openOk)|
    ensures Wire(t, cs, n, openOk)[k].program ==
            if k == |cs| - 1 && cs[k].file.Some? && !openOk then None else cs[k].tokens
    decreases |cs|
  {
    if k > 0 {
      WirePrograms(ParentTable(t, n), cs[1..], n + 1, openOk, k - 1);
    }
  }

  /** Process k runs part k of the line and is wired to its neighbours; the last one's output goes to the file. */
  ghost predicate RunsPart(stages: seq<Stage>, parts: seq<seq<string>>, file: Option<string>, t: Table, n: nat,
                           openOk: bool, k: nat)
    requires STDIN in t && STDOUT in t
  {
    && |stages| == |parts| && k < |parts|
    && stages[k].program == (if k == |parts| - 1 && file.Some? && !openOk then None else Some(parts[k]))
    && StageOk(stages[k].table, t, n, k, |parts| - 1, if file.Some? && openOk then File(file.value) else t[STDOUT])
  }

  lemma StagesWired(cs: seq<Command>, parts: seq<seq<string>>, file: Option<string>, t: Table, n: nat, openOk: bool,
                    k: nat)
    requires STDIN in t && STDOUT in t && forall fd :: fd in t ==> !PipeEnd(t[fd])
    requires AreStages(cs, parts, file) && k < |parts|
    ensures RunsPart(Wire(t, cs, n, openOk), parts, file, t, n, openOk, k)
  {
    var last := cs[|cs| - 1];
    assert last.file == file;
    PipelineWiring(t, cs, n, openOk);
    WirePrograms(t, cs, n, openOk, k);
    WiredAt(Wire(t, cs, n, openOk), t, n, Output(t, last, openOk), k);
  }

  lemma WiredAt(stages: seq<Stage>, t: Table, n: nat, out: Target, k: nat)
    requires STDIN in t && WiredAs(stages, t, n, out) && k < |stages|
    ensures StageOk(stages[k].table, t, n, k, |stages| - 1, out)
  {
  }

  /**
   * For a well-formed command line there is one process for each |-separated
   * part, it runs that part, and it is wired to its neighbours; the last one's
   * output goes to the redirection target.
   */
  lemma LineIsWired(ts: seq<string>, stale: Option<string>, t: Table, n: nat, openOk: bool, k: nat)
    requires ExactLine(ts)
    requires STDIN in t && STDOUT in t && forall fd :: fd in t ==> !PipeEnd(t[fd])
    requires k < |Split(ts[..FirstRedirect(ts)])|
    ensures RunsPart(Wire(t, Commands(ts, stale), n, openOk), Split(ts[..FirstRedirect(ts)]), RedirectTarget(ts),
                     t, n, openOk, k)
  {
    ReachedIsSplit(ts, stale);
    WireReached(t, Commands(ts, stale), n, openOk);
    StagesWired(Reached(Commands(ts, stale)), Split(ts[..FirstRedirect(ts)]), RedirectTarget(ts), t, n, openOk, k);
  }
}
