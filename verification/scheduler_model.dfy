/**
 * LabWork/Lab7/scheduler.c as a state machine: process control blocks, the
 * quantum counter, the current process, and which context has the CPU.
 */
module SchedulerModel {
  import opened Basics

  datatype Phase = Created | Waiting | Running | Terminated

  /**
   * A process control block together with the locals its stack keeps across
   * context switches: chunk is the loop counter of process(), and ran says
   * that the chunk's work is done but the counter not yet bumped, which is
   * where an interrupted process resumes.
   */
  datatype Pcb = Pcb(creation: nat, workload: nat, executed: nat, phase: Phase, chunk: nat, ran: bool)

  const CHUNKS: nat := 20

  /** Who executes: main's loop or a process. */
  datatype Cpu = Main | Process(pid: nat)

  /** finished logs the processes in the order in which they terminated. */
  datatype State = State(pcbs: seq<Pcb>, quantum: nat, current: nat, cpu: Cpu, finished: seq<nat>)

  datatype Algo = Basic | Fifo | Sjf | Psjf | Sctf | Rr

  // ----- Selection -----

  function Key(algo: Algo, b: Pcb): int {
    match algo
    case Basic => 0
    case Fifo => b.creation
    case Sjf => b.workload
    case Psjf => b.workload
    case Sctf => b.workload - b.executed
    case Rr => 0
  }

  /** Process i comes before process j: smaller key, then smaller index. */
  predicate Before(algo: Algo, bs: seq<Pcb>, i: nat, j: nat)
    requires i < |bs| && j < |bs|
  {
    Key(algo, bs[i]) < Key(algo, bs[j]) || (Key(algo, bs[i]) == Key(algo, bs[j]) && i <= j)
  }

  ghost predicate AnyWaiting(bs: seq<Pcb>) {
    exists i :: 0 <= i < |bs| && bs[i].phase == Waiting
  }

  /** The waiting process that comes before all waiting ones. */
  ghost predicate IsLeast(algo: Algo, bs: seq<Pcb>, i: nat) {
    && i < |bs| && bs[i].phase == Waiting
    && forall j :: 0 <= j < |bs| && bs[j].phase == Waiting ==> Before(algo, bs, i, j)
  }

  /** The waiting process round robin comes to next, going up from current and around. */
  ghost predicate IsNext(bs: seq<Pcb>, current: nat, i: nat) {
    && i < |bs| && bs[i].phase == Waiting
    && forall j :: 0 <= j < |bs| && bs[j].phase == Waiting ==>
         Distance(current, i, |bs|) <= Distance(current, j, |bs|)
  }

  /** Steps round robin takes from process c up and around to process j; n from a process to itself. */
  function Distance(c: nat, j: nat, n: nat): int {
    if c < j then j - c else j + n - c
  }

  /** The guards that keep the current process on the CPU. */
  predicate Stays(algo: Algo, s: State)
    requires s.current < |s.pcbs|
  {
    && s.quantum > 0
    && match algo
       case Fifo => s.pcbs[s.current].phase == Running
       case Psjf => s.pcbs[s.current].phase == Waiting
       case Sctf => s.pcbs[s.current].phase == Waiting
       case _ => false
  }

  /** The process each algorithm must switch to; the selection loops are proved against this. */
  ghost predicate Selects(algo: Algo, s: State, pid: nat)
    requires s.current < |s.pcbs|
  {
    if Stays(algo, s) then pid == s.current
    else if algo.Rr? then IsNext(s.pcbs, s.current, pid)
    else IsLeast(algo, s.pcbs, pid)
  }

  lemma SelectsUnique(algo: Algo, s: State, p: nat, q: nat)
    requires s.current < |s.pcbs| && Selects(algo, s, p) && Selects(algo, s, q)
    ensures p == q
  {
  }

  function FirstWaiting(bs: seq<Pcb>, from: nat): (r: Option<nat>)
    requires from <= |bs|
    ensures r.None? ==> forall j :: from <= j < |bs| ==> bs[j].phase != Waiting
    ensures r.Some? ==> from <= r.value < |bs| && bs[r.value].phase == Waiting
    ensures r.Some? ==> forall j :: from <= j < r.value ==> bs[j].phase != Waiting
    decreases |bs| - from
  {
    if from == |bs| then None
    else if bs[from].phase == Waiting then Some(from)
    else FirstWaiting(bs, from + 1)
  }

  function Least(algo: Algo, bs: seq<Pcb>): (r: Option<nat>)
    ensures r.None? ==> !AnyWaiting(bs)
    ensures r.Some? ==> IsLeast(algo, bs, r.value)
  {
    if bs == [] then None
    else
      var last := |bs| - 1;
      var r := Least(algo, bs[..last]);
      if bs[last].phase == Waiting && (r.None? || Key(algo, bs[last]) < Key(algo, bs[r.value])) then Some(last) else r
  }

  function Choice(algo: Algo, s: State): (r: Option<nat>)
    requires s.current < |s.pcbs|
    ensures r.Some? ==> Selects(algo, s, r.value)
    ensures r.None? ==> !AnyWaiting(s.pcbs) && !Stays(algo, s)
  {
    if Stays(algo, s) then Some(s.current)
    else if algo.Rr? then
      var up := FirstWaiting(s.pcbs, s.current + 1);
      if up.Some? then up else FirstWaiting(s.pcbs, 0)
    else Least(algo, s.pcbs)
  }

  /**
   * The process the selection is left with when nothing waits: fifo's pid is then unset, the other
   * loops start from process 0.
   */
  function Fallback(algo: Algo, unset: int): Option<int> {
    match algo
    case Basic => None
    case Rr => None
    case Fifo => Some(unset)
    case _ => Some(0)
  }

  // ----- Steps -----

  function SetPhase(bs: seq<Pcb>, i: nat, phase: Phase): seq<Pcb>
    requires i < |bs|
  {
    bs[i := bs[i].(phase := phase)]
  }

  function ArrivePcb(b: Pcb, quantum: nat): Pcb {
    if b.creation == quantum then b.(phase := Waiting) else b
  }

  function Arrive(s: State): State {
    s.(pcbs := seq(|s.pcbs|, i requires 0 <= i < |s.pcbs| => ArrivePcb(s.pcbs[i], s.quantum)))
  }

  function Demote(s: State): State
    requires s.current < |s.pcbs|
  {
    if s.pcbs[s.current].phase == Running then s.(pcbs := SetPhase(s.pcbs, s.current, Waiting)) else s
  }

  function Switch(s: State, pid: nat): State
    requires pid < |s.pcbs|
  {
    s.(pcbs := SetPhase(s.pcbs, pid, Running), current := pid, quantum := s.quantum + 1, cpu := Process(pid))
  }

  /**
   * context_switch, for any process: switching to the current process while
   * main executes marks it as running but stays in main.
   */
  function Resumed(s: State, pid: nat): State
    requires pid < |s.pcbs|
  {
    if pid == s.current && s.quantum > 0 then s.(pcbs := SetPhase(s.pcbs, pid, Running), quantum := s.quantum + 1)
    else Switch(s, pid)
  }

  /**
   * interrupt_handler, as long as something waits. When nothing waits, basic
   * and rr return without a switch, and the runs of the other algorithms are
   * not followed any further: the state stays where it is.
   */
  function Handler(algo: Algo, s: State): State
    requires s.current < |s.pcbs|
  {
    var s1 := Arrive(Demote(s));
    match Choice(algo, s1)
    case None => s1
    case Some(pid) => Switch(s1, pid)
  }

  predicate AllTerminated(bs: seq<Pcb>) {
    forall i :: 0 <= i < |bs| ==> bs[i].phase == Terminated
  }

  function Bump(b: Pcb): Pcb {
    if b.chunk + 1 == CHUNKS then b.(executed := b.executed + 1, chunk := 0, ran := false)
    else b.(chunk := b.chunk + 1, ran := false)
  }

  /** One step of process(): bump the loop counters, run a chunk and test for an interrupt, or terminate. */
  function ProcessStep(algo: Algo, s: State, interrupt: bool): State
    requires s.current < |s.pcbs|
  {
    var p := s.current;
    var b := s.pcbs[p];
    if b.ran then
      s.(pcbs := s.pcbs[p := Bump(b)])
    else if b.executed < b.workload then
      var s1 := s.(pcbs := s.pcbs[p := b.(ran := true)]);
      if interrupt then Handler(algo, s1) else s1
    else
      s.(pcbs := SetPhase(s.pcbs, p, Terminated), cpu := Main, finished := s.finished + [p])
  }

  /** One step of the machine; interrupt says whether the alarm fired during the chunk. */
  function Step(algo: Algo, s: State, interrupt: bool): State
    requires s.current < |s.pcbs|
  {
    match s.cpu
    case Main => if AllTerminated(s.pcbs) then s else Handler(algo, s)
    case Process(_) => ProcessStep(algo, s, interrupt)
  }

  /** Main is about to schedule, work remains, and nothing is there to run. */
  ghost predicate Idle(s: State)
    requires s.current < |s.pcbs|
  {
    s.cpu.Main? && !AllTerminated(s.pcbs) && !AnyWaiting(Arrive(Demote(s)).pcbs)
  }

  // ----- The invariant -----

  predicate PcbOk(b: Pcb) {
    && b.executed <= b.workload && b.chunk < CHUNKS
    && (b.executed == b.workload ==> b.chunk == 0 && !b.ran)
    && (b.phase == Terminated ==> b.executed == b.workload)
  }

  predicate PhaseOk(s: State, i: nat)
    requires i < |s.pcbs|
  {
    && (s.pcbs[i].phase == Created <==> s.quantum <= s.pcbs[i].creation)
    && (s.pcbs[i].phase == Running <==> s.cpu == Process(i))
    && (s.pcbs[i].phase == Terminated <==> i in s.finished)
  }

  /** Chunks run. */
  function Done(b: Pcb): nat { CHUNKS * b.executed + b.chunk + if b.ran then 1 else 0 }

  /** Dispatches that brought work forward: one per chunk run, one for the process having been started from main. */
  function Weight(b: Pcb): nat { Done(b) + Active(b) }

  function Active(b: Pcb): nat { if b.phase == Terminated || b.phase == Running then 1 else 0 }

  function Sum(f: Pcb -> nat, bs: seq<Pcb>): nat {
    if bs == [] then 0 else Sum(f, bs[..|bs| - 1]) + f(bs[|bs| - 1])
  }

  ghost predicate Inv(s: State) {
    && s.current < |s.pcbs|
    && (forall i {:trigger PcbOk(s.pcbs[i])} :: 0 <= i < |s.pcbs| ==> PcbOk(s.pcbs[i]))
    && (forall i {:trigger PhaseOk(s, i)} :: 0 <= i < |s.pcbs| ==> PhaseOk(s, i))
    && (s.cpu.Process? ==> s.cpu.pid == s.current && s.quantum > 0)
    && (s.cpu.Main? ==> s.quantum == 0 || s.pcbs[s.current].phase == Terminated)
    && (forall i :: 0 <= i < |s.finished| ==> s.finished[i] < |s.pcbs|)
    && Sum(Active, s.pcbs) <= s.quantum <= Sum(Weight, s.pcbs)
  }

  predicate Fresh(bs: seq<Pcb>) {
    forall i :: 0 <= i < |bs| ==> bs[i] == Pcb(bs[i].creation, bs[i].workload, 0, Created, 0, false)
  }

  function Init(bs: seq<Pcb>): State { State(bs, 0, 0, Main, []) }
}
