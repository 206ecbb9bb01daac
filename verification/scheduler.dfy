/**
 * LabWork/Lab7/scheduler.c: the scheduler's global state and the functions
 * that update it, proved against the state machine of SchedulerModel.
 */
module Schedulers {
  import opened Basics
  import opened SchedulerModel
  import opened SchedulerInvariant
  import opened SchedulerRuns
  import opened SchedulerGap

  /** Where a context switch saves the context it leaves; it aborts for a process that does not exist. */
  datatype Saved = NoSwap | MainContext | ProcessContext(pid: nat) | Aborted

  /** Keys the selection loops can tell from their INT_MAX start value. */
  ghost predicate KeysOk(bs: seq<Pcb>) {
    forall i :: 0 <= i < |bs| ==>
      bs[i].creation < INT_MAX && bs[i].workload < INT_MAX && bs[i].executed <= bs[i].workload
  }

  /** What holds whenever a scheduling algorithm is called. */
  ghost predicate Callable(s: State) {
    && s.current < |s.pcbs|
    && (s.cpu.Main? ==> s.quantum == 0 || s.pcbs[s.current].phase == Terminated)
    && (s.cpu.Process? ==> s.cpu.pid == s.current && s.quantum > 0 && s.pcbs[s.current].phase != Terminated)
  }

  /** The context of whoever executes is saved, unless the same process goes on. */
  function SlotFor(s: State, pid: nat): Saved {
    match s.cpu
    case Main => MainContext
    case Process(p) => if p == pid then NoSwap else ProcessContext(p)
  }

  /** What context_switch does and saves, for any pid. */
  ghost predicate Switched(s: State, t: State, pid: int, slot: Saved)
    requires s.current < |s.pcbs|
  {
    if !(0 <= pid < |s.pcbs|) then t == s && slot == Aborted
    else
      && t == Resumed(s, pid)
      && slot == if pid == s.current && s.quantum > 0 then NoSwap
                 else if s.quantum == 0 || s.pcbs[s.current].phase == Terminated then MainContext
                 else ProcessContext(s.current)
  }

  /**
   * The algorithm dispatched its choice; when nothing waits, basic and rr did nothing and the
   * others switched to what they were left with.
   */
  ghost predicate Dispatched(algo: Algo, s: State, t: State, slot: Saved, unset: int)
    requires s.current < |s.pcbs|
  {
    match Choice(algo, s)
    case Some(p) => t == Switch(s, p) && slot == SlotFor(s, p)
    case None =>
      match Fallback(algo, unset)
      case None => t == s && slot == NoSwap
      case Some(pid) => Switched(s, t, pid, slot)
  }

  /** The handler as coded: the new state, whose context was saved, and when it aborts. */
  ghost predicate Handled(algo: Algo, s: State, t: State, slot: Saved, unset: int)
    requires Inv(s)
  {
    && (match HandlerAsCoded(algo, s, unset)
        case None => slot == Aborted && t == Ready(s)
        case Some(next) => slot != Aborted && t == next)
    && (AnyWaiting(Ready(s).pcbs) ==> (slot == MainContext <==> s.cpu == Main))
    && (!AnyWaiting(Ready(s).pcbs) && (algo.Basic? || algo.Rr?) ==> t == s && slot == NoSwap)
  }

  class Scheduler {
    const pcbs: array<Pcb>
    var currentQuantum: nat
    var currentProcess: nat
    var cpu: Cpu
    ghost var finished: seq<nat>

    constructor (table: seq<Pcb>)
      requires Fresh(table) && table != []
      ensures fresh(pcbs) && Abs() == Init(table)
    {
      pcbs := new Pcb[|table|](i requires 0 <= i < |table| => table[i]);
      currentQuantum, currentProcess, cpu, finished := 0, 0, Main, [];
      new;
      assert pcbs[..] == table;
    }

    ghost function Abs(): State
      reads this, pcbs
    {
      State(pcbs[..], currentQuantum, currentProcess, cpu, finished)
    }

    /**
     * context_switch. Which context is saved is decided from the quantum and
     * the state of the old process; it is always that of whoever executes.
     */
    method ContextSwitch(pid: int) returns (slot: Saved)
      requires Callable(Abs())
      modifies this, pcbs
      ensures Switched(old(Abs()), Abs(), pid, slot)
      ensures 0 <= pid < pcbs.Length && (old(pcbs[pid]).phase == Waiting || old(pcbs[pid]).phase == Running) ==>
                Abs() == Switch(old(Abs()), pid) && slot == SlotFor(old(Abs()), pid)
    {
      if !(0 <= pid < pcbs.Length) {
        return Aborted;
      }
      if pid == currentProcess && currentQuantum > 0 {
        pcbs[pid] := pcbs[pid].(phase := Running);
        currentQuantum := currentQuantum + 1;
        slot := NoSwap;
      } else {
        if currentQuantum == 0 || pcbs[currentProcess].phase == Terminated {
          slot := MainContext;
        } else {
          slot := ProcessContext(currentProcess);
        }
        pcbs[pid] := pcbs[pid].(phase := Running);
        currentProcess := pid;
        currentQuantum := currentQuantum + 1;
        cpu := Process(pid);
      }
    }

    method HandleArrivals()
      modifies pcbs
      ensures Abs() == Arrive(old(Abs()))
    {
      for i := 0 to pcbs.Length
        invariant forall k :: 0 <= k < i ==> pcbs[k] == ArrivePcb(old(pcbs[k]), currentQuantum)
        invariant forall k :: i <= k < pcbs.Length ==> pcbs[k] == old(pcbs[k])
      {
        if pcbs[i].creation == currentQuantum {
          pcbs[i] := pcbs[i].(phase := Waiting);
        }
      }
      assert pcbs[..] == Arrive(old(Abs())).pcbs;
    }

    method Basic() returns (slot: Saved)
      requires Callable(Abs())
      modifies this, pcbs
      ensures Dispatched(Algo.Basic, old(Abs()), Abs(), slot, 0)
    {
      slot := NoSwap;
      for i := 0 to pcbs.Length
        invariant Abs() == old(Abs())
        invariant forall k :: 0 <= k < i ==> pcbs[k].phase != Waiting
      {
        if pcbs[i].phase == Waiting {
          assert IsLeast(Algo.Basic, pcbs[..], i);
          SelectsUnique(Algo.Basic, Abs(), i, Choice(Algo.Basic, Abs()).value);
          slot := ContextSwitch(i);
          return;
        }
      }
    }

    /** The loop shared by fifo, sjf, psjf and sctf: the first waiting process of least key, or what pid was before. */
    method SelectLeast(algo: Algo, start: int) returns (pid: int)
      requires KeysOk(pcbs[..])
      requires algo.Fifo? || algo.Sjf? || algo.Psjf? || algo.Sctf?
      ensures if AnyWaiting(pcbs[..]) then pid >= 0 && IsLeast(algo, pcbs[..], pid) else pid == start
    {
      var smallest := INT_MAX;
      ghost var r: Option<nat> := None;
      pid := start;
      for i := 0 to pcbs.Length
        invariant r == Least(algo, pcbs[..i])
        invariant r.None? ==> smallest == INT_MAX && pid == start
        invariant r.Some? ==> r.value == pid < i && smallest == Key(algo, pcbs[pid])
      {
        assert pcbs[..i + 1][..i] == pcbs[..i];
        assert pcbs[i] == pcbs[..][i];
        if pcbs[i].phase == Waiting {
          if Key(algo, pcbs[i]) < smallest {
            smallest, pid, r := Key(algo, pcbs[i]), i, Some(i);
          }
        }
      }
      assert pcbs[..pcbs.Length] == pcbs[..];
    }

    /**
     * What the loop of fifo, sjf, psjf or sctf selects is the algorithm's choice, unless its guard
     * keeps the current process.
     */
    lemma LeastIsChoice(algo: Algo, pid: int, start: int)
      requires Callable(Abs()) && !Stays(algo, Abs())
      requires algo.Fifo? || algo.Sjf? || algo.Psjf? || algo.Sctf?
      requires if AnyWaiting(pcbs[..]) then pid >= 0 && IsLeast(algo, pcbs[..], pid) else pid == start
      ensures Choice(algo, Abs()) == if AnyWaiting(pcbs[..]) then Some(pid) else None
    {
      if AnyWaiting(pcbs[..]) {
        SelectsUnique(algo, Abs(), pid, Choice(algo, Abs()).value);
      }
    }

    method Fifo(unset: int) returns (slot: Saved)
      requires Callable(Abs()) && KeysOk(pcbs[..])
      modifies this, pcbs
      ensures Dispatched(Algo.Fifo, old(Abs()), Abs(), slot, unset)
    {
      if currentQuantum > 0 && pcbs[currentProcess].phase == Running {
        slot := ContextSwitch(currentProcess);
        return;
      }
      var pid := SelectLeast(Algo.Fifo, unset);
      LeastIsChoice(Algo.Fifo, pid, unset);
      slot := ContextSwitch(pid);
    }

    method Sjf() returns (slot: Saved)
      requires Callable(Abs()) && KeysOk(pcbs[..])
      modifies this, pcbs
      ensures Dispatched(Algo.Sjf, old(Abs()), Abs(), slot, 0)
    {
      var pid := SelectLeast(Algo.Sjf, 0);
      LeastIsChoice(Algo.Sjf, pid, 0);
      slot := ContextSwitch(pid);
    }

    method Psjf() returns (slot: Saved)
      requires Callable(Abs()) && KeysOk(pcbs[..])
      modifies this, pcbs
      ensures Dispatched(Algo.Psjf, old(Abs()), Abs(), slot, 0)
    {
      if currentQuantum > 0 && pcbs[currentProcess].phase == Waiting {
        slot := ContextSwitch(currentProcess);
        return;
      }
      var pid := SelectLeast(Algo.Psjf, 0);
      LeastIsChoice(Algo.Psjf, pid, 0);
      slot := ContextSwitch(pid);
    }

    method Sctf() returns (slot: Saved)
      requires Callable(Abs()) && KeysOk(pcbs[..])
      modifies this, pcbs
      ensures Dispatched(Algo.Sctf, old(Abs()), Abs(), slot, 0)
    {
      if currentQuantum > 0 && pcbs[currentProcess].phase == Waiting {
        slot := ContextSwitch(currentProcess);
        return;
      }
      var pid := SelectLeast(Algo.Sctf, 0);
      LeastIsChoice(Algo.Sctf, pid, 0);
      slot := ContextSwitch(pid);
    }

    method RoundRobin() returns (slot: Saved)
      requires Callable(Abs())
      modifies this, pcbs
      ensures Dispatched(Rr, old(Abs()), Abs(), slot, 0)
    {
      slot := NoSwap;
      for i := 0 to pcbs.Length
        invariant Abs() == old(Abs())
        invariant forall k :: currentProcess < k < i ==> pcbs[k].phase != Waiting
      {
        if pcbs[i].phase == Waiting {
          if currentProcess < i {
            assert IsNext(pcbs[..], currentProcess, i);
            SelectsUnique(Rr, Abs(), i, Choice(Rr, Abs()).value);
            slot := ContextSwitch(i);
            return;
          }
        }
      }
      for i := 0 to pcbs.Length
        invariant Abs() == old(Abs())
        invariant forall k :: 0 <= k < i ==> pcbs[k].phase != Waiting
      {
        if pcbs[i].phase == Waiting {
          assert IsNext(pcbs[..], currentProcess, i);
          SelectsUnique(Rr, Abs(), i, Choice(Rr, Abs()).value);
          slot := ContextSwitch(i);
          return;
        }
      }
    }

    ghost predicate Valid()
      reads this, pcbs
    {
      Inv(Abs()) && KeysOk(pcbs[..])
    }

    /** The call through g_scheduling_algo. */
    method Schedule(algo: Algo, unset: int) returns (slot: Saved)
      requires Callable(Abs()) && KeysOk(pcbs[..])
      modifies this, pcbs
      ensures Dispatched(algo, old(Abs()), Abs(), slot, unset)
    {
      match algo
      case Basic => slot := Basic();
      case Fifo => slot := Fifo(unset);
      case Sjf => slot := Sjf();
      case Psjf => slot := Psjf();
      case Sctf => slot := Sctf();
      case Rr => slot := RoundRobin();
    }

    /**
     * interrupt_handler: demote the interrupted process, let the arrivals in,
     * call the algorithm. Main's context is saved exactly when main called,
     * if something waits.
     */
    method InterruptHandler(algo: Algo, unset: int) returns (slot: Saved)
      requires Inv(Abs()) && KeysOk(pcbs[..])
      modifies this, pcbs
      ensures Handled(algo, old(Abs()), Abs(), slot, unset)
      ensures AnyWaiting(Ready(old(Abs())).pcbs) || algo.Basic? || algo.Rr? ==>
              Abs() == Handler(algo, old(Abs())) && KeysOk(pcbs[..])
    {
      ghost var s := Abs();
      assert PhaseOk(s, s.current);
      if pcbs[currentProcess].phase == Running {
        pcbs[currentProcess] := pcbs[currentProcess].(phase := Waiting);
      }
      assert Abs() == Demote(s);
      HandleArrivals();
      ReadyPcbs(s, s.current);
      ReadyKeys(s);
      slot := Schedule(algo, unset);
      HandlerOutcome(algo, s, Abs(), slot, unset);
    }

    static lemma HandlerOutcome(algo: Algo, s: State, t: State, slot: Saved, unset: int)
      requires Inv(s) && KeysOk(s.pcbs) && Ready(s).current < |Ready(s).pcbs| &&
               Dispatched(algo, Ready(s), t, slot, unset)
      ensures Handled(algo, s, t, slot, unset)
      ensures AnyWaiting(Ready(s).pcbs) || algo.Basic? || algo.Rr? ==> t == Handler(algo, s) && KeysOk(t.pcbs)
    {
      ReadyKeys(s);
      if AnyWaiting(Ready(s).pcbs) {
        var p := BusyHandler(algo, s);
      } else {
        IdleHandler(algo, s);
        NothingChosen(algo, s);
      }
    }

    static lemma ReadyKeys(s: State)
      requires Inv(s) && KeysOk(s.pcbs)
      ensures KeysOk(Ready(s).pcbs)
    {
      forall i | 0 <= i < |s.pcbs|
        ensures Ready(s).pcbs[i] == s.pcbs[i].(phase := Ready(s).pcbs[i].phase)
      {
        ReadyPcbs(s, i);
      }
    }

    /** One step of process() for the process on the CPU; alarm is g_interrupt after the chunk. */
    method RunProcess(algo: Algo, alarm: bool, unset: int)
      requires Valid() && cpu.Process?
      modifies this, pcbs
      ensures Valid()
      ensures Abs() == Step(algo, old(Abs()), alarm)
    {
      ghost var s := Abs();
      var b := pcbs[currentProcess];
      assert b == s.pcbs[s.current];
      assert PcbOk(s.pcbs[s.current]) && PhaseOk(s, s.current);
      StepKeeps(algo, s, alarm);
      if b.ran {
        pcbs[currentProcess] := Bump(b);
      } else if b.executed < b.workload {
        pcbs[currentProcess] := b.(ran := true);
        ghost var r := OwnStep(s, b.(ran := true));
        assert Abs() == r;
        if alarm {
          OwnStepKeeps(s, b.(ran := true));
          ReadyPcbs(r, r.current);
          assert AnyWaiting(Ready(r).pcbs);
          var slot := InterruptHandler(algo, unset);
        }
      } else {
        pcbs[currentProcess] := b.(phase := Terminated);
        finished := finished + [currentProcess];
        cpu := Main;
      }
    }

    method CheckFinished() returns (done: bool)
      ensures done <==> AllTerminated(pcbs[..])
    {
      done := true;
      for i := 0 to pcbs.Length
        invariant done <==> forall k :: 0 <= k < i ==> pcbs[k].phase == Terminated
      {
        if pcbs[i].phase != Terminated {
          done := false;
        }
      }
    }

    /**
     * Main's loop together with the processes it dispatches. For every alarm
     * pattern, and whatever fifo's pid holds before it is set, the run ends,
     * and it ends with all work done.
     */
    method RunAll(algo: Algo, alarms: nat -> bool, unset: nat -> int) returns (ghost steps: nat)
      requires Abs() == Init(pcbs[..]) && Fresh(pcbs[..]) && pcbs.Length > 0
      requires KeysOk(pcbs[..]) && NoGap(pcbs[..])
      modifies this, pcbs
      ensures Abs() == Reach(algo, old(pcbs[..]), Pattern(alarms, steps))
      ensures Ended(Abs()) && forall i :: 0 <= i < pcbs.Length ==> pcbs[i].executed == old(pcbs[i]).workload
      ensures currentQuantum <= CHUNKS * Sum((b: Pcb) => b.workload, old(pcbs[..])) + pcbs.Length
    {
      ghost var bs := pcbs[..];
      InitInv(bs);
      var n, done := 0, false;
      assert !AllTerminated(pcbs[..]) by {
        assert pcbs[..][0].phase == Created;
      }
      while !done
        invariant Valid() && Abs() == Reach(algo, bs, Pattern(alarms, n))
        invariant done <==> Ended(Abs())
        decreases Measure(Abs()), !done
      {
        NeverDry(algo, bs, Pattern(alarms, n), alarms(n));
        ReachStep(algo, bs, alarms, n);
        if cpu.Main? {
          var slot := InterruptHandler(algo, unset(n));
        } else {
          RunProcess(algo, alarms(n), unset(n));
          if cpu.Main? {
            done := CheckFinished();
          }
        }
        n := n + 1;
      }
      steps := n;
      DispatchBound(algo, bs, Pattern(alarms, n));
    }
  }

  /** The first n answers of an alarm pattern. */
  function Pattern(alarms: nat -> bool, n: nat): (r: seq<bool>)
    ensures |r| == n
  {
    if n == 0 then [] else Pattern(alarms, n - 1) + [alarms(n - 1)]
  }

  lemma ReachStep(algo: Algo, bs: seq<Pcb>, alarms: nat -> bool, n: nat)
    requires Fresh(bs) && bs != []
    ensures var s := Reach(algo, bs, Pattern(alarms, n));
            && Reach(algo, bs, Pattern(alarms, n + 1)) == Step(algo, s, alarms(n))
            && Inv(Step(algo, s, alarms(n)))
  {
    InitInv(bs);
    assert Pattern(alarms, n + 1)[..n] == Pattern(alarms, n);
  }

  lemma NeverDry(algo: Algo, bs: seq<Pcb>, pattern: seq<bool>, alarm: bool)
    requires Fresh(bs) && bs != [] && NoGap(bs)
    ensures var s := Reach(algo, bs, pattern);
            !Idle(s) && (!Ended(s) ==> Measure(Step(algo, s, alarm)) < Measure(s))
  {
    InitInv(bs);
    var s := Reach(algo, bs, pattern);
    ExecSameJobs(algo, Init(bs), pattern);
    NoGapKept(bs, s.pcbs);
    NeverIdle(s);
    if !Ended(s) {
      StepProgress(algo, s, alarm);
    }
  }
}
