/**
 * Who runs when: what each algorithm guarantees over whole runs.
 */
module SchedulerOrder {
  import opened SchedulerModel
  import opened SchedulerInvariant
  import opened SchedulerRuns

  // ----- Lifecycles -----

  /** One assignment to the state of a process. */
  predicate Edge(a: Phase, b: Phase) {
    || (a == Created && b == Waiting) || (a == Waiting && b == Running)
    || (a == Running && b == Waiting) || (a == Running && b == Terminated)
  }

  /** The tables that the handler goes through: demotion, arrivals, dispatch. */
  ghost function HandlerTables(algo: Algo, s: State): seq<seq<Pcb>>
    requires s.current < |s.pcbs|
  {
    [s.pcbs, Demote(s).pcbs, Ready(s).pcbs, Handler(algo, s).pcbs]
  }

  /** The tables that a step goes through, in order. */
  ghost function Tables(algo: Algo, s: State, interrupt: bool): seq<seq<Pcb>>
    requires s.current < |s.pcbs|
  {
    var b := s.pcbs[s.current];
    if s.cpu.Main? then
      if AllTerminated(s.pcbs) then [s.pcbs] else HandlerTables(algo, s)
    else if !b.ran && b.executed < b.workload && interrupt then
      [s.pcbs] + HandlerTables(algo, OwnStep(s, b.(ran := true)))
    else [s.pcbs, Step(algo, s, interrupt).pcbs]
  }

  /** From each table to the next the state of process i stays or changes along an edge. */
  ghost predicate LegalAlong(tables: seq<seq<Pcb>>, i: nat) {
    && (forall k :: 0 <= k < |tables| ==> i < |tables[k]|)
    && forall k {:trigger tables[k]} :: 0 < k < |tables| ==>
         tables[k][i].phase == tables[k - 1][i].phase || Edge(tables[k - 1][i].phase, tables[k][i].phase)
  }

  lemma HandlerLegal(algo: Algo, s: State, i: nat)
    requires Inv(s) && i < |s.pcbs|
    ensures LegalAlong(HandlerTables(algo, s), i)
    ensures Handler(algo, s).pcbs[i].phase == Terminated ==> s.pcbs[i].phase == Terminated
  {
    ReadyPcbs(s, i);
    assert PhaseOk(s, i);
    if AnyWaiting(Ready(s).pcbs) {
      var p := BusyHandler(algo, s);
      var t := Switch(Ready(s), p);
      assert t.pcbs[i].phase == Ready(s).pcbs[i].phase || (Ready(s).pcbs[i].phase == Waiting &&
             t.pcbs[i].phase == Running);
    } else {
      IdleHandler(algo, s);
      assert Ready(s).pcbs[i].phase == s.pcbs[i].phase by {
        assert Ready(s).pcbs[i].phase != Waiting;
      }
    }
  }

  /**
   * Every assignment to a process's state goes from created to waiting,
   * between waiting and running, or from running to terminated. The last one
   * happens only when that process executes, and logs it as finished. Runs of
   * fifo, sjf, psjf and sctf are followed up to the first idle call.
   */
  lemma LifecyclesLegal(algo: Algo, s: State, interrupt: bool, i: nat)
    requires Inv(s) && i < |s.pcbs|
    ensures var t, tables := Step(algo, s, interrupt), Tables(algo, s, interrupt);
            && tables[0] == s.pcbs && tables[|tables| - 1] == t.pcbs && LegalAlong(tables, i)
            && (t.pcbs[i].phase == Terminated && s.pcbs[i].phase != Terminated ==>
                s.cpu == Process(i) && t.cpu == Main && t.finished == s.finished + [i])
  {
    var b := s.pcbs[s.current];
    if s.cpu.Main? {
      HandlerLegal(algo, s, i);
    } else if !b.ran && b.executed < b.workload && interrupt {
      InterruptLegal(algo, s, i);
    } else {
      assert PcbOk(b) && PhaseOk(s, s.current) && PhaseOk(s, i);
    }
  }

  lemma InterruptLegal(algo: Algo, s: State, i: nat)
    requires Inv(s) && i < |s.pcbs| && s.cpu.Process?
    requires var b := s.pcbs[s.current]; !b.ran && b.executed < b.workload
    ensures var t, r := Step(algo, s, true), OwnStep(s, s.pcbs[s.current].(ran := true));
            && t == Handler(algo, r) && LegalAlong([s.pcbs] + HandlerTables(algo, r), i)
            && (t.pcbs[i].phase == Terminated ==> s.pcbs[i].phase == Terminated)
  {
    var b := s.pcbs[s.current].(ran := true);
    assert PcbOk(s.pcbs[s.current]) && PhaseOk(s, s.current);
    OwnStepKeeps(s, b);
    HandlerLegal(algo, OwnStep(s, b), i);
  }

  /** handle_arrivals prepares a context only for a process that was never prepared before. */
  lemma ArrivesOnce(algo: Algo, bs: seq<Pcb>, alarms: seq<bool>, i: nat)
    requires Fresh(bs) && bs != []
    ensures var s := Reach(algo, bs, alarms);
            i < |s.pcbs| && s.pcbs[i].creation == s.quantum ==> s.pcbs[i].phase == Created
  {
    var s := Reach(algo, bs, alarms);
    assert i < |s.pcbs| ==> PhaseOk(s, i);
  }

  // ----- Selections -----

  /** The state in which the selection of a step was made. */
  function Seen(s: State): State
    requires s.current < |s.pcbs|
  {
    if s.cpu.Main? then Ready(s) else Ready(OwnStep(s, s.pcbs[s.current].(ran := true)))
  }

  /** Every dispatch follows the algorithm's declared choice; every other step leaves the current process alone. */
  lemma DispatchSelects(algo: Algo, s: State, interrupt: bool)
    requires Inv(s)
    ensures var t := Step(algo, s, interrupt);
            if t.quantum == s.quantum then t.current == s.current
            else
              && t.quantum == s.quantum + 1 && t.cpu == Process(t.current) && t.finished == s.finished
              && Seen(s).current < |Seen(s).pcbs| == |s.pcbs| && Selects(algo, Seen(s), t.current)
              && t.pcbs == SetPhase(Seen(s).pcbs, t.current, Running)
  {
    if s.cpu.Main? {
      if AnyWaiting(Ready(s).pcbs) {
        var p := BusyHandler(algo, s);
      } else {
        IdleHandler(algo, s);
      }
    } else {
      var b := s.pcbs[s.current];
      assert PcbOk(b) && PhaseOk(s, s.current);
      if !b.ran && b.executed < b.workload && interrupt {
        InterruptDispatches(algo, s);
      }
    }
  }

  lemma InterruptDispatches(algo: Algo, s: State)
    requires Inv(s) && s.cpu.Process?
    requires s.pcbs[s.current].executed < s.pcbs[s.current].workload
    ensures var r := OwnStep(s, s.pcbs[s.current].(ran := true));
            && Inv(r) && r.current < |Ready(r).pcbs| && Ready(r).pcbs[r.current].phase == Waiting
            && exists p: nat :: p < |r.pcbs| && Selects(algo, Ready(r), p) && Handler(algo, r) == Switch(Ready(r), p)
  {
    var b := s.pcbs[s.current].(ran := true);
    var r := OwnStep(s, b);
    assert PcbOk(s.pcbs[s.current]) && PhaseOk(s, s.current);
    OwnStepKeeps(s, b);
    ReadyPcbs(r, r.current);
    assert AnyWaiting(Ready(r).pcbs);
    var p := BusyHandler(algo, r);
  }

  predicate Unfinished(b: Pcb) { b.phase == Waiting || b.phase == Running }

  /** After every decision of sjf the running process has the least (workload, index) of all arrived unfinished ones. */
  lemma SjfRunsShortest(s: State, interrupt: bool, j: nat)
    requires Inv(s)
    ensures var t := Step(Sjf, s, interrupt);
            t.quantum != s.quantum && j < |t.pcbs| && Unfinished(t.pcbs[j]) ==>
              t.current < |t.pcbs| && Before(Sjf, t.pcbs, t.current, j)
  {
    DispatchSelects(Sjf, s, interrupt);
    var t := Step(Sjf, s, interrupt);
    if t.quantum != s.quantum && j < |t.pcbs| && Unfinished(t.pcbs[j]) {
      NoneRunning(s, j);
    }
  }

  lemma NoneRunning(s: State, j: nat)
    requires Inv(s) && j < |s.pcbs|
    ensures j < |Seen(s).pcbs| && Seen(s).pcbs[j].phase != Running
  {
    if s.cpu.Main? {
      ReadyPcbs(s, j);
    } else {
      assert PhaseOk(s, j) && PhaseOk(s, s.current);
    }
  }

  /**
   * psjf and sctf as coded keep the dispatched process until it terminates,
   * and only then pick the least (workload, index), or (remaining work, index).
   */
  lemma GuardRunsToCompletion(algo: Algo, s: State, interrupt: bool, j: nat)
    requires Inv(s) && (algo.Psjf? || algo.Sctf?)
    ensures var t := Step(algo, s, interrupt);
            if s.cpu.Process? then
              t.cpu == s.cpu || (t.cpu == Main && t.finished == s.finished + [s.current])
            else
              t.quantum != s.quantum && j < |t.pcbs| && Unfinished(t.pcbs[j]) ==>
                t.current < |t.pcbs| && Before(algo, t.pcbs, t.current, j)
  {
    DispatchSelects(algo, s, interrupt);
    if s.cpu.Process? {
      var b := s.pcbs[s.current];
      assert PcbOk(b) && PhaseOk(s, s.current);
      if !b.ran && b.executed < b.workload {
        InterruptDispatches(algo, s);
      }
    } else if j < |s.pcbs| {
      NoneRunning(s, j);
      assert PhaseOk(s, s.current);
      ReadyPcbs(s, s.current);
    }
  }

  // ----- FIFO -----

  predicate Live(b: Pcb) { b.phase != Terminated }

  predicate First(bs: seq<Pcb>, i: nat, j: nat)
    requires i < |bs| && j < |bs|
  {
    Before(Fifo, bs, i, j)
  }

  /** The running process comes before all live ones; finished ones came before them, in order. */
  ghost predicate FifoInv(s: State) {
    && Inv(s)
    && (s.cpu.Process? ==>
        forall j {:trigger First(s.pcbs, s.current, j)} :: 0 <= j < |s.pcbs| && Live(s.pcbs[j]) ==>
          First(s.pcbs, s.current, j))
    && (forall k, j {:trigger First(s.pcbs, s.finished[k], j)} ::
        0 <= k < |s.finished| && 0 <= j < |s.pcbs| && Live(s.pcbs[j]) ==> First(s.pcbs, s.finished[k], j))
    && (forall k, l {:trigger First(s.pcbs, s.finished[k], s.finished[l])} :: 0 <= k < l < |s.finished| ==>
        First(s.pcbs, s.finished[k], s.finished[l]) && s.finished[k] != s.finished[l])
  }

  lemma FifoDispatch(s: State, p: nat, j: nat)
    requires Inv(s) && p < |s.pcbs| && j < |s.pcbs|
    requires Ready(s).pcbs[p].phase == Waiting && IsLeast(Fifo, Ready(s).pcbs, p) && Live(s.pcbs[j])
    ensures First(s.pcbs, p, j)
  {
    ReadyPcbs(s, p);
    ReadyPcbs(s, j);
    assert PhaseOk(s, p) && PhaseOk(s, j);
  }

  lemma FifoHandlerKeeps(s: State)
    requires FifoInv(s) && (s.cpu.Process? ==> s.quantum < Sum(Weight, s.pcbs))
    ensures FifoInv(Handler(Fifo, s))
    ensures s.cpu.Process? ==> Handler(Fifo, s).cpu == s.cpu
  {
    HandlerKeeps(Fifo, s);
    HandlerSameJobs(Fifo, s);
    if AnyWaiting(Ready(s).pcbs) {
      var p := BusyHandler(Fifo, s);
      var t := Switch(Ready(s), p);
      ReadyPcbs(s, s.current);
      assert PhaseOk(s, s.current);
      FifoStillFirst(s, t, p);
      if s.cpu.Process? {
        FifoDispatch(s, p, s.current);
        assert First(s.pcbs, s.current, p) by {
          ReadyPcbs(s, p);
        }
      }
    } else {
      IdleHandler(Fifo, s);
    }
  }

  lemma FifoStillFirst(s: State, t: State, p: nat)
    requires FifoInv(s) && Inv(t) && p < |s.pcbs| && t == Switch(Ready(s), p)
    requires Ready(s).pcbs[p].phase == Waiting && IsLeast(Fifo, Ready(s).pcbs, p)
    ensures FifoInv(t)
  {
    forall i | 0 <= i < |s.pcbs|
      ensures t.pcbs[i].creation == s.pcbs[i].creation && (Live(t.pcbs[i]) <==> Live(s.pcbs[i]))
    {
      ReadyPcbs(s, i);
    }
    forall j | 0 <= j < |t.pcbs| && Live(t.pcbs[j]) ensures First(t.pcbs, p, j) {
      FifoDispatch(s, p, j);
    }
    forall k, j | 0 <= k < |s.finished| && 0 <= j < |t.pcbs| && Live(t.pcbs[j])
      ensures First(t.pcbs, t.finished[k], j)
    {
      assert First(s.pcbs, s.finished[k], j);
    }
    forall k, l | 0 <= k < l < |s.finished|
      ensures First(t.pcbs, t.finished[k], t.finished[l]) && t.finished[k] != t.finished[l]
    {
      assert First(s.pcbs, s.finished[k], s.finished[l]);
    }
  }

  lemma FifoOwnStep(s: State, b: Pcb)
    requires FifoInv(s) && s.cpu.Process? && Inv(OwnStep(s, b))
    requires b.phase == Running && b.creation == s.pcbs[s.current].creation
    ensures FifoInv(OwnStep(s, b))
  {
    var t := OwnStep(s, b);
    assert PhaseOk(s, s.current);
    forall j | 0 <= j < |t.pcbs| && Live(t.pcbs[j]) ensures First(t.pcbs, t.current, j) {
      assert First(s.pcbs, s.current, j);
    }
    forall k, j | 0 <= k < |t.finished| && 0 <= j < |t.pcbs| && Live(t.pcbs[j])
      ensures First(t.pcbs, t.finished[k], j)
    {
      assert First(s.pcbs, s.finished[k], j);
    }
    forall k, l | 0 <= k < l < |t.finished|
      ensures First(t.pcbs, t.finished[k], t.finished[l]) && t.finished[k] != t.finished[l]
    {
      assert First(s.pcbs, s.finished[k], s.finished[l]);
    }
  }

  lemma FifoTerminate(s: State, t: State)
    requires FifoInv(s) && s.cpu.Process? && Inv(t)
    requires t == s.(pcbs := SetPhase(s.pcbs, s.current, Terminated), cpu := Main, finished := s.finished + [s.current])
    ensures FifoInv(t)
  {
    assert PhaseOk(s, s.current);
    forall k, j | 0 <= k < |t.finished| && 0 <= j < |t.pcbs| && Live(t.pcbs[j])
      ensures First(t.pcbs, t.finished[k], j)
    {
      if k < |s.finished| {
        assert First(s.pcbs, s.finished[k], j);
      } else {
        assert First(s.pcbs, s.current, j);
      }
    }
    forall k, l | 0 <= k < l < |t.finished|
      ensures First(t.pcbs, t.finished[k], t.finished[l]) && t.finished[k] != t.finished[l]
    {
      if l < |s.finished| {
        assert First(s.pcbs, s.finished[k], s.finished[l]);
      } else {
        assert First(s.pcbs, s.finished[k], s.current);
      }
    }
  }

  /** The guard of fifo never fires: when it is tested, the interrupted process has just been demoted. */
  lemma FifoGuardIdle(s: State)
    requires Inv(s)
    ensures |Ready(s).pcbs| == |s.pcbs| && !Stays(Fifo, Ready(s))
  {
    ReadyPcbs(s, s.current);
    assert PhaseOk(s, s.current);
  }

  /** FIFO keeps its order, and a process that has the CPU keeps it until it terminates. */
  lemma FifoStep(s: State, interrupt: bool)
    requires FifoInv(s)
    ensures FifoInv(Step(Fifo, s, interrupt))
    ensures s.cpu.Process? ==>
      var t := Step(Fifo, s, interrupt);
      t.cpu == s.cpu || (t.cpu == Main && t.finished == s.finished + [s.current])
  {
    StepKeeps(Fifo, s, interrupt);
    if s.cpu.Main? {
      if !AllTerminated(s.pcbs) {
        FifoHandlerKeeps(s);
      }
    } else {
      var b := s.pcbs[s.current];
      assert PcbOk(b) && PhaseOk(s, s.current);
      if b.ran {
        FifoOwnStep(s, Bump(b));
      } else if b.executed < b.workload {
        OwnStepKeeps(s, b.(ran := true));
        FifoOwnStep(s, b.(ran := true));
        FifoHandlerKeeps(OwnStep(s, b.(ran := true)));
      } else {
        FifoTerminate(s, Step(Fifo, s, interrupt));
      }
    }
  }

  lemma {:induction false} FifoAlways(bs: seq<Pcb>, alarms: seq<bool>)
    requires Fresh(bs) && bs != []
    ensures FifoInv(Reach(Fifo, bs, alarms))
    decreases |alarms|
  {
    InitInv(bs);
    if alarms != [] {
      FifoAlways(bs, alarms[..|alarms| - 1]);
      FifoStep(Reach(Fifo, bs, alarms[..|alarms| - 1]), alarms[|alarms| - 1]);
    }
  }

  /** Under FIFO processes finish in increasing (creation quantum, index) order, for every interrupt pattern. */
  lemma FifoFinishesInOrder(bs: seq<Pcb>, alarms: seq<bool>, k: nat, l: nat)
    requires Fresh(bs) && bs != []
    ensures var f := Reach(Fifo, bs, alarms).finished;
            k < l < |f| ==>
              && f[k] < |bs| && f[l] < |bs| && f[k] != f[l]
              && (bs[f[k]].creation < bs[f[l]].creation
                  || (bs[f[k]].creation == bs[f[l]].creation && f[k] < f[l]))
  {
    InitInv(bs);
    FifoAlways(bs, alarms);
    ExecSameJobs(Fifo, Init(bs), alarms);
    var s := Reach(Fifo, bs, alarms);
    if k < l < |s.finished| {
      var i, j := s.finished[k], s.finished[l];
      assert SameJob(Init(bs).pcbs[i], s.pcbs[i]) && SameJob(Init(bs).pcbs[j], s.pcbs[j]);
      assert First(s.pcbs, i, j);
    }
  }

  // ----- Round robin -----

  /** A decision goes to w, or comes strictly nearer to it. */
  lemma RrComesNearer(bs: seq<Pcb>, c: nat, p: nat, w: nat)
    requires c < |bs| && IsNext(bs, c, p) && w < |bs| && bs[w].phase == Waiting
    ensures p == w || 0 < Distance(p, w, |bs|) <= Distance(c, w, |bs|) - 1
  {
  }

  lemma StillUnfinished(algo: Algo, s: State, interrupt: bool, i: nat)
    requires Inv(s) && i < |s.pcbs| && s.pcbs[i].phase == Waiting
    ensures var t := Step(algo, s, interrupt);
            |t.pcbs| == |s.pcbs| && (t.pcbs[i].phase == Waiting || t.pcbs[i].phase == Running)
  {
    DispatchSelects(algo, s, interrupt);
    ReadyPcbs(s, i);
    assert PhaseOk(s, i) && PhaseOk(s, s.current);
  }

  /** While w waits undispatched, every dispatch uses up part of the way from the current process to w. */
  lemma {:induction false} RrProgress(s: State, alarms: seq<bool>, w: nat)
    requires Inv(s) && w < |s.pcbs| && s.pcbs[w].phase == Waiting
    requires forall k :: 0 <= k <= |alarms| ==> !RunsAt(s, alarms, k, w)
    ensures var t := Exec(Rr, s, alarms);
            && w < |t.pcbs| == |s.pcbs| && t.pcbs[w].phase == Waiting
            && t.quantum + Distance(t.current, w, |s.pcbs|) <= s.quantum + Distance(s.current, w, |s.pcbs|)
    decreases |alarms|
  {
    if alarms != [] {
      var before, alarm := alarms[..|alarms| - 1], alarms[|alarms| - 1];
      forall k | 0 <= k <= |before| ensures !RunsAt(s, before, k, w) {
        assert before[..k] == alarms[..k];
        assert !RunsAt(s, alarms, k, w);
      }
      RrProgress(s, before, w);
      var r := Exec(Rr, s, before);
      assert alarms[..|alarms|] == alarms;
      assert !RunsAt(s, alarms, |alarms|, w);
      StillUnfinished(Rr, r, alarm, w);
      DispatchSelects(Rr, r, alarm);
      if Step(Rr, r, alarm).quantum != r.quantum {
        RrDecision(r, alarm, w);
      }
    }
  }

  lemma RrDecision(r: State, alarm: bool, w: nat)
    requires Inv(r) && w < |r.pcbs| && r.pcbs[w].phase == Waiting
    requires var t := Step(Rr, r, alarm); t.quantum != r.quantum
    ensures var t := Step(Rr, r, alarm);
            t.current == w || Distance(t.current, w, |r.pcbs|) <= Distance(r.current, w, |r.pcbs|) - 1
  {
    var t := Step(Rr, r, alarm);
    DispatchSelects(Rr, r, alarm);
    assert PhaseOk(r, w) && PhaseOk(r, r.current);
    if r.cpu.Main? {
      ReadyPcbs(r, w);
    }
    assert Seen(r).pcbs[w].phase == Waiting;
    RrComesNearer(Seen(r).pcbs, r.current, t.current, w);
  }

  ghost predicate RunsAt(s: State, alarms: seq<bool>, k: nat, w: nat)
    requires Inv(s) && k <= |alarms|
  {
    var t := Exec(Rr, s, alarms[..k]);
    w < |t.pcbs| && t.pcbs[w].phase == Running
  }

  /** No starvation: a waiting process runs before num_processes further dispatches are over. */
  lemma {:induction false} RrDispatches(s: State, alarms: seq<bool>, w: nat)
    requires Inv(s) && w < |s.pcbs| && s.pcbs[w].phase == Waiting
    ensures Exec(Rr, s, alarms).quantum >= s.quantum + |s.pcbs| ==>
            exists k :: 0 <= k <= |alarms| && RunsAt(s, alarms, k, w)
  {
    if forall k :: 0 <= k <= |alarms| ==> !RunsAt(s, alarms, k, w) {
      RrProgress(s, alarms, w);
    }
  }
}
