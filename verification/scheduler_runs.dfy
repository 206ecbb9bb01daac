/**
 * Whole runs of the scheduler, for every interrupt pattern: safety, the
 * dispatch bound, termination, and when the scheduler never runs dry.
 */
module SchedulerRuns {
  import opened SchedulerModel
  import opened SchedulerInvariant

  /** The state after one step per element of alarms. */
  ghost function Exec(algo: Algo, s: State, alarms: seq<bool>): (t: State)
    requires Inv(s)
    ensures Inv(t)
    decreases |alarms|
  {
    if alarms == [] then s
    else
      var before := Exec(algo, s, alarms[..|alarms| - 1]);
      StepKeeps(algo, before, alarms[|alarms| - 1]);
      Step(algo, before, alarms[|alarms| - 1])
  }

  /** The run of the program on the processes bs. */
  ghost function Reach(algo: Algo, bs: seq<Pcb>, alarms: seq<bool>): State
    requires Fresh(bs) && bs != []
  {
    InitInv(bs);
    Exec(algo, Init(bs), alarms)
  }

  lemma ExecStep(algo: Algo, s: State, alarms: seq<bool>, front: seq<bool>, last: bool)
    requires Inv(s) && alarms == front + [last]
    ensures Exec(algo, s, alarms) == Step(algo, Exec(algo, s, front), last)
  {
    assert alarms[..|alarms| - 1] == front;
  }

  lemma {:induction false} ExecAppend(algo: Algo, s: State, a: seq<bool>, b: seq<bool>)
    requires Inv(s)
    ensures Exec(algo, s, a + b) == Exec(algo, Exec(algo, s, a), b)
    decreases |b|
  {
    if b == [] {
      assert a + b == a;
    } else {
      var last, front := b[|b| - 1], b[..|b| - 1];
      assert b == front + [last] && a + b == (a + front) + [last];
      ExecAppend(algo, s, a, front);
      ExecStep(algo, s, a + b, a + front, last);
      ExecStep(algo, Exec(algo, s, a), b, front, last);
    }
  }

  /**
   * At most one process runs; it is the current one, and it runs exactly when
   * main does not. Runs of fifo, sjf, psjf and sctf are followed up to the first
   * call that finds nothing waiting.
   */
  lemma OneRunning(algo: Algo, bs: seq<Pcb>, alarms: seq<bool>, i: nat)
    requires Fresh(bs) && bs != []
    ensures var s := Reach(algo, bs, alarms);
            && |s.pcbs| >= 1
            && (i < |s.pcbs| && s.pcbs[i].phase == Running ==> s.cpu == Process(i) && i == s.current)
            && (s.cpu.Process? ==> s.current < |s.pcbs| && s.pcbs[s.current].phase == Running)
  {
    var s := Reach(algo, bs, alarms);
    assert i < |s.pcbs| ==> PhaseOk(s, i);
    assert PhaseOk(s, s.current);
  }

  // ----- Work and dispatches are bounded -----

  function Quota(b: Pcb): nat { CHUNKS * b.workload + 1 }

  lemma WithinQuota(b: Pcb)
    requires PcbOk(b)
    ensures Weight(b) <= Quota(b)
  {
  }

  /** What never changes about a process. */
  predicate SameJob(b: Pcb, c: Pcb) { b.creation == c.creation && b.workload == c.workload }

  ghost predicate SameJobs(bs: seq<Pcb>, cs: seq<Pcb>) {
    |bs| == |cs| && forall i {:trigger SameJob(bs[i], cs[i])} :: 0 <= i < |bs| ==> SameJob(bs[i], cs[i])
  }

  lemma HandlerSameJobs(algo: Algo, s: State)
    requires Inv(s)
    ensures SameJobs(s.pcbs, Handler(algo, s).pcbs)
  {
    var t := Handler(algo, s);
    forall i | 0 <= i < |s.pcbs| ensures SameJob(s.pcbs[i], t.pcbs[i]) {
      ReadyPcbs(s, i);
    }
  }

  lemma StepSameJobs(algo: Algo, s: State, interrupt: bool)
    requires Inv(s)
    ensures SameJobs(s.pcbs, Step(algo, s, interrupt).pcbs)
  {
    var t := Step(algo, s, interrupt);
    if s.cpu.Main? {
      HandlerSameJobs(algo, s);
    } else {
      var b := s.pcbs[s.current];
      assert PcbOk(b) && PhaseOk(s, s.current);
      if !b.ran && b.executed < b.workload {
        OwnStepKeeps(s, b.(ran := true));
        HandlerSameJobs(algo, OwnStep(s, b.(ran := true)));
      }
      forall i | 0 <= i < |s.pcbs| ensures SameJob(s.pcbs[i], t.pcbs[i]) {
        if !b.ran && b.executed < b.workload {
          var r := OwnStep(s, b.(ran := true));
          assert SameJob(r.pcbs[i], Handler(algo, r).pcbs[i]);
        }
      }
    }
  }

  lemma {:induction false} ExecSameJobs(algo: Algo, s: State, alarms: seq<bool>)
    requires Inv(s)
    ensures SameJobs(s.pcbs, Exec(algo, s, alarms).pcbs)
    decreases |alarms|
  {
    if alarms == [] {
      forall i | 0 <= i < |s.pcbs| ensures SameJob(s.pcbs[i], s.pcbs[i]) {
      }
    } else {
      var r := Exec(algo, s, alarms[..|alarms| - 1]);
      ExecSameJobs(algo, s, alarms[..|alarms| - 1]);
      StepSameJobs(algo, r, alarms[|alarms| - 1]);
      var t := Exec(algo, s, alarms);
      forall i | 0 <= i < |s.pcbs| ensures SameJob(s.pcbs[i], t.pcbs[i]) {
        assert SameJob(s.pcbs[i], r.pcbs[i]) && SameJob(r.pcbs[i], t.pcbs[i]);
      }
    }
  }

  lemma {:induction false} SumQuota(bs: seq<Pcb>)
    ensures Sum(Quota, bs) == CHUNKS * Sum((b: Pcb) => b.workload, bs) + |bs|
    decreases |bs|
  {
    if bs != [] {
      SumQuota(bs[..|bs| - 1]);
    }
  }

  /**
   * No process executes more than its workload, a terminated one exactly its
   * workload, and the dispatches so far, which current_quantum counts, are at
   * most 20 per unit of work plus one per process. Again, runs of fifo, sjf,
   * psjf and sctf are followed up to the first call that finds nothing waiting.
   */
  lemma DispatchBound(algo: Algo, bs: seq<Pcb>, alarms: seq<bool>)
    requires Fresh(bs) && bs != []
    ensures var s := Reach(algo, bs, alarms);
            && |s.pcbs| == |bs|
            && s.quantum <= CHUNKS * Sum((b: Pcb) => b.workload, bs) + |bs|
            && forall i :: 0 <= i < |bs| ==>
                 && s.pcbs[i].executed <= s.pcbs[i].workload == bs[i].workload
                 && (s.pcbs[i].phase == Terminated ==> s.pcbs[i].executed == bs[i].workload)
  {
    InitInv(bs);
    var s := Reach(algo, bs, alarms);
    ExecSameJobs(algo, Init(bs), alarms);
    forall i | 0 <= i < |bs|
      ensures s.pcbs[i].workload == bs[i].workload && PcbOk(s.pcbs[i]) && Weight(s.pcbs[i]) <= Quota(s.pcbs[i])
    {
      assert SameJob(Init(bs).pcbs[i], s.pcbs[i]);
      assert PcbOk(s.pcbs[i]);
      WithinQuota(s.pcbs[i]);
    }
    SumLess(Weight, Quota, s.pcbs);
    SumSame(Quota, Quota, s.pcbs, bs);
    SumQuota(bs);
  }

  // ----- Every run ends -----

  /** Steps a process still has to take. */
  function Left(b: Pcb): nat {
    if b.phase == Terminated || b.workload < b.executed || CHUNKS <= b.chunk then 0
    else
      var chunks := CHUNKS * (b.workload - b.executed) - b.chunk;
      if chunks <= 0 then 2 else 2 * chunks + 2 - if b.ran then 1 else 0
  }

  ghost function Measure(s: State): nat { Sum(Left, s.pcbs) + if s.cpu.Main? then 1 else 0 }

  lemma DispatchLeft(s: State, p: nat)
    requires Inv(s) && p < |s.pcbs| && Ready(s).pcbs[p].phase == Waiting
    ensures Sum(Left, Switch(Ready(s), p).pcbs) == Sum(Left, s.pcbs)
  {
    var t := Switch(Ready(s), p);
    forall i | 0 <= i < |s.pcbs| ensures Left(s.pcbs[i]) == Left(t.pcbs[i]) {
      ReadyPcbs(s, i);
      assert PcbOk(s.pcbs[i]);
    }
    SumSame(Left, Left, s.pcbs, t.pcbs);
  }

  lemma BumpLeft(b: Pcb)
    requires PcbOk(b) && b.ran && b.phase == Running
    ensures Left(Bump(b)) < Left(b)
  {
  }

  /** Each step brings the end nearer, unless the run has ended or the scheduler is idle. */
  lemma StepProgress(algo: Algo, s: State, interrupt: bool)
    requires Inv(s) && !Idle(s) && !(s.cpu.Main? && AllTerminated(s.pcbs))
    ensures Measure(Step(algo, s, interrupt)) < Measure(s)
  {
    if s.cpu.Main? {
      var p := BusyHandler(algo, s);
      DispatchLeft(s, p);
    } else {
      ProcessProgress(algo, s, interrupt);
    }
  }

  lemma ProcessProgress(algo: Algo, s: State, interrupt: bool)
    requires Inv(s) && s.cpu.Process?
    ensures Measure(Step(algo, s, interrupt)) < Measure(s)
  {
    var b := s.pcbs[s.current];
    assert PcbOk(b) && PhaseOk(s, s.current);
    if b.ran {
      BumpLeft(b);
      SumUpdate(Left, s.pcbs, s.current, Bump(b));
    } else if b.executed < b.workload {
      var r := OwnStep(s, b.(ran := true));
      OwnStepKeeps(s, b.(ran := true));
      SumUpdate(Left, s.pcbs, s.current, b.(ran := true));
      ReadyPcbs(r, r.current);
      assert AnyWaiting(Ready(r).pcbs);
      var p := BusyHandler(algo, r);
      DispatchLeft(r, p);
    } else {
      SumUpdate(Left, s.pcbs, s.current, b.(phase := Terminated));
    }
  }
}
