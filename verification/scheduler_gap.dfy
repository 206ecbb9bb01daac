/**
 * When does the scheduler always find a process to run?
 */
module SchedulerGap {
  import opened SchedulerModel
  import opened SchedulerInvariant
  import opened SchedulerRuns

  function CreatedBy(q: nat): Pcb -> nat {
    (b: Pcb) => if b.creation <= q then 1 else 0
  }

  /** For every quantum q below the number of processes, more than q processes are created by then. */
  ghost predicate NoGap(bs: seq<Pcb>) {
    forall q :: 0 <= q < |bs| ==> q < Sum(CreatedBy(q), bs)
  }

  function One(): Pcb -> nat { (b: Pcb) => 1 }

  lemma {:induction false} SumOne(bs: seq<Pcb>)
    ensures Sum(One(), bs) == |bs|
    decreases |bs|
  {
    if bs != [] {
      SumOne(bs[..|bs| - 1]);
    }
  }

  /** In an idle state the terminated processes are exactly those created so far. */
  lemma IdlePhases(s: State, i: nat)
    requires Inv(s) && Idle(s) && i < |s.pcbs|
    ensures s.pcbs[i].phase == Terminated <==> s.pcbs[i].creation <= s.quantum
    ensures Active(s.pcbs[i]) == CreatedBy(s.quantum)(s.pcbs[i])
  {
    ReadyPcbs(s, i);
    assert PhaseOk(s, i);
    assert Ready(s).pcbs[i].phase != Waiting;
  }

  lemma NeverIdle(s: State)
    requires Inv(s) && NoGap(s.pcbs)
    ensures !Idle(s)
  {
    if Idle(s) {
      var n, q := |s.pcbs|, s.quantum;
      forall i | 0 <= i < n ensures Active(s.pcbs[i]) == CreatedBy(q)(s.pcbs[i]) {
        IdlePhases(s, i);
      }
      SumSame(Active, CreatedBy(q), s.pcbs, s.pcbs);
      SumOne(s.pcbs);
      SumLess(CreatedBy(n - 1), One(), s.pcbs);
      assert n - 1 < Sum(CreatedBy(n - 1), s.pcbs);
      forall i | 0 <= i < n ensures s.pcbs[i].phase == Terminated {
        IdlePhases(s, i);
      }
    }
  }

  lemma NoGapKept(bs: seq<Pcb>, cs: seq<Pcb>)
    requires NoGap(bs) && SameJobs(bs, cs)
    ensures NoGap(cs)
  {
    forall q | 0 <= q < |cs| ensures q < Sum(CreatedBy(q), cs) {
      forall i | 0 <= i < |bs| ensures CreatedBy(q)(bs[i]) == CreatedBy(q)(cs[i]) {
        assert SameJob(bs[i], cs[i]);
      }
      SumSame(CreatedBy(q), CreatedBy(q), bs, cs);
      assert q < Sum(CreatedBy(q), bs);
    }
  }

  // ----- A gap is met by the run without interrupts -----

  /** Left alone, the current process runs to its end; no dispatch happens on the way. */
  lemma {:induction false} RunQuietly(algo: Algo, s: State) returns (alarms: seq<bool>)
    requires Inv(s) && s.cpu.Process?
    ensures var t := Exec(algo, s, alarms);
            t.cpu.Main? && t.quantum == s.quantum && Sum(Active, t.pcbs) == Sum(Active, s.pcbs)
    decreases Measure(s)
  {
    var t := Step(algo, s, false);
    StepKeeps(algo, s, false);
    assert Exec(algo, s, [false]) == t by {
      assert [false][..0] == [];
    }
    assert PhaseOk(s, s.current) && PcbOk(s.pcbs[s.current]);
    SumUpdate(Active, s.pcbs, s.current, t.pcbs[s.current]);
    if t.cpu.Main? {
      alarms := [false];
    } else {
      ProcessProgress(algo, s, false);
      var rest := RunQuietly(algo, t);
      alarms := [false] + rest;
      ExecAppend(algo, s, [false], rest);
    }
  }

  /** Without interrupts, k dispatches finish k processes, unless the scheduler went idle before. */
  lemma {:induction false} FinishInTurn(algo: Algo, bs: seq<Pcb>, k: nat) returns (alarms: seq<bool>)
    requires Fresh(bs) && bs != [] && k < |bs|
    ensures var s := Reach(algo, bs, alarms);
            Idle(s) || (s.cpu.Main? && s.quantum == k && Sum(Active, s.pcbs) == k)
  {
    if k == 0 {
      alarms := [];
      InitInv(bs);
      SumZero(bs);
    } else {
      var before := FinishInTurn(algo, bs, k - 1);
      var s := Reach(algo, bs, before);
      if Idle(s) {
        alarms := before;
      } else {
        NotAllDone(algo, bs, before);
        alarms := FinishOne(algo, bs, before);
      }
    }
  }

  lemma NotAllDone(algo: Algo, bs: seq<Pcb>, alarms: seq<bool>)
    requires Fresh(bs) && bs != []
    requires var s := Reach(algo, bs, alarms); Sum(Active, s.pcbs) < |bs|
    ensures var s := Reach(algo, bs, alarms); |s.pcbs| == |bs| && !AllTerminated(s.pcbs)
  {
    InitInv(bs);
    var s := Reach(algo, bs, alarms);
    ExecSameJobs(algo, Init(bs), alarms);
    if AllTerminated(s.pcbs) {
      SumSame(Active, One(), s.pcbs, s.pcbs);
      SumOne(s.pcbs);
    }
  }

  lemma FinishOne(algo: Algo, bs: seq<Pcb>, before: seq<bool>) returns (alarms: seq<bool>)
    requires Fresh(bs) && bs != []
    requires var s := Reach(algo, bs, before); s.cpu.Main? && !Idle(s) && !AllTerminated(s.pcbs)
    ensures var s, t := Reach(algo, bs, before), Reach(algo, bs, alarms);
            t.cpu.Main? && t.quantum == s.quantum + 1 && Sum(Active, t.pcbs) == Sum(Active, s.pcbs) + 1
  {
    InitInv(bs);
    var s := Reach(algo, bs, before);
    var p := BusyHandler(algo, s);
    DispatchSums(s, p);
    StepKeeps(algo, s, false);
    var t := Step(algo, s, false);
    var rest := RunQuietly(algo, t);
    assert (before + [false])[..|before|] == before;
    ExecAppend(algo, Init(bs), before + [false], rest);
    alarms := before + [false] + rest;
  }

  lemma GapReached(algo: Algo, bs: seq<Pcb>, q: nat) returns (alarms: seq<bool>)
    requires Fresh(bs) && bs != [] && q < |bs| && Sum(CreatedBy(q), bs) <= q
    ensures Idle(Reach(algo, bs, alarms))
  {
    InitInv(bs);
    alarms := FinishInTurn(algo, bs, q);
    var s := Reach(algo, bs, alarms);
    if !Idle(s) {
      NotAllDone(algo, bs, alarms);
      ExecSameJobs(algo, Init(bs), alarms);
      var w :| 0 <= w < |s.pcbs| && Ready(s).pcbs[w].phase == Waiting;
      ReadyPcbs(s, w);
      assert PhaseOk(s, w);
      assert Active(s.pcbs[w]) < CreatedBy(q)(s.pcbs[w]);
      forall i | 0 <= i < |bs| ensures Active(s.pcbs[i]) <= CreatedBy(q)(s.pcbs[i]) == CreatedBy(q)(bs[i]) {
        assert PhaseOk(s, i) && SameJob(Init(bs).pcbs[i], s.pcbs[i]);
      }
      SumSame(CreatedBy(q), CreatedBy(q), s.pcbs, bs);
      SumLess(Active, CreatedBy(q), s.pcbs);
    }
  }

  /** The scheduler never runs dry, whatever the interrupts, if and only if the creation quanta leave no gap. */
  lemma NoGapExact(algo: Algo, bs: seq<Pcb>)
    requires Fresh(bs) && bs != []
    ensures NoGap(bs) <==> forall alarms :: !Idle(Reach(algo, bs, alarms))
  {
    if NoGap(bs) {
      forall alarms ensures !Idle(Reach(algo, bs, alarms)) {
        InitInv(bs);
        ExecSameJobs(algo, Init(bs), alarms);
        NoGapKept(bs, Reach(algo, bs, alarms).pcbs);
        NeverIdle(Reach(algo, bs, alarms));
      }
    } else {
      var q :| 0 <= q < |bs| && Sum(CreatedBy(q), bs) <= q;
      var alarms := GapReached(algo, bs, q);
    }
  }

  function Late(): Pcb { Pcb(1, 1, 0, Created, 0, false) }

  lemma LateIsIdle(bs: seq<Pcb>)
    requires |bs| == 1 && bs[0] == Late()
    ensures Fresh(bs) && Inv(Init(bs)) && Idle(Init(bs))
  {
    InitInv(bs);
    ReadyPcbs(Init(bs), 0);
    assert Init(bs).pcbs[0].phase == Created;
  }

  /** A single process created at quantum 1 is such a gap: main finds nothing to run from the start. */
  lemma GapExample(algo: Algo, bs: seq<Pcb>)
    requires bs == [Late()]
    ensures Fresh(bs) && !NoGap(bs) && Idle(Reach(algo, bs, []))
  {
    LateIsIdle(bs);
    var start := Reach(algo, bs, []);
    assert Idle(start);
    NoGapExact(algo, bs);
  }

  // ----- Every run ends -----

  ghost predicate Ended(s: State) { s.cpu.Main? && AllTerminated(s.pcbs) }

  /** While the run has not ended, each step uses up one unit of the measure. */
  lemma {:induction false} StepsUsed(algo: Algo, bs: seq<Pcb>, alarms: seq<bool>)
    requires Fresh(bs) && bs != [] && NoGap(bs)
    ensures var s := Reach(algo, bs, alarms);
            Ended(s) || Measure(s) + |alarms| <= Measure(Init(bs))
    decreases |alarms|
  {
    InitInv(bs);
    if alarms != [] {
      var before := alarms[..|alarms| - 1];
      StepsUsed(algo, bs, before);
      var s := Reach(algo, bs, before);
      ExecSameJobs(algo, Init(bs), before);
      NoGapKept(bs, s.pcbs);
      NeverIdle(s);
      if !Ended(s) {
        StepProgress(algo, s, alarms[|alarms| - 1]);
      }
    }
  }

  /** Without a gap every run ends, for every interrupt pattern, with all work done. */
  lemma EveryRunEnds(algo: Algo, bs: seq<Pcb>, alarms: seq<bool>)
    requires Fresh(bs) && bs != [] && NoGap(bs)
    requires |alarms| > Measure(Init(bs))
    ensures var s := Reach(algo, bs, alarms);
            && Ended(s) && |s.pcbs| == |bs|
            && forall i :: 0 <= i < |bs| ==> s.pcbs[i].executed == bs[i].workload
  {
    StepsUsed(algo, bs, alarms);
    DispatchBound(algo, bs, alarms);
  }

  lemma {:induction false} IdleStays(algo: Algo, s: State, alarms: seq<bool>)
    requires Inv(s) && Idle(s)
    ensures Exec(algo, s, alarms) == s
    decreases |alarms|
  {
    if alarms != [] {
      IdleStays(algo, s, alarms[..|alarms| - 1]);
      IdleHandler(algo, s);
    }
  }

  /** With a gap, some run of basic or rr never ends: main's loop spins without a dispatch. */
  lemma GapNeverEnds(algo: Algo, bs: seq<Pcb>) returns (alarms: seq<bool>)
    requires Fresh(bs) && bs != [] && !NoGap(bs) && (algo.Basic? || algo.Rr?)
    ensures forall more :: !Ended(Reach(algo, bs, alarms + more))
  {
    InitInv(bs);
    var q :| 0 <= q < |bs| && Sum(CreatedBy(q), bs) <= q;
    alarms := GapReached(algo, bs, q);
    forall more ensures !Ended(Reach(algo, bs, alarms + more)) {
      ExecAppend(algo, Init(bs), alarms, more);
      IdleStays(algo, Reach(algo, bs, alarms), more);
    }
  }
}
