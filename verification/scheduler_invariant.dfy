/**
 * What every step of the scheduler keeps.
 */
module SchedulerInvariant {
  import opened Basics
  import opened SchedulerModel

  // ----- Sums over the process table -----

  lemma {:induction false} SumUpdate(f: Pcb -> nat, bs: seq<Pcb>, i: nat, b: Pcb)
    requires i < |bs|
    ensures Sum(f, bs[i := b]) == Sum(f, bs) - f(bs[i]) + f(b)
    decreases |bs|
  {
    var n := |bs| - 1;
    if i == n {
      assert bs[i := b][..n] == bs[..n];
    } else {
      SumUpdate(f, bs[..n], i, b);
      assert bs[i := b][..n] == bs[..n][i := b];
    }
  }

  lemma {:induction false} SumSame(f: Pcb -> nat, g: Pcb -> nat, bs: seq<Pcb>, cs: seq<Pcb>)
    requires |cs| == |bs|
    requires forall i :: 0 <= i < |bs| ==> f(bs[i]) == g(cs[i])
    ensures Sum(f, bs) == Sum(g, cs)
    decreases |bs|
  {
    if bs != [] {
      var n := |bs| - 1;
      SumSame(f, g, bs[..n], cs[..n]);
    }
  }

  lemma {:induction false} SumLess(f: Pcb -> nat, g: Pcb -> nat, bs: seq<Pcb>)
    requires forall i :: 0 <= i < |bs| ==> f(bs[i]) <= g(bs[i])
    ensures Sum(f, bs) <= Sum(g, bs)
    ensures Sum(f, bs) == Sum(g, bs) ==> forall i :: 0 <= i < |bs| ==> f(bs[i]) == g(bs[i])
    decreases |bs|
  {
    if bs != [] {
      var n := |bs| - 1;
      SumLess(f, g, bs[..n]);
      if Sum(f, bs) == Sum(g, bs) {
        forall i | 0 <= i < |bs| ensures f(bs[i]) == g(bs[i]) {
          if i < n {
            assert bs[..n][i] == bs[i];
          }
        }
      }
    }
  }

  // ----- interrupt_handler -----

  /** The table and the CPU as the handler's selection finds them. */
  function Ready(s: State): State
    requires s.current < |s.pcbs|
  {
    Arrive(Demote(s))
  }

  /** Arrivals and the demotion touch phases only, and only in the legal directions. */
  lemma ReadyPcbs(s: State, i: nat)
    requires Inv(s) && i < |s.pcbs|
    ensures |Ready(s).pcbs| == |s.pcbs|
    ensures var b, c := s.pcbs[i], Ready(s).pcbs[i];
            && c == b.(phase := c.phase)
            && c.phase == (if b.phase == Created && b.creation == s.quantum then Waiting
                           else if b.phase == Running then Waiting else b.phase)
  {
    assert PhaseOk(s, i);
  }

  lemma DispatchPhases(algo: Algo, s: State, p: nat, i: nat)
    requires Inv(s) && p < |s.pcbs| && Ready(s).pcbs[p].phase == Waiting && i < |s.pcbs|
    ensures var t := Switch(Ready(s), p);
            PcbOk(t.pcbs[i]) && PhaseOk(t, i)
  {
    assert PcbOk(s.pcbs[i]) && PhaseOk(s, i) && PhaseOk(s, p);
    ReadyPcbs(s, i);
    ReadyPcbs(s, p);
    if s.cpu.Process? {
      assert PhaseOk(s, s.cpu.pid);
    }
  }

  /** Admitting the arrivals does not change what the sums count. */
  lemma ReadySums(s: State)
    requires Inv(s)
    ensures var r, d := Ready(s).pcbs, Demote(s).pcbs;
            Sum(Done, d) == Sum(Done, r) && Sum(Active, d) == Sum(Active, r) && Sum(Weight, d) == Sum(Weight, r)
  {
    var r := Ready(s).pcbs;
    var d := Demote(s).pcbs;
    forall i | 0 <= i < |r|
      ensures Done(d[i]) == Done(r[i]) && Active(d[i]) == Active(r[i]) && Weight(d[i]) == Weight(r[i])
    {
      ReadyPcbs(s, i);
      assert PhaseOk(s, i);
    }
    SumSame(Done, Done, d, r);
    SumSame(Active, Active, d, r);
    SumSame(Weight, Weight, d, r);
  }

  lemma DispatchSums(s: State, p: nat)
    requires Inv(s) && p < |s.pcbs| && Ready(s).pcbs[p].phase == Waiting
    ensures var t := Switch(Ready(s), p);
            var freed := if s.cpu.Process? then 1 else 0;
            && Sum(Active, t.pcbs) == Sum(Active, s.pcbs) + 1 - freed
            && Sum(Weight, t.pcbs) == Sum(Weight, s.pcbs) + 1 - freed
            && Sum(Done, t.pcbs) == Sum(Done, s.pcbs)
  {
    ReadySums(s);
    var r := Ready(s).pcbs;
    assert PhaseOk(s, s.current);
    SumUpdate(Done, s.pcbs, s.current, s.pcbs[s.current].(phase := Waiting));
    SumUpdate(Active, s.pcbs, s.current, s.pcbs[s.current].(phase := Waiting));
    SumUpdate(Weight, s.pcbs, s.current, s.pcbs[s.current].(phase := Waiting));
    SumUpdate(Done, r, p, r[p].(phase := Running));
    SumUpdate(Active, r, p, r[p].(phase := Running));
    SumUpdate(Weight, r, p, r[p].(phase := Running));
  }

  /** With nothing to run the handler changes nothing. */
  lemma IdleHandler(algo: Algo, s: State)
    requires Inv(s) && !AnyWaiting(Ready(s).pcbs)
    ensures Handler(algo, s) == s && s.cpu.Main?
  {
    var r := Ready(s);
    ReadyPcbs(s, s.current);
    assert PhaseOk(s, s.current);
    assert r.pcbs[s.current].phase != Waiting;
    forall i | 0 <= i < |s.pcbs| ensures r.pcbs[i] == s.pcbs[i] {
      ReadyPcbs(s, i);
      assert r.pcbs[i].phase != Waiting;
      assert PhaseOk(s, i);
    }
    assert r.pcbs == s.pcbs;
  }

  /** Otherwise it dispatches a process that was waiting. */
  lemma BusyHandler(algo: Algo, s: State) returns (p: nat)
    requires Inv(s) && AnyWaiting(Ready(s).pcbs)
    ensures p < |s.pcbs| && Ready(s).pcbs[p].phase == Waiting
    ensures Selects(algo, Ready(s), p) && Handler(algo, s) == Switch(Ready(s), p)
  {
    var r := Ready(s);
    p := Choice(algo, r).value;
    ReadyPcbs(s, s.current);
    assert PhaseOk(s, s.current);
    assert r.pcbs[s.current].phase != Running;
  }

  lemma HandlerKeeps(algo: Algo, s: State)
    requires Inv(s) && (s.cpu.Process? ==> s.quantum < Sum(Weight, s.pcbs))
    ensures Inv(Handler(algo, s))
  {
    if AnyWaiting(Ready(s).pcbs) {
      var p := BusyHandler(algo, s);
      var t := Switch(Ready(s), p);
      forall i | 0 <= i < |t.pcbs| ensures PcbOk(t.pcbs[i]) && PhaseOk(t, i) {
        DispatchPhases(algo, s, p, i);
      }
      DispatchSums(s, p);
    } else {
      IdleHandler(algo, s);
    }
  }

  /**
   * interrupt_handler as coded, for whatever fifo's pid is when it is unset; a
   * process that does not exist trips an assertion.
   */
  function HandlerAsCoded(algo: Algo, s: State, unset: int): Option<State>
    requires s.current < |s.pcbs|
  {
    var r := Ready(s);
    match Choice(algo, r)
    case Some(p) => Some(Switch(r, p))
    case None =>
      match Fallback(algo, unset)
      case None => Some(r)
      case Some(pid) => if 0 <= pid < |r.pcbs| then Some(Resumed(r, pid)) else None
  }

  /** Without a waiting process, every process there is to switch to is a dead one, or one that was not created yet. */
  lemma ResumedBreaks(s: State, pid: nat)
    requires Inv(s) && !AnyWaiting(Ready(s).pcbs) && pid < |s.pcbs|
    ensures pid < |Ready(s).pcbs| && !Inv(Resumed(Ready(s), pid))
  {
    var r := Ready(s);
    ReadyPcbs(s, pid);
    assert r.pcbs[pid].phase != Waiting;
    assert PhaseOk(s, pid);
    var t := Resumed(r, pid);
    assert !PhaseOk(t, pid);
  }

  /**
   * The handler keeps the invariant if and only if something waits or the
   * algorithm is basic or rr; then it is the handler of the model.
   */
  lemma HandlerKeepsExact(algo: Algo, s: State, unset: int)
    requires Inv(s) && (s.cpu.Process? ==> s.quantum < Sum(Weight, s.pcbs))
    ensures var t := HandlerAsCoded(algo, s, unset);
            && (t.Some? && Inv(t.value) <==> AnyWaiting(Ready(s).pcbs) || algo.Basic? || algo.Rr?)
            && (AnyWaiting(Ready(s).pcbs) || algo.Basic? || algo.Rr? ==> t == Some(Handler(algo, s)))
  {
    HandlerKeeps(algo, s);
    var pid := if algo.Fifo? then unset else 0;
    if AnyWaiting(Ready(s).pcbs) {
      var p := BusyHandler(algo, s);
    } else {
      IdleHandler(algo, s);
      NothingChosen(algo, s);
      if 0 <= pid < |s.pcbs| {
        ResumedBreaks(s, pid);
      }
    }
  }

  lemma NothingChosen(algo: Algo, s: State)
    requires Inv(s) && !AnyWaiting(Ready(s).pcbs)
    ensures Choice(algo, Ready(s)) == None
  {
    ReadyPcbs(s, s.current);
    assert PhaseOk(s, s.current);
    assert Ready(s).pcbs[s.current].phase != Waiting;
  }

  // ----- process() -----

  /** The current process changes its own block only. */
  function OwnStep(s: State, b: Pcb): State
    requires s.current < |s.pcbs|
  {
    s.(pcbs := s.pcbs[s.current := b])
  }

  lemma OwnStepKeeps(s: State, b: Pcb)
    requires Inv(s) && s.cpu.Process? && PcbOk(b)
    requires b.phase == Running && b.creation == s.pcbs[s.current].creation
    requires Weight(s.pcbs[s.current]) <= Weight(b)
    ensures Inv(OwnStep(s, b))
    ensures Sum(Weight, OwnStep(s, b).pcbs) == Sum(Weight, s.pcbs) + Weight(b) - Weight(s.pcbs[s.current])
  {
    var t := OwnStep(s, b);
    forall i | 0 <= i < |t.pcbs| ensures PcbOk(t.pcbs[i]) && PhaseOk(t, i) {
      assert PcbOk(s.pcbs[i]) && PhaseOk(s, i);
    }
    assert PhaseOk(s, s.current);
    SumUpdate(Weight, s.pcbs, s.current, b);
    SumUpdate(Active, s.pcbs, s.current, b);
  }

  lemma BumpOk(b: Pcb)
    requires PcbOk(b) && b.ran
    ensures PcbOk(Bump(b)) && Weight(Bump(b)) == Weight(b) && Done(Bump(b)) == Done(b)
  {
  }

  lemma TerminateKeeps(s: State)
    requires Inv(s) && s.cpu.Process?
    requires s.pcbs[s.current].executed == s.pcbs[s.current].workload
    ensures Inv(s.(pcbs := SetPhase(s.pcbs, s.current, Terminated), cpu := Main, finished := s.finished + [s.current]))
  {
    var t := s.(pcbs := SetPhase(s.pcbs, s.current, Terminated), cpu := Main, finished := s.finished + [s.current]);
    forall i | 0 <= i < |t.pcbs| ensures PcbOk(t.pcbs[i]) && PhaseOk(t, i) {
      assert PcbOk(s.pcbs[i]) && PhaseOk(s, i) && PhaseOk(s, s.current);
      assert i in t.finished <==> i in s.finished || i == s.current;
    }
    assert PhaseOk(s, s.current);
    SumUpdate(Weight, s.pcbs, s.current, s.pcbs[s.current].(phase := Terminated));
    SumUpdate(Active, s.pcbs, s.current, s.pcbs[s.current].(phase := Terminated));
  }

  /**
   * Every step keeps the invariant, whether or not the alarm fires. A call of
   * fifo, sjf, psjf or sctf that finds nothing waiting is no step of the model:
   * HandlerKeepsExact is about it.
   */
  lemma StepKeeps(algo: Algo, s: State, interrupt: bool)
    requires Inv(s)
    ensures Inv(Step(algo, s, interrupt))
  {
    if s.cpu.Main? {
      if !AllTerminated(s.pcbs) {
        HandlerKeeps(algo, s);
      }
    } else {
      var b := s.pcbs[s.current];
      assert PcbOk(b) && PhaseOk(s, s.current);
      if b.ran {
        BumpOk(b);
        OwnStepKeeps(s, Bump(b));
      } else if b.executed < b.workload {
        OwnStepKeeps(s, b.(ran := true));
        HandlerKeeps(algo, OwnStep(s, b.(ran := true)));
      } else {
        TerminateKeeps(s);
      }
    }
  }

  lemma InitInv(bs: seq<Pcb>)
    requires Fresh(bs) && bs != []
    ensures Inv(Init(bs))
  {
    var s := Init(bs);
    forall i | 0 <= i < |bs| ensures PcbOk(s.pcbs[i]) && PhaseOk(s, i) {
    }
    SumZero(bs);
  }

  lemma {:induction false} SumZero(bs: seq<Pcb>)
    requires Fresh(bs)
    ensures Sum(Active, bs) == 0 && Sum(Weight, bs) == 0
    decreases |bs|
  {
    if bs != [] {
      SumZero(bs[..|bs| - 1]);
    }
  }
}
