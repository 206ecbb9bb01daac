/**
 * Project2/shell.c, exec: from the tokens of a command line to the commands
 * of a pipeline.
 */
module Splitter {
  import opened Basics

  datatype Command = Command(tokens: Option<seq<string>>, pipe: bool, file: Option<string>)

  const NO_COMMAND := Command(None, false, None)

  predicate IsPipe(t: string) { t != "" && t[0] == '|' }

  predicate IsRedirect(t: string) { t != "" && t[0] == '>' }

  predicate IsOperator(t: string) { IsPipe(t) || IsRedirect(t) }

  /** An operator the inner loops recognise: nothing is glued to it. */
  predicate Exact(t: string) { t == "|" || t == ">" }

  // ----- What exec computes -----

  /** The first operator at or after position k; the length if there is none. */
  function NextOperator(ts: seq<string>, k: nat): (e: nat)
    requires k <= |ts|
    ensures k <= e <= |ts| && (e < |ts| ==> IsOperator(ts[e]))
    ensures forall i :: k <= i < e ==> !IsOperator(ts[i])
    decreases |ts| - k
  {
    if k == |ts| || IsOperator(ts[k]) then k else NextOperator(ts, k + 1)
  }

  /**
   * The array slot after the redirection operator at e. For an operator with
   * text glued to it the loop index ends one slot further, which may lie past
   * the terminating NULL; stale is what that slot holds.
   */
  function FileAfter(ts: seq<string>, e: nat, stale: Option<string>): Option<string>
    requires e < |ts|
  {
    var slot := if Exact(ts[e]) then e + 1 else e + 2;
    if slot < |ts| then Some(ts[slot]) else if slot == |ts| then None else stale
  }

  /** The command that the operator at e closes; an inexact operator stays among its tokens. */
  function CommandAt(ts: seq<string>, e: nat, stale: Option<string>): Command
    requires e < |ts|
  {
    var args := if Exact(ts[e]) then ts[..e] else ts[..e] + [ts[e]];
    if IsPipe(ts[e]) then Command(Some(args), true, None)
    else Command(Some(args), false, FileAfter(ts, e, stale))
  }

  function Commands(ts: seq<string>, stale: Option<string>): seq<Command>
    decreases |ts|
  {
    var e := NextOperator(ts, 0);
    if e == |ts| then [Command(Some(ts), false, None)]
    else [CommandAt(ts, e, stale)] + Commands(ts[e + 1..], stale)
  }

  lemma NextOperatorUnique(ts: seq<string>, e: nat)
    requires e <= |ts| && (e < |ts| ==> IsOperator(ts[e]))
    requires forall i :: 0 <= i < e ==> !IsOperator(ts[i])
    ensures NextOperator(ts, 0) == e
  {
  }

  /** The loop that copies a command's tokens up to the operator at t. */
  method CopyTokens(ts: seq<string>, start: nat, t: nat, op: string) returns (copied: seq<string>, current: nat)
    requires start <= t < |ts| && IsOperator(ts[t])
    requires op == (if IsPipe(ts[t]) then "|" else ">")
    requires forall i :: start <= i < t ==> !IsOperator(ts[i])
    ensures copied == if ts[t] == op then ts[start..t] else ts[start..t] + [ts[t]]
    ensures current == if ts[t] == op then t else t + 1
  {
    copied, current := [], start;
    while current <= t
      invariant start <= current <= t + 1
      invariant current <= t ==> copied == ts[start..current]
      invariant current == t + 1 ==> ts[t] != op && copied == ts[start..t] + [ts[t]]
    {
      if ts[current] == op {
        break;
      }
      copied := copied + [ts[current]];
      current := current + 1;
    }
  }

  /** The commands of the rest of the tokens, when its first operator stands at t. */
  lemma CommandsStep(ts: seq<string>, start: nat, t: nat, stale: Option<string>)
    requires start <= t < |ts| && IsOperator(ts[t])
    requires forall i :: start <= i < t ==> !IsOperator(ts[i])
    ensures Commands(ts[start..], stale) == [ClosedAt(ts, start, t, stale)] + Commands(ts[t + 1..], stale)
  {
    var rest, e := ts[start..], t - start;
    NextOperatorUnique(rest, e);
    assert rest[e + 1..] == ts[t + 1..];
    ClosedIsCommandAt(ts, start, t, stale);
  }

  lemma ClosedIsCommandAt(ts: seq<string>, start: nat, t: nat, stale: Option<string>)
    requires start <= t < |ts| && IsOperator(ts[t])
    ensures CommandAt(ts[start..], t - start, stale) == ClosedAt(ts, start, t, stale)
  {
    assert ts[start..][..t - start] == ts[start..t];
  }

  lemma CommandsLast(ts: seq<string>, start: nat, stale: Option<string>)
    requires start <= |ts| && forall i :: start <= i < |ts| ==> !IsOperator(ts[i])
    ensures Commands(ts[start..], stale) == [Command(Some(ts[start..]), false, None)]
  {
    NextOperatorUnique(ts[start..], |ts| - start);
  }

  /** The command closed by the operator at t, when the stage began at start. */
  function ClosedAt(ts: seq<string>, start: nat, t: nat, stale: Option<string>): Command
    requires start <= t < |ts|
  {
    var op := if IsPipe(ts[t]) then "|" else ">";
    var args := if ts[t] == op then ts[start..t] else ts[start..t] + [ts[t]];
    Command(Some(args), IsPipe(ts[t]), if IsPipe(ts[t]) then None else FileAfter(ts, t, stale))
  }

  /** Before token t is looked at: index commands are stored, the open stage began at start. */
  ghost predicate Parsed(ts: seq<string>, cs: seq<Command>, index: nat, start: nat, t: nat, stale: Option<string>) {
    && index <= start <= t <= |ts| < |cs|
    && (forall i :: start <= i < t ==> !IsOperator(ts[i]))
    && (forall i :: index <= i < |cs| ==> cs[i] == NO_COMMAND)
    && cs[..index] + Commands(ts[start..], stale) == Commands(ts, stale)
  }

  lemma ParsedStep(ts: seq<string>, cs: seq<Command>, index: nat, start: nat, t: nat, stale: Option<string>)
    requires Parsed(ts, cs, index, start, t, stale) && t < |ts| && IsOperator(ts[t])
    ensures Parsed(ts, cs[index := ClosedAt(ts, start, t, stale)], index + 1, t + 1, t + 1, stale)
  {
    var c := ClosedAt(ts, start, t, stale);
    CommandsStep(ts, start, t, stale);
    assert cs[index := c][..index + 1] == cs[..index] + [c];
    Associate(cs[..index], [c], Commands(ts[t + 1..], stale));
  }

  lemma ParsedPlain(ts: seq<string>, cs: seq<Command>, index: nat, start: nat, t: nat, stale: Option<string>)
    requires Parsed(ts, cs, index, start, t, stale) && t < |ts| && !IsOperator(ts[t])
    ensures Parsed(ts, cs, index, start, t + 1, stale)
  {
  }

  ghost predicate Finished(ts: seq<string>, cs: seq<Command>, count: nat, stale: Option<string>) {
    && count <= |cs| && cs[..count] == Commands(ts, stale)
    && forall i :: count <= i < |cs| ==> cs[i] == NO_COMMAND
  }

  lemma ParsedEnd(ts: seq<string>, cs: seq<Command>, index: nat, start: nat, stale: Option<string>)
    requires Parsed(ts, cs, index, start, |ts|, stale)
    ensures Finished(ts, cs[index := cs[index].(tokens := Some(ts[start..]), pipe := false)], index + 1, stale)
  {
    CommandsLast(ts, start, stale);
  }

  /** The two blocks of exec's loop that store a command when an operator is met. */
  method CloseCommand(ts: seq<string>, cmds: array<Command>, index: nat, start: nat, t: nat, stale: Option<string>)
    requires start <= t < |ts| && IsOperator(ts[t]) && index < cmds.Length && cmds[index] == NO_COMMAND
    requires forall i :: start <= i < t ==> !IsOperator(ts[i])
    modifies cmds
    ensures cmds[..] == old(cmds[..])[index := ClosedAt(ts, start, t, stale)]
  {
    if IsPipe(ts[t]) {
      var args, _ := CopyTokens(ts, start, t, "|");
      cmds[index] := cmds[index].(tokens := Some(args), pipe := true);
    } else {
      var args, current := CopyTokens(ts, start, t, ">");
      var file := if current + 1 < |ts| then Some(ts[current + 1])
                  else if current + 1 == |ts| then None else stale;
      cmds[index] := cmds[index].(tokens := Some(args), pipe := false, file := file);
    }
  }

  /** The last block of exec's loop: the tokens behind the last operator. */
  method CloseLast(ts: seq<string>, cmds: array<Command>, index: nat, start: nat, stale: Option<string>)
    requires Parsed(ts, cmds[..], index, start, |ts|, stale)
    modifies cmds
    ensures Finished(ts, cmds[..], index + 1, stale)
  {
    ParsedEnd(ts, cmds[..], index, start, stale);
    cmds[index] := cmds[index].(tokens := Some(ts[start..]), pipe := false);
  }

  /**
   * exec's parsing loop over the token array: cmds receives the commands, and
   * what lies behind them stays as it was.
   */
  method Parse(ts: seq<string>, cmds: array<Command>, stale: Option<string>) returns (count: nat)
    requires ts != [] && |ts| < cmds.Length
    requires forall i :: 0 <= i < cmds.Length ==> cmds[i] == NO_COMMAND
    modifies cmds
    ensures Finished(ts, cmds[..], count, stale)
  {
    var index, last, hasPipe, t := 0, 0, false, 0;
    count := 0;
    assert ts[0..] == ts;
    while t < |ts|
      invariant t <= |ts|
      invariant t < |ts| ==> Parsed(ts, cmds[..], index, Start(last, hasPipe), t, stale)
      invariant t == |ts| ==> Finished(ts, cmds[..], count, stale)
    {
      index, last, hasPipe := ParseToken(ts, cmds, index, last, hasPipe, t, stale);
      if t + 1 == |ts| {
        CloseLast(ts, cmds, index, Start(last, hasPipe), stale);
        count := index + 1;
      }
      t := t + 1;
    }
  }

  /** Where the open stage begins. */
  function Start(last: nat, hasPipe: bool): nat { if hasPipe then last + 1 else last }

  /** The part of exec's loop that looks for an operator at t. */
  method ParseToken(ts: seq<string>, cmds: array<Command>, index0: nat, last0: nat, hasPipe0: bool, t: nat,
                    stale: Option<string>) returns (index: nat, last: nat, hasPipe: bool)
    requires t < |ts| && Parsed(ts, cmds[..], index0, Start(last0, hasPipe0), t, stale)
    modifies cmds
    ensures Parsed(ts, cmds[..], index, Start(last, hasPipe), t + 1, stale)
  {
    index, last, hasPipe := index0, last0, hasPipe0;
    if IsOperator(ts[t]) {
      ParsedStep(ts, cmds[..], index, Start(last, hasPipe), t, stale);
      CloseCommand(ts, cmds, index, Start(last, hasPipe), t, stale);
      index, last, hasPipe := index + 1, t, true;
    } else {
      ParsedPlain(ts, cmds[..], index, Start(last, hasPipe), t, stale);
    }
  }

  // ----- $ tokens -----

  predicate IsVariable(t: string) { t != "" && t[0] == '$' }

  /**
   * The tokens the loop sees. A variable as the first token puts its value
   * into slot 1, which may be the one that held the terminating NULL: then
   * whatever the array holds behind it, up to its next NULL, joins the line.
   */
  function Substituted(ts: seq<string>, behind: seq<string>, env: string -> Option<string>): seq<string> {
    if ts != [] && IsVariable(ts[0]) then
      match env(ts[0][1..])
      case None => ts
      case Some(value) => if |ts| == 1 then ts + [value] + behind else ts[1 := value]
    else if |ts| > 1 && IsVariable(ts[1]) then
      match env(ts[1][1..])
      case None => ts
      case Some(value) => ts[1 := value]
    else ts
  }

  /** The program's name is never substituted, and no token behind slot 1 changes. */
  lemma OnlySlotOne(ts: seq<string>, behind: seq<string>, env: string -> Option<string>)
    ensures var r := Substituted(ts, behind, env);
            && (ts != [] ==> r != [] && r[0] == ts[0])
            && (|ts| > 1 ==> |r| == |ts| && forall k :: 1 < k < |ts| ==> r[k] == ts[k])
            && (r != ts <==> exists k :: 0 <= k < 2 && k < |ts| && Replaces(ts, env, k))
  {
    var r := Substituted(ts, behind, env);
    if ts != [] && IsVariable(ts[0]) {
      assert Replaces(ts, env, 0) <==> r != ts;
      assert !Replaces(ts, env, 1);
    } else if |ts| > 1 {
      assert Replaces(ts, env, 1) <==> r != ts;
      assert !Replaces(ts, env, 0);
    }
  }

  /** Token k is a variable with a value that differs from what slot 1 holds, and it is the one that counts. */
  predicate Replaces(ts: seq<string>, env: string -> Option<string>, k: nat) {
    && k < |ts| && IsVariable(ts[k]) && (k == 1 ==> !IsVariable(ts[0]))
    && env(ts[k][1..]).Some? && (|ts| > 1 ==> env(ts[k][1..]).value != ts[1])
  }

  /** The strings of a token array up to its first NULL. */
  function UpToNull(slots: seq<Option<string>>): (r: seq<string>)
    ensures |r| <= |slots| && (|r| < |slots| ==> slots[|r|] == None)
    ensures forall k :: 0 <= k < |r| ==> slots[k] == Some(r[k])
  {
    if slots == [] || slots[0].None? then [] else [slots[0].value] + UpToNull(slots[1..])
  }

  lemma {:induction false} UpToNullIs(slots: seq<Option<string>>, ts: seq<string>)
    requires |ts| <= |slots| && (|ts| < |slots| ==> slots[|ts|] == None)
    requires forall k :: 0 <= k < |ts| ==> slots[k] == Some(ts[k])
    ensures UpToNull(slots) == ts
  {
    if ts != [] {
      UpToNullIs(slots[1..], ts[1..]);
    }
  }

  lemma {:induction false} NullOverwritten(slots: seq<Option<string>>, n: nat, value: string)
    requires n < |slots| && n == |UpToNull(slots)|
    ensures UpToNull(slots[n := Some(value)]) == UpToNull(slots) + [value] + UpToNull(slots[n + 1..])
  {
    var ts, behind := UpToNull(slots), UpToNull(slots[n + 1..]);
    var r := slots[n := Some(value)];
    forall k | 0 <= k < |ts + [value] + behind| ensures r[k] == Some((ts + [value] + behind)[k]) {
      if k > n {
        assert slots[n + 1..][k - n - 1] == slots[k];
      }
    }
    if n + 1 + |behind| < |slots| {
      assert slots[n + 1..][|behind|] == slots[n + 1 + |behind|];
    }
    UpToNullIs(r, ts + [value] + behind);
  }

  /** The head of exec: a variable in slot 0 or 1 is replaced by its value, in slot 1. */
  method Substitute(tokens: array<Option<string>>, env: string -> Option<string>)
    requires tokens.Length > 1 && |UpToNull(tokens[..])| < tokens.Length
    modifies tokens
    ensures var ts := UpToNull(old(tokens[..]));
            UpToNull(tokens[..]) == Substituted(ts, UpToNull(old(tokens[..])[|ts| + 1..]), env)
  {
    ghost var slots, ts := tokens[..], UpToNull(tokens[..]);
    if tokens[0].Some? {
      if IsVariable(tokens[0].value) {
        var check := env(tokens[0].value[1..]);
        if check.Some? {
          tokens[1] := check;
          SlotOneSet(slots, check.value);
          assert tokens[..] == slots[1 := check];
        }
      } else if tokens[1].Some? && IsVariable(tokens[1].value) {
        var check := env(tokens[1].value[1..]);
        if check.Some? {
          tokens[1] := check;
          SlotOneSet(slots, check.value);
          assert tokens[..] == slots[1 := check];
        }
      }
    }
  }

  lemma SlotOneSet(slots: seq<Option<string>>, value: string)
    requires |slots| > 1 && slots[0].Some?
    ensures var ts := UpToNull(slots);
            && ts != []
            && UpToNull(slots[1 := Some(value)]) ==
               if |ts| == 1 then ts + [value] + UpToNull(slots[2..]) else ts[1 := value]
  {
    var ts := UpToNull(slots);
    if |ts| == 1 {
      NullOverwritten(slots, 1, value);
    } else {
      UpToNullIs(slots[1 := Some(value)], ts[1 := value]);
    }
  }

  /** The line in a token array after the substitution. */
  function SubstitutedLine(slots: seq<Option<string>>, env: string -> Option<string>): seq<string>
    requires |UpToNull(slots)| < |slots|
  {
    Substituted(UpToNull(slots), UpToNull(slots[|UpToNull(slots)| + 1..]), env)
  }

  /** exec: the token array becomes the array of commands. */
  method ParseLine(tokens: array<Option<string>>, env: string -> Option<string>, cmds: array<Command>,
                   stale: Option<string>)
    returns (count: nat)
    requires tokens.Length > 1 && 0 < |UpToNull(tokens[..])| < tokens.Length
    requires |SubstitutedLine(tokens[..], env)| < cmds.Length
    requires forall i :: 0 <= i < cmds.Length ==> cmds[i] == NO_COMMAND
    modifies tokens, cmds
    ensures Finished(SubstitutedLine(old(tokens[..]), env), cmds[..], count, stale)
  {
    ghost var slots, ts := tokens[..], UpToNull(tokens[..]);
    Substitute(tokens, env);
    OnlySlotOne(ts, UpToNull(slots[|ts| + 1..]), env);
    var line := ReadTokens(tokens);
    count := Parse(line, cmds, stale);
  }

  method ReadTokens(tokens: array<Option<string>>) returns (ts: seq<string>)
    ensures ts == UpToNull(tokens[..])
  {
    ts := [];
    var k := 0;
    while k < tokens.Length && tokens[k].Some?
      invariant k == |ts| <= tokens.Length && forall j :: 0 <= j < k ==> tokens[j] == Some(ts[j])
    {
      ts := ts + [tokens[k].value];
      k := k + 1;
    }
    UpToNullIs(tokens[..], ts);
  }

  // ----- What it means -----

  /** The commands execute_pipeline gets to: up to the first that does not feed a pipe. */
  function Reached(cs: seq<Command>): seq<Command> {
    if cs == [] then [] else if cs[0].pipe then [cs[0]] + Reached(cs[1..]) else [cs[0]]
  }

  /** The tokens between the | tokens. */
  function Split(ts: seq<string>): (r: seq<seq<string>>)
    ensures r != []
  {
    if ts == [] then [[]]
    else
      var rest := Split(ts[1..]);
      if ts[0] == "|" then [[]] + rest else [[ts[0]] + rest[0]] + rest[1..]
  }

  function Join(stages: seq<seq<string>>): seq<string>
    requires stages != []
  {
    if |stages| == 1 then stages[0] else stages[0] + ["|"] + Join(stages[1..])
  }

  /** Split and Join are inverse, and no stage holds a |. */
  lemma {:induction false} SplitJoin(ts: seq<string>)
    ensures Join(Split(ts)) == ts
    ensures forall s :: s in Split(ts) ==> "|" !in s
  {
    if ts != [] {
      var rest := Split(ts[1..]);
      SplitJoin(ts[1..]);
      if ts[0] == "|" {
        assert Split(ts) == [[]] + rest && Split(ts)[1..] == rest;
      } else {
        var r := [[ts[0]] + rest[0]] + rest[1..];
        assert r[1..] == rest[1..];
        assert Join(rest) == if |rest| == 1 then rest[0] else rest[0] + ["|"] + Join(rest[1..]);
        forall s | s in r ensures "|" !in s {
          assert s == r[0] || s in rest[1..];
        }
      }
    }
  }

  lemma {:induction false} JoinSplit(stages: seq<seq<string>>)
    requires stages != [] && forall s :: s in stages ==> "|" !in s
    ensures Split(Join(stages)) == stages
    decreases |stages|
  {
    if |stages| == 1 {
      SplitPlain(stages[0], []);
      assert stages[0] + [] == stages[0] && stages == [stages[0]];
    } else {
      JoinSplit(stages[1..]);
      SplitPlain(stages[0], ["|"] + Join(stages[1..]));
      assert stages[0] + ["|"] + Join(stages[1..]) == stages[0] + (["|"] + Join(stages[1..]));
      assert (["|"] + Join(stages[1..]))[1..] == Join(stages[1..]);
    }
  }

  lemma {:induction false} SplitPlain(s: seq<string>, rest: seq<string>)
    requires "|" !in s && (rest != [] ==> rest[0] == "|")
    ensures Split(s + rest) == [s] + (if rest == [] then [] else Split(rest[1..]))
  {
    if s == [] {
      assert s + rest == rest;
    } else {
      SplitPlain(s[1..], rest);
      assert (s + rest)[1..] == s[1..] + rest && s[0] in s;
      assert [s[0]] + s[1..] == s;
    }
  }

  /** The first redirection at or after position k; the length if there is none. */
  function NextRedirect(ts: seq<string>, k: nat): (r: nat)
    requires k <= |ts|
    ensures k <= r <= |ts| && (r < |ts| ==> IsRedirect(ts[r]))
    ensures forall i :: k <= i < r ==> !IsRedirect(ts[i])
    decreases |ts| - k
  {
    if k == |ts| || IsRedirect(ts[k]) then k else NextRedirect(ts, k + 1)
  }

  function FirstRedirect(ts: seq<string>): nat { NextRedirect(ts, 0) }

  predicate ExactUpTo(ts: seq<string>, r: nat) {
    forall i :: 0 <= i < |ts| && i <= r && IsOperator(ts[i]) ==> Exact(ts[i])
  }

  /** Up to the redirection every operator stands alone in its token. */
  predicate ExactLine(ts: seq<string>) { ExactUpTo(ts, FirstRedirect(ts)) }

  lemma FirstRedirectIs(ts: seq<string>, r: nat)
    requires r <= |ts| && (r < |ts| ==> IsRedirect(ts[r]))
    requires forall i :: 0 <= i < r ==> !IsRedirect(ts[i])
    ensures FirstRedirect(ts) == r
  {
  }

  lemma ExactBehind(ts: seq<string>, e: nat, r: nat)
    requires e < |ts| && forall i :: 0 <= i < e ==> !IsOperator(ts[i])
    requires IsOperator(ts[e])
    ensures ExactUpTo(ts, e + 1 + r) <==> Exact(ts[e]) && ExactUpTo(ts[e + 1..], r)
  {
    var rest := ts[e + 1..];
    forall i | 0 <= i < |rest| ensures rest[i] == ts[e + 1 + i] {
    }
    if Exact(ts[e]) && ExactUpTo(rest, r) {
      forall i | 0 <= i < |ts| && i <= e + 1 + r && IsOperator(ts[i]) ensures Exact(ts[i]) {
        assert e < i ==> ts[i] == rest[i - e - 1];
      }
    }
  }

  lemma RedirectBehind(ts: seq<string>, e: nat, r: nat)
    requires e < |ts| && !IsRedirect(ts[e]) && forall i :: 0 <= i < e ==> !IsRedirect(ts[i])
    requires r == FirstRedirect(ts[e + 1..])
    ensures FirstRedirect(ts) == e + 1 + r
  {
    var rest := ts[e + 1..];
    forall i | 0 <= i < e + 1 + r ensures !IsRedirect(ts[i]) {
      if e < i {
        assert rest[i - e - 1] == ts[i];
      }
    }
    if r < |rest| {
      assert rest[r] == ts[e + 1 + r];
    }
    FirstRedirectIs(ts, e + 1 + r);
  }

  /** Behind a pipe operator at e the rest is parsed like a line of its own. */
  lemma {:induction false} BehindPipe(ts: seq<string>, e: nat)
    requires e == NextOperator(ts, 0) < |ts| && IsPipe(ts[e])
    ensures FirstRedirect(ts) == e + 1 + FirstRedirect(ts[e + 1..])
    ensures ExactLine(ts) <==> Exact(ts[e]) && ExactLine(ts[e + 1..])
  {
    var r := FirstRedirect(ts[e + 1..]);
    RedirectBehind(ts, e, r);
    ExactBehind(ts, e, r);
  }

  lemma {:induction false} AtRedirect(ts: seq<string>, e: nat)
    requires e == NextOperator(ts, 0) && (e < |ts| ==> IsRedirect(ts[e]))
    ensures FirstRedirect(ts) == e
    ensures ExactLine(ts) <==> (e < |ts| ==> Exact(ts[e]))
  {
    FirstRedirectIs(ts, e);
  }

  /** The token after the redirection; NULL if there is no redirection or nothing follows it. */
  function RedirectTarget(ts: seq<string>): Option<string> {
    if FirstRedirect(ts) + 1 < |ts| then Some(ts[FirstRedirect(ts) + 1]) else None
  }

  /** The commands reached are the given stages: pipes on all but the last, whose output goes to file. */
  ghost predicate AreStages(cs: seq<Command>, stages: seq<seq<string>>, file: Option<string>) {
    && |cs| == |stages|
    && forall k :: 0 <= k < |cs| ==>
         cs[k] == Command(Some(stages[k]), k < |cs| - 1, if k < |cs| - 1 then None else file)
  }

  /**
   * For a well-formed line the commands execute_pipeline reaches are the
   * |-separated parts of the tokens before the redirection, all but the last
   * feed a pipe, and the last writes to the token after the redirection.
   */
  lemma {:induction false} ReachedIsSplit(ts: seq<string>, stale: Option<string>)
    requires ExactLine(ts)
    ensures AreStages(Reached(Commands(ts, stale)), Split(ts[..FirstRedirect(ts)]), RedirectTarget(ts))
    decreases |ts|
  {
    var e := NextOperator(ts, 0);
    if e < |ts| && IsPipe(ts[e]) {
      BehindPipe(ts, e);
      ReachedIsSplit(ts[e + 1..], stale);
      ReachedBehindPipe(ts, e, stale);
    } else {
      AtRedirect(ts, e);
      NoPipes(ts[..e]);
      assert e == |ts| ==> ts[..e] == ts;
    }
  }

  lemma ReachedBehindPipe(ts: seq<string>, e: nat, stale: Option<string>)
    requires e == NextOperator(ts, 0) < |ts| && IsPipe(ts[e]) && Exact(ts[e])
    requires FirstRedirect(ts) == e + 1 + FirstRedirect(ts[e + 1..])
    requires var rest := ts[e + 1..];
             AreStages(Reached(Commands(rest, stale)), Split(rest[..FirstRedirect(rest)]), RedirectTarget(rest))
    ensures AreStages(Reached(Commands(ts, stale)), Split(ts[..FirstRedirect(ts)]), RedirectTarget(ts))
  {
    var rest, c := ts[e + 1..], Command(Some(ts[..e]), true, None);
    var parts := Split(rest[..FirstRedirect(rest)]);
    SplitAtPipe(ts, e, FirstRedirect(ts), FirstRedirect(rest));
    TargetBehind(ts, e);
    CommandsBehindPipe(ts, e, stale);
    StagesBehind(c, Commands(rest, stale), Commands(ts, stale), ts[..e], parts, [ts[..e]] + parts,
                 RedirectTarget(ts));
  }

  lemma StagesBehind(c: Command, cs: seq<Command>, all: seq<Command>, stage: seq<string>, parts: seq<seq<string>>,
                     stages: seq<seq<string>>, file: Option<string>)
    requires c == Command(Some(stage), true, None) && all == [c] + cs && stages == [stage] + parts && parts != []
    requires AreStages(Reached(cs), parts, file)
    ensures AreStages(Reached(all), stages, file)
  {
    ReachedCons(c, cs);
    StagesCons(c, Reached(cs), stage, parts, file);
  }

  lemma CommandsBehindPipe(ts: seq<string>, e: nat, stale: Option<string>)
    requires e == NextOperator(ts, 0) < |ts| && IsPipe(ts[e]) && Exact(ts[e])
    ensures Commands(ts, stale) == [Command(Some(ts[..e]), true, None)] + Commands(ts[e + 1..], stale)
  {
  }

  lemma TargetBehind(ts: seq<string>, e: nat)
    requires e < |ts| && FirstRedirect(ts) == e + 1 + FirstRedirect(ts[e + 1..])
    ensures RedirectTarget(ts) == RedirectTarget(ts[e + 1..])
  {
    var r := FirstRedirect(ts[e + 1..]);
    assert r + 1 < |ts[e + 1..]| ==> ts[e + 1..][r + 1] == ts[e + 1 + r + 1];
  }

  lemma ReachedCons(c: Command, cs: seq<Command>)
    requires c.pipe
    ensures Reached([c] + cs) == [c] + Reached(cs)
  {
    assert ([c] + cs)[1..] == cs;
  }

  lemma SplitAtPipe(ts: seq<string>, e: nat, end: nat, r: nat)
    requires e < |ts| && ts[e] == "|" && end == e + 1 + r <= |ts|
    requires forall i :: 0 <= i < e ==> !IsOperator(ts[i])
    ensures Split(ts[..end]) == [ts[..e]] + Split(ts[e + 1..][..r])
  {
    var part := ts[e + 1..][..r];
    SplitPlain(ts[..e], ["|"] + part);
    assert ts[..end] == ts[..e] + (["|"] + part);
    assert (["|"] + part)[1..] == part;
  }

  lemma StagesCons(c: Command, cs: seq<Command>, stage: seq<string>, stages: seq<seq<string>>, file: Option<string>)
    requires AreStages(cs, stages, file) && stages != [] && c == Command(Some(stage), true, None)
    ensures AreStages([c] + cs, [stage] + stages, file)
  {
  }

  lemma {:induction false} NoPipes(ts: seq<string>)
    requires forall i :: 0 <= i < |ts| ==> !IsOperator(ts[i])
    ensures Split(ts) == [ts]
  {
    SplitPlain(ts, []);
    assert ts + [] == ts;
  }

  ghost predicate NoOperatorPassed(cs: seq<Command>) {
    forall c, t {:trigger c in cs, t in c.tokens.value} :: c in cs && c.tokens.Some? && t in c.tokens.value ==>
      !IsOperator(t)
  }

  /**
   * No program is handed an operator as an argument if and only if the line
   * is well formed: an operator with text glued to it ends a stage and stays
   * among that stage's arguments.
   */
  lemma {:induction false} OperatorsStayOut(ts: seq<string>, stale: Option<string>)
    ensures NoOperatorPassed(Reached(Commands(ts, stale))) <==> ExactLine(ts)
    decreases |ts|
  {
    var e := NextOperator(ts, 0);
    var cs := Commands(ts, stale);
    if e == |ts| {
      AtRedirect(ts, e);
      assert Reached(cs) == [Command(Some(ts), false, None)];
    } else {
      var c := CommandAt(ts, e, stale);
      assert c.tokens.value == if Exact(ts[e]) then ts[..e] else ts[..e] + [ts[e]];
      assert !Exact(ts[e]) ==> ts[e] in c.tokens.value;
      if IsPipe(ts[e]) {
        BehindPipe(ts, e);
        OperatorsStayOut(ts[e + 1..], stale);
        assert cs[1..] == Commands(ts[e + 1..], stale);
        PassedApart(c, Reached(cs[1..]));
      } else {
        AtRedirect(ts, e);
        PassedApart(c, []);
      }
    }
  }

  /** For the tokens a, |b and c, the first program is handed |b. */
  lemma GluedOperatorPassed(stale: Option<string>)
    ensures var ts := ["a", "|b", "c"]; var cs := Commands(ts, stale);
            && !ExactLine(ts) && !NoOperatorPassed(Reached(cs))
            && cs == [Command(Some(["a", "|b"]), true, None), Command(Some(["c"]), false, None)]
  {
    var ts := ["a", "|b", "c"];
    NextOperatorUnique(ts, 1);
    assert IsPipe("|b") && "|b" != "|" && ts[..1] + [ts[1]] == ["a", "|b"];
    assert ts[2..] == ["c"];
    NextOperatorUnique(["c"], 1);
    OperatorsStayOut(ts, stale);
    BehindPipe(ts, 1);
  }

  lemma PassedApart(c: Command, cs: seq<Command>)
    requires c.tokens.Some?
    ensures NoOperatorPassed([c] + cs) <==> (forall t :: t in c.tokens.value ==> !IsOperator(t)) && NoOperatorPassed(cs)
  {
    if NoOperatorPassed([c] + cs) {
      assert c in [c] + cs;
      forall d, t | d in cs && d.tokens.Some? && t in d.tokens.value ensures !IsOperator(t) {
        assert d in [c] + cs;
      }
    }
  }
}
