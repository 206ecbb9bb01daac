/**
 * Project2/shell.c, main and tokenizer: how command lines enter the history
 * and how !!, !number and !prefix are expanded from it.
 */
module Shell {
  import opened Basics
  import opened Numbers
  import opened Tokenizer
  import opened History

  const BLANKS: set<char> := {' ', '\t', '\r', '\n'}

  const MAX_TOKENS: nat := 5000

  predicate IsComment(s: string) { s != "" && s[0] == '#' }

  /** The words before the first that begins a comment. */
  function BeforeComment(words: seq<string>): (r: seq<string>)
    ensures forall k :: 0 <= k < |r| ==> !IsComment(r[k]) && r[k] in words
  {
    if words == [] || IsComment(words[0]) then [] else [words[0]] + BeforeComment(words[1..])
  }

  /** The words tokenizer() leaves in its array. */
  function Words(line: string): (r: seq<string>)
    ensures forall k :: 0 <= k < |r| ==> r[k] != ""
  {
    BeforeComment(Texts(line, Tokens(true, line, 0, BLANKS)))
  }

  lemma {:induction false} BeforeCommentIs(words: seq<string>, n: nat)
    requires n <= |words| && (n < |words| ==> IsComment(words[n]))
    requires forall k :: 0 <= k < n ==> !IsComment(words[k])
    ensures BeforeComment(words) == words[..n]
  {
    if n > 0 {
      BeforeCommentIs(words[1..], n - 1);
      assert words[..n] == [words[0]] + words[1..][..n - 1];
    }
  }

  predicate IsBang(words: seq<string>) { words != [] && words[0] != "" && words[0][0] == '!' }

  predicate IsBangBang(word: string) { |word| > 1 && word[1] == '!' }

  /** What a word beginning with ! stands for, given num_cmds after it was counted. */
  function Expansion(log: seq<string>, numCmds: int, word: string): Option<string>
    requires word != ""
  {
    if IsBangBang(word) then Recall(log, numCmds - 2)
    else if |word| > 1 && IsDigit(word[1]) then Recall(log, Atoi(word[1..]))
    else Latest(log, word[1..], |log|)
  }

  /**
   * The state at the next prompt and the words that were run; or a crash,
   * where the source goes through a NULL pointer.
   */
  datatype Result = Prompt(log: seq<string>, numCmds: int, run: seq<string>) | Crash

  /** tokenizer() records a comment line, and counts it. */
  function Recorded(log: seq<string>, line: string): seq<string> {
    if IsComment(line) then log + [line] else log
  }

  function Counted(numCmds: int, line: string): int {
    if IsComment(line) then numCmds + 1 else numCmds
  }

  /** A final & is taken off the words. */
  function Foreground(words: seq<string>): seq<string> {
    if words != [] && words[|words| - 1] == "&" then words[..|words| - 1] else words
  }

  lemma ForegroundFirst(words: seq<string>)
    requires NonEmptyWords(words)
    ensures Foreground(words) != [] ==>
              IsBang(Foreground(words)) == IsBang(words) && Foreground(words)[0] == words[0] != ""
    ensures (Foreground(words) == [] ==> !IsBang(words)) && |Foreground(words)| <= |words|
  {
  }

  /** The token array has 5000 slots, one of them for the terminating NULL; longer lines are written past its end. */
  predicate Overflows(words: seq<string>) { |words| >= MAX_TOKENS }

  /** One turn of main's loop; garbage is what the uninitialised buffer of a failed expansion holds. */
  function Turn(words: string -> seq<string>, log: seq<string>, numCmds: int, line: string, garbage: string): Result
    requires NonEmptyWords(words(line))
  {
    var ws := words(line);
    var log1, n1 := Recorded(log, line), Counted(numCmds, line);
    if ws == [] then Prompt(log1, n1, [])
    else if Overflows(ws) || Foreground(ws) == [] then Crash
    else if !IsBang(ws) then Prompt(log1 + [line], n1 + 1, Foreground(ws))
    else
      match Expansion(log1, n1 + 1, ws[0])
      case None => if IsBangBang(ws[0]) then Crash else Prompt(log1 + [garbage], n1 + 1, Foreground(ws))
      case Some(past) =>
        if words(past) == [] || Overflows(words(past)) then Crash
        else Prompt(Recorded(log1, past) + [past], Counted(n1 + 1, past), words(past))
  }

  predicate NonEmptyWords(ws: seq<string>) { forall k :: 0 <= k < |ws| ==> ws[k] != "" }

  /** What the rest of the shell relies on in its tokenizer. */
  ghost predicate Splits(words: string -> seq<string>) {
    && (forall line :: NonEmptyWords(words(line)))
    && (forall line :: line == "" || IsComment(line) ==> words(line) == [])
  }

  lemma CommentHasNoWords(line: string)
    requires IsComment(line)
    ensures Words(line) == []
  {
    var ts := Tokens(true, line, 0, BLANKS);
    FirstStarts(true, line, 0, BLANKS);
    if ts != [] {
      assert line[ts[0].start..ts[0].end][0] == '#';
    }
  }

  /** The tokenizer of the shell does what the shell relies on. */
  lemma WordsSplit()
    ensures Splits(Words)
  {
    forall line | line == "" || IsComment(line) ensures Words(line) == [] {
      if line == "" {
        TokensUnfold(true, "", 0, BLANKS);
      } else {
        CommentHasNoWords(line);
      }
    }
  }

  // ----- One turn -----

  /** Whatever the counter was, it advances with the log, and the log only grows. */
  lemma TurnCounts(words: string -> seq<string>, log: seq<string>, numCmds: int, line: string, garbage: string)
    requires Splits(words)
    ensures var r := Turn(words, log, numCmds, line, garbage);
            r.Prompt? ==> r.numCmds - numCmds == |r.log| - |log| && log <= r.log
  {
  }

  /** No recorded command needs an expansion. */
  ghost predicate BangFree(words: string -> seq<string>, log: seq<string>) {
    forall k :: 0 <= k < |log| ==> !IsBang(words(log[k]))
  }

  /** The line needs no expansion, or the history has one. */
  predicate Expandable(words: string -> seq<string>, log: seq<string>, numCmds: int, line: string) {
    IsBang(words(line)) ==> Expansion(log, numCmds + 1, words(line)[0]).Some?
  }

  lemma ExpansionFromLog(log: seq<string>, numCmds: int, word: string)
    requires word != ""
    ensures var e := Expansion(log, numCmds, word); e.Some? ==> e.value == "" || e.value in log
  {
    LatestExact(log, word[1..], |log|);
  }

  lemma BangFreeKept(words: string -> seq<string>, log: seq<string>, numCmds: int, line: string, garbage: string)
    requires Splits(words) && BangFree(words, log) && Expandable(words, log, numCmds, line)
    ensures var r := Turn(words, log, numCmds, line, garbage); r.Prompt? ==> BangFree(words, r.log)
  {
    var ws := words(line);
    if IsBang(ws) {
      ExpansionFromLog(log, numCmds + 1, ws[0]);
    }
  }

  /** C strings. */
  ghost predicate NulFree(log: seq<string>) {
    forall k :: 0 <= k < |log| ==> NUL !in log[k]
  }

  lemma NulFreeKept(words: string -> seq<string>, log: seq<string>, numCmds: int, line: string, garbage: string)
    requires Splits(words) && NulFree(log) && NUL !in line && NUL !in garbage
    ensures var r := Turn(words, log, numCmds, line, garbage); r.Prompt? ==> NulFree(r.log)
  {
    var ws := words(line);
    if IsBang(ws) && Expansion(log, numCmds + 1, ws[0]).Some? {
      ExpansionFromLog(log, numCmds + 1, ws[0]);
    }
  }

  // ----- Sessions: what holds at every prompt -----

  /** Prompt i + 1 is what handling line i at prompt i leads to. */
  ghost predicate NextPrompt(words: string -> seq<string>, logs: seq<seq<string>>, counts: seq<int>,
                             lines: seq<string>, garbage: seq<string>, i: nat)
    requires Splits(words) && i < |lines| < |logs| && |counts| == |logs| && |garbage| == |lines|
  {
    var r := Turn(words, logs[i], counts[i], lines[i], garbage[i]);
    r.Prompt? && logs[i + 1] == r.log && counts[i + 1] == r.numCmds
  }

  /**
   * The logs and the values of num_cmds at the prompts of a session, each line being handled from
   * the prompt before it.
   */
  ghost predicate Session(words: string -> seq<string>, logs: seq<seq<string>>, counts: seq<int>, lines: seq<string>,
                          garbage: seq<string>)
    requires Splits(words)
  {
    && |logs| == |counts| == |lines| + 1 && |garbage| == |lines| && logs[0] == [] && counts[0] == 0
    && forall i {:trigger NextPrompt(words, logs, counts, lines, garbage, i)} :: 0 <= i < |lines| ==>
         NextPrompt(words, logs, counts, lines, garbage, i)
  }

  /** At every prompt num_cmds is the number of commands ever recorded, whatever the lines are. */
  lemma {:induction false} SessionCounts(words: string -> seq<string>, logs: seq<seq<string>>, counts: seq<int>,
                                         lines: seq<string>, garbage: seq<string>, n: nat)
    requires Splits(words) && Session(words, logs, counts, lines, garbage) && n <= |lines|
    ensures counts[n] == |logs[n]|
  {
    if n > 0 {
      SessionCounts(words, logs, counts, lines, garbage, n - 1);
      assert NextPrompt(words, logs, counts, lines, garbage, n - 1);
      TurnCounts(words, logs[n - 1], counts[n - 1], lines[n - 1], garbage[n - 1]);
    }
  }

  /** No command is ever lost from the log or renumbered. */
  lemma {:induction false} SessionGrows(words: string -> seq<string>, logs: seq<seq<string>>, counts: seq<int>,
                                        lines: seq<string>, garbage: seq<string>, m: nat, n: nat)
    requires Splits(words) && Session(words, logs, counts, lines, garbage) && m <= n <= |lines|
    ensures logs[m] <= logs[n]
    decreases n
  {
    if m < n {
      SessionGrows(words, logs, counts, lines, garbage, m, n - 1);
      assert NextPrompt(words, logs, counts, lines, garbage, n - 1);
      TurnCounts(words, logs[n - 1], counts[n - 1], lines[n - 1], garbage[n - 1]);
    }
  }

  /**
   * At every prompt of every session !! runs and records the most recent
   * command; it crashes exactly when there is none, or when it has no words or
   * too many.
   */
  lemma BangBangRecallsLast(words: string -> seq<string>, logs: seq<seq<string>>, counts: seq<int>,
                                               lines: seq<string>, garbage: seq<string>, n: nat, line: string,
                                                 buffer: string)
    requires Splits(words) && Session(words, logs, counts, lines, garbage) && n <= |lines|
    requires IsBang(words(line)) && !Overflows(words(line)) && IsBangBang(words(line)[0])
    ensures var log := logs[n];
            Turn(words, log, counts[n], line, buffer) ==
            if log == [] || words(log[|log| - 1]) == [] || Overflows(words(log[|log| - 1])) then Crash
            else Prompt(log + [log[|log| - 1]], counts[n] + 1, words(log[|log| - 1]))
  {
    SessionCounts(words, logs, counts, lines, garbage, n);
  }

  /** If every expansion is found, no command ever recorded begins with !, so recalling never recurses. */
  lemma {:induction false} SessionBangFree(words: string -> seq<string>, logs: seq<seq<string>>, counts: seq<int>,
                                           lines: seq<string>, garbage: seq<string>, n: nat)
    requires Splits(words) && Session(words, logs, counts, lines, garbage) && n <= |lines|
    requires forall i :: 0 <= i < n ==> Expandable(words, logs[i], counts[i], lines[i])
    ensures BangFree(words, logs[n])
  {
    if n > 0 {
      SessionBangFree(words, logs, counts, lines, garbage, n - 1);
      assert NextPrompt(words, logs, counts, lines, garbage, n - 1);
      BangFreeKept(words, logs[n - 1], counts[n - 1], lines[n - 1], garbage[n - 1]);
    }
  }

  lemma SessionOneMore(words: string -> seq<string>, logs: seq<seq<string>>, counts: seq<int>,
                                          lines: seq<string>, garbage: seq<string>, n: nat, r: Result)
    requires Splits(words) && n < |lines| == |garbage|
    requires Session(words, logs, counts, lines[..n], garbage[..n])
    requires r == Turn(words, logs[n], counts[n], lines[n], garbage[n]) && r.Prompt?
    ensures Session(words, logs + [r.log], counts + [r.numCmds], lines[..n + 1], garbage[..n + 1])
  {
    var logs', counts', lines', garbage' := logs + [r.log], counts + [r.numCmds], lines[..n + 1], garbage[..n + 1];
    forall i | 0 <= i < n + 1 ensures NextPrompt(words, logs', counts', lines', garbage', i) {
      if i < n {
        assert NextPrompt(words, logs, counts, lines[..n], garbage[..n], i);
      }
    }
  }

  // ----- tokenizer() -----

  /** The words of the line, up to a word that begins a comment, are tokens 0, 1, ... of the buffer, cut out of it. */
  ghost predicate Taken(was: seq<char>, b: seq<char>, line: string, ts: seq<Scan>, toks: seq<nat>, cut: nat) {
    && InOrder(line, ts) && |toks| <= cut <= |ts| && CutThrough(was, b, line, ts, cut)
    && forall k :: 0 <= k < |toks| ==> toks[k] == ts[k].start && !IsComment(line[ts[k].start..ts[k].end])
  }

  /** A token that was just cut out begins with # exactly if it begins a comment. */
  lemma CommentSign(was: seq<char>, b: seq<char>, line: string, ts: seq<Scan>, k: nat)
    requires HoldsText(was, line, 0) && InOrder(line, ts) && k < |ts| && CutThrough(was, b, line, ts, k + 1)
    ensures ts[k].start < |b| && (b[ts[k].start] == '#' <==> IsComment(line[ts[k].start..ts[k].end]))
  {
    TokenText(was, b, line, ts, k + 1, k);
  }

  lemma TakenMore(was: seq<char>, before: seq<char>, b: seq<char>, line: string, ts: seq<Scan>, toks: seq<nat>)
    requires HoldsText(was, line, 0) && Taken(was, before, line, ts, toks, |toks|) && |toks| < |ts|
    requires var e := ts[|toks|].end; b == if e == |line| then before else before[e := NUL]
    ensures var t := ts[|toks|];
            && t.start < |b| && (b[t.start] == '#' <==> IsComment(line[t.start..t.end]))
            && Taken(was, b, line, ts, toks, |toks| + 1)
            && (b[t.start] != '#' ==> Taken(was, b, line, ts, toks + [t.start], |toks| + 1))
  {
    CutOneMore(was, before, b, line, ts, |toks|);
    CommentSign(was, b, line, ts, |toks|);
  }

  lemma BlanksPlain()
    ensures NUL !in BLANKS && QUOTES !! BLANKS
  {
  }

  /** The loop of tokenizer(): next_token is called until it returns NULL or a comment. */
  method TakeWords(b: array<char>, ghost line: string, ghost all: seq<Scan>) returns (toks: seq<nat>, ghost cut: nat)
    requires HoldsText(b[..], line, 0) && all == Tokens(true, line, 0, BLANKS)
    modifies b
    ensures Taken(old(b[..]), b[..], line, all, toks, cut)
    ensures |toks| == |all| || IsComment(line[all[|toks|].start..all[|toks|].end])
  {
    BlanksPlain();
    toks, cut := [], 0;
    ghost var rest := all;
    var p: Option<nat> := Some(0);
    while p.Some?
      invariant |line| < b.Length && (p.Some? ==> HoldsText(b[..], line, p.value))
      invariant Taken(old(b[..]), b[..], line, all, toks, |toks|)
      invariant rest == Remaining(true, line, p, BLANKS) && Found(toks, all, rest)
      decreases if p.Some? then |line| + 1 - p.value else 0
    {
      ghost var before := b[..];
      var tok;
      tok, p := TakeToken(true, b, p.value, BLANKS, line);
      if tok.None? {
        break;
      }
      FoundMore(toks, all, rest);
      TakenMore(old(b[..]), before, b[..], line, all, toks);
      if b[tok.value] == '#' {
        cut := |toks| + 1;
        return;
      }
      toks, rest := toks + [tok.value], rest[1..];
    }
    cut := |toks|;
  }

  /** The C strings the array of tokens points to. */
  method ReadWords(b: array<char>, toks: seq<nat>, ghost was: seq<char>, ghost line: string, ghost all: seq<Scan>,
                   ghost cut: nat)
    returns (words: seq<string>)
    requires HoldsText(was, line, 0) && Taken(was, b[..], line, all, toks, cut)
    ensures |words| == |toks| && forall k :: 0 <= k < |toks| ==> words[k] == line[all[k].start..all[k].end]
  {
    words := [];
    for k := 0 to |toks|
      invariant |words| == k && forall j :: 0 <= j < k ==> words[j] == line[all[j].start..all[j].end]
    {
      TokenText(was, b[..], line, all, cut, k);
      assert EndsToken(all, cut, all[k].end);
      var word := CString(b, toks[k], all[k].end);
      words := words + [word];
    }
  }

  /** The rest of tokenizer(): cut the words out of a buffer that holds the line. */
  method SplitLine(line: string) returns (words: seq<string>)
    requires NUL !in line
    ensures words == Words(line)
  {
    var b := new char[|line| + 1];
    FillBuffer(b, line);
    ghost var was := b[..];
    var toks; ghost var cut;
    ghost var all := Tokens(true, line, 0, BLANKS);
    toks, cut := TakeWords(b, line, all);
    words := ReadWords(b, toks, was, line, all, cut);
    ghost var texts := Texts(line, all);
    assert words == texts[..|toks|];
    BeforeCommentIs(texts, |toks|);
  }

  // ----- main's loop over the ring -----

  /** What the expansion of a first word beginning with ! leaves behind; ok is false where the source would crash. */
  ghost predicate Expanded(words: string -> seq<string>, log: seq<string>, numCmds: int, ws: seq<string>,
                           garbage: string, ok: bool, log': seq<string>, numCmds': int, run: seq<string>)
    requires ws != [] && ws[0] != ""
  {
    match Expansion(log, numCmds, ws[0])
    case None =>
      if IsBangBang(ws[0]) then !ok
      else ok && log' == log + [garbage] && numCmds' == numCmds && run == ws
    case Some(command) =>
      if words(command) == [] || Overflows(words(command)) then !ok
      else ok && run == words(command) && log' == Recorded(log, command) + [command] &&
           numCmds' == Counted(numCmds, command)
  }

  lemma TurnPlain(words: string -> seq<string>, log: seq<string>, numCmds: int, line: string, garbage: string)
    requires NonEmptyWords(words(line)) && (!IsBang(words(line)) || Overflows(words(line)))
    ensures var ws := words(line);
            Turn(words, log, numCmds, line, garbage) ==
            if ws == [] then Prompt(Recorded(log, line), Counted(numCmds, line), [])
            else if Overflows(ws) || Foreground(ws) == [] then Crash
            else Prompt(Recorded(log, line) + [line], Counted(numCmds, line) + 1, Foreground(ws))
  {
  }

  lemma TurnExpands(words: string -> seq<string>, log: seq<string>, numCmds: int, line: string, garbage: string,
                    ws: seq<string>,
                    log1: seq<string>, n1: int, ok: bool, log': seq<string>, numCmds': int, run: seq<string>)
    requires NonEmptyWords(words(line)) && ws == Foreground(words(line)) && IsBang(ws) && !Overflows(words(line))
    requires log1 == Recorded(log, line) && n1 == Counted(numCmds, line) + 1
    requires Expanded(words, log1, n1, ws, garbage, ok, log', numCmds', run)
    ensures Turn(words, log, numCmds, line, garbage) == if ok then Prompt(log', numCmds', run) else Crash
  {
    assert ws[0] == words(line)[0];
  }

  class Bash {
    const ring: Ring
    var numCmds: int

    /** At every prompt num_cmds agrees with the history. */
    ghost predicate Valid()
      reads this, ring, ring.history
    {
      ring.Valid() && numCmds == |ring.log| && NulFree(ring.log)
    }

    constructor ()
      ensures fresh(ring) && fresh(ring.history) && Valid() && ring.log == [] && numCmds == 0
    {
      ring := new Ring();
      numCmds := 0;
    }

    /** tokenizer(): the words of the line; a comment line is counted and recorded. */
    method Tokenize(line: string) returns (words: seq<string>)
      requires ring.Valid() && NUL !in line
      modifies this, ring, ring.history
      ensures ring.Valid() && words == Words(line)
      ensures ring.log == Recorded(old(ring.log), line) && numCmds == Counted(old(numCmds), line)
    {
      if IsComment(line) {
        numCmds := numCmds + 1;
        ring.AddHistory(line);
      }
      words := SplitLine(line);
    }

    /** The part of main between reading a line and running it; ok is false where the source would crash. */
    method HandleLine(line: string, garbage: string) returns (ok: bool, run: seq<string>)
      requires Valid() && NUL !in line && NUL !in garbage
      modifies this, ring, ring.history
      ensures ok ==> Valid()
      ensures var r := Turn(Words, old(ring.log), old(numCmds), line, garbage);
              if ok then r == Prompt(ring.log, numCmds, run) else r == Crash
    {
      WordsSplit();
      TurnCounts(Words, ring.log, numCmds, line, garbage);
      NulFreeKept(Words, ring.log, numCmds, line, garbage);
      ok, run := TakeTurn(line, garbage);
    }

    method TakeTurn(line: string, garbage: string) returns (ok: bool, run: seq<string>)
      requires ring.Valid() && NulFree(ring.log) && NUL !in line && NUL !in garbage
      modifies this, ring, ring.history
      ensures ring.Valid()
      ensures Turn(Words, old(ring.log), old(numCmds), line, garbage) ==
              if ok then Prompt(ring.log, numCmds, run) else Crash
    {
      ghost var words := Words(line);
      run := Tokenize(line);
      ForegroundFirst(run);
      if run == [] || Overflows(run) || Foreground(run) == [] {
        TurnPlain(Words, old(ring.log), old(numCmds), line, garbage);
        return run == [], run;
      }
      ok, run := RunWords(Foreground(run), line, garbage);
      if IsBang(words) {
        TurnExpands(Words, old(ring.log), old(numCmds), line, garbage, Foreground(words),
                    Recorded(old(ring.log), line), Counted(old(numCmds), line) + 1, ok, ring.log, numCmds, run);
      } else {
        TurnPlain(Words, old(ring.log), old(numCmds), line, garbage);
      }
    }

    /** A line with words is counted and enters the history, itself or what it stands for. */
    method RunWords(words: seq<string>, line: string, garbage: string) returns (ok: bool, run: seq<string>)
      requires ring.Valid() && NulFree(ring.log) && words != [] && words[0] != "" && !Overflows(words)
      modifies this, ring, ring.history
      ensures ring.Valid()
      ensures if IsBang(words) then
                Expanded(Words, old(ring.log), old(numCmds) + 1, words, garbage, ok, ring.log, numCmds, run)
              else ok && run == words && ring.log == old(ring.log) + [line] && numCmds == old(numCmds) + 1
    {
      numCmds := numCmds + 1;
      if words[0][0] == '!' {
        ok, run := Expand(words, garbage);
      } else {
        ring.AddHistory(line);
        ok, run := true, words;
      }
    }

    /** The branches of !!, !number and !prefix. */
    method Expand(words: seq<string>, garbage: string) returns (ok: bool, run: seq<string>)
      requires ring.Valid() && NulFree(ring.log) && IsBang(words) && !Overflows(words)
      modifies this, ring, ring.history
      ensures ring.Valid()
      ensures Expanded(Words, old(ring.log), old(numCmds), words, garbage, ok, ring.log, numCmds, run)
    {
      var word := words[0];
      var found := Find(word);
      ExpansionFromLog(ring.log, numCmds, word);
      if IsBangBang(word) && found.None? {
        return false, [];
      }
      run := words;
      if found.Some? {
        run := Tokenize(found.value);
        ring.AddHistory(found.value);
      } else {
        ring.AddHistory(garbage);
      }
      ok := run != [] && !Overflows(run);
    }

    method Find(word: string) returns (found: Option<string>)
      requires ring.Valid() && word != ""
      ensures found == Expansion(ring.log, numCmds, word)
    {
      if |word| > 1 && word[1] == '!' {
        found := ring.GetCmd(numCmds - 2);
      } else if |word| > 1 && IsDigit(word[1]) {
        found := ring.GetCmd(Atoi(word[1..]));
      } else {
        found := ring.FindCmd(word[1..]);
      }
    }

    /** main's loop over the lines of its input, up to the first that crashes it. */
    method Prompts(lines: seq<string>, garbage: seq<string>)
      returns (handled: nat, ghost logs: seq<seq<string>>, ghost counts: seq<int>)
      requires Valid() && ring.log == [] && |garbage| == |lines| && NulFree(lines) && NulFree(garbage)
      modifies this, ring, ring.history
      ensures Splits(Words) && handled <= |lines| && Session(Words, logs, counts, lines[..handled], garbage[..handled])
      ensures if handled == |lines| then Valid() && logs[handled] == ring.log && counts[handled] == numCmds
              else Turn(Words, logs[handled], counts[handled], lines[handled], garbage[handled]) == Crash
    {
      WordsSplit();
      handled, logs, counts := 0, [[]], [0];
      while handled < |lines|
        invariant handled <= |lines| && Session(Words, logs, counts, lines[..handled], garbage[..handled])
        invariant Valid() && logs[handled] == ring.log && counts[handled] == numCmds
      {
        var ok, run := HandleLine(lines[handled], garbage[handled]);
        if !ok {
          return;
        }
        SessionOneMore(Words, logs, counts, lines, garbage, handled, Prompt(ring.log, numCmds, run));
        logs, counts := logs + [ring.log], counts + [numCmds];
        handled := handled + 1;
      }
    }
  }
}
