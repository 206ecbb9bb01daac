/**
 * LabWork/Lab7/file_format.c, read_spec: the process specification file.
 */
module SpecFile {
  import opened Basics
  import opened Numbers
  import opened Tokenizer

  const LINE_SIZE: nat := 1024

  const MAX_PROCESSES: nat := 100

  const NAME_SIZE: nat := 128

  const DELIMITERS: set<char> := {',', ' ', '\t', '\n'}

  /** What read_spec fills in of a process control block; the numbers are unsigned there. */
  datatype Entry = Entry(pid: nat, name: string, creation: nat, workload: nat, priority: nat)

  /** An int stored in an unsigned field. */
  function Unsigned(n: int): nat { n % 0x1_0000_0000 }

  predicate IsInt(n: int) { -INT_MAX - 1 <= n <= INT_MAX }

  /** The line up to its comment. */
  function Uncommented(line: string): string {
    if line == "" || line[0] == '#' then "" else [line[0]] + Uncommented(line[1..])
  }

  function Commas(s: string): nat {
    if s == "" then 0 else Commas(s[..|s| - 1]) + if s[|s| - 1] == ',' then 1 else 0
  }

  /** The line is empty once its comment is gone, or does not have four fields. */
  predicate Ignored(line: string) { Uncommented(line) == "" || Commas(Uncommented(line)) + 1 != 4 }

  function TokenTexts(s: string): (r: seq<string>)
    ensures |r| == |Tokens(false, s, 0, DELIMITERS)|
  {
    Texts(s, Tokens(false, s, 0, DELIMITERS))
  }

  /** The tokens fill an entry: none is missing, the name fits, and atoi can represent the numbers. */
  predicate Fills(ts: seq<string>) {
    && 4 <= |ts| && |ts[0]| < NAME_SIZE
    && IsInt(Atoi(ts[1])) && IsInt(Atoi(ts[2])) && IsInt(Atoi(ts[3]))
  }

  /**
   * On other lines that are not ignored the source copies from NULL or past
   * the end of the name, or lets atoi overflow.
   */
  predicate Readable(line: string) { Ignored(line) || Fills(TokenTexts(Uncommented(line))) }

  function EntryFrom(ts: seq<string>, pid: nat): Entry
    requires Fills(ts)
  {
    Entry(pid, ts[0], Unsigned(Atoi(ts[1])), Unsigned(Atoi(ts[2])), Unsigned(Atoi(ts[3])))
  }

  function EntryOf(line: string, pid: nat): Entry
    requires Readable(line) && !Ignored(line)
  {
    EntryFrom(TokenTexts(Uncommented(line)), pid)
  }

  /** How many lines are not ignored. */
  function Usable(lines: seq<string>): nat {
    if lines == [] then 0 else Usable(lines[..|lines| - 1]) + if Ignored(lines[|lines| - 1]) then 0 else 1
  }

  /** The process table after the lines, each entry's pid being its index. */
  function Entries(lines: seq<string>): (r: seq<Entry>)
    requires AllReadable(lines)
    ensures |r| == Usable(lines)
  {
    if lines == [] then []
    else
      var before := Entries(lines[..|lines| - 1]);
      var line := lines[|lines| - 1];
      if Ignored(line) then before else before + [EntryOf(line, |before|)]
  }

  // ----- Reading back what was written -----

  /** No delimiter and no comment sign. */
  predicate Plain(w: string) { forall k :: 0 <= k < |w| ==> w[k] !in DELIMITERS && w[k] != '#' }

  predicate AllDelimiters(g: string) { forall k :: 0 <= k < |g| ==> g[k] in DELIMITERS }

  /** The words with the gaps before, between and behind them. */
  function Spelled(gaps: seq<string>, words: seq<string>): string
    requires |gaps| == |words| + 1
  {
    if words == [] then gaps[0] else gaps[0] + (words[0] + Spelled(gaps[1..], words[1..]))
  }

  function Fields(e: Entry): seq<string>
    requires Writable(e)
  {
    [e.name, Decimal(e.creation), Decimal(e.workload), Decimal(e.priority)]
  }

  /** The name has a character, none that would end it, and fits; the numbers are ints. */
  predicate Writable(e: Entry) {
    && e.creation <= INT_MAX && e.workload <= INT_MAX && e.priority <= INT_MAX
    && 0 < |e.name| < NAME_SIZE && Plain(e.name)
  }

  /** Three commas between the fields, and blanks anywhere around them. */
  predicate GapsOk(gaps: seq<string>) {
    && |gaps| == 5 && (forall k :: 0 <= k < 5 ==> AllDelimiters(gaps[k]))
    && Commas(gaps[0]) == Commas(gaps[4]) == 0
    && Commas(gaps[1]) == Commas(gaps[2]) == Commas(gaps[3]) == 1
  }

  /** Nothing, or a comment up to the end of the line. */
  predicate CommentOk(comment: string) { comment == "" || comment[0] == '#' }

  /**
   * The line is a process in the documented format: four fields separated by
   * commas, blanks where one likes, with or without a comment and a newline.
   */
  ghost predicate IsLineFor(line: string, e: Entry) {
    && Writable(e)
    && exists gaps, comment :: GapsOk(gaps) && CommentOk(comment) && line == Spelled(gaps, Fields(e)) + comment
  }

  lemma DecimalPlain(n: nat)
    ensures Plain(Decimal(n)) && Decimal(n) != ""
  {
    var s := Decimal(n);
    forall k | 0 <= k < |s| ensures s[k] !in DELIMITERS && s[k] != '#' {
      assert IsDigit(s[k]);
    }
  }

  // ----- The words of a spelled line -----

  predicate WordsOk(words: seq<string>) {
    forall k :: 0 <= k < |words| ==> Plain(words[k]) && words[k] != ""
  }

  /** Delimiters everywhere, and at least one between two words. */
  predicate Separated(gaps: seq<string>) {
    && (forall k :: 0 <= k < |gaps| ==> AllDelimiters(gaps[k]))
    && (forall k :: 0 < k < |gaps| - 1 ==> gaps[k] != "")
  }

  /** From position i on, the text t behind gap g begins with word w. */
  lemma FirstWord(s: string, i: nat, g: string, w: string, rest: string)
    requires i <= |s| && s[i..] == g + (w + rest) && AllDelimiters(g) && Plain(w) && w != ""
    requires rest != "" ==> rest[0] in DELIMITERS
    ensures var a := i + |g|; var e := a + |w|;
            && e <= |s| && s[a..e] == w && s[e..] == rest
            && PlainScan(s, i, DELIMITERS) == Scan(a, e)
  {
    var a, e := i + |g|, i + |g| + |w|;
    var u := s[i..];
    forall k | 0 <= k < |u| ensures s[i + k] == u[k] {
    }
    assert u[|g|] == w[0] && u[|g|..|g| + |w|] == w;
    assert s[a..e] == w && s[e..] == rest;
    SpanStops(s, i, a);
    SpanNotStops(s, a, e);
  }

  lemma SpanStops(s: string, i: nat, a: nat)
    requires i <= a < |s| && s[a] !in DELIMITERS && forall k :: i <= k < a ==> s[k] in DELIMITERS
    ensures Span(s, i, DELIMITERS) == a
  {
  }

  lemma SpanNotStops(s: string, a: nat, e: nat)
    requires a <= e <= |s| && (e < |s| ==> s[e] in DELIMITERS) && forall k :: a <= k < e ==> s[k] !in DELIMITERS
    ensures SpanNot(s, a, DELIMITERS) == e
  {
  }

  /** The words are what the text holds at the scans. */
  ghost predicate AreTexts(s: string, ts: seq<Scan>, words: seq<string>) {
    && |ts| == |words|
    && forall k {:trigger ts[k]} {:trigger words[k]} :: 0 <= k < |ts| ==>
         ts[k].start <= ts[k].end <= |s| && s[ts[k].start..ts[k].end] == words[k]
  }

  lemma TextsCons(s: string, t: Scan, ts: seq<Scan>, word: string, words: seq<string>)
    requires t.start <= t.end <= |s| && s[t.start..t.end] == word && AreTexts(s, ts, words)
    ensures AreTexts(s, [t] + ts, [word] + words)
  {
  }

  /** The scan from position i finds the word w at a. */
  ghost predicate WordAt(s: string, i: nat, a: nat, e: nat, w: string) {
    i <= a < e <= |s| && PlainScan(s, i, DELIMITERS) == Scan(a, e) && s[a..e] == w
  }

  /** The first word's scan, and what follows the delimiter it is cut off by. */
  lemma SpelledStep(s: string, i: nat, gaps: seq<string>, words: seq<string>)
    returns (a: nat, e: nat, gaps': seq<string>, rest: seq<string>)
    requires i <= |s| && |gaps| == |words| + 1 && s[i..] == Spelled(gaps, words)
    requires words != [] && WordsOk(words) && Separated(gaps)
    ensures WordAt(s, i, a, e, words[0])
    ensures words == [words[0]] + rest && |rest| == |words| - 1 && WordsOk(rest)
    ensures if e == |s| then |words| == 1
            else |gaps'| == |words| && Separated(gaps') && s[e + 1..] == Spelled(gaps', rest)
  {
    rest := words[1..];
    SpelledStart(gaps[1..], rest);
    FirstWord(s, i, gaps[0], words[0], Spelled(gaps[1..], rest));
    a, e := i + |gaps[0]|, i + |gaps[0]| + |words[0]|;
    gaps' := [];
    if e < |s| {
      gaps' := BehindCut(s, e, gaps[1..], rest);
    }
  }

  lemma DelimitersPlain()
    ensures NUL !in DELIMITERS && QUOTES !! DELIMITERS
  {
  }

  /** Whatever the gaps are, the tokens of the text are the words. */
  lemma {:induction false} SpelledTokens(s: string, i: nat, gaps: seq<string>, words: seq<string>)
    requires i <= |s| && |gaps| == |words| + 1 && s[i..] == Spelled(gaps, words)
    requires WordsOk(words) && Separated(gaps)
    ensures AreTexts(s, Tokens(false, s, i, DELIMITERS), words)
    decreases |words|, 0
  {
    DelimitersPlain();
    if words == [] {
      NoWord(s, i, gaps[0]);
    } else {
      var a, e, gaps', rest := SpelledStep(s, i, gaps, words);
      if e < |s| {
        WordAndRest(s, i, a, e, gaps', words[0], rest);
      } else {
        WordLast(s, i, a, words[0]);
      }
    }
  }

  lemma {:induction false} WordAndRest(s: string, i: nat, a: nat, e: nat, gaps: seq<string>, word: string,
                                       rest: seq<string>)
    requires e < |s| && WordAt(s, i, a, e, word)
    requires |gaps| == |rest| + 1 && s[e + 1..] == Spelled(gaps, rest) && WordsOk(rest) && Separated(gaps)
    ensures AreTexts(s, Tokens(false, s, i, DELIMITERS), [word] + rest)
    decreases |rest|, 1
  {
    assert AreTexts(s, Tokens(false, s, e + 1, DELIMITERS), rest) by {
      SpelledTokens(s, e + 1, gaps, rest);
    }
    WordThen(s, i, a, e, word, rest);
  }

  lemma WordThen(s: string, i: nat, a: nat, e: nat, word: string, rest: seq<string>)
    requires e < |s| && WordAt(s, i, a, e, word)
    requires AreTexts(s, Tokens(false, s, e + 1, DELIMITERS), rest)
    ensures AreTexts(s, Tokens(false, s, i, DELIMITERS), [word] + rest)
  {
    TokensUnfold(false, s, i, DELIMITERS);
    TextsCons(s, Scan(a, e), Tokens(false, s, e + 1, DELIMITERS), word, rest);
  }

  lemma WordLast(s: string, i: nat, a: nat, word: string)
    requires WordAt(s, i, a, |s|, word)
    ensures AreTexts(s, Tokens(false, s, i, DELIMITERS), [word])
  {
    TokensUnfold(false, s, i, DELIMITERS);
  }

  lemma NoWord(s: string, i: nat, g: string)
    requires i <= |s| && s[i..] == g && AllDelimiters(g)
    ensures Tokens(false, s, i, DELIMITERS) == []
  {
    forall k | i <= k < |s| ensures s[k] in DELIMITERS {
      assert g[k - i] == s[k];
    }
  }

  /** What follows a word begins with a delimiter, if anything follows it. */
  lemma SpelledStart(gaps: seq<string>, words: seq<string>)
    requires |gaps| == |words| + 1 && AllDelimiters(gaps[0]) && (words != [] ==> gaps[0] != "")
    ensures var r := Spelled(gaps, words); (r != "" ==> r[0] in DELIMITERS && gaps[0] != "") && (r == "" ==>
            words == [])
  {
  }

  /** Behind the delimiter that the word was cut off by, the text is spelled with one gap shortened. */
  lemma BehindCut(s: string, e: nat, gaps: seq<string>, words: seq<string>) returns (gaps': seq<string>)
    requires e < |s| && |gaps| == |words| + 1 && s[e..] == Spelled(gaps, words) && gaps[0] != ""
    requires forall k :: 0 <= k < |gaps| ==> AllDelimiters(gaps[k]) && (k < |gaps| - 1 ==> gaps[k] != "")
    ensures |gaps'| == |gaps| && Separated(gaps') && s[e + 1..] == Spelled(gaps', words)
  {
    gaps' := gaps[0 := gaps[0][1..]];
    assert gaps'[1..] == gaps[1..];
    assert s[e + 1..] == s[e..][1..];
  }

  // ----- Its commas and its comment -----

  lemma {:induction false} CommasAppend(a: string, b: string)
    ensures Commas(a + b) == Commas(a) + Commas(b)
    decreases |b|
  {
    if b == "" {
      assert a + b == a;
    } else {
      CommasAppend(a, b[..|b| - 1]);
      assert (a + b)[..|a + b| - 1] == a + b[..|b| - 1];
    }
  }

  lemma {:induction false} CommasPlain(w: string)
    requires Plain(w)
    ensures Commas(w) == 0
    decreases |w|
  {
    if w != "" {
      CommasPlain(w[..|w| - 1]);
    }
  }

  function GapCommas(gaps: seq<string>): nat {
    if gaps == [] then 0 else Commas(gaps[0]) + GapCommas(gaps[1..])
  }

  /** The commas of the gaps are the commas of the line. */
  lemma {:induction false} SpelledCommas(gaps: seq<string>, words: seq<string>)
    requires |gaps| == |words| + 1 && WordsOk(words)
    ensures Commas(Spelled(gaps, words)) == GapCommas(gaps)
    decreases |words|
  {
    if words != [] {
      var rest := Spelled(gaps[1..], words[1..]);
      WordsBehind(words);
      SpelledCommas(gaps[1..], words[1..]);
      CommasAppend(gaps[0], words[0] + rest);
      CommasAppend(words[0], rest);
      CommasPlain(words[0]);
    } else {
      assert gaps[1..] == [];
    }
  }

  lemma WordsBehind(words: seq<string>)
    requires words != [] && WordsOk(words)
    ensures WordsOk(words[1..])
  {
    forall k | 0 <= k < |words[1..]| ensures Plain(words[1..][k]) && words[1..][k] != "" {
      assert words[1..][k] == words[k + 1];
    }
  }

  predicate NoHash(s: string) { forall k :: 0 <= k < |s| ==> s[k] != '#' }

  lemma {:induction false} SpelledNoHash(gaps: seq<string>, words: seq<string>)
    requires |gaps| == |words| + 1 && WordsOk(words) && forall k :: 0 <= k < |gaps| ==> AllDelimiters(gaps[k])
    ensures NoHash(Spelled(gaps, words))
    decreases |words|
  {
    if words != [] {
      SpelledNoHash(gaps[1..], words[1..]);
    }
  }

  lemma {:induction false} CommentCut(s: string, comment: string)
    requires NoHash(s) && CommentOk(comment)
    ensures Uncommented(s + comment) == s
  {
    if s == "" {
      assert s + comment == comment;
    } else {
      CommentCut(s[1..], comment);
      assert (s + comment)[1..] == s[1..] + comment;
    }
  }

  lemma FieldsOk(e: Entry)
    requires Writable(e)
    ensures WordsOk(Fields(e))
  {
    DecimalPlain(e.creation);
    DecimalPlain(e.workload);
    DecimalPlain(e.priority);
  }

  lemma FourFields(gaps: seq<string>, words: seq<string>)
    requires GapsOk(gaps) && |words| == 4 && WordsOk(words)
    ensures Commas(Spelled(gaps, words)) == 3
  {
    SpelledCommas(gaps, words);
    FiveGaps(gaps);
  }

  lemma FiveGaps(gaps: seq<string>)
    requires |gaps| == 5
    ensures GapCommas(gaps) ==
            Commas(gaps[0]) + Commas(gaps[1]) + Commas(gaps[2]) + Commas(gaps[3]) + Commas(gaps[4])
  {
    var g1, g2, g3, g4 := gaps[1..], gaps[2..], gaps[3..], gaps[4..];
    assert g1[1..] == g2 && g2[1..] == g3 && g3[1..] == g4 && g4[1..] == [];
    assert GapCommas(g4) == Commas(gaps[4]);
    assert GapCommas(g3) == Commas(gaps[3]) + GapCommas(g4);
    assert GapCommas(g2) == Commas(gaps[2]) + GapCommas(g3);
    assert GapCommas(g1) == Commas(gaps[1]) + GapCommas(g2);
  }

  lemma GapsSeparate(gaps: seq<string>)
    requires GapsOk(gaps)
    ensures Separated(gaps)
  {
    assert Commas("") == 0;
  }

  /** Reading any line for a process gives the process. */
  lemma LineReadBack(line: string, e: Entry, pid: nat)
    requires IsLineFor(line, e)
    ensures Readable(line) && !Ignored(line) && EntryOf(line, pid) == e.(pid := pid)
  {
    var gaps, comment :| GapsOk(gaps) && CommentOk(comment) && line == Spelled(gaps, Fields(e)) + comment;
    var s := Spelled(gaps, Fields(e));
    FieldsOk(e);
    GapsSeparate(gaps);
    SpelledNoHash(gaps, Fields(e));
    CommentCut(s, comment);
    FourFields(gaps, Fields(e));
    assert s[0..] == s;
    SpelledTokens(s, 0, gaps, Fields(e));
    assert TokenTexts(s) == Fields(e);
    FieldsFill(e, pid);
  }

  lemma FieldsFill(e: Entry, pid: nat)
    requires Writable(e)
    ensures Fills(Fields(e)) && EntryFrom(Fields(e), pid) == e.(pid := pid)
  {
    AtoiDecimal(e.creation);
    AtoiDecimal(e.workload);
    AtoiDecimal(e.priority);
  }

  /** The usual spelling is one of them. */
  lemma UsualLine(e: Entry)
    requires Writable(e)
    ensures var f := Fields(e);
            IsLineFor(f[0] + (", " + (f[1] + (", " + (f[2] + (", " + (f[3] + "\n")))))), e)
  {
    var gaps, f := ["", ", ", ", ", ", ", "\n"], Fields(e);
    assert ", "[..1] == "," && ","[..0] == "" && "\n"[..0] == "";
    assert Commas(",") == 1 && GapsOk(gaps);
    SpelledLine(gaps, f);
    var line := Spelled(gaps, f);
    assert line + "" == line && CommentOk("");
    var rest := ", " + (f[1] + (", " + (f[2] + (", " + (f[3] + "\n")))));
    assert "" + (f[0] + rest) == f[0] + rest;
  }

  lemma SpelledLine(gaps: seq<string>, f: seq<string>)
    requires |gaps| == 5 && |f| == 4
    ensures Spelled(gaps, f) ==
            gaps[0] + (f[0] + (gaps[1] + (f[1] + (gaps[2] + (f[2] + (gaps[3] + (f[3] + gaps[4])))))))
  {
    assert Spelled(gaps[1..], f[1..]) == gaps[1] + (f[1] + Spelled(gaps[2..], f[2..]));
    assert Spelled(gaps[2..], f[2..]) == gaps[2] + (f[2] + Spelled(gaps[3..], f[3..]));
    assert Spelled(gaps[3..], f[3..]) == gaps[3] + (f[3] + Spelled(gaps[4..], f[4..]));
    assert Spelled(gaps[4..], f[4..]) == gaps[4];
  }

  /** The file consists of the processes in order, with ignored lines anywhere between them. */
  ghost predicate Written(lines: seq<string>, es: seq<Entry>) {
    if lines == [] then es == []
    else
      var last := lines[|lines| - 1];
      if Ignored(last) then Written(lines[..|lines| - 1], es)
      else es != [] && IsLineFor(last, es[|es| - 1]) && Written(lines[..|lines| - 1], es[..|es| - 1])
  }

  ghost predicate AllReadable(lines: seq<string>) {
    forall k {:trigger Readable(lines[k])} :: 0 <= k < |lines| ==> Readable(lines[k])
  }

  /** Reading back a specification gives exactly the processes written, in order, pid being the index. */
  lemma {:induction false} SpecReadBack(lines: seq<string>, es: seq<Entry>)
    requires Written(lines, es)
    requires forall k :: 0 <= k < |es| ==> es[k].pid == k
    ensures AllReadable(lines)
    ensures Entries(lines) == es
    decreases |lines|
  {
    if lines != [] {
      var last, front := lines[|lines| - 1], lines[..|lines| - 1];
      if Ignored(last) {
        SpecReadBack(front, es);
      } else {
        var e, before := es[|es| - 1], es[..|es| - 1];
        assert es == before + [e];
        SpecReadBack(front, before);
        LineReadBack(last, e, |before|);
      }
      ReadableMore(lines);
    }
  }

  lemma ReadableMore(lines: seq<string>)
    requires lines != [] && AllReadable(lines[..|lines| - 1]) && Readable(lines[|lines| - 1])
    ensures AllReadable(lines)
  {
    forall k | 0 <= k < |lines| ensures Readable(lines[k]) {
      if k < |lines| - 1 {
        assert Readable(lines[..|lines| - 1][k]);
      }
    }
  }

  // ----- read_spec -----

  lemma {:induction false} UncommentedAt(line: string, i: nat)
    requires i <= |line| && forall k :: 0 <= k < i ==> line[k] != '#'
    ensures Uncommented(line) == line[..i] + Uncommented(line[i..])
  {
    if i == 0 {
      assert line[0..] == line;
    } else {
      UncommentedAt(line[1..], i - 1);
      assert line[1..][i - 1..] == line[i..] && line[..i] == [line[0]] + line[1..][..i - 1];
    }
  }

  /** The loop over the line buffer: the comment is cut off and the fields are counted. */
  method StripComment(b: array<char>, ghost line: string) returns (fields: nat)
    requires HoldsText(b[..], line, 0)
    modifies b
    ensures HoldsText(b[..], Uncommented(line), 0) && fields == Commas(Uncommented(line)) + 1
  {
    fields := 1;
    var i := 0;
    while i < b.Length
      invariant i <= |line| && HoldsText(b[..], line, 0)
      invariant forall k :: 0 <= k < i ==> line[k] != '#'
      invariant fields == Commas(line[..i]) + 1
      decreases |line| + 1 - i
    {
      if b[i] == '#' {
        b[i] := NUL;
      }
      if b[i] == NUL {
        UncommentedAt(line, i);
        assert Uncommented(line[i..]) == "" && Uncommented(line) == line[..i];
        return;
      }
      assert line[..i + 1][..i] == line[..i];
      if b[i] == ',' {
        fields := fields + 1;
      }
      i := i + 1;
    }
  }

  /** One call of next_token and a copy of the token it returned; there is nothing to copy at NULL. */
  method ReadField(b: array<char>, p: Option<nat>, ghost s: string) returns (w: Option<string>, ptr: Option<nat>)
    requires |s| < b.Length && (p.Some? ==> HoldsText(b[..], s, p.value))
    modifies b
    ensures ptr.Some? ==> HoldsText(b[..], s, ptr.value)
    ensures FieldRead(s, Remaining(false, s, p, DELIMITERS), w, ptr)
  {
    w, ptr := None, None;
    if p.Some? {
      var tok;
      tok, ptr := TakeToken(false, b, p.value, DELIMITERS, s);
      if tok.Some? {
        ghost var t := Tokens(false, s, p.value, DELIMITERS)[0];
        CTextOf(b[..], s, t.start, t.end);
        var word := CString(b, tok.value, t.end);
        w := Some(word);
      }
    }
  }

  ghost predicate FieldRead(s: string, rest: seq<Scan>, w: Option<string>, ptr: Option<nat>)
    requires InOrder(s, rest)
  {
    && (ptr.Some? ==> ptr.value <= |s|)
    && if rest == [] then w == None && ptr == None
       else w == Some(s[rest[0].start..rest[0].end]) && rest[1..] == Remaining(false, s, ptr, DELIMITERS)
  }

  /** The four calls of next_token on a line that passed the checks; None where the source goes wrong. */
  method ReadFields(b: array<char>, pid: nat, ghost s: string) returns (e: Option<Entry>)
    requires HoldsText(b[..], s, 0)
    modifies b
    ensures var ts := TokenTexts(s); e == if Fills(ts) then Some(EntryFrom(ts, pid)) else None
  {
    ghost var ts := Tokens(false, s, 0, DELIMITERS);
    var p := Some(0);
    var name, creation, workload, priority;
    e := None;
    name, p := ReadField(b, p, s);
    if name.None? || |name.value| >= NAME_SIZE { return; }
    assert ts[1..] == Remaining(false, s, p, DELIMITERS);
    creation, p := ReadField(b, p, s);
    if creation.None? || !IsInt(Atoi(creation.value)) { return; }
    assert ts[2..] == ts[1..][1..] == Remaining(false, s, p, DELIMITERS);
    workload, p := ReadField(b, p, s);
    if workload.None? || !IsInt(Atoi(workload.value)) { return; }
    assert ts[3..] == ts[2..][1..] == Remaining(false, s, p, DELIMITERS);
    priority, p := ReadField(b, p, s);
    if priority.None? || !IsInt(Atoi(priority.value)) { return; }
    e := Some(Entry(pid, name.value, Unsigned(Atoi(creation.value)), Unsigned(Atoi(workload.value)),
                    Unsigned(Atoi(priority.value))));
  }

  /** The loop body of read_spec for one line in the buffer; ok is false where the source goes wrong. */
  method ReadLine(b: array<char>, pid: nat, ghost line: string) returns (ok: bool, e: Option<Entry>)
    requires HoldsText(b[..], line, 0)
    modifies b
    ensures ok <==> Readable(line)
    ensures ok ==> e == if Ignored(line) then None else Some(EntryOf(line, pid))
  {
    var fields := StripComment(b, line);
    if b[0] == NUL || fields != 4 {
      return true, None;
    }
    e := ReadFields(b, pid, Uncommented(line));
    ok := e.Some?;
  }

  /**
   * read_spec: one line after the other, each usable one becoming the next
   * entry of the table. It goes wrong exactly when some line is not readable.
   */
  method ReadSpec(lines: seq<string>, pcbs: array<Entry>) returns (ok: bool, num: nat)
    requires forall k :: 0 <= k < |lines| ==> |lines[k]| < LINE_SIZE && NUL !in lines[k]
    requires Usable(lines) <= MAX_PROCESSES <= pcbs.Length
    modifies pcbs
    ensures ok <==> AllReadable(lines)
    ensures ok ==> num == |Entries(lines)| && pcbs[..num] == Entries(lines)
  {
    var buffer := new char[LINE_SIZE];
    num := 0;
    assert lines[..|lines|] == lines;
    for k := 0 to |lines|
      invariant ReadSoFar(lines[..k], pcbs[..], num)
    {
      UsableGrows(lines, k);
      FillBuffer(buffer, lines[k]);
      var readable, e := ReadLine(buffer, num, lines[k]);
      if !readable {
        assert !Readable(lines[k]);
        return false, num;
      }
      ghost var table, read := pcbs[..], num;
      if e.Some? {
        pcbs[num] := e.value;
        num := num + 1;
      }
      FrontGrows(lines, k);
      ReadOneMore(lines[..k], lines[k], lines[..k + 1], table, pcbs[..], read, e);
    }
    ok := true;
  }

  /** The table holds the entries of the lines read so far. */
  ghost predicate ReadSoFar(lines: seq<string>, table: seq<Entry>, num: nat) {
    AllReadable(lines) && num == Usable(lines) <= |table| && table[..num] == Entries(lines)
  }

  lemma ReadOneMore(front: seq<string>, line: string, all: seq<string>, table: seq<Entry>, table': seq<Entry>,
                                       num: nat, e: Option<Entry>)
    requires all == front + [line] && ReadSoFar(front, table, num) && Readable(line)
    requires e == if Ignored(line) then None else Some(EntryOf(line, num))
    requires if e.None? then table' == table else num < |table| && table' == table[num := e.value]
    ensures ReadSoFar(all, table', num + if e.None? then 0 else 1)
  {
    assert all[..|all| - 1] == front;
    ReadableMore(all);
    assert e.Some? ==> table'[..num + 1] == table[..num] + [e.value];
  }

  lemma FrontGrows(lines: seq<string>, k: nat)
    requires k < |lines|
    ensures lines[..k + 1] == lines[..k] + [lines[k]]
  {
  }

  lemma {:induction false} UsableGrows(lines: seq<string>, k: nat)
    requires k < |lines|
    ensures Usable(lines[..k + 1]) == Usable(lines[..k]) + if Ignored(lines[k]) then 0 else 1
    ensures Usable(lines[..k + 1]) <= Usable(lines)
  {
    assert lines[..k + 1][..k] == lines[..k];
    UsableMonotone(lines, k + 1);
  }

  lemma {:induction false} UsableMonotone(lines: seq<string>, k: nat)
    requires k <= |lines|
    ensures Usable(lines[..k]) <= Usable(lines)
    decreases |lines|
  {
    if k == |lines| {
      assert lines[..k] == lines;
    } else {
      UsableMonotone(lines[..|lines| - 1], k);
      assert lines[..|lines| - 1][..k] == lines[..k];
    }
  }
}
