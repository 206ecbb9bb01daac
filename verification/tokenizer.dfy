/**
 * next_token, in place over a NUL-terminated buffer: the plain version of
 * LabWork/Lab7/file_format.c and the quote-aware one of Project2/tokenizer.c.
 */
module Tokenizer {
  import opened Basics

  const NUL: char := '\0'

  // ----- strspn and strcspn on the text s from position i, as end positions -----

  function Span(s: string, i: nat, chars: set<char>): (e: nat)
    requires i <= |s|
    ensures i <= e <= |s| && (e < |s| ==> s[e] !in chars)
    ensures forall k :: i <= k < e ==> s[k] in chars
    decreases |s| - i
  {
    if i < |s| && s[i] in chars then Span(s, i + 1, chars) else i
  }

  function SpanNot(s: string, i: nat, chars: set<char>): (e: nat)
    requires i <= |s|
    ensures i <= e <= |s| && (e < |s| ==> s[e] in chars)
    ensures forall k :: i <= k < e ==> s[k] !in chars
    decreases |s| - i
  {
    if i < |s| && s[i] !in chars then SpanNot(s, i + 1, chars) else i
  }

  /** Where the next token starts and ends; start == end means there is none. */
  datatype Scan = Scan(start: nat, end: nat)

  function PlainScan(s: string, i: nat, delim: set<char>): Scan
    requires i <= |s|
  {
    var start := Span(s, i, delim);
    Scan(start, SpanNot(s, start, delim))
  }

  const QUOTES: set<char> := {'\'', '"'}

  /** The end of a token with a quote at q: the first delimiter at or after the closing quote. */
  function QuotedEnd(s: string, q: nat, delim: set<char>): nat
    requires q < |s|
  {
    SpanNot(s, SpanNot(s, q + 1, {s[q]}), delim)
  }

  /**
   * The scan of the quote-aware version. The test compares the quote's offset
   * from the pointer with the token's length, not with the token's end.
   */
  function QuoteScan(s: string, i: nat, delim: set<char>): Scan
    requires i <= |s|
  {
    var plain := PlainScan(s, i, delim);
    var q := SpanNot(s, i, QUOTES);
    if q - i < plain.end - plain.start then Scan(plain.start, QuotedEnd(s, q, delim)) else plain
  }

  // ----- In place -----

  /** Buffer b holds the text s from its start, and a NUL behind it. */
  ghost predicate HoldsText(b: seq<char>, s: string, i: nat) {
    && i <= |s| < |b| && b[|s|] == NUL
    && (forall k :: i <= k < |s| ==> b[k] == s[k] && s[k] != NUL)
  }

  /** A line read into the buffer, with a NUL behind it. */
  method FillBuffer(b: array<char>, line: string)
    requires |line| < b.Length && NUL !in line
    modifies b
    ensures HoldsText(b[..], line, 0)
  {
    var k := 0;
    while k < |line|
      invariant k <= |line| && forall j :: 0 <= j < k ==> b[j] == line[j]
    {
      b[k] := line[k];
      k := k + 1;
    }
    b[k] := NUL;
  }

  /** strspn and strcspn in the buffer. */
  method BufferSpan(b: array<char>, i: nat, chars: set<char>, ghost s: string) returns (e: nat)
    requires HoldsText(b[..], s, i) && NUL !in chars
    ensures e == Span(s, i, chars)
  {
    e := i;
    while b[e] in chars
      invariant i <= e <= |s| && Span(s, i, chars) == Span(s, e, chars)
      decreases |s| - e
    {
      e := e + 1;
    }
  }

  method BufferSpanNot(b: array<char>, i: nat, chars: set<char>, ghost s: string) returns (e: nat)
    requires HoldsText(b[..], s, i) && NUL !in chars
    ensures e == SpanNot(s, i, chars)
  {
    e := i;
    while b[e] != NUL && b[e] !in chars
      invariant i <= e <= |s| && SpanNot(s, i, chars) == SpanNot(s, e, chars)
      decreases |s| - e
    {
      e := e + 1;
    }
  }

  /** What a call returns and leaves behind, for the scan it made. */
  ghost predicate CutAs(before: seq<char>, after: seq<char>, s: string, scan: Scan, tok: Option<nat>,
                        ptr: Option<nat>)
  {
    if scan.end == scan.start || |s| < scan.end || |before| <= |s| then
      tok == None && ptr == None && after == before
    else
      && tok == Some(scan.start)
      && ptr == (if scan.end == |s| then None else Some(scan.end + 1))
      && after == (if scan.end == |s| then before else before[scan.end := NUL])
  }

  /**
   * The common tail of both versions: end the token with a NUL and step over
   * it. The length of the token is unsigned, so it is positive unless it is 0.
   */
  method Cut(b: array<char>, scan: Scan, ghost s: string, ghost i: nat) returns (tok: Option<nat>, ptr: Option<nat>)
    requires HoldsText(b[..], s, i) && i <= scan.start <= |s| && i <= scan.end <= |s|
    modifies b
    ensures CutAs(old(b[..]), b[..], s, scan, tok, ptr)
  {
    if scan.end - scan.start == 0 {
      return None, None;
    }
    tok := Some(scan.start);
    if b[scan.end] == NUL {
      ptr := None;
    } else {
      b[scan.end] := NUL;
      ptr := Some(scan.end + 1);
    }
  }

  /** next_token of file_format.c. */
  method NextToken(b: array<char>, p: Option<nat>, delim: set<char>, ghost s: string)
    returns (tok: Option<nat>, ptr: Option<nat>)
    requires NUL !in delim && (p.Some? ==> HoldsText(b[..], s, p.value))
    modifies b
    ensures p.None? ==> tok == None && ptr == None && b[..] == old(b[..])
    ensures p.Some? ==> CutAs(old(b[..]), b[..], s, PlainScan(s, p.value, delim), tok, ptr)
  {
    if p.None? {
      return None, None;
    }
    var start := BufferSpan(b, p.value, delim, s);
    var end := BufferSpanNot(b, start, delim, s);
    tok, ptr := Cut(b, Scan(start, end), s, p.value);
  }

  /** next_token of tokenizer.c. */
  method NextTokenQuoted(b: array<char>, p: Option<nat>, delim: set<char>, ghost s: string)
    returns (tok: Option<nat>, ptr: Option<nat>)
    requires NUL !in delim && (p.Some? ==> HoldsText(b[..], s, p.value))
    modifies b
    ensures p.None? ==> tok == None && ptr == None && b[..] == old(b[..])
    ensures p.Some? ==> CutAs(old(b[..]), b[..], s, QuoteScan(s, p.value, delim), tok, ptr)
  {
    if p.None? {
      return None, None;
    }
    var start := BufferSpan(b, p.value, delim, s);
    var end := BufferSpanNot(b, start, delim, s);
    var quote := BufferSpanNot(b, p.value, QUOTES, s);
    if quote - p.value < end - start {
      var closing := BufferSpanNot(b, quote + 1, {b[quote]}, s);
      end := BufferSpanNot(b, closing, delim, s);
    }
    QuoteScanBounds(s, p.value, delim);
    assert Scan(start, end) == QuoteScan(s, p.value, delim);
    tok, ptr := Cut(b, Scan(start, end), s, p.value);
  }

  /**
   * A scan stays in the text. Unless quotes are delimiters, a quote it acts on
   * lies inside the plain token, which only gets longer.
   */
  lemma QuoteScanBounds(s: string, i: nat, delim: set<char>)
    requires i <= |s|
    ensures var plain, scan := PlainScan(s, i, delim), QuoteScan(s, i, delim);
            && i <= scan.start == plain.start <= plain.end && i <= scan.end <= |s|
            && (QUOTES !! delim ==> scan.start <= scan.end)
  {
    var plain, q := PlainScan(s, i, delim), SpanNot(s, i, QUOTES);
    assert q < |s| ==> s[q] in QUOTES;
  }

  // ----- Calling it until NULL -----

  /** Only the quote-aware version cares whether quotes are delimiters. */
  predicate QuotesApart(quoted: bool, delim: set<char>) { quoted ==> QUOTES !! delim }

  function ScanFrom(quoted: bool, s: string, i: nat, delim: set<char>): (scan: Scan)
    requires i <= |s|
    ensures i <= scan.start <= |s| && i <= scan.end <= |s|
    ensures QuotesApart(quoted, delim) ==> scan.start <= scan.end
  {
    if quoted then QuoteScanBounds(s, i, delim); QuoteScan(s, i, delim) else PlainScan(s, i, delim)
  }

  /** The tokens of the text s from position i on, by either scan. */
  function Tokens(quoted: bool, s: string, i: nat, delim: set<char>): (r: seq<Scan>)
    requires i <= |s|
    ensures forall k :: 0 <= k < |r| ==> i <= r[k].start <= |s| && i <= r[k].end <= |s|
    ensures QuotesApart(quoted, delim) ==> InOrder(s, r)
    decreases |s| - i
  {
    var scan := ScanFrom(quoted, s, i, delim);
    if scan.end == scan.start then []
    else if scan.end == |s| then [scan]
    else [scan] + Tokens(quoted, s, scan.end + 1, delim)
  }

  /**
   * Buffer b is the buffer was after the first n of the tokens ts of the text s were cut out: a NUL
   * behind each, nothing else.
   */
  ghost predicate CutThrough(was: seq<char>, b: seq<char>, s: string, ts: seq<Scan>, n: nat)
    requires n <= |ts|
  {
    && |b| == |was|
    && forall x :: 0 <= x < |b| ==> b[x] == if x < |s| && EndsToken(ts, n, x) then NUL else was[x]
  }

  ghost predicate EndsToken(ts: seq<Scan>, n: nat, x: nat)
    requires n <= |ts|
  {
    exists k :: 0 <= k < n && ts[k].end == x
  }

  lemma CutOneMore(was: seq<char>, b: seq<char>, b': seq<char>, s: string, ts: seq<Scan>, n: nat)
    requires n < |ts| && |s| < |was| && ts[n].end <= |s| && CutThrough(was, b, s, ts, n)
    requires b' == if ts[n].end == |s| then b else b[ts[n].end := NUL]
    ensures CutThrough(was, b', s, ts, n + 1)
  {
    forall x | 0 <= x < |b'| ensures b'[x] == if x < |s| && EndsToken(ts, n + 1, x) then NUL else was[x] {
      if EndsToken(ts, n, x) {
        var k :| 0 <= k < n && ts[k].end == x;
        assert EndsToken(ts, n + 1, x);
      } else if x == ts[n].end {
        assert EndsToken(ts, n + 1, x);
      }
    }
  }

  /** The C string at position a: the characters up to the first NUL. */
  function CText(b: seq<char>, a: nat): string
    requires a <= |b|
    decreases |b| - a
  {
    if a == |b| || b[a] == NUL then "" else [b[a]] + CText(b, a + 1)
  }

  lemma {:induction false} CTextIs(b: seq<char>, a: nat, e: nat)
    requires a <= e < |b| && b[e] == NUL && forall k :: a <= k < e ==> b[k] != NUL
    ensures CText(b, a) == b[a..e]
    decreases e - a
  {
    if a < e {
      CTextIs(b, a + 1, e);
    }
  }

  lemma CTextOf(b: seq<char>, s: string, a: nat, e: nat)
    requires a <= e <= |s| < |b| && b[e] == NUL && forall k :: a <= k < e ==> b[k] == s[k] != NUL
    ensures CText(b, a) == s[a..e]
  {
    CTextIs(b, a, e);
    assert b[a..e] == s[a..e];
  }

  /** The pointers lead to the tokens, as C strings. */
  ghost predicate Yielded(b: seq<char>, s: string, ts: seq<Scan>, toks: seq<nat>)
    requires InOrder(s, ts) && |s| < |b|
  {
    && |toks| == |ts|
    && forall k {:trigger toks[k]} :: 0 <= k < |toks| ==>
      toks[k] == ts[k].start && CText(b, toks[k]) == s[ts[k].start..ts[k].end]
  }

  lemma AllYielded(was: seq<char>, b: seq<char>, s: string, ts: seq<Scan>, toks: seq<nat>)
    requires HoldsText(was, s, 0) && InOrder(s, ts) && Found(toks, ts, []) && CutThrough(was, b, s, ts, |toks|)
    ensures |s| < |b| && Yielded(b, s, ts, toks)
  {
    assert |ts[|toks|..]| == 0;
    forall k | 0 <= k < |toks| ensures CText(b, toks[k]) == s[ts[k].start..ts[k].end] {
      TokenText(was, b, s, ts, |toks|, k);
    }
  }

  /** strcpy from position a; the string ends at or before e. */
  method CString(b: array<char>, a: nat, ghost e: nat) returns (w: string)
    requires a <= e < b.Length && b[e] == NUL
    ensures w == CText(b[..], a)
  {
    w := "";
    var k := a;
    while b[k] != NUL
      invariant a <= k <= e && w + CText(b[..], k) == CText(b[..], a)
      decreases e - k
    {
      Associate(w, [b[k]], CText(b[..], k + 1));
      w := w + [b[k]];
      k := k + 1;
    }
    assert w + [] == w;
  }

  /** Scans in a text, one after the other. */
  ghost predicate InOrder(s: string, ts: seq<Scan>) {
    && (forall k :: 0 <= k < |ts| ==> ts[k].start < ts[k].end <= |s|)
    && (forall j, k :: 0 <= j < k < |ts| ==> ts[j].end < ts[k].start)
  }

  /** The text at each of the scans. */
  function Texts(s: string, ts: seq<Scan>): (r: seq<string>)
    requires forall k :: 0 <= k < |ts| ==> ts[k].start < ts[k].end <= |s|
    ensures |r| == |ts| && forall k :: 0 <= k < |r| ==> r[k] == s[ts[k].start..ts[k].end] != ""
  {
    seq(|ts|, k requires 0 <= k < |ts| => s[ts[k].start..ts[k].end])
  }

  lemma NoEndInside(s: string, ts: seq<Scan>, n: nat, k: nat, x: nat)
    requires InOrder(s, ts) && k < n <= |ts| && ts[k].start <= x < ts[k].end
    ensures !EndsToken(ts, n, x)
  {
  }

  /** What a caller relies on: the C string at the start of a token that was cut out is the token. */
  lemma TokenText(was: seq<char>, b: seq<char>, s: string, ts: seq<Scan>, n: nat, k: nat)
    requires HoldsText(was, s, 0) && InOrder(s, ts) && k < n <= |ts| && CutThrough(was, b, s, ts, n)
    ensures CText(b, ts[k].start) == s[ts[k].start..ts[k].end]
  {
    var t := ts[k];
    forall x | t.start <= x < t.end ensures b[x] == s[x] != NUL {
      NoEndInside(s, ts, n, k, x);
    }
    assert EndsToken(ts, n, t.end);
    CTextOf(b, s, t.start, t.end);
  }

  /** toks are the starts of the tokens found so far, and rest what the pointer still leads to. */
  ghost predicate Found(toks: seq<nat>, all: seq<Scan>, rest: seq<Scan>) {
    && |toks| <= |all| && rest == all[|toks|..]
    && forall k :: 0 <= k < |toks| ==> toks[k] == all[k].start
  }

  lemma FoundMore(toks: seq<nat>, all: seq<Scan>, rest: seq<Scan>)
    requires Found(toks, all, rest) && rest != []
    ensures Found(toks + [rest[0].start], all, rest[1..])
  {
  }

  /** The first tokens were found and cut out; rest is to come. */
  ghost predicate CutSoFar(was: seq<char>, b: seq<char>, s: string, all: seq<Scan>, toks: seq<nat>, rest: seq<Scan>) {
    |s| < |was| && Found(toks, all, rest) && CutThrough(was, b, s, all, |toks|)
  }

  lemma CutSoFarMore(was: seq<char>, b: seq<char>, b': seq<char>, s: string, all: seq<Scan>, toks: seq<nat>,
                     rest: seq<Scan>)
    requires CutSoFar(was, b, s, all, toks, rest) && rest != [] && rest[0].end <= |s|
    requires b' == if rest[0].end == |s| then b else b[rest[0].end := NUL]
    ensures CutSoFar(was, b', s, all, toks + [rest[0].start], rest[1..])
  {
    FoundMore(toks, all, rest);
    CutOneMore(was, b, b', s, all, |toks|);
  }

  /** The tokens a pointer still leads to. */
  function Remaining(quoted: bool, s: string, p: Option<nat>, delim: set<char>): (r: seq<Scan>)
    requires p.Some? ==> p.value <= |s|
    ensures forall k :: 0 <= k < |r| ==> r[k].start <= |s| && r[k].end <= |s|
    ensures QuotesApart(quoted, delim) ==> InOrder(s, r)
  {
    match p
    case None => []
    case Some(i) => Tokens(quoted, s, i, delim)
  }

  function PointerBehind(s: string, scan: Scan): Option<nat> {
    if scan.end == |s| then None else Some(scan.end + 1)
  }

  /** What is behind a scan, of the tokens. */
  function Behind(quoted: bool, s: string, delim: set<char>, scan: Scan): seq<Scan>
    requires scan.end <= |s|
  {
    Remaining(quoted, s, PointerBehind(s, scan), delim)
  }

  lemma BehindIs(quoted: bool, s: string, delim: set<char>, scan: Scan)
    requires scan.end < |s|
    ensures Behind(quoted, s, delim, scan) == Tokens(quoted, s, scan.end + 1, delim)
  {
  }

  lemma TokensUnfold(quoted: bool, s: string, i: nat, delim: set<char>)
    requires i <= |s|
    ensures var scan := ScanFrom(quoted, s, i, delim);
            Tokens(quoted, s, i, delim) ==
            if scan.end == scan.start then [] else [scan] + Behind(quoted, s, delim, scan)
  {
  }

  lemma FirstStarts(quoted: bool, s: string, i: nat, delim: set<char>)
    requires i < |s| && s[i] !in delim
    ensures Tokens(quoted, s, i, delim) != [] ==> Tokens(quoted, s, i, delim)[0].start == i
  {
    TokensUnfold(quoted, s, i, delim);
    assert PlainScan(s, i, delim).start == i;
  }

  /** The text stays readable from the new pointer on. */
  lemma CallText(before: seq<char>, after: seq<char>, s: string, i: nat, scan: Scan, tok: Option<nat>, ptr: Option<nat>)
    requires HoldsText(before, s, i) && i <= scan.start <= |s| && i <= scan.end <= |s|
    requires CutAs(before, after, s, scan, tok, ptr)
    ensures |after| == |before| && (ptr.Some? ==> i < ptr.value && HoldsText(after, s, ptr.value))
  {
  }

  /** A call returns the first token the pointer leads to, and leaves it leading to the others. */
  lemma CallStep(quoted: bool, before: seq<char>, after: seq<char>, s: string, delim: set<char>, scan: Scan,
                 rest: seq<Scan>, tok: Option<nat>, ptr: Option<nat>)
    requires |s| < |before| && scan.start <= |s| && scan.end <= |s|
    requires CutAs(before, after, s, scan, tok, ptr) && |after| == |before|
    requires rest == if scan.end == scan.start then [] else [scan] + Behind(quoted, s, delim, scan)
    ensures if tok.None? then rest == [] && ptr.None? && after == before
            else
              && rest != [] && tok.value == rest[0].start
              && ptr == PointerBehind(s, scan)
              && rest[1..] == Behind(quoted, s, delim, scan)
              && after == (if rest[0].end == |s| then before else before[rest[0].end := NUL])
  {
    if scan.end != scan.start {
      assert rest[1..] == Behind(quoted, s, delim, scan);
    }
  }

  /** One call of either version: it takes the first of the remaining tokens. */
  method TakeToken(quoted: bool, b: array<char>, i: nat, delim: set<char>, ghost s: string)
    returns (tok: Option<nat>, ptr: Option<nat>)
    requires NUL !in delim && HoldsText(b[..], s, i)
    modifies b
    ensures ptr.Some? ==> i < ptr.value && HoldsText(b[..], s, ptr.value)
    ensures var rest := Tokens(quoted, s, i, delim);
            if tok.None? then rest == [] && ptr.None? && b[..] == old(b[..])
            else
              && rest != [] && tok.value == rest[0].start
              && rest[1..] == Remaining(quoted, s, ptr, delim)
              && b[..] == (if rest[0].end == |s| then old(b[..]) else old(b[..])[rest[0].end := NUL])
  {
    ghost var scan := ScanFrom(quoted, s, i, delim);
    if quoted {
      tok, ptr := NextTokenQuoted(b, Some(i), delim, s);
    } else {
      tok, ptr := NextToken(b, Some(i), delim, s);
    }
    TokensUnfold(quoted, s, i, delim);
    CallText(old(b[..]), b[..], s, i, scan, tok, ptr);
    CallStep(quoted, old(b[..]), b[..], s, delim, scan, Tokens(quoted, s, i, delim), tok, ptr);
  }

  /**
   * Repeated calls yield the tokens in order and then NULL. They write a NUL
   * behind each token and nothing else, so that the C string at each pointer
   * returned is the token.
   */
  method AllTokens(quoted: bool, b: array<char>, delim: set<char>, ghost s: string) returns (toks: seq<nat>)
    requires NUL !in delim && HoldsText(b[..], s, 0)
    modifies b
    ensures Found(toks, Tokens(quoted, s, 0, delim), [])
    ensures QuotesApart(quoted, delim) ==> Yielded(b[..], s, Tokens(quoted, s, 0, delim), toks)
    ensures CutThrough(old(b[..]), b[..], s, Tokens(quoted, s, 0, delim), |toks|)
  {
    toks := [];
    ghost var all := Tokens(quoted, s, 0, delim);
    ghost var rest := all;
    var p: Option<nat> := Some(0);
    while p.Some?
      invariant |s| < b.Length && (p.Some? ==> HoldsText(b[..], s, p.value))
      invariant rest == Remaining(quoted, s, p, delim) && CutSoFar(old(b[..]), b[..], s, all, toks, rest)
      decreases if p.Some? then |s| + 1 - p.value else 0
    {
      ghost var before := b[..];
      var tok;
      tok, p := TakeToken(quoted, b, p.value, delim, s);
      if tok.Some? {
        CutSoFarMore(old(b[..]), before, b[..], s, all, toks, rest);
        toks, rest := toks + [tok.value], rest[1..];
      }
    }
    if QuotesApart(quoted, delim) {
      AllYielded(old(b[..]), b[..], s, all, toks);
    }
  }

  // ----- Plain tokens are the maximal runs -----

  /** [a, e) is a maximal run of characters that are no delimiters. */
  predicate IsRun(s: string, delim: set<char>, a: nat, e: nat) {
    && a < e <= |s|
    && (forall k :: a <= k < e ==> s[k] !in delim)
    && (a == 0 || s[a - 1] in delim) && (e == |s| || s[e] in delim)
  }

  predicate AreRuns(s: string, delim: set<char>, ts: seq<Scan>) {
    ts == [] || (IsRun(s, delim, ts[0].start, ts[0].end) && AreRuns(s, delim, ts[1..]))
  }

  lemma {:induction false} RunOf(s: string, delim: set<char>, ts: seq<Scan>, t: Scan)
    requires AreRuns(s, delim, ts) && t in ts
    ensures IsRun(s, delim, t.start, t.end)
  {
    if t != ts[0] {
      RunOf(s, delim, ts[1..], t);
    }
  }

  lemma RunsCons(s: string, delim: set<char>, t: Scan, rest: seq<Scan>)
    requires IsRun(s, delim, t.start, t.end) && AreRuns(s, delim, rest)
    ensures AreRuns(s, delim, [t] + rest)
  {
    assert ([t] + rest)[1..] == rest;
  }

  /** Every token is a maximal run. */
  lemma {:induction false} TokensAreRuns(s: string, i: nat, delim: set<char>)
    requires i <= |s| && (i == 0 || s[i - 1] in delim)
    ensures AreRuns(s, delim, Tokens(false, s, i, delim))
    decreases |s| - i, 1
  {
    var scan := ScanFrom(false, s, i, delim);
    TokensUnfold(false, s, i, delim);
    if scan.end != scan.start {
      FirstIsRun(s, i, delim);
      BehindAreRuns(s, i, delim, scan);
      RunsCons(s, delim, scan, Behind(false, s, delim, scan));
    }
  }

  lemma {:induction false} BehindAreRuns(s: string, i: nat, delim: set<char>, scan: Scan)
    requires i <= scan.end <= |s| && (scan.end < |s| ==> s[scan.end] in delim)
    ensures AreRuns(s, delim, Behind(false, s, delim, scan))
    decreases |s| - i, 0
  {
    if scan.end < |s| {
      BehindIs(false, s, delim, scan);
      TokensAreRuns(s, scan.end + 1, delim);
    }
  }

  lemma FirstIsRun(s: string, i: nat, delim: set<char>)
    requires i <= |s| && (i == 0 || s[i - 1] in delim)
    requires PlainScan(s, i, delim).start < PlainScan(s, i, delim).end
    ensures IsRun(s, delim, PlainScan(s, i, delim).start, PlainScan(s, i, delim).end)
  {
    var scan := PlainScan(s, i, delim);
    assert i < scan.start ==> s[scan.start - 1] in delim;
  }

  /** Every maximal run is a token. */
  lemma {:induction false} RunsAreTokens(s: string, i: nat, delim: set<char>, a: nat, e: nat)
    requires i <= a && IsRun(s, delim, a, e) && (i == 0 || s[i - 1] in delim)
    ensures Scan(a, e) in Tokens(false, s, i, delim)
    decreases |s| - i, 1
  {
    var scan := ScanFrom(false, s, i, delim);
    OneRun(s, delim, i, a, e);
    TokensUnfold(false, s, i, delim);
    if scan != Scan(a, e) {
      RunsBehind(s, i, delim, scan, a, e);
    }
  }

  lemma {:induction false} RunsBehind(s: string, i: nat, delim: set<char>, scan: Scan, a: nat, e: nat)
    requires i <= scan.end < a && scan.end < |s| && s[scan.end] in delim && IsRun(s, delim, a, e)
    ensures Scan(a, e) in Behind(false, s, delim, scan)
    decreases |s| - i, 0
  {
    BehindIs(false, s, delim, scan);
    RunsAreTokens(s, scan.end + 1, delim, a, e);
  }

  /** The tokens of a text are exactly its maximal runs of non-delimiters. */
  lemma PlainTokensExact(s: string, delim: set<char>, a: nat, e: nat)
    ensures IsRun(s, delim, a, e) <==> Scan(a, e) in Tokens(false, s, 0, delim)
  {
    var ts := Tokens(false, s, 0, delim);
    if IsRun(s, delim, a, e) {
      RunsAreTokens(s, 0, delim, a, e);
    }
    if Scan(a, e) in ts {
      TokensAreRuns(s, 0, delim);
      RunOf(s, delim, ts, Scan(a, e));
    }
  }

  /** The first run from i on is the scanned one; every other run starts behind its end. */
  lemma OneRun(s: string, delim: set<char>, i: nat, a: nat, e: nat)
    requires i <= a && IsRun(s, delim, a, e) && (i == 0 || s[i - 1] in delim)
    ensures var scan := PlainScan(s, i, delim);
            scan.end > scan.start && (scan == Scan(a, e) || scan.end < a)
  {
    var scan := PlainScan(s, i, delim);
    assert s[a] !in delim;
    assert scan.start <= a;
    if scan.start < a {
      assert s[a - 1] in delim;
    }
  }

  // ----- Quotes -----

  lemma QuoteFreeScan(s: string, i: nat, delim: set<char>)
    requires i <= |s| && forall k :: 0 <= k < |s| ==> s[k] !in QUOTES
    ensures ScanFrom(true, s, i, delim) == ScanFrom(false, s, i, delim) == PlainScan(s, i, delim)
  {
  }

  lemma AgreeStep(s: string, i: nat, delim: set<char>, scan: Scan)
    requires i <= |s|
    requires ScanFrom(true, s, i, delim) == ScanFrom(false, s, i, delim) == scan
    requires scan.end != scan.start ==> Behind(true, s, delim, scan) == Behind(false, s, delim, scan)
    ensures Tokens(true, s, i, delim) == Tokens(false, s, i, delim)
  {
    TokensUnfold(true, s, i, delim);
    TokensUnfold(false, s, i, delim);
  }

  /** On text without quotes both versions yield the same tokens. */
  lemma {:induction false} QuoteFreeAgrees(s: string, i: nat, delim: set<char>)
    requires i <= |s| && forall k :: 0 <= k < |s| ==> s[k] !in QUOTES
    ensures Tokens(true, s, i, delim) == Tokens(false, s, i, delim)
    decreases |s| - i
  {
    var scan := ScanFrom(false, s, i, delim);
    QuoteFreeScan(s, i, delim);
    if scan.end != scan.start && scan.end < |s| {
      QuoteFreeAgrees(s, scan.end + 1, delim);
    }
    AgreeStep(s, i, delim, scan);
  }

  /** What the quote-aware version is for: a token that contains a quote reaches past the closing quote. */
  function IntendedScan(s: string, i: nat, delim: set<char>): Scan
    requires i <= |s|
  {
    var plain := PlainScan(s, i, delim);
    var q := SpanNot(s, i, QUOTES);
    if q < plain.end then Scan(plain.start, QuotedEnd(s, q, delim)) else plain
  }

  /** The first quote of the token, and the quote that closes it (or the end of the text). */
  function FirstQuote(s: string, i: nat): nat
    requires i <= |s|
  {
    SpanNot(s, i, QUOTES)
  }

  function Closing(s: string, i: nat): nat
    requires i <= |s| && FirstQuote(s, i) < |s|
  {
    SpanNot(s, FirstQuote(s, i) + 1, {s[FirstQuote(s, i)]})
  }

  /** An intended token that begins before its first quote holds the whole quoted phrase, and ends at a delimiter. */
  lemma IntendedKeepsPhrase(s: string, i: nat, delim: set<char>)
    requires i <= |s| && QUOTES !! delim
    ensures var t, q := IntendedScan(s, i, delim), FirstQuote(s, i);
            && i <= t.start <= t.end <= |s| && (t.end < |s| ==> s[t.end] in delim)
            && (t.start == t.end <==> t.start == |s|)
            && (q < PlainScan(s, i, delim).end ==> t.start <= q && (Closing(s, i) < t.end || t.end == |s|))
  {
    var plain, q := PlainScan(s, i, delim), FirstQuote(s, i);
    assert q < |s| ==> s[q] in QUOTES;
    if q < plain.end {
      var c := Closing(s, i);
      assert c < |s| ==> s[c] in {s[q]} && s[c] !in delim;
    }
  }

  /**
   * The quote is near enough to the pointer to be noticed: it lies nearer than
   * the plain token is long, or outside the token; or the quoting makes no
   * difference, as it closes inside the plain token, or the plain token already
   * reaches the end of the text.
   */
  predicate QuoteInReach(s: string, i: nat, delim: set<char>)
    requires i <= |s|
  {
    var plain, q := PlainScan(s, i, delim), FirstQuote(s, i);
    || q - i < plain.end - plain.start || plain.end <= q
    || Closing(s, i) < plain.end || plain.end == |s|
  }

  /** The quote-aware scan meets its purpose exactly when the quote is in reach. */
  lemma QuoteScanExact(s: string, i: nat, delim: set<char>)
    requires i <= |s| && QUOTES !! delim
    ensures QuoteScan(s, i, delim) == IntendedScan(s, i, delim) <==> QuoteInReach(s, i, delim)
  {
    var plain, q := PlainScan(s, i, delim), FirstQuote(s, i);
    if plain.end - plain.start <= q - i && q < plain.end {
      var c := Closing(s, i);
      if c < plain.end {
        assert SpanNot(s, c, delim) == plain.end by {
          SpanNotFrom(s, plain.start, c, delim);
        }
      }
    }
  }

  // ----- Quotes, over a whole text -----

  /** The tokens the quote-aware version is meant to yield. */
  function IntendedTokens(s: string, i: nat, delim: set<char>): (r: seq<Scan>)
    requires i <= |s| && QUOTES !! delim
    decreases |s| - i
  {
    IntendedKeepsPhrase(s, i, delim);
    var scan := IntendedScan(s, i, delim);
    if scan.end == scan.start then []
    else if scan.end == |s| then [scan]
    else [scan] + IntendedTokens(s, scan.end + 1, delim)
  }

  /** Whether the quote is in reach, for each position in the text. */
  function Reach(s: string, delim: set<char>): nat -> bool {
    (p: nat) => p <= |s| && QuoteInReach(s, p, delim)
  }

  /** The condition holds at position i, and then at the pointer behind each of the tokens ts but the last. */
  predicate HoldsAlong(holds: nat -> bool, i: nat, ts: seq<Scan>)
    decreases |ts|
  {
    ts == [] || (holds(i) && HoldsAlong(holds, ts[0].end + 1, ts[1..]))
  }

  /** What is behind the scan t, of the intended tokens. */
  function IntendedBehind(s: string, delim: set<char>, t: Scan): seq<Scan>
    requires t.end <= |s| && QUOTES !! delim
  {
    if t.end == |s| then [] else IntendedTokens(s, t.end + 1, delim)
  }

  lemma {:induction false} IntendedUnfold(s: string, i: nat, delim: set<char>, t: Scan)
    requires i <= |s| && QUOTES !! delim && t == IntendedScan(s, i, delim)
    ensures i <= t.start <= t.end <= |s|
    ensures IntendedTokens(s, i, delim) == if t.end == t.start then [] else [t] + IntendedBehind(s, delim, t)
  {
    IntendedKeepsPhrase(s, i, delim);
  }

  /** The coded scan finds a token exactly where the intended one does. */
  lemma ScansStart(s: string, i: nat, delim: set<char>)
    requires i <= |s| && QUOTES !! delim
    ensures var t, scan := IntendedScan(s, i, delim), ScanFrom(true, s, i, delim);
            && t.start == scan.start && (scan.end == scan.start <==> t.end == t.start)
            && (t == scan <==> QuoteInReach(s, i, delim))
  {
    IntendedKeepsPhrase(s, i, delim);
    QuoteScanBounds(s, i, delim);
    QuoteScanExact(s, i, delim);
    var plain := PlainScan(s, i, delim);
    assert plain.end == plain.start ==> plain.start == |s|;
  }

  lemma IntendedBehindIs(s: string, delim: set<char>, t: Scan)
    requires t.end < |s| && QUOTES !! delim
    ensures IntendedBehind(s, delim, t) == IntendedTokens(s, t.end + 1, delim)
  {
  }

  /** Both lists of tokens, taken apart: t and scan are the two scans from position i. */
  lemma BothScans(s: string, i: nat, delim: set<char>) returns (t: Scan, scan: Scan)
    requires i <= |s| && QUOTES !! delim
    ensures i <= t.end <= |s| && i <= scan.end <= |s| && (t == scan <==> QuoteInReach(s, i, delim))
    ensures if t.end == t.start then Tokens(true, s, i, delim) == IntendedTokens(s, i, delim) == []
            else
              && Tokens(true, s, i, delim) == [scan] + Behind(true, s, delim, scan)
              && IntendedTokens(s, i, delim) == [t] + IntendedBehind(s, delim, t)
  {
    t, scan := IntendedScan(s, i, delim), ScanFrom(true, s, i, delim);
    IntendedUnfold(s, i, delim, t);
    ScansStart(s, i, delim);
    TokensUnfold(true, s, i, delim);
  }

  /**
   * Over a whole text, repeated calls yield the intended tokens if and only if
   * the quote is in reach at each of the pointers they would be taken from.
   */
  lemma {:induction false} AllQuotesExact(s: string, i: nat, delim: set<char>)
    requires i <= |s| && QUOTES !! delim
    ensures Tokens(true, s, i, delim) == IntendedTokens(s, i, delim) <==>
            HoldsAlong(Reach(s, delim), i, IntendedTokens(s, i, delim))
    decreases |s| - i, 1
  {
    var t, scan := BothScans(s, i, delim);
    if t.end != t.start {
      var found, intended := Behind(true, s, delim, scan), IntendedBehind(s, delim, t);
      assert Reach(s, delim)(i) <==> t == scan;
      if t != scan {
        FirstDiffers(Reach(s, delim), i, scan, found, t, intended);
      } else {
        RestExact(s, i, delim, t);
        FirstAgrees(Reach(s, delim), i, t, found, intended);
      }
    }
  }

  lemma {:induction false} RestExact(s: string, i: nat, delim: set<char>, t: Scan)
    requires i <= t.end <= |s| && QUOTES !! delim
    ensures Behind(true, s, delim, t) == IntendedBehind(s, delim, t) <==>
            HoldsAlong(Reach(s, delim), t.end + 1, IntendedBehind(s, delim, t))
    decreases |s| - i, 0
  {
    if t.end < |s| {
      BehindIs(true, s, delim, t);
      IntendedBehindIs(s, delim, t);
      AllQuotesExact(s, t.end + 1, delim);
    }
  }

  lemma FirstAgrees(holds: nat -> bool, i: nat, t: Scan, found: seq<Scan>, intended: seq<Scan>)
    requires holds(i) && (found == intended <==> HoldsAlong(holds, t.end + 1, intended))
    ensures [t] + found == [t] + intended <==> HoldsAlong(holds, i, [t] + intended)
  {
    assert ([t] + found)[1..] == found && ([t] + intended)[1..] == intended;
  }

  lemma FirstDiffers(holds: nat -> bool, i: nat, scan: Scan, found: seq<Scan>, t: Scan, intended: seq<Scan>)
    requires !holds(i) && scan != t
    ensures [scan] + found != [t] + intended && !HoldsAlong(holds, i, [t] + intended)
  {
    assert ([scan] + found)[0] == scan && ([t] + intended)[0] == t;
  }

  /** The first of the tokens starts at position i, and one character stands between any two. */
  predicate OneApart(i: nat, ts: seq<Scan>)
    decreases |ts|
  {
    ts == [] || (ts[0].start == i && OneApart(ts[0].end + 1, ts[1..]))
  }

  lemma OneApartBehind(i: nat, t: Scan, rest: seq<Scan>)
    requires OneApart(i, [t] + rest)
    ensures t.start == i && OneApart(t.end + 1, rest)
  {
    assert ([t] + rest)[1..] == rest;
  }

  lemma {:induction false} OneApartReach(s: string, i: nat, delim: set<char>)
    requires i <= |s| && QUOTES !! delim && OneApart(i, IntendedTokens(s, i, delim))
    ensures HoldsAlong(Reach(s, delim), i, IntendedTokens(s, i, delim))
    decreases |s| - i, 1
  {
    var t, scan := BothScans(s, i, delim);
    if t.end != t.start {
      OneApartBehind(i, t, IntendedBehind(s, delim, t));
      QuoteScanAtPointer(s, i, delim);
      QuoteScanExact(s, i, delim);
      assert Reach(s, delim)(i);
      RestReach(s, i, delim, t);
      FirstAgrees(Reach(s, delim), i, t, IntendedBehind(s, delim, t), IntendedBehind(s, delim, t));
    }
  }

  lemma {:induction false} RestReach(s: string, i: nat, delim: set<char>, t: Scan)
    requires i <= t.end <= |s| && QUOTES !! delim && OneApart(t.end + 1, IntendedBehind(s, delim, t))
    ensures HoldsAlong(Reach(s, delim), t.end + 1, IntendedBehind(s, delim, t))
    decreases |s| - i, 0
  {
    if t.end < |s| {
      IntendedBehindIs(s, delim, t);
      OneApartReach(s, t.end + 1, delim);
    }
  }

  /** It is, when one delimiter stands between two tokens and none in front. */
  lemma SingleSpaced(s: string, delim: set<char>)
    requires QUOTES !! delim && OneApart(0, IntendedTokens(s, 0, delim))
    ensures Tokens(true, s, 0, delim) == IntendedTokens(s, 0, delim)
  {
    OneApartReach(s, 0, delim);
    AllQuotesExact(s, 0, delim);
  }

  lemma {:induction false} SpanNotFrom(s: string, a: nat, c: nat, delim: set<char>)
    requires a <= c <= |s| && c <= SpanNot(s, a, delim)
    ensures SpanNot(s, c, delim) == SpanNot(s, a, delim)
    decreases c - a
  {
    if a < c {
      SpanNotFrom(s, a + 1, c, delim);
    }
  }

  /** In particular it does so for every token that starts at the pointer. */
  lemma QuoteScanAtPointer(s: string, i: nat, delim: set<char>)
    requires i <= |s| && PlainScan(s, i, delim).start == i
    ensures QuoteScan(s, i, delim) == IntendedScan(s, i, delim)
  {
  }

  /** Three blanks before a quoted phrase are enough to split it. */
  lemma QuoteScanMisses()
    ensures QuoteScan("   'a b'", 0, {' '}) == Scan(3, 5)
    ensures IntendedScan("   'a b'", 0, {' '}) == Scan(3, 8)
  {
    var s := "   'a b'";
    assert Span(s, 3, {' '}) == 3;
    assert Span(s, 2, {' '}) == Span(s, 1, {' '}) == Span(s, 0, {' '}) == 3;
    assert SpanNot(s, 5, {' '}) == 5 && SpanNot(s, 4, {' '}) == 5 && SpanNot(s, 3, {' '}) == 5;
    assert SpanNot(s, 3, QUOTES) == 3 && SpanNot(s, 2, QUOTES) == SpanNot(s, 1, QUOTES) == SpanNot(s, 0, QUOTES) == 3;
    assert SpanNot(s, 7, {'\''}) == 7 && SpanNot(s, 6, {'\''}) == 7 && SpanNot(s, 5, {'\''}) == 7 &&
           SpanNot(s, 4, {'\''}) == 7;
    assert SpanNot(s, 8, {' '}) == 8 && SpanNot(s, 7, {' '}) == 8;
  }
}
