/**
 * One event of a program on the allocator, and what it keeps: the heap stays
 * sound, and every byte of an allocation is the one last written there.
 */
module AllocatorSteps {
  import opened Basics
  import opened Memory
  import opened Sizes
  import opened Blocks
  import opened BlockOps
  import opened HeapImage

  /** A malloc that returned p for size (rounded) bytes, a free of p, or a store of the program through p. */
  datatype Event =
    | Got(p: nat, size: nat, policy: Policy, scribble: bool, kernel: Option<nat>)
    | Gave(p: nat)
    | Wrote(p: nat, offset: nat, v: Byte)

  /** The pages offered for a block of need bytes are aligned, unmapped, and end below 2^64. */
  ghost predicate OfferOk(h: Heap, at: nat, need: nat, page: nat)
    requires page > 0
  {
    Offered(h.blocks, at, RegionBytes(need, page)) && PageAligned(at, page)
  }

  /** What an event does to the heap. That the list stays well formed is not assumed: it is proved below. */
  ghost predicate HeapStep(h: Heap, e: Event, h': Heap, page: nat)
    requires page > 0 && Disjoint(h.blocks)
  {
    match e
    case Got(p, size, policy, scribble, kernel) =>
      var need := size + HEADER;
      && size % 8 == 0 && (kernel.Some? ==> OfferOk(h, kernel.value, need, page))
      && IsMallocOf(h.blocks, h.nextId, policy, need, kernel, RegionBytes(need, page), h'.blocks, p)
      && if p == 0 then h' == h
         else
           && h'.nextId == h.nextId + 1 && InMemory(h'.mem, h'.head, h'.blocks)
           && Kept(h.mem, h'.mem, Table(h.blocks)) && (scribble ==> Filled(h'.mem, p, size, SCRIBBLE))
    case Gave(p) =>
      Frees(h, p, h') && InMemory(h'.mem, h'.head, h'.blocks)
    case Wrote(p, offset, v) =>
      && p in Table(h.blocks) && offset < Table(h.blocks)[p]
      && h' == h.(mem := h.mem[p + offset := v])
  }

  // ----- What the program knows -----

  /** What the program holds: pointers got and not given back, with their sizes. */
  function Held(es: seq<Event>): map<nat, int> {
    if es == [] then map[] else HeldAfter(Held(es[..|es| - 1]), es[|es| - 1])
  }

  function HeldAfter(before: map<nat, int>, e: Event): map<nat, int> {
    match e
    case Got(p, size, _, _, _) => if p == 0 then before else before[p := size]
    case Gave(p) => before - {p}
    case Wrote(_, _, _) => before
  }

  /** The byte last put at offset o of the allocation p, by the program or by scribbling, since p was handed out. */
  function LastWritten(es: seq<Event>, p: nat, o: nat): Option<Byte> {
    if es == [] then None else WrittenAfter(LastWritten(es[..|es| - 1], p, o), es[|es| - 1], p, o)
  }

  function WrittenAfter(before: Option<Byte>, e: Event, p: nat, o: nat): Option<Byte> {
    match e
    case Got(q, _, _, scribble, _) => if q != p then before else if scribble then Some(SCRIBBLE) else None
    case Gave(q) => if q == p then None else before
    case Wrote(q, offset, v) => if q == p && offset == o then Some(v) else before
  }

  /** Every byte of a held allocation that was ever written reads as it was last written. */
  ghost predicate Remembers(m: Bytes, es: seq<Event>, held: map<nat, int>) {
    forall p, o: nat {:trigger LastWritten(es, p, o)} :: p in held && o < held[p] && LastWritten(es, p, o).Some? ==>
      p + o in m && m[p + o] == LastWritten(es, p, o).value
  }

  // ----- One step -----

  lemma GotPages(h: Heap, h': Heap, page: nat, policy: Policy, size: nat, kernel: Option<nat>, p: nat)
    requires Sound(h, page) && (kernel.Some? ==> OfferOk(h, kernel.value, size + HEADER, page))
    requires IsMallocOf(h.blocks, h.nextId, policy, size + HEADER, kernel, RegionBytes(size + HEADER, page),
             h'.blocks, p)
    ensures PagesOk(h'.blocks, page)
  {
    var pick := Pick(policy, h.blocks, size + HEADER);
    if pick.Some? && h.blocks[pick.value].Used() {
      SplitPages(h.blocks, h'.blocks, pick.value, size + HEADER, h.nextId, page);
    }
  }

  lemma GotKeeps(h: Heap, e: Event, h': Heap, page: nat)
    requires Sound(h, page) && e.Got? && HeapStep(h, e, h', page)
    ensures Sound(h', page)
    ensures if e.p == 0 then h' == h else TableGains(h.blocks, h'.blocks, e.p, e.size)
  {
    if e.p != 0 {
      GotPages(h, h', page, e.policy, e.size, e.kernel, e.p);
      var pick := Pick(e.policy, h.blocks, e.size + HEADER);
      var at := if pick.None? then e.kernel.value else 0;
      var bytes := if pick.None? then RegionBytes(e.size + HEADER, page) else 0;
      MallocKeeps(h.blocks, h.nextId, pick, e.size, at, bytes, h'.blocks, e.p);
    }
  }

  lemma GaveKeeps(h: Heap, p: nat, h': Heap, page: nat)
    requires Sound(h, page) && HeapStep(h, Gave(p), h', page)
    ensures Sound(h', page) && Table(h'.blocks) == Table(h.blocks) - {p}
  {
    if p == 0 {
      NullNotLive(h.blocks);
    } else {
      var i := BlockOf(h.blocks, p);
      var lo, hi := RegionSpan(h.blocks, i);
      FreePages(h.blocks, i, page, lo, hi);
      FreeKeeps(h.blocks, h.nextId, i);
    }
  }

  lemma WroteKeeps(h: Heap, p: nat, offset: nat, v: Byte, h': Heap, page: nat)
    requires Sound(h, page) && HeapStep(h, Wrote(p, offset, v), h', page)
    ensures Sound(h', page) && Kept(h.mem, h'.mem, Table(h.blocks) - {p})
  {
    var i := BlockOf(h.blocks, p);
    TableHas(h.blocks, i);
    BlockMapped(h.mem, h.head, h.blocks, i);
    ReadBlock(h.mem, h.head, h.blocks, i);
    assert h'.mem.Keys == h.mem.Keys;
    PayloadWritten(h.mem, h'.mem, h.head, h.blocks, i);
  }

  lemma StepSound(h: Heap, e: Event, h': Heap, page: nat)
    requires Sound(h, page) && HeapStep(h, e, h', page)
    ensures Sound(h', page) && Table(h'.blocks) == HeldAfter(Table(h.blocks), e)
    ensures e.Got? && e.p != 0 ==> e.p !in Table(h.blocks)
  {
    match e
    case Got(_, _, _, _, _) => GotKeeps(h, e, h', page);
    case Gave(p) => GaveKeeps(h, p, h', page);
    case Wrote(p, offset, v) => WroteKeeps(h, p, offset, v, h', page);
  }

  lemma KeptAt(m: Bytes, m': Bytes, t: map<nat, int>, p: nat, o: nat)
    requires Kept(m, m', t) && p in t && o < t[p]
    ensures SameByte(m, m', p + o)
  {
    assert t[p] == t[p];
  }

  /** A byte of an allocation that is held before and after the step, and not stored to. */
  lemma StepKeepsByte(h: Heap, e: Event, h': Heap, page: nat, p: nat, o: nat)
    requires Sound(h, page) && HeapStep(h, e, h', page) && p in Table(h.blocks) && o < Table(h.blocks)[p]
    requires p in HeldAfter(Table(h.blocks), e) && (e.Wrote? ==> e.p != p) && e.p != 0
    ensures SameByte(h.mem, h'.mem, p + o)
  {
    match e
    case Got(_, _, _, _, _) => KeptAt(h.mem, h'.mem, Table(h.blocks), p, o);
    case Gave(q) => KeptAt(h.mem, h'.mem, Table(h.blocks) - {q}, p, o);
    case Wrote(q, offset, v) =>
      WroteKeeps(h, q, offset, v, h', page);
      KeptAt(h.mem, h'.mem, Table(h.blocks) - {q}, p, o);
  }

  lemma StepRemembersByte(h: Heap, e: Event, h': Heap, page: nat, p: nat, o: nat, before: Option<Byte>)
    requires Sound(h, page) && HeapStep(h, e, h', page) && p in Table(h.blocks) && o < Table(h.blocks)[p]
    requires before.Some? ==> p + o in h.mem && h.mem[p + o] == before.value
    requires p in HeldAfter(Table(h.blocks), e) && (e.Got? && e.p != 0 ==> e.p !in Table(h.blocks))
    ensures var after := WrittenAfter(before, e, p, o);
            after.Some? ==> p + o in h'.mem && h'.mem[p + o] == after.value
  {
    if (e.Wrote? ==> e.p != p) && e.p != 0 {
      StepKeepsByte(h, e, h', page, p, o);
    }
  }

  /** One byte of an allocation that the step hands out. */
  lemma NewRemembersByte(h: Heap, e: Event, h': Heap, page: nat, p: nat, o: nat, before: Option<Byte>)
    requires Sound(h, page) && HeapStep(h, e, h', page) && p !in Table(h.blocks)
    requires var held := HeldAfter(Table(h.blocks), e); p in held && o < held[p]
    ensures var after := WrittenAfter(before, e, p, o);
            after.Some? ==> p + o in h'.mem && h'.mem[p + o] == after.value
  {
    assert e.Got? && e.p == p != 0;
  }

  lemma HeldSame(t: map<nat, int>, e: Event, p: nat)
    requires p in t && p in HeldAfter(t, e) && (e.Got? && e.p != 0 ==> e.p !in t)
    ensures HeldAfter(t, e)[p] == t[p]
  {
  }

  lemma StepByte(h: Heap, e: Event, h': Heap, page: nat, p: nat, o: nat, before: Option<Byte>)
    requires Sound(h, page) && HeapStep(h, e, h', page)
    requires p in Table(h.blocks) && o < Table(h.blocks)[p] && before.Some? ==>
               p + o in h.mem && h.mem[p + o] == before.value
    requires var held := HeldAfter(Table(h.blocks), e); p in held && o < held[p]
    ensures var after := WrittenAfter(before, e, p, o);
            after.Some? ==> p + o in h'.mem && h'.mem[p + o] == after.value
  {
    if p in Table(h.blocks) {
      StepSound(h, e, h', page);
      HeldSame(Table(h.blocks), e, p);
      StepRemembersByte(h, e, h', page, p, o, before);
    } else {
      NewRemembersByte(h, e, h', page, p, o, before);
    }
  }

  lemma StepRemembers(h: Heap, es: seq<Event>, es': seq<Event>, e: Event, h': Heap, page: nat)
    requires Sound(h, page) && HeapStep(h, e, h', page) && es' == es + [e]
    requires Remembers(h.mem, es, Table(h.blocks))
    ensures Remembers(h'.mem, es', HeldAfter(Table(h.blocks), e))
  {
    var held := HeldAfter(Table(h.blocks), e);
    assert es'[..|es'| - 1] == es;
    forall p, o: nat | p in held && o < held[p] && LastWritten(es', p, o).Some?
      ensures p + o in h'.mem && h'.mem[p + o] == LastWritten(es', p, o).value
    {
      StepByte(h, e, h', page, p, o, LastWritten(es, p, o));
    }
  }
}
