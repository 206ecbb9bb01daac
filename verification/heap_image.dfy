/**
 * How the block list sits in memory, and why a store into one block leaves the
 * other headers and payloads alone.
 */
module HeapImage {
  import opened Basics
  import opened Memory
  import opened Sizes
  import opened Blocks
  import opened BlockOps

  /** The address of block i; NULL past the end of the list. */
  function AddrAt(bs: seq<Block>, i: int): nat {
    if 0 <= i < |bs| then bs[i].addr else 0
  }

  function HeaderOf(b: Block, next: nat): Header {
    Header(b.id, b.size, b.usage, b.region, b.regionSize, next)
  }

  ghost predicate Shows(m: Bytes, a: nat, h: Header) {
    Mapped(m, a, HEADER) && HeaderAt(m, a) == h
  }

  ghost predicate HeaderOk(m: Bytes, bs: seq<Block>, i: nat)
    requires i < |bs|
  {
    Shows(m, bs[i].addr, HeaderOf(bs[i], AddrAt(bs, i + 1)))
  }

  /** Following the links from head visits a correct header for each block in turn. */
  ghost predicate Linked(m: Bytes, head: nat, bs: seq<Block>) {
    && head == AddrAt(bs, 0)
    && (forall i {:trigger HeaderOk(m, bs, i)} :: 0 <= i < |bs| ==> HeaderOk(m, bs, i))
  }

  /** The list is linked in memory, and memory holds the blocks' bytes and no others. */
  ghost predicate InMemory(m: Bytes, head: nat, bs: seq<Block>) {
    && Linked(m, head, bs)
    && (forall a: nat {:trigger Owned(bs, a)} :: a in m <==> Owned(bs, a))
  }

  /** Reading block k through its address gives its fields and leads to block k + 1. */
  lemma ReadBlock(m: Bytes, head: nat, bs: seq<Block>, k: nat)
    requires Linked(m, head, bs) && BlocksOk(bs) && k < |bs|
    ensures bs[k].addr != 0 && Shows(m, bs[k].addr, HeaderOf(bs[k], AddrAt(bs, k + 1)))
    ensures SizeOf(m, bs[k].addr) == bs[k].size && UsageOf(m, bs[k].addr) == bs[k].usage
    ensures NextOf(m, bs[k].addr) == AddrAt(bs, k + 1)
    ensures AddrAt(bs, k + 1) == 0 <==> k + 1 == |bs|
    ensures bs[k].usage <= bs[k].size && HEADER <= bs[k].size && (bs[k].Used() ==> HEADER <= bs[k].usage)
    ensures bs[k].region + bs[k].regionSize < WORD_LIMIT && bs[k].End() < WORD_LIMIT
    ensures AddrAt(bs, k + 1) < WORD_LIMIT
  {
    assert HeaderOk(m, bs, k) && BlockOk(bs[k]);
    if k + 1 < |bs| {
      assert BlockOk(bs[k + 1]);
    }
  }

  lemma BlockMapped(m: Bytes, head: nat, bs: seq<Block>, i: nat)
    requires InMemory(m, head, bs) && i < |bs|
    ensures Mapped(m, bs[i].addr, bs[i].size)
  {
    forall a: nat | bs[i].addr <= a < bs[i].End()
      ensures a in m
    {
      assert In(bs[i], a);
      assert Owned(bs, a);
    }
  }

  /** A store inside block i leaves what lies in block j as it was. */
  lemma OtherBlockKept(m: Bytes, m': Bytes, head: nat, bs: seq<Block>, i: nat, j: nat)
    requires InMemory(m, head, bs) && Laid(bs) && i < |bs| && j < |bs| && i != j
    requires ChangedOnlyIn(m, m', bs[i].addr, bs[i].size)
    ensures SameOn(m, m', bs[j].addr, bs[j].size)
    ensures Shows(m', bs[j].addr, HeaderOf(bs[j], AddrAt(bs, j + 1)))
  {
    BlockMapped(m, head, bs, j);
    ApartAt(bs, i, j);
    assert BlockOk(bs[j]);
    assert HeaderOk(m, bs, j);
    HeaderSame(m, m', bs[j].addr);
  }

  /** Block i got a new header in place; nothing else changed outside the block. */
  lemma InPlace(m: Bytes, m': Bytes, head: nat, bs: seq<Block>, i: nat, b: Block)
    requires InMemory(m, head, bs) && Laid(bs) && i < |bs|
    requires b.addr == bs[i].addr && b.size == bs[i].size
    requires ChangedOnlyIn(m, m', bs[i].addr, bs[i].size)
    requires Shows(m', b.addr, HeaderOf(b, AddrAt(bs, i + 1)))
    ensures InMemory(m', head, bs[i := b])
  {
    var r := bs[i := b];
    forall k | 0 <= k < |r|
      ensures HeaderOk(m', r, k)
    {
      assert AddrAt(r, k + 1) == AddrAt(bs, k + 1);
      if k != i {
        OtherBlockKept(m, m', head, bs, i, k);
      }
    }
    forall a: nat
      ensures a in m' <==> Owned(r, a)
    {
      SameOwner(bs, r, a);
    }
  }

  lemma SameOwner(bs: seq<Block>, r: seq<Block>, a: nat)
    requires |r| == |bs|
    requires forall k :: 0 <= k < |bs| ==> r[k].addr == bs[k].addr && r[k].size == bs[k].size
    ensures Owned(r, a) <==> Owned(bs, a)
  {
    if Owned(bs, a) {
      var k :| 0 <= k < |bs| && In(bs[k], a);
      assert In(r[k], a);
    }
    if Owned(r, a) {
      var k :| 0 <= k < |r| && In(r[k], a);
      assert In(bs[k], a);
    }
  }

  lemma SplitOwner(bs: seq<Block>, r: seq<Block>, i: nat, need: nat, id: nat, a: nat)
    requires i < |bs| && bs[i].usage <= bs[i].size && IsSplit(bs, r, i, need, id)
    ensures Owned(r, a) <==> Owned(bs, a)
  {
    if Owned(bs, a) {
      var k :| 0 <= k < |bs| && In(bs[k], a);
      var k' := if k < i || (k == i && a < bs[i].addr + bs[i].usage) then k else k + 1;
      assert In(r[k'], a);
    }
    if Owned(r, a) {
      var k :| 0 <= k < |r| && In(r[k], a);
      assert In(bs[SplitSource(i, k)], a);
    }
  }

  /** Block i was cut in two inside its own bytes. */
  lemma SplitInMemory(m: Bytes, m': Bytes, head: nat, bs: seq<Block>, r: seq<Block>, i: nat, need: nat, id: nat)
    requires InMemory(m, head, bs) && Laid(bs) && i < |bs| && bs[i].usage <= bs[i].size
    requires IsSplit(bs, r, i, need, id)
    requires ChangedOnlyIn(m, m', bs[i].addr, bs[i].size)
    requires Shows(m', r[i].addr, HeaderOf(r[i], r[i + 1].addr))
    requires Shows(m', r[i + 1].addr, HeaderOf(r[i + 1], AddrAt(bs, i + 1)))
    ensures InMemory(m', head, r)
  {
    forall k | 0 <= k < |r|
      ensures HeaderOk(m', r, k)
    {
      if k != i && k != i + 1 {
        var k' := SplitSource(i, k);
        OtherBlockKept(m, m', head, bs, i, k');
        assert AddrAt(r, k + 1) == AddrAt(bs, k' + 1);
      }
    }
    forall a: nat
      ensures a in m' <==> Owned(r, a)
    {
      SplitOwner(bs, r, i, need, id, a);
    }
  }

  lemma AppendedOwner(bs: seq<Block>, r: seq<Block>, b: Block, a: nat)
    requires IsAppended(bs, r, b)
    ensures Owned(r, a) <==> Owned(bs, a) || In(b, a)
  {
    if Owned(bs, a) {
      var k :| 0 <= k < |bs| && In(bs[k], a);
      assert In(r[k], a);
    }
    if In(b, a) {
      assert In(r[|bs|], a);
    }
    if Owned(r, a) {
      var k :| 0 <= k < |r| && In(r[k], a);
      assert k < |bs| ==> In(bs[k], a);
    }
  }

  /** A mapping outside all blocks was added, and only the header of the last block changed. */
  lemma AppendedInMemory(m: Bytes, m': Bytes, head: nat, head': nat, bs: seq<Block>, r: seq<Block>, b: Block)
    requires InMemory(m, head, bs) && Laid(bs) && IsAppended(bs, r, b) && HEADER <= b.size
    requires forall a: nat :: a in m' <==> a in m || In(b, a)
    requires forall k :: 0 <= k < |bs| ==> HeaderOk(m', r, k)
    requires Shows(m', b.addr, HeaderOf(b, 0))
    requires head' == if bs == [] then b.addr else head
    ensures InMemory(m', head', r)
  {
    forall k | 0 <= k < |r|
      ensures HeaderOk(m', r, k)
    {
    }
    forall a: nat
      ensures a in m' <==> Owned(r, a)
    {
      AppendedOwner(bs, r, b, a);
    }
  }

  /** Block k has its header, linked past the blocks lo..hi if it is the one before them. */
  ghost predicate ShowsRelinked(m: Bytes, bs: seq<Block>, lo: nat, hi: nat, k: nat)
    requires k < |bs|
  {
    Shows(m, bs[k].addr, HeaderOf(bs[k], if k + 1 == lo then AddrAt(bs, hi) else AddrAt(bs, k + 1)))
  }

  /** Bytes of a region's blocks went away; the block before them now points past them. */
  lemma CutInMemory(m: Bytes, m': Bytes, head: nat, head': nat, bs: seq<Block>, r: seq<Block>, lo: nat, hi: nat)
    requires InMemory(m, head, bs) && Laid(bs)
    requires lo < hi <= |bs| && IsSpan(bs, bs[lo].region, lo, hi) && IsCut(bs, r, lo, hi)
    requires forall a: nat :: a in m' <==> a in m && !(bs[lo].region <= a < bs[lo].region + bs[lo].regionSize)
    requires forall k :: 0 <= k < |bs| && !(lo <= k < hi) ==> ShowsRelinked(m', bs, lo, hi, k)
    requires head' == if lo == 0 then AddrAt(bs, hi) else head
    ensures InMemory(m', head', r)
  {
    forall k | 0 <= k < |r|
      ensures HeaderOk(m', r, k)
    {
      var k' := CutSource(lo, hi, k);
      assert ShowsRelinked(m', bs, lo, hi, k');
      assert AddrAt(r, k + 1) == if k' + 1 == lo then AddrAt(bs, hi) else AddrAt(bs, k' + 1);
    }
    forall a: nat
      ensures a in m' <==> Owned(r, a)
    {
      CutOwner(bs, r, lo, hi, a);
    }
  }

  lemma CutOwner(bs: seq<Block>, r: seq<Block>, lo: nat, hi: nat, a: nat)
    requires Laid(bs)
    requires lo < hi <= |bs| && IsSpan(bs, bs[lo].region, lo, hi) && IsCut(bs, r, lo, hi)
    ensures Owned(r, a) <==> Owned(bs, a) && !(bs[lo].region <= a < bs[lo].region + bs[lo].regionSize)
  {
    RegionTiled(bs, lo, a);
    if Owned(r, a) {
      var k :| 0 <= k < |r| && In(r[k], a);
      assert In(bs[CutSource(lo, hi, k)], a);
    }
    if Owned(bs, a) && !(bs[lo].region <= a < bs[lo].region + bs[lo].regionSize) {
      var k :| 0 <= k < |bs| && In(bs[k], a);
      assert In(r[if k < lo then k else k - (hi - lo)], a);
    }
  }

  // ----- Payloads -----

  /** Every byte a live pointer of the table t may use is still mapped and reads the same. */
  ghost predicate Kept(m: Bytes, m': Bytes, t: map<nat, int>) {
    forall p, a: nat {:trigger t[p], SameByte(m, m', a)} :: p in t && p <= a < p + t[p] ==> SameByte(m, m', a)
  }

  ghost predicate SameByte(m: Bytes, m': Bytes, a: nat) {
    a in m && a in m' && m'[a] == m[a]
  }

  ghost predicate PayloadKept(m: Bytes, m': Bytes, b: Block) {
    b.Used() ==> forall a: nat :: b.Payload() <= a < b.addr + b.usage ==> SameByte(m, m', a)
  }

  lemma AllKept(m: Bytes, m': Bytes, bs: seq<Block>)
    requires Disjoint(bs)
    requires forall k {:trigger PayloadKept(m, m', bs[k])} :: 0 <= k < |bs| ==> PayloadKept(m, m', bs[k])
    ensures Kept(m, m', Table(bs))
  {
    forall p, a: nat | p in Table(bs) && p <= a < p + Table(bs)[p]
      ensures SameByte(m, m', a)
    {
      var k := TableEntry(bs, p);
      assert PayloadKept(m, m', bs[k]);
    }
  }

  /** A store inside block i, if it spares the payload of i, spares every payload. */
  lemma KeptBeside(m: Bytes, m': Bytes, head: nat, bs: seq<Block>, i: nat)
    requires InMemory(m, head, bs) && Laid(bs) && i < |bs|
    requires ChangedOnlyIn(m, m', bs[i].addr, bs[i].size) && PayloadKept(m, m', bs[i])
    ensures Kept(m, m', Table(bs))
  {
    forall k | 0 <= k < |bs|
      ensures PayloadKept(m, m', bs[k])
    {
      if k != i {
        OtherBlockKept(m, m', head, bs, i, k);
        assert BlockOk(bs[k]);
      }
    }
    AllKept(m, m', bs);
  }

  /** Stores into the payload of a live block disturb neither the list nor another payload. */
  lemma PayloadWritten(m: Bytes, m': Bytes, head: nat, bs: seq<Block>, i: nat)
    requires InMemory(m, head, bs) && Laid(bs) && i < |bs| && bs[i].Used()
    requires HEADER <= bs[i].size && ChangedOnlyIn(m, m', bs[i].Payload(), bs[i].size - HEADER)
    ensures InMemory(m', head, bs)
    ensures Kept(m, m', Table(bs) - {bs[i].Payload()})
  {
    assert BlockOk(bs[i]) && HeaderOk(m, bs, i);
    HeaderSame(m, m', bs[i].addr);
    InPlace(m, m', head, bs, i, bs[i]);
    assert bs[i := bs[i]] == bs;
    forall p, a: nat | p in Table(bs) - {bs[i].Payload()} && p <= a < p + Table(bs)[p]
      ensures SameByte(m, m', a)
    {
      var k := TableEntry(bs, p);
      OtherBlockKept(m, m', head, bs, i, k);
      assert BlockOk(bs[k]);
    }
  }

  lemma KeptTwice(m: Bytes, m1: Bytes, m2: Bytes, t: map<nat, int>, t1: map<nat, int>)
    requires Kept(m, m1, t) && Kept(m1, m2, t1)
    requires forall q :: q in t1 ==> q in t && t[q] == t1[q]
    ensures Kept(m, m2, t1)
  {
    forall q, a: nat | q in t1 && q <= a < q + t1[q]
      ensures SameByte(m, m2, a)
    {
      assert t[q] == t1[q];
      assert SameByte(m, m1, a) && SameByte(m1, m2, a);
    }
  }

  lemma NothingChanged(m: Bytes, head: nat, bs: seq<Block>)
    requires InMemory(m, head, bs) && Laid(bs)
    ensures Kept(m, m, Table(bs))
  {
    forall k | 0 <= k < |bs| ensures PayloadKept(m, m, bs[k]) {
      BlockMapped(m, head, bs, k);
      ReadBlock(m, head, bs, k);
    }
    AllKept(m, m, bs);
  }

  // ----- What each step of malloc keeps -----

  /** The invariant of the allocator's global state. */
  ghost predicate HeapOk(m: Bytes, head: nat, bs: seq<Block>, nextId: nat, page: nat) {
    && page > 0 && page % 8 == 0
    && WellFormed(bs, nextId)
    && PagesOk(bs, page)
    && InMemory(m, head, bs)
  }

  /** The allocator's global state, with the block list it stands for. */
  datatype Heap = Heap(mem: Bytes, head: nat, blocks: seq<Block>, nextId: nat)

  /** Before the first call: an empty list, nothing mapped, nothing allocated. */
  const START: Heap := Heap(map[], 0, [], 0)

  ghost predicate Sound(h: Heap, page: nat) {
    HeapOk(h.mem, h.head, h.blocks, h.nextId, page)
  }

  const SCRIBBLE: Byte := 0xAA

  /** p was handed out: it was not live, it is live now with size bytes, and no byte of another live payload changed. */
  ghost predicate HandedOut(h: Heap, size: nat, scribble: bool, p: nat, h': Heap) {
    && h'.nextId == h.nextId + 1
    && TableGains(h.blocks, h'.blocks, p, size) && Kept(h.mem, h'.mem, Table(h.blocks))
    && (scribble ==> Filled(h'.mem, p, size, SCRIBBLE))
  }

  /** What malloc does, for a rounded size: it hands out a pointer, or fails and changes nothing. */
  ghost predicate Mallocs(h: Heap, policy: Policy, size: nat, scribble: bool, kernel: Option<nat>, bytes: nat,
                          p: nat, h': Heap)
  {
    && IsMallocOf(h.blocks, h.nextId, policy, size + HEADER, kernel, bytes, h'.blocks, p)
    && if p == 0 then h' == h else HandedOut(h, size, scribble, p, h')
  }

  lemma MallocReuses(h: Heap, policy: Policy, size: nat, scribble: bool, kernel: Option<nat>, bytes: nat,
                                        p: nat, h': Heap, i: nat)
    requires Pick(policy, h.blocks, size + HEADER) == Some(i) && PickOk(h.blocks, Some(i), size + HEADER)
    requires p == Pointer(h.blocks, Some(i), 0)
    requires IsAfterMalloc(h.blocks, Some(i), size + HEADER, h.nextId, 0, 0, h'.blocks)
    requires HandedOut(h, size, scribble, p, h')
    ensures Mallocs(h, policy, size, scribble, kernel, bytes, p, h')
  {
  }

  lemma MallocMaps(h: Heap, policy: Policy, size: nat, scribble: bool, at: nat, bytes: nat, p: nat, h': Heap)
    requires Pick(policy, h.blocks, size + HEADER) == None && p == at + HEADER
    requires IsAppended(h.blocks, h'.blocks, NewRegion(at, bytes, size + HEADER, h.nextId))
    requires HandedOut(h, size, scribble, p, h')
    ensures Mallocs(h, policy, size, scribble, Some(at), bytes, p, h')
  {
  }

  lemma MallocFails(h: Heap, policy: Policy, size: nat, scribble: bool, bytes: nat)
    requires Pick(policy, h.blocks, size + HEADER) == None
    ensures Mallocs(h, policy, size, scribble, None, bytes, 0, h)
  {
  }

  lemma GainedEntry(bs: seq<Block>, r: seq<Block>, p: nat, size: nat)
    requires TableGains(bs, r, p, size)
    ensures p in Table(r) && Table(r)[p] == size && Table(r) - {p} == Table(bs)
  {
  }

  /**
   * What free does: NULL is ignored; otherwise the list becomes the specified one and no other live
   * payload changes.
   */
  ghost predicate Frees(h: Heap, p: nat, h': Heap)
    requires Disjoint(h.blocks)
  {
    if p == 0 then h' == h
    else
      && p in Table(h.blocks) && h'.nextId == h.nextId
      && h'.blocks == AfterFree(h.blocks, BlockOf(h.blocks, p))
      && Kept(h.mem, h'.mem, Table(h.blocks) - {p})
  }

  /** When malloc fails. */
  lemma MallocOutcome(h: Heap, policy: Policy, size: nat, scribble: bool, kernel: Option<nat>, bytes: nat, p: nat,
                      h': Heap)
    requires Mallocs(h, policy, size, scribble, kernel, bytes, p, h')
    ensures p == 0 <==> Pick(policy, h.blocks, size + HEADER).None? && kernel.None?
    ensures if p == 0 then h' == h
            else HandedOut(h, size, scribble, p, h') && p in Table(h'.blocks) && Table(h'.blocks)[p] == size
  {
  }

  /** Stores into the payload just handed out change no other payload. */
  lemma ClearedToo(h: Heap, h1: Heap, h2: Heap, size: nat, scribble: bool, p: nat)
    requires HandedOut(h, size, scribble, p, h1) && h2 == h1.(mem := h2.mem)
    requires Kept(h1.mem, h2.mem, Table(h1.blocks) - {p})
    ensures HandedOut(h, size, false, p, h2)
  {
    GainedEntry(h.blocks, h1.blocks, p, size);
    KeptTwice(h.mem, h1.mem, h2.mem, Table(h.blocks), Table(h.blocks));
  }

  lemma TookWhole(m: Bytes, m': Bytes, head: nat, bs: seq<Block>, nextId: nat, page: nat, i: nat, size: nat)
    requires HeapOk(m, head, bs, nextId, page) && size % 8 == 0
    requires i < |bs| && !bs[i].Used() && size + HEADER <= bs[i].Slack()
    requires ChangedOnlyIn(m, m', bs[i].addr, bs[i].size)
    requires Shows(m', bs[i].addr, HeaderOf(bs[i].(usage := size + HEADER, id := nextId), AddrAt(bs, i + 1)))
    ensures HeapOk(m', head, Reused(bs, i, size + HEADER, nextId), nextId + 1, page)
    ensures Kept(m, m', Table(bs))
    ensures TableGains(bs, Reused(bs, i, size + HEADER, nextId), bs[i].Payload(), size)
  {
    ReuseKeeps(bs, nextId, i, size, bs[i].Payload());
    KeptBeside(m, m', head, bs, i);
    InPlace(m, m', head, bs, i, bs[i].(usage := size + HEADER, id := nextId));
  }

  lemma SplitPages(bs: seq<Block>, r: seq<Block>, i: nat, need: nat, id: nat, page: nat)
    requires page > 0 && PagesOk(bs, page) && i < |bs| && bs[i].usage <= bs[i].size && IsSplit(bs, r, i, need, id)
    ensures PagesOk(r, page)
  {
    forall k | 0 <= k < |r|
      ensures r[k].region == bs[SplitSource(i, k)].region && r[k].regionSize == bs[SplitSource(i, k)].regionSize
    {
    }
  }

  lemma SplitImage(m: Bytes, m': Bytes, head: nat, bs: seq<Block>, r: seq<Block>, i: nat, need: nat, id: nat)
    requires InMemory(m, head, bs) && Laid(bs) && i < |bs| && bs[i].usage <= bs[i].size
    requires IsSplit(bs, r, i, need, id)
    requires ChangedOnlyIn(m, m', bs[i].addr, bs[i].size) && PayloadKept(m, m', bs[i])
    requires Shows(m', r[i].addr, HeaderOf(r[i], r[i + 1].addr))
    requires Shows(m', r[i + 1].addr, HeaderOf(r[i + 1], AddrAt(bs, i + 1)))
    ensures InMemory(m', head, r)
    ensures Kept(m, m', Table(bs))
  {
    KeptBeside(m, m', head, bs, i);
    SplitInMemory(m, m', head, bs, r, i, need, id);
  }

  /** The stores of a split of block i: two headers, inside the block and beside its payload. */
  ghost predicate SplitStored(m: Bytes, m': Bytes, bs: seq<Block>, i: nat, need: nat, id: nat)
    requires i < |bs| && bs[i].usage <= bs[i].size
  {
    var was, tail := bs[i], Tail(bs[i], need, id);
    && ChangedOnlyIn(m, m', was.addr, was.size) && PayloadKept(m, m', was)
    && Shows(m', was.addr, HeaderOf(was.(size := was.usage), tail.addr))
    && Shows(m', tail.addr, HeaderOf(tail, AddrAt(bs, i + 1)))
  }

  lemma SplitDone(h: Heap, h': Heap, page: nat, i: nat, size: nat, scribble: bool, p: nat)
    requires Sound(h, page) && size % 8 == 0
    requires i < |h.blocks| && h.blocks[i].Used() && size + HEADER <= h.blocks[i].Slack()
    requires p == h.blocks[i].addr + h.blocks[i].usage + HEADER && (scribble ==> Filled(h'.mem, p, size, SCRIBBLE))
    requires SplitStored(h.mem, h'.mem, h.blocks, i, size + HEADER, h.nextId)
    requires IsSplit(h.blocks, h'.blocks, i, size + HEADER, h.nextId) && h'.nextId == h.nextId + 1 && h'.head == h.head
    ensures Sound(h', page) && HandedOut(h, size, scribble, p, h')
  {
    SplitKeeps(h.blocks, h'.blocks, h.nextId, i, size, p);
    SplitPages(h.blocks, h'.blocks, i, size + HEADER, h.nextId, page);
    SplitImage(h.mem, h'.mem, h.head, h.blocks, h'.blocks, i, size + HEADER, h.nextId);
  }

  /** The mapping [b.addr, b.End()) came in, and of the old bytes only the header of the last block changed. */
  ghost predicate GrewBy(m: Bytes, m': Bytes, bs: seq<Block>, b: Block) {
    && (forall a: nat :: a in m' <==> a in m || In(b, a))
    && (forall a: nat {:trigger m'[a]} :: a in m && !In(b, a) && !InLastHeader(bs, a) ==> m'[a] == m[a])
    && (bs != [] ==> var last := bs[|bs| - 1]; Shows(m', last.addr, HeaderOf(last, b.addr)))
    && Shows(m', b.addr, HeaderOf(b, 0))
  }

  predicate InLastHeader(bs: seq<Block>, a: nat) {
    bs != [] && bs[|bs| - 1].addr <= a < bs[|bs| - 1].Payload()
  }

  /** The mapping [b.addr, b.End()) came in, with a header at its start. */
  ghost predicate MappedIn(m: Bytes, m': Bytes, b: Block) {
    && (forall a: nat :: a in m' <==> a in m || In(b, a))
    && (forall a: nat :: a in m && !In(b, a) ==> m'[a] == m[a])
    && Shows(m', b.addr, HeaderOf(b, 0))
  }

  /** The last header of a list that is not empty links to b. */
  ghost predicate NewLast(m: Bytes, m': Bytes, bs: seq<Block>, b: Block) {
    if bs == [] then m' == m else
    var last := bs[|bs| - 1]; ChangedOnlyIn(m, m', last.addr, HEADER) && Shows(m', last.addr, HeaderOf(last, b.addr))
  }

  /** A new mapping and its header leave the old list in place. */
  lemma StillLinked(m: Bytes, m': Bytes, head: nat, bs: seq<Block>, b: Block)
    requires InMemory(m, head, bs) && Laid(bs)
    requires forall a :: In(b, a) ==> !Owned(bs, a)
    requires MappedIn(m, m', b)
    ensures Linked(m', head, bs)
    ensures bs != [] ==> forall a: nat :: InLastHeader(bs, a) ==> a in m && !In(b, a)
  {
    forall k, a: nat | 0 <= k < |bs| && In(bs[k], a)
      ensures a in m && !In(b, a)
    {
      assert Owned(bs, a);
    }
    forall k | 0 <= k < |bs|
      ensures HeaderOk(m', bs, k)
    {
      ReadBlock(m, head, bs, k);
      HeaderSame(m, m', bs[k].addr);
    }
    if bs != [] {
      ReadBlock(m, head, bs, |bs| - 1);
    }
  }

  /** The mapping, its header, the link from the last block and the scribbling make up GrewBy. */
  lemma GrewInSteps(m: Bytes, m1: Bytes, m2: Bytes, m3: Bytes, head: nat, bs: seq<Block>, b: Block)
    requires InMemory(m, head, bs) && Laid(bs) && HEADER <= b.size
    requires forall a :: In(b, a) ==> !Owned(bs, a)
    requires MappedIn(m, m1, b)
    requires NewLast(m1, m2, bs, b)
    requires ChangedOnlyIn(m2, m3, b.Payload(), b.size - HEADER)
    ensures GrewBy(m, m3, bs, b)
  {
    StillLinked(m, m1, head, bs, b);
    if bs != [] {
      var last := bs[|bs| - 1].addr;
      forall x: nat | last <= x < last + HEADER
        ensures x in m2 && x in m3 && m3[x] == m2[x]
      {
        assert InLastHeader(bs, x);
      }
      HeaderSame(m2, m3, last);
    }
    HeaderSame(m1, m3, b.addr);
  }

  /** A block of the old list is mapped and lies outside the new mapping. */
  lemma OldBlockApart(m: Bytes, head: nat, bs: seq<Block>, b: Block, k: nat, a: nat)
    requires InMemory(m, head, bs) && k < |bs| && In(bs[k], a)
    requires forall x :: In(b, x) ==> !Owned(bs, x)
    ensures a in m && !In(b, a)
  {
    assert Owned(bs, a);
  }

  lemma AppendKeepsPayload(m: Bytes, m': Bytes, head: nat, bs: seq<Block>, b: Block, k: nat)
    requires InMemory(m, head, bs) && Laid(bs) && GrewBy(m, m', bs, b) && k < |bs|
    requires forall a :: In(b, a) ==> !Owned(bs, a)
    ensures PayloadKept(m, m', bs[k])
  {
    ReadBlock(m, head, bs, k);
    ReadBlock(m, head, bs, |bs| - 1);
    if k + 1 < |bs| {
      ApartAt(bs, k, |bs| - 1);
    }
    forall a: nat | bs[k].Payload() <= a < bs[k].addr + bs[k].usage
      ensures SameByte(m, m', a)
    {
      OldBlockApart(m, head, bs, b, k, a);
    }
  }

  lemma AppendKeepsHeader(m: Bytes, m': Bytes, head: nat, bs: seq<Block>, b: Block, k: nat)
    requires InMemory(m, head, bs) && Laid(bs) && GrewBy(m, m', bs, b) && k + 1 < |bs|
    requires forall a :: In(b, a) ==> !Owned(bs, a)
    ensures Shows(m', bs[k].addr, HeaderOf(bs[k], AddrAt(bs, k + 1)))
  {
    ReadBlock(m, head, bs, k);
    ReadBlock(m, head, bs, |bs| - 1);
    ApartAt(bs, k, |bs| - 1);
    forall a: nat | bs[k].addr <= a < bs[k].addr + HEADER
      ensures SameByte(m, m', a)
    {
      OldBlockApart(m, head, bs, b, k, a);
    }
    HeaderSame(m, m', bs[k].addr);
  }

  lemma AppendImage(m: Bytes, m': Bytes, head: nat, head': nat, bs: seq<Block>, r: seq<Block>, b: Block)
    requires InMemory(m, head, bs) && Laid(bs) && HEADER <= b.size
    requires forall a :: In(b, a) ==> !Owned(bs, a)
    requires IsAppended(bs, r, b) && GrewBy(m, m', bs, b)
    requires head' == if bs == [] then b.addr else head
    ensures InMemory(m', head', r)
    ensures Kept(m, m', Table(bs))
  {
    forall k | 0 <= k < |bs|
      ensures HeaderOk(m', r, k) && PayloadKept(m, m', bs[k])
    {
      AppendKeepsPayload(m, m', head, bs, b, k);
      if k + 1 < |bs| {
        AppendKeepsHeader(m, m', head, bs, b, k);
      }
    }
    AllKept(m, m', bs);
    AppendedInMemory(m, m', head, head', bs, r, b);
  }

  lemma AppendDone(h: Heap, h': Heap, page: nat, b: Block, size: nat, scribble: bool, p: nat)
    requires Sound(h, page) && size % 8 == 0 && size + HEADER <= b.size && p == b.Payload()
    requires b == NewRegion(b.addr, b.size, size + HEADER, h.nextId) && (scribble ==> Filled(h'.mem, p, size, SCRIBBLE))
    requires Offered(h.blocks, b.addr, b.size) && PageAligned(b.addr, page) && PageAligned(b.size, page)
    requires IsAppended(h.blocks, h'.blocks, b) && GrewBy(h.mem, h'.mem, h.blocks, b) && h'.nextId == h.nextId + 1
    requires h'.head == if h.blocks == [] then b.addr else h.head
    ensures Sound(h', page) && HandedOut(h, size, scribble, p, h')
  {
    AppendKeeps(h.blocks, h'.blocks, h.nextId, size, b.addr, b.size, p);
    forall a | In(b, a) ensures !Owned(h.blocks, a) {
    }
    AppendImage(h.mem, h'.mem, h.head, h'.head, h.blocks, h'.blocks, b);
  }

  /** Two stores that lie apart from a header leave it alone. */
  lemma HeaderApart(m: Bytes, m': Bytes, a: nat, n: nat, b: nat)
    requires Mapped(m, b, HEADER) && ChangedOnlyIn(m, m', a, n)
    requires a + n <= b || b + HEADER <= a
    ensures Mapped(m', b, HEADER) && HeaderAt(m', b) == HeaderAt(m, b)
  {
    HeaderSame(m, m', b);
  }

  /** size and next of a block whose tail is cut off. */
  method Shrink(m: Bytes, b: nat, usage: nat, next: nat) returns (m': Bytes)
    requires Mapped(m, b, HEADER) && usage < WORD_LIMIT && next < WORD_LIMIT
    ensures ChangedOnlyIn(m, m', b, HEADER)
    ensures HeaderAt(m', b) == HeaderAt(m, b).(size := usage, next := next)
  {
    m' := WriteField(m, b, 1, usage);
    m' := WriteField(m', b, 5, next);
  }

  /** m' differs from m in the headers at b and c only. */
  ghost predicate TwoHeadersChanged(m: Bytes, m': Bytes, b: nat, c: nat) {
    && m'.Keys == m.Keys
    && forall a: nat :: a in m && !(b <= a < b + HEADER) && !(c <= a < c + HEADER) ==> m'[a] == m[a]
  }

  lemma TwoChanges(m: Bytes, m1: Bytes, m2: Bytes, b: nat, c: nat)
    requires ChangedOnlyIn(m, m1, c, HEADER) && ChangedOnlyIn(m1, m2, b, HEADER)
    ensures TwoHeadersChanged(m, m2, b, c)
  {
  }

  /** The stores of a split, in order: the tail's header, then size and next of the block it was cut from. */
  method SplitStores(m: Bytes, b: nat, usage: nat, tail: Header) returns (m': Bytes)
    requires HEADER <= usage && Mapped(m, b, usage + HEADER) && Fits(tail) && b + usage < WORD_LIMIT
    ensures TwoHeadersChanged(m, m', b, b + usage)
    ensures HeaderAt(m', b) == HeaderAt(m, b).(size := usage, next := b + usage)
    ensures HeaderAt(m', b + usage) == tail
  {
    var block := b + usage;
    var m1 := WriteHeader(m, block, tail);
    HeaderApart(m, m1, block, HEADER, b);
    m' := Shrink(m1, b, usage, block);
    HeaderApart(m1, m', b, HEADER, block);
    TwoChanges(m, m1, m', b, block);
  }

  lemma SplitStoresDone(m: Bytes, m1: Bytes, m': Bytes, head: nat, bs: seq<Block>, i: nat, size: nat, id: nat)
    requires InMemory(m, head, bs) && Laid(bs) && i < |bs| && bs[i].Used() && size + HEADER <= bs[i].Slack()
    requires TwoHeadersChanged(m, m1, bs[i].addr, bs[i].addr + bs[i].usage)
    requires var was, tail := bs[i], Tail(bs[i], size + HEADER, id);
             && Shows(m1, was.addr, HeaderOf(was.(size := was.usage), tail.addr))
             && Shows(m1, tail.addr, HeaderOf(tail, AddrAt(bs, i + 1)))
             && ChangedOnlyIn(m1, m', tail.addr + HEADER, size)
    ensures SplitStored(m, m', bs, i, size + HEADER, id)
  {
    BlockMapped(m, head, bs, i);
    ReadBlock(m, head, bs, i);
    HeaderApart(m1, m', bs[i].addr + bs[i].usage + HEADER, size, bs[i].addr);
    HeaderApart(m1, m', bs[i].addr + bs[i].usage + HEADER, size, bs[i].addr + bs[i].usage);
  }

  // ----- What each step of free keeps -----

  /** usage = 0 in the header of block i. */
  lemma ReleaseImage(m: Bytes, m': Bytes, head: nat, bs: seq<Block>, i: nat)
    requires InMemory(m, head, bs) && Laid(bs) && i < |bs|
    requires ChangedOnlyIn(m, m', bs[i].addr, HEADER)
    requires Shows(m', bs[i].addr, HeaderOf(bs[i].(usage := 0), AddrAt(bs, i + 1)))
    ensures InMemory(m', head, Released(bs, i))
    ensures Kept(m, m', Table(bs))
  {
    BlockMapped(m, head, bs, i);
    ReadBlock(m, head, bs, i);
    KeptBeside(m, m', head, bs, i);
    InPlace(m, m', head, bs, i, bs[i].(usage := 0));
  }

  /** The block before lo..hi, or head, now leads past them. */
  ghost predicate Relinked(m: Bytes, m': Bytes, head: nat, head': nat, bs: seq<Block>, lo: nat, hi: nat)
    requires lo < hi <= |bs|
  {
    if lo == 0 then
      m' == m && head' == AddrAt(bs, hi)
    else
      && head' == head && ChangedOnlyIn(m, m', bs[lo - 1].addr, HEADER)
      && ShowsRelinked(m', bs, lo, hi, lo - 1)
  }

  lemma RelinkImage(m: Bytes, m': Bytes, head: nat, head': nat, bs: seq<Block>, lo: nat, hi: nat)
    requires InMemory(m, head, bs) && Laid(bs) && lo < hi <= |bs|
    requires Relinked(m, m', head, head', bs, lo, hi)
    ensures m'.Keys == m.Keys
    ensures forall k :: 0 <= k < |bs| && !(lo <= k < hi) ==> ShowsRelinked(m', bs, lo, hi, k)
    ensures Kept(m, m', Table(bs))
  {
    if lo == 0 {
      NothingChanged(m, head, bs);
    } else {
      BlockMapped(m, head, bs, lo - 1);
      ReadBlock(m, head, bs, lo - 1);
      KeptBeside(m, m', head, bs, lo - 1);
    }
    forall k | 0 <= k < |bs| && !(lo <= k < hi)
      ensures ShowsRelinked(m', bs, lo, hi, k)
    {
      ReadBlock(m, head, bs, k);
      if 0 < lo && k != lo - 1 {
        OtherBlockKept(m, m', head, bs, lo - 1, k);
      }
    }
  }

  /** No byte of a block of another region lies in the region. */
  lemma OutsideRegion(bs: seq<Block>, lo: nat, k: nat, a: nat)
    requires Laid(bs) && lo < |bs| && k < |bs| && bs[k].region != bs[lo].region && In(bs[k], a)
    ensures !(bs[lo].region <= a < bs[lo].region + bs[lo].regionSize)
  {
    RegionTiled(bs, lo, a);
  }

  /** The region's pages are gone; all its blocks were free. */
  lemma UnmapImage(m: Bytes, m': Bytes, head': nat, bs: seq<Block>, lo: nat, hi: nat, k: nat)
    requires Laid(bs) && lo < hi <= |bs| && IsSpan(bs, bs[lo].region, lo, hi)
    requires k < |bs| && !(lo <= k < hi) && Mapped(m, bs[k].addr, bs[k].size)
    requires forall a: nat :: a in m' <==> a in m && !(bs[lo].region <= a < bs[lo].region + bs[lo].regionSize)
    requires forall a: nat :: a in m' ==> m'[a] == m[a]
    requires ShowsRelinked(m, bs, lo, hi, k)
    ensures ShowsRelinked(m', bs, lo, hi, k)
    ensures PayloadKept(m, m', bs[k])
  {
    forall a: nat | In(bs[k], a) ensures a in m' && m'[a] == m[a] {
      OutsideRegion(bs, lo, k, a);
    }
    assert BlockOk(bs[k]);
    HeaderSame(m, m', bs[k].addr);
  }

  /** A free region was unlinked and unmapped: the rest of the list and every payload are untouched. */
  lemma {:induction false} DropImage(m: Bytes, m1: Bytes, m2: Bytes, head: nat, head': nat, bs: seq<Block>, lo: nat,
                                     hi: nat)
    requires InMemory(m, head, bs) && Laid(bs) && lo < hi <= |bs|
    requires IsSpan(bs, bs[lo].region, lo, hi) && !HasUsed(bs, bs[lo].region)
    requires Relinked(m, m1, head, head', bs, lo, hi)
    requires forall a: nat :: a in m2 <==> a in m1 && !(bs[lo].region <= a < bs[lo].region + bs[lo].regionSize)
    requires forall a: nat :: a in m2 ==> m2[a] == m1[a]
    ensures InMemory(m2, head', Without(bs, bs[lo].region))
    ensures Kept(m, m2, Table(bs))
  {
    RelinkImage(m, m1, head, head', bs, lo, hi);
    WithoutIsCut(bs, bs[lo].region, lo, hi);
    forall k | 0 <= k < |bs|
      ensures !(lo <= k < hi) ==> ShowsRelinked(m2, bs, lo, hi, k)
      ensures PayloadKept(m1, m2, bs[k])
    {
      if !(lo <= k < hi) {
        BlockMapped(m, head, bs, k);
        UnmapImage(m1, m2, head', bs, lo, hi, k);
      }
    }
    AllKept(m1, m2, bs);
    KeptTwice(m, m1, m2, Table(bs), Table(bs));
    CutInMemory(m, m2, head, head', bs, Without(bs, bs[lo].region), lo, hi);
  }

  lemma NullNotLive(bs: seq<Block>)
    requires Disjoint(bs)
    ensures Table(bs) - {0} == Table(bs)
  {
    forall p | p in Table(bs) ensures p != 0 {
      var k := TableEntry(bs, p);
    }
  }

  lemma FreePages(bs: seq<Block>, i: nat, page: nat, lo: nat, hi: nat)
    requires page > 0 && PagesOk(bs, page) && i < |bs| && IsSpan(bs, bs[i].region, lo, hi)
    ensures PagesOk(AfterFree(bs, i), page)
  {
    var marked := Released(bs, i);
    if !HasUsed(marked, bs[i].region) {
      WithoutIsCut(marked, bs[i].region, lo, hi);
    }
  }
}
