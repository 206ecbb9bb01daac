/**
 * The effect of malloc and free on the block list, and what every operation
 * keeps: the list stays well formed, and seen as a table of live allocations
 * it gains or loses exactly one entry.
 */
module BlockOps {
  import opened Memory
  import opened Basics
  import opened Blocks

  /** Live allocations: pointer handed out -> bytes usable there. */
  ghost function Table(bs: seq<Block>): map<nat, int>
    requires Disjoint(bs)
  {
    PayloadsDiffer(bs);
    map i | 0 <= i < |bs| && bs[i].Used() :: bs[i].Payload() := bs[i].usage - HEADER
  }

  lemma PayloadsDiffer(bs: seq<Block>)
    requires Disjoint(bs)
    ensures forall i, j {:trigger bs[i].Payload(), bs[j].Payload()} ::
      0 <= i < |bs| && 0 <= j < |bs| && i != j ==> bs[i].Payload() != bs[j].Payload()
  {
    forall i, j | 0 <= i < |bs| && 0 <= j < |bs| && i != j
      ensures bs[i].Payload() != bs[j].Payload()
    {
      ApartAt(bs, i, j);
    }
  }

  /** The block behind a live pointer. */
  ghost function BlockOf(bs: seq<Block>, p: nat): (i: nat)
    requires Disjoint(bs) && p in Table(bs)
    ensures i < |bs| && bs[i].Used() && bs[i].Payload() == p
  {
    PayloadsDiffer(bs);
    var i :| 0 <= i < |bs| && bs[i].Used() && bs[i].Payload() == p;
    i
  }

  /** A free block is handed out whole. */
  function Reused(bs: seq<Block>, i: nat, need: nat, id: nat): seq<Block>
    requires i < |bs|
  {
    bs[i := bs[i].(usage := need, id := id)]
  }

  /** The unused tail of block b becomes a block of its own. */
  function Tail(b: Block, need: nat, id: nat): Block
    requires b.usage <= b.size
  {
    Block(b.addr + b.usage, b.size - b.usage, need, id, b.region, b.regionSize)
  }

  /** A new mapping starts as one block. */
  function NewRegion(at: nat, bytes: nat, need: nat, id: nat): Block {
    Block(at, bytes, need, id, at, bytes)
  }

  /** Element by element: r is bs with block i cut in two. */
  ghost predicate IsSplit(bs: seq<Block>, r: seq<Block>, i: nat, need: nat, id: nat)
    requires i < |bs| && bs[i].usage <= bs[i].size
  {
    && |r| == |bs| + 1
    && r[i] == bs[i].(size := bs[i].usage) && r[i + 1] == Tail(bs[i], need, id)
    && (forall k :: 0 <= k < i ==> r[k] == bs[k])
    && (forall k :: i + 1 < k < |r| ==> r[k] == bs[k - 1])
  }

  /** Element by element: r is bs followed by b. */
  ghost predicate IsAppended(bs: seq<Block>, r: seq<Block>, b: Block) {
    && |r| == |bs| + 1 && r[|bs|] == b
    && forall k :: 0 <= k < |bs| ==> r[k] == bs[k]
  }

  /** The list after malloc puts a block of need bytes where the fit policy says, or into a new region. */
  ghost predicate IsAfterMalloc(bs: seq<Block>, pick: Option<nat>, need: nat, id: nat, at: nat, bytes: nat,
                                r: seq<Block>)
    requires pick.Some? ==> pick.value < |bs| && bs[pick.value].usage <= bs[pick.value].size
  {
    match pick
    case None => IsAppended(bs, r, NewRegion(at, bytes, need, id))
    case Some(i) => if bs[i].Used() then IsSplit(bs, r, i, need, id) else r == Reused(bs, i, need, id)
  }

  function Pointer(bs: seq<Block>, pick: Option<nat>, at: nat): nat
    requires pick.Some? ==> pick.value < |bs|
  {
    match pick
    case None => at + HEADER
    case Some(i) => bs[i].addr + bs[i].usage + HEADER
  }

  function Released(bs: seq<Block>, i: nat): seq<Block>
    requires i < |bs|
  {
    bs[i := bs[i].(usage := 0)]
  }

  /** The list without the blocks of one region. */
  function Without(bs: seq<Block>, region: nat): seq<Block> {
    if bs == [] then []
    else (if bs[0].region == region then [] else [bs[0]]) + Without(bs[1..], region)
  }

  ghost function AfterFree(bs: seq<Block>, i: nat): seq<Block>
    requires i < |bs|
  {
    var marked := Released(bs, i);
    if HasUsed(marked, bs[i].region) then marked else Without(marked, bs[i].region)
  }

  // ----- malloc keeps the list well formed -----

  /** Changing only usage and id keeps the regions as they are. */
  lemma SameLayout(bs: seq<Block>, r: seq<Block>)
    requires Laid(bs)
    requires |r| == |bs|
    requires forall k :: 0 <= k < |bs| ==> r[k] == bs[k].(usage := r[k].usage, id := r[k].id)
    requires forall k :: 0 <= k < |r| ==> BlockOk(r[k])
    ensures Laid(r)
  {
    forall k | 0 <= k < |r|
      ensures ChainOk(r, k)
    {
      assert ChainOk(bs, k);
    }
    forall k, j | 0 <= k < |r| && 0 <= j < |r| && k != j
      ensures Apart(r[k], r[j])
    {
      assert Apart(bs[k], bs[j]);
    }
  }

  lemma ReusedWellFormed(bs: seq<Block>, nextId: nat, i: nat, need: nat)
    requires WellFormed(bs, nextId) && i < |bs| && !bs[i].Used()
    requires HEADER <= need <= bs[i].size && need % 8 == 0
    ensures WellFormed(Reused(bs, i, need, nextId), nextId + 1)
  {
    var r := Reused(bs, i, need, nextId);
    forall k | 0 <= k < |r| ensures BlockOk(r[k]) {
      assert BlockOk(bs[k]);
    }
    SameLayout(bs, r);
    forall k | 0 <= k < |r|
      ensures HasUsed(r, r[k].region)
    {
      assert HasUsed(bs, bs[k].region);
      var j :| 0 <= j < |bs| && bs[j].region == bs[k].region && bs[j].Used();
      assert r[j].region == r[k].region && r[j].Used();
    }
  }

  lemma ReusedTable(bs: seq<Block>, i: nat, need: nat, id: nat)
    requires Disjoint(bs) && i < |bs| && !bs[i].Used() && need > 0
    requires Disjoint(Reused(bs, i, need, id))
    ensures Table(Reused(bs, i, need, id)) == Table(bs)[bs[i].Payload() := need - HEADER]
    ensures bs[i].Payload() !in Table(bs)
  {
    var r := Reused(bs, i, need, id);
    assert forall k :: 0 <= k < |bs| && k != i ==> r[k] == bs[k];
    forall p | p in Table(bs)
      ensures p != bs[i].Payload() && p in Table(r) && Table(r)[p] == Table(bs)[p]
    {
      var k :| 0 <= k < |bs| && bs[k].Used() && bs[k].Payload() == p;
      assert Apart(bs[k], bs[i]) && r[k].Used();
    }
    assert r[i].Used();
    forall p | p in Table(r)
      ensures p == bs[i].Payload() || p in Table(bs)
    {
      var k :| 0 <= k < |r| && r[k].Used() && r[k].Payload() == p;
      assert k != i ==> bs[k].Used();
    }
  }

  ghost function SplitList(bs: seq<Block>, i: nat, need: nat, id: nat): seq<Block>
    requires i < |bs| && bs[i].usage <= bs[i].size
  {
    bs[..i] + [bs[i].(size := bs[i].usage), Tail(bs[i], need, id)] + bs[i + 1..]
  }

  lemma SplitBlockOk(b: Block, need: nat, id: nat)
    requires BlockOk(b) && b.Used() && HEADER <= need <= b.Slack() && need % 8 == 0
    ensures BlockOk(b.(size := b.usage)) && BlockOk(Tail(b, need, id))
  {
  }

  function SplitSource(i: int, k: int): int { if k <= i then k else k - 1 }

  lemma SplitChain(bs: seq<Block>, r: seq<Block>, i: nat, need: nat, id: nat, k: nat)
    requires Chained(bs) && i < |bs| && bs[i].usage <= bs[i].size
    requires IsSplit(bs, r, i, need, id) && k < |r|
    ensures ChainOk(r, k)
  {
    assert ChainOk(bs, SplitSource(i, k));
    if i < k {
      // the tail and what follows it
      assert r[k].region == bs[k - 1].region && r[k].End() == bs[k - 1].End();
    } else {
      // up to the block that was cut
      assert r[k].region == bs[k].region && r[k].addr == bs[k].addr;
    }
  }

  lemma SplitApart(bs: seq<Block>, r: seq<Block>, i: nat, need: nat, id: nat, k: nat, j: nat)
    requires Disjoint(bs) && i < |bs| && 0 < bs[i].usage < bs[i].size
    requires IsSplit(bs, r, i, need, id) && k < |r| && j < |r| && k != j
    ensures Apart(r[k], r[j])
  {
    var k', j' := SplitSource(i, k), SplitSource(i, j);
    if k' != j' {
      assert Apart(bs[k'], bs[j']);
    }
  }

  lemma SplitIds(bs: seq<Block>, r: seq<Block>, nextId: nat, i: nat, need: nat)
    requires IdsOk(bs, nextId) && i < |bs| && bs[i].usage <= bs[i].size
    requires IsSplit(bs, r, i, need, nextId)
    ensures IdsOk(r, nextId + 1)
  {
    assert forall k :: 0 <= k < |r| && k != i + 1 ==> r[k].id == bs[SplitSource(i, k)].id;
  }

  lemma SplitWellFormed(bs: seq<Block>, r: seq<Block>, nextId: nat, i: nat, need: nat)
    requires WellFormed(bs, nextId)
    requires i < |bs| && bs[i].Used() && HEADER <= need <= bs[i].Slack() && need % 8 == 0
    requires IsSplit(bs, r, i, need, nextId)
    ensures WellFormed(r, nextId + 1)
  {
    forall k | 0 <= k < |r| ensures BlockOk(r[k]) {
      assert BlockOk(bs[SplitSource(i, k)]);
      SplitBlockOk(bs[i], need, nextId);
    }
    SplitIds(bs, r, nextId, i, need);
    forall k | 0 <= k < |r| ensures ChainOk(r, k) {
      SplitChain(bs, r, i, need, nextId, k);
    }
    forall k, j | 0 <= k < |r| && 0 <= j < |r| && k != j ensures Apart(r[k], r[j]) {
      SplitApart(bs, r, i, need, nextId, k, j);
    }
    forall k | 0 <= k < |r| ensures HasUsed(r, r[k].region) {
      SplitUsed(bs, r, i, need, nextId, k);
    }
  }

  lemma SplitUsed(bs: seq<Block>, r: seq<Block>, i: nat, need: nat, id: nat, k: nat)
    requires Populated(bs) && i < |bs| && bs[i].usage <= bs[i].size
    requires IsSplit(bs, r, i, need, id) && k < |r|
    ensures HasUsed(r, r[k].region)
  {
    assert HasUsed(bs, bs[SplitSource(i, k)].region);
    var j :| 0 <= j < |bs| && bs[j].region == bs[SplitSource(i, k)].region && bs[j].Used();
    var j' := if j <= i then j else j + 1;
    assert r[j'].region == r[k].region && r[j'].Used();
  }

  lemma SplitTable(bs: seq<Block>, r: seq<Block>, i: nat, need: nat, id: nat)
    requires Disjoint(bs) && Disjoint(r)
    requires i < |bs| && bs[i].usage <= bs[i].size && need > 0
    requires IsSplit(bs, r, i, need, id)
    ensures Table(r) == Table(bs)[r[i + 1].Payload() := need - HEADER]
    ensures r[i + 1].Payload() !in Table(bs)
  {
    SplitMoved(bs, r, i, need, id);
    TableExtended(bs, r, i + 1, SplitTo(i), SplitFrom(i));
  }

  function SplitTo(i: int): int -> int { k => if k <= i then k else k + 1 }

  function SplitFrom(i: int): int -> int { j => SplitSource(i, j) }

  lemma SplitMoved(bs: seq<Block>, r: seq<Block>, i: nat, need: nat, id: nat)
    requires i < |bs| && bs[i].usage <= bs[i].size && IsSplit(bs, r, i, need, id)
    ensures Moved(bs, r, i + 1, SplitTo(i), SplitFrom(i))
  {
    forall k | 0 <= k < |bs|
      ensures 0 <= SplitTo(i)(k) < |r| && SplitTo(i)(k) != i + 1
      ensures r[SplitTo(i)(k)].addr == bs[k].addr && r[SplitTo(i)(k)].usage == bs[k].usage
    {
      assert SplitTo(i)(k) == if k <= i then k else k + 1;
    }
    forall j | 0 <= j < |r| && j != i + 1
      ensures 0 <= SplitFrom(i)(j) < |bs| && SplitTo(i)(SplitFrom(i)(j)) == j
    {
      assert SplitFrom(i)(j) == if j <= i then j else j - 1;
    }
  }

  lemma TableHas(bs: seq<Block>, k: nat)
    requires Disjoint(bs) && k < |bs| && bs[k].Used()
    ensures bs[k].Payload() in Table(bs) && Table(bs)[bs[k].Payload()] == bs[k].usage - HEADER
  {
    PayloadsDiffer(bs);
  }

  lemma TableEntry(bs: seq<Block>, p: nat) returns (k: nat)
    requires Disjoint(bs) && p in Table(bs)
    ensures k < |bs| && bs[k].Used() && bs[k].Payload() == p && Table(bs)[p] == bs[k].usage - HEADER
  {
    PayloadsDiffer(bs);
    k :| 0 <= k < |bs| && bs[k].Used() && bs[k].Payload() == p;
  }

  /** r shows the blocks of bs, moved by a bijection that misses n only, with the same addresses and usages. */
  ghost predicate Moved(bs: seq<Block>, r: seq<Block>, n: nat, move: int -> int, back: int -> int) {
    && (forall k :: 0 <= k < |bs| ==>
        0 <= move(k) < |r| && move(k) != n && r[move(k)].addr == bs[k].addr && r[move(k)].usage == bs[k].usage)
    && (forall j :: 0 <= j < |r| && j != n ==> 0 <= back(j) < |bs| && move(back(j)) == j)
  }

  lemma TableKeeps(bs: seq<Block>, r: seq<Block>, n: nat, move: int -> int, back: int -> int, p: nat)
    requires Disjoint(bs) && Disjoint(r) && n < |r|
    requires Moved(bs, r, n, move, back) && p in Table(bs)
    ensures p != r[n].Payload() && p in Table(r) && Table(r)[p] == Table(bs)[p]
  {
    var k := TableEntry(bs, p);
    assert Apart(r[move(k)], r[n]);
    TableHas(r, move(k));
  }

  lemma TableNoMore(bs: seq<Block>, r: seq<Block>, n: nat, move: int -> int, back: int -> int, p: nat)
    requires Disjoint(bs) && Disjoint(r) && n < |r|
    requires Moved(bs, r, n, move, back) && p in Table(r) && p != r[n].Payload()
    ensures p in Table(bs)
  {
    var j := TableEntry(r, p);
    TableHas(bs, back(j));
  }

  /** Then block n is the only new live one. */
  lemma TableExtended(bs: seq<Block>, r: seq<Block>, n: nat, move: int -> int, back: int -> int)
    requires Disjoint(bs) && Disjoint(r) && n < |r| && r[n].Used()
    requires Moved(bs, r, n, move, back)
    ensures Table(r) == Table(bs)[r[n].Payload() := r[n].usage - HEADER]
    ensures r[n].Payload() !in Table(bs)
  {
    TableHas(r, n);
    forall p | p in Table(bs)
      ensures p != r[n].Payload() && p in Table(r) && Table(r)[p] == Table(bs)[p]
    {
      TableKeeps(bs, r, n, move, back, p);
    }
    forall p | p in Table(r) && p != r[n].Payload()
      ensures p in Table(bs)
    {
      TableNoMore(bs, r, n, move, back, p);
    }
  }

  /** The new mapping meets no region: every byte of a region is mapped already. */
  lemma FreshApart(bs: seq<Block>, at: nat, bytes: nat, k: nat)
    requires Laid(bs) && k < |bs| && bytes > 0
    requires forall a :: at <= a < at + bytes ==> !Owned(bs, a)
    ensures bs[k].region != at
    ensures bs[k].End() <= at || at + bytes <= bs[k].addr
  {
    assert BlockOk(bs[k]);
    if bs[k].region == at {
      RegionTiled(bs, k, at);
      assert Owned(bs, at);
    }
    if at < bs[k].End() && bs[k].addr < at + bytes {
      var a := if at < bs[k].addr then bs[k].addr else at;
      assert In(bs[k], a);
      assert Owned(bs, a);
    }
  }

  lemma AppendedLayout(bs: seq<Block>, r: seq<Block>, b: Block)
    requires Laid(bs)
    requires BlockOk(b) && b.addr == b.region && b.size == b.regionSize
    requires forall k :: 0 <= k < |bs| ==> Apart(bs[k], b) && bs[k].region != b.region
    requires IsAppended(bs, r, b)
    ensures Laid(r)
  {
    forall k | 0 <= k < |r|
      ensures ChainOk(r, k)
    {
      assert k < |bs| ==> ChainOk(bs, k);
    }
    forall k, j | 0 <= k < |r| && 0 <= j < |r| && k != j
      ensures Apart(r[k], r[j])
    {
      assert k < |bs| && j < |bs| ==> Apart(bs[k], bs[j]);
    }
  }

  lemma AppendedWellFormed(bs: seq<Block>, r: seq<Block>, b: Block, nextId: nat)
    requires WellFormed(bs, nextId)
    requires forall a :: b.addr <= a < b.End() ==> !Owned(bs, a)
    requires BlockOk(b) && b.addr == b.region && b.size == b.regionSize && b.Used() && b.id == nextId
    requires IsAppended(bs, r, b)
    ensures WellFormed(r, nextId + 1)
  {
    forall k | 0 <= k < |bs|
      ensures Apart(bs[k], b) && bs[k].region != b.region
    {
      FreshApart(bs, b.addr, b.size, k);
      assert BlockOk(bs[k]);
    }
    AppendedLayout(bs, r, b);
    forall k | 0 <= k < |r|
      ensures HasUsed(r, r[k].region)
    {
      if k < |bs| {
        assert HasUsed(bs, bs[k].region);
        var j :| 0 <= j < |bs| && bs[j].region == bs[k].region && bs[j].Used();
        assert r[j].region == r[k].region && r[j].Used();
      } else {
        assert r[k].Used();
      }
    }
  }

  lemma AppendedTable(bs: seq<Block>, r: seq<Block>, b: Block)
    requires Disjoint(bs) && Disjoint(r) && b.Used()
    requires IsAppended(bs, r, b)
    ensures Table(r) == Table(bs)[b.Payload() := b.usage - HEADER]
    ensures b.Payload() !in Table(bs)
  {
    TableExtended(bs, r, |bs|, Same(), Same());
  }

  function Same(): int -> int { k => k }

  // ----- free keeps the list well formed -----

  /** The blocks of a region are those at indices lo..hi. */
  ghost predicate IsSpan(bs: seq<Block>, region: nat, lo: nat, hi: nat) {
    && lo < hi <= |bs|
    && forall k :: 0 <= k < |bs| ==> (lo <= k < hi <==> bs[k].region == region)
  }

  lemma {:induction false} RegionLast(bs: seq<Block>, i: nat) returns (t: nat)
    requires Laid(bs) && i < |bs|
    ensures i <= t < |bs| && RunEnd(bs, t) && bs[t].region == bs[i].region
    ensures forall k :: i <= k <= t ==> bs[k].region == bs[i].region
    decreases |bs| - i
  {
    if RunEnd(bs, i) { t := i; } else { t := RegionLast(bs, i + 1); }
  }

  lemma RegionSpan(bs: seq<Block>, i: nat) returns (lo: nat, hi: nat)
    requires Laid(bs) && i < |bs|
    ensures IsSpan(bs, bs[i].region, lo, hi) && lo <= i < hi
    ensures bs[lo].addr == bs[i].region
  {
    lo := RegionFirst(bs, i);
    var t := RegionLast(bs, i);
    hi := t + 1;
    forall k | 0 <= k < |bs| && bs[k].region == bs[i].region
      ensures lo <= k < hi
    {
      if k < lo {
        SameRegionConsecutive(bs, k, lo);
      } else if k > t {
        SameRegionConsecutive(bs, t, k);
      }
    }
  }

  /** Element by element: r is bs without the blocks lo..hi. */
  ghost predicate IsCut(bs: seq<Block>, r: seq<Block>, lo: nat, hi: nat)
    requires lo <= hi <= |bs|
  {
    && |r| == |bs| - (hi - lo)
    && forall k :: 0 <= k < |r| ==> r[k] == bs[CutSource(lo, hi, k)]
  }

  function CutSource(lo: int, hi: int, k: int): int { if k < lo then k else k + (hi - lo) }

  lemma {:induction false} WithoutNothing(bs: seq<Block>, region: nat)
    requires forall k :: 0 <= k < |bs| ==> bs[k].region != region
    ensures Without(bs, region) == bs
  {
    if bs != [] {
      WithoutNothing(bs[1..], region);
    }
  }

  /** Dropping the blocks of a region is cutting out one stretch of the list. */
  lemma {:induction false} WithoutIsCut(bs: seq<Block>, region: nat, lo: nat, hi: nat)
    requires lo <= hi <= |bs|
    requires forall k :: 0 <= k < |bs| ==> (lo <= k < hi <==> bs[k].region == region)
    ensures Without(bs, region) == bs[..lo] + bs[hi..]
    ensures IsCut(bs, Without(bs, region), lo, hi)
    decreases |bs|
  {
    if hi == 0 {
      WithoutNothing(bs, region);
      assert bs[..lo] + bs[hi..] == bs;
    } else if lo > 0 {
      WithoutIsCut(bs[1..], region, lo - 1, hi - 1);
      assert bs[..lo] + bs[hi..] == [bs[0]] + (bs[1..][..lo - 1] + bs[1..][hi - 1..]);
    } else {
      WithoutIsCut(bs[1..], region, 0, hi - 1);
      assert bs[1..][..0] + bs[1..][hi - 1..] == bs[..lo] + bs[hi..];
    }
  }

  lemma CutChain(bs: seq<Block>, r: seq<Block>, region: nat, lo: nat, hi: nat, k: nat)
    requires Laid(bs)
    requires IsSpan(bs, region, lo, hi) && IsCut(bs, r, lo, hi) && k < |r|
    requires 0 < lo && hi < |bs| ==> bs[lo - 1].region != bs[hi].region
    ensures ChainOk(r, k)
  {
    assert ChainOk(bs, CutSource(lo, hi, k));
    if k + 1 == lo {
      assert bs[lo].region == region && RunEnd(bs, k);
    } else if k == lo {
      assert bs[hi - 1].region == region && RunStart(bs, hi);
    }
  }

  /** The regions on both sides of a cut differ: blocks of one region are consecutive. */
  lemma CutEdges(bs: seq<Block>, region: nat, lo: nat, hi: nat)
    requires Laid(bs) && IsSpan(bs, region, lo, hi)
    ensures 0 < lo && hi < |bs| ==> bs[lo - 1].region != bs[hi].region
  {
    if 0 < lo && hi < |bs| && bs[lo - 1].region == bs[hi].region {
      assert bs[lo].region == region;
      SameRegionConsecutive(bs, lo - 1, hi);
    }
  }

  lemma ReleasedLayout(bs: seq<Block>, nextId: nat, i: nat)
    requires WellFormed(bs, nextId) && i < |bs|
    ensures var m := Released(bs, i); Laid(m) && IdsOk(m, nextId)
    ensures forall k :: 0 <= k < |bs| && bs[k].region != bs[i].region ==> HasUsed(Released(bs, i), bs[k].region)
  {
    var m := Released(bs, i);
    forall k | 0 <= k < |m| ensures BlockOk(m[k]) {
      assert BlockOk(bs[k]);
    }
    SameLayout(bs, m);
    forall k | 0 <= k < |bs| && bs[k].region != bs[i].region
      ensures HasUsed(m, bs[k].region)
    {
      assert HasUsed(bs, bs[k].region);
      var j :| 0 <= j < |bs| && bs[j].region == bs[k].region && bs[j].Used();
      assert m[j].region == bs[k].region && m[j].Used();
    }
  }

  lemma CutLaid(m: seq<Block>, r: seq<Block>, region: nat, lo: nat, hi: nat)
    requires Laid(m) && IsSpan(m, region, lo, hi) && IsCut(m, r, lo, hi)
    ensures Laid(r)
  {
    CutEdges(m, region, lo, hi);
    forall k | 0 <= k < |r| ensures ChainOk(r, k) && BlockOk(r[k]) {
      CutChain(m, r, region, lo, hi, k);
      assert BlockOk(m[CutSource(lo, hi, k)]);
    }
    forall k, j | 0 <= k < |r| && 0 <= j < |r| && k != j ensures Apart(r[k], r[j]) {
      assert Apart(m[CutSource(lo, hi, k)], m[CutSource(lo, hi, j)]);
    }
  }

  lemma CutWellFormed(m: seq<Block>, nextId: nat, r: seq<Block>, region: nat, lo: nat, hi: nat)
    requires Laid(m) && IdsOk(m, nextId)
    requires forall k :: 0 <= k < |m| && m[k].region != region ==> HasUsed(m, m[k].region)
    requires IsSpan(m, region, lo, hi) && IsCut(m, r, lo, hi)
    ensures WellFormed(r, nextId)
  {
    CutLaid(m, r, region, lo, hi);
    forall k | 0 <= k < |r| ensures HasUsed(r, r[k].region) {
      CutUsed(m, r, region, lo, hi, k);
    }
  }

  lemma CutUsed(m: seq<Block>, r: seq<Block>, region: nat, lo: nat, hi: nat, k: nat)
    requires IsSpan(m, region, lo, hi) && IsCut(m, r, lo, hi) && k < |r|
    requires forall j :: 0 <= j < |m| && m[j].region != region ==> HasUsed(m, m[j].region)
    ensures HasUsed(r, r[k].region)
  {
    var k' := CutSource(lo, hi, k);
    assert m[k'].region != region;
    var j :| 0 <= j < |m| && m[j].region == m[k'].region && m[j].Used();
    var j' := if j < lo then j else j - (hi - lo);
    assert r[j'] == m[j];
  }

  lemma ReleasedEntry(bs: seq<Block>, i: nat, p: nat)
    requires Disjoint(bs) && i < |bs| && bs[i].Used() && Disjoint(Released(bs, i))
    ensures p in Table(Released(bs, i)) <==> p in Table(bs) && p != bs[i].Payload()
    ensures p in Table(Released(bs, i)) ==> Table(Released(bs, i))[p] == Table(bs)[p]
  {
    var m := Released(bs, i);
    if p in Table(m) {
      var k := TableEntry(m, p);
      TableHas(bs, k);
      assert Apart(bs[k], bs[i]);
    } else if p in Table(bs) {
      var k := TableEntry(bs, p);
      if k != i {
        TableHas(m, k);
      }
    }
  }

  lemma ReleasedTable(bs: seq<Block>, i: nat)
    requires Disjoint(bs) && i < |bs| && bs[i].Used() && Disjoint(Released(bs, i))
    ensures Table(Released(bs, i)) == Table(bs) - {bs[i].Payload()}
  {
    forall p: nat
      ensures p in Table(Released(bs, i)) <==> p in Table(bs) && p != bs[i].Payload()
      ensures p in Table(Released(bs, i)) ==> Table(Released(bs, i))[p] == Table(bs)[p]
    {
      ReleasedEntry(bs, i, p);
    }
  }

  lemma CutTable(m: seq<Block>, r: seq<Block>, region: nat, lo: nat, hi: nat)
    requires Disjoint(m) && Disjoint(r)
    requires IsSpan(m, region, lo, hi) && IsCut(m, r, lo, hi) && !HasUsed(m, region)
    ensures Table(r) == Table(m)
  {
    forall p | p in Table(r)
      ensures p in Table(m) && Table(m)[p] == Table(r)[p]
    {
      var k := TableEntry(r, p);
      TableHas(m, CutSource(lo, hi, k));
    }
    forall p | p in Table(m)
      ensures p in Table(r)
    {
      var k := TableEntry(m, p);
      var k' := if k < lo then k else k - (hi - lo);
      assert m[k].region != region;
      assert r[k'] == m[k];
      TableHas(r, k');
    }
  }

  lemma DroppedKeeps(m: seq<Block>, nextId: nat, region: nat, lo: nat, hi: nat)
    requires Laid(m) && IdsOk(m, nextId) && IsSpan(m, region, lo, hi) && !HasUsed(m, region)
    requires forall k :: 0 <= k < |m| && m[k].region != region ==> HasUsed(m, m[k].region)
    ensures WellFormed(Without(m, region), nextId)
    ensures Table(Without(m, region)) == Table(m)
  {
    WithoutIsCut(m, region, lo, hi);
    CutWellFormed(m, nextId, Without(m, region), region, lo, hi);
    CutTable(m, Without(m, region), region, lo, hi);
  }

  /**
   * free: the list stays well formed, every region it still has holds a block
   * in use, and exactly the freed pointer leaves the table.
   */
  lemma FreeKeeps(bs: seq<Block>, nextId: nat, i: nat)
    requires WellFormed(bs, nextId) && i < |bs| && bs[i].Used()
    ensures WellFormed(AfterFree(bs, i), nextId)
    ensures Table(AfterFree(bs, i)) == Table(bs) - {bs[i].Payload()}
  {
    var m, region := Released(bs, i), bs[i].region;
    ReleasedLayout(bs, nextId, i);
    ReleasedTable(bs, i);
    if HasUsed(m, region) {
      assert forall k :: 0 <= k < |m| ==> m[k].region == bs[k].region;
    } else {
      var lo, hi := RegionSpan(bs, i);
      assert forall k :: 0 <= k < |m| ==> m[k].region == bs[k].region;
      DroppedKeeps(m, nextId, region, lo, hi);
    }
  }

  // ----- malloc, all three ways -----

  /** The pick of a fit policy has room for need more bytes behind what it uses. */
  ghost predicate PickOk(bs: seq<Block>, pick: Option<nat>, need: nat) {
    pick.Some? ==> pick.value < |bs| && need <= bs[pick.value].Slack()
  }

  /**
   * malloc, for a block of need bytes: the fit policy's pick is used; without
   * one the kernel's pages are; without those it fails.
   */
  ghost predicate IsMallocOf(bs: seq<Block>, id: nat, policy: Policy, need: nat, kernel: Option<nat>, bytes: nat,
                             r: seq<Block>, p: nat)
  {
    var pick := Pick(policy, bs, need);
    && PickOk(bs, pick, need)
    && if pick.Some? then p == Pointer(bs, pick, 0) && IsAfterMalloc(bs, pick, need, id, 0, 0, r)
       else if kernel.Some? then p == kernel.value + HEADER && IsAfterMalloc(bs, None, need, id, kernel.value, bytes, r)
       else p == 0 && r == bs
  }

  lemma PickHasRoom(policy: Policy, bs: seq<Block>, need: nat)
    ensures PickOk(bs, Pick(policy, bs, need), need)
  {
  }

  /** The range the kernel offers: unmapped, and ending below 2^64. */
  ghost predicate Offered(bs: seq<Block>, at: nat, bytes: nat) {
    && at > 0 && at % 8 == 0 && bytes % 8 == 0 && at + bytes < WORD_LIMIT
    && forall a :: at <= a < at + bytes ==> !Owned(bs, a)
  }

  /** One pointer becomes live, with size bytes behind it; it was not live before. */
  ghost predicate TableGains(bs: seq<Block>, r: seq<Block>, p: nat, size: nat) {
    Disjoint(bs) && Disjoint(r) && p !in Table(bs) && Table(r) == Table(bs)[p := size]
  }

  lemma AppendKeeps(bs: seq<Block>, r: seq<Block>, nextId: nat, size: nat, at: nat, bytes: nat, p: nat)
    requires WellFormed(bs, nextId) && size % 8 == 0 && p == at + HEADER && size + HEADER <= bytes &&
             Offered(bs, at, bytes)
    requires IsAppended(bs, r, NewRegion(at, bytes, size + HEADER, nextId))
    ensures WellFormed(r, nextId + 1)
    ensures TableGains(bs, r, p, size)
  {
    var b := NewRegion(at, bytes, size + HEADER, nextId);
    AppendedWellFormed(bs, r, b, nextId);
    AppendedTable(bs, r, b);
  }

  lemma SplitKeeps(bs: seq<Block>, r: seq<Block>, nextId: nat, i: nat, size: nat, p: nat)
    requires WellFormed(bs, nextId) && size % 8 == 0
    requires i < |bs| && p == bs[i].addr + bs[i].usage + HEADER && bs[i].Used() && size + HEADER <= bs[i].Slack()
    requires IsSplit(bs, r, i, size + HEADER, nextId)
    ensures WellFormed(r, nextId + 1)
    ensures TableGains(bs, r, p, size)
  {
    SplitWellFormed(bs, r, nextId, i, size + HEADER);
    SplitTable(bs, r, i, size + HEADER, nextId);
  }

  lemma ReuseKeeps(bs: seq<Block>, nextId: nat, i: nat, size: nat, p: nat)
    requires WellFormed(bs, nextId) && size % 8 == 0
    requires i < |bs| && p == bs[i].Payload() && !bs[i].Used() && size + HEADER <= bs[i].Slack()
    ensures WellFormed(Reused(bs, i, size + HEADER, nextId), nextId + 1)
    ensures TableGains(bs, Reused(bs, i, size + HEADER, nextId), p, size)
  {
    ReusedWellFormed(bs, nextId, i, size + HEADER);
    ReusedTable(bs, i, size + HEADER, nextId);
  }

  /**
   * malloc: the list stays well formed and exactly one entry enters the table,
   * of the rounded size, under a pointer that was not in it.
   */
  lemma MallocKeeps(bs: seq<Block>, nextId: nat, pick: Option<nat>, size: nat, at: nat, bytes: nat,
                    r: seq<Block>, p: nat)
    requires WellFormed(bs, nextId) && size % 8 == 0
    requires PickOk(bs, pick, size + HEADER)
    requires pick.None? ==> size + HEADER <= bytes && Offered(bs, at, bytes)
    requires IsAfterMalloc(bs, pick, size + HEADER, nextId, at, bytes, r) && p == Pointer(bs, pick, at)
    ensures WellFormed(r, nextId + 1)
    ensures TableGains(bs, r, p, size)
  {
    if pick.None? {
      AppendKeeps(bs, r, nextId, size, at, bytes, p);
    } else if bs[pick.value].Used() {
      SplitKeeps(bs, r, nextId, pick.value, size, p);
    } else {
      ReuseKeeps(bs, nextId, pick.value, size, p);
    }
  }
}
