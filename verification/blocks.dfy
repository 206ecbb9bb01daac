/**
 * What the linked list of headers means: a sequence of blocks in list order,
 * the invariant that ties them into mapped regions, and the effect of each
 * allocator operation on that sequence.
 */
module Blocks {
  import opened Memory
  import opened Sizes
  import opened Basics

  datatype Block = Block(addr: nat, size: nat, usage: nat, id: nat, region: nat, regionSize: nat) {
    function End(): nat { addr + size }
    function Payload(): nat { addr + HEADER }
    function Slack(): int { size - usage }
    predicate Used() { usage != 0 }
  }

  predicate BlockOk(b: Block) {
    && 0 < b.region <= b.addr && b.End() <= b.region + b.regionSize < WORD_LIMIT
    && b.addr % 8 == 0 && b.size % 8 == 0 && b.usage % 8 == 0
    && HEADER <= b.size && b.usage <= b.size
    && (b.Used() ==> HEADER <= b.usage)
  }

  predicate In(b: Block, a: nat) { b.addr <= a < b.End() }

  predicate Apart(b: Block, c: Block) { b.addr != c.addr && (b.End() <= c.addr || c.End() <= b.addr) }

  ghost predicate Disjoint(bs: seq<Block>) {
    forall i, j {:trigger Apart(bs[i], bs[j])} :: 0 <= i < |bs| && 0 <= j < |bs| && i != j ==> Apart(bs[i], bs[j])
  }

  predicate RunStart(bs: seq<Block>, i: nat)
    requires i < |bs|
  {
    i == 0 || bs[i - 1].region != bs[i].region
  }

  predicate RunEnd(bs: seq<Block>, i: nat)
    requires i < |bs|
  {
    i == |bs| - 1 || bs[i + 1].region != bs[i].region
  }

  /** Neighbours in the list: inside a region they touch, and a region's run of blocks spans it. */
  predicate ChainOk(bs: seq<Block>, i: nat)
    requires i < |bs|
  {
    && (RunStart(bs, i) ==> bs[i].addr == bs[i].region)
    && (RunEnd(bs, i) ==> bs[i].End() == bs[i].region + bs[i].regionSize)
    && (!RunEnd(bs, i) ==> bs[i + 1].addr == bs[i].End() && bs[i + 1].regionSize == bs[i].regionSize)
  }

  ghost predicate HasUsed(bs: seq<Block>, region: nat) {
    exists j :: 0 <= j < |bs| && bs[j].region == region && bs[j].Used()
  }

  ghost predicate BlocksOk(bs: seq<Block>) {
    forall i {:trigger BlockOk(bs[i])} :: 0 <= i < |bs| ==> BlockOk(bs[i])
  }

  /** Regions start on a page and are made of whole pages. */
  ghost predicate PagesOk(bs: seq<Block>, page: nat)
    requires page > 0
  {
    forall i :: 0 <= i < |bs| ==> PageAligned(bs[i].region, page) && PageAligned(bs[i].regionSize, page)
  }

  ghost predicate Chained(bs: seq<Block>) {
    forall i :: 0 <= i < |bs| ==> ChainOk(bs, i)
  }

  ghost predicate IdsOk(bs: seq<Block>, nextId: nat) {
    && (forall i {:trigger bs[i].id} :: 0 <= i < |bs| ==> bs[i].id < nextId)
    && (forall i, j {:trigger bs[i].id, bs[j].id} :: 0 <= i < |bs| && 0 <= j < |bs| && i != j ==> bs[i].id != bs[j].id)
  }

  /** Every region holds a block in use. */
  ghost predicate Populated(bs: seq<Block>) {
    forall i {:trigger HasUsed(bs, bs[i].region)} :: 0 <= i < |bs| ==> HasUsed(bs, bs[i].region)
  }

  /** Blocks are laid out as a concatenation of tiled regions. */
  ghost predicate Laid(bs: seq<Block>) {
    BlocksOk(bs) && Chained(bs) && Disjoint(bs)
  }

  ghost predicate WellFormed(bs: seq<Block>, nextId: nat) {
    Laid(bs) && IdsOk(bs, nextId) && Populated(bs)
  }

  ghost predicate Owned(bs: seq<Block>, a: nat) {
    exists i :: 0 <= i < |bs| && In(bs[i], a)
  }

  lemma ApartAt(bs: seq<Block>, i: nat, j: nat)
    requires Disjoint(bs) && i < |bs| && j < |bs| && i != j
    ensures Apart(bs[i], bs[j])
  {
  }

  // ----- Regions are tiled exactly -----

  /** The blocks of one region are consecutive in the list and agree on its size. */
  lemma {:induction false} SameRegionConsecutive(bs: seq<Block>, i: nat, j: nat)
    requires Laid(bs)
    requires i <= j < |bs| && bs[i].region == bs[j].region
    ensures forall k :: i <= k <= j ==> bs[k].region == bs[i].region && bs[k].regionSize == bs[i].regionSize
    decreases j - i
  {
    if i < j {
      if bs[i + 1].region == bs[i].region {
        assert ChainOk(bs, i);
        SameRegionConsecutive(bs, i + 1, j);
      } else {
        var s := RegionFirst(bs, i);
        var t := FirstAfter(bs, i, j);
        ApartAt(bs, s, t);
      }
    }
  }

  /** Walking back from any block reaches the block its region starts with. */
  lemma {:induction false} RegionFirst(bs: seq<Block>, i: nat) returns (s: nat)
    requires Laid(bs) && i < |bs|
    ensures s <= i && RunStart(bs, s) && bs[s].region == bs[i].region && bs[s].addr == bs[i].region
    ensures forall k :: s <= k <= i ==> bs[k].region == bs[i].region
    decreases i
  {
    assert ChainOk(bs, i);
    if RunStart(bs, i) { s := i; } else { s := RegionFirst(bs, i - 1); }
  }

  lemma {:induction false} FirstAfter(bs: seq<Block>, i: nat, j: nat) returns (t: nat)
    requires Laid(bs) && i < j < |bs|
    requires bs[i + 1].region != bs[j].region
    ensures i < t <= j && bs[t].region == bs[j].region && bs[t].addr == bs[j].region
    decreases j - i
  {
    assert ChainOk(bs, j);
    if RunStart(bs, j) { t := j; } else { t := FirstAfter(bs, i, j - 1); }
  }

  lemma {:induction false} TileLeft(bs: seq<Block>, i: nat, a: nat) returns (k: nat)
    requires Laid(bs) && i < |bs|
    requires bs[i].region <= a < bs[i].End()
    ensures k < |bs| && bs[k].region == bs[i].region && In(bs[k], a)
    decreases i
  {
    assert ChainOk(bs, i);
    if bs[i].addr <= a {
      k := i;
    } else {
      assert ChainOk(bs, i - 1);
      k := TileLeft(bs, i - 1, a);
    }
  }

  lemma {:induction false} TileRight(bs: seq<Block>, i: nat, a: nat) returns (k: nat)
    requires Laid(bs) && i < |bs|
    requires bs[i].addr <= a < bs[i].region + bs[i].regionSize
    ensures k < |bs| && bs[k].region == bs[i].region && In(bs[k], a)
    decreases |bs| - i
  {
    assert ChainOk(bs, i);
    if a < bs[i].End() { k := i; } else { k := TileRight(bs, i + 1, a); }
  }

  /**
   * Exact tiling: a byte lies in a region if and only if exactly one block of
   * that region holds it, and no block of another region does.
   */
  lemma RegionTiled(bs: seq<Block>, i: nat, a: nat)
    requires Laid(bs) && i < |bs|
    ensures bs[i].region <= a < bs[i].region + bs[i].regionSize
       <==> exists k :: 0 <= k < |bs| && bs[k].region == bs[i].region && In(bs[k], a)
    ensures forall j, k :: 0 <= j < |bs| && 0 <= k < |bs| && In(bs[j], a) && In(bs[k], a) ==> j == k
  {
    if bs[i].region <= a < bs[i].region + bs[i].regionSize {
      var k;
      if a < bs[i].End() {
        k := TileLeft(bs, i, a);
      } else {
        k := TileRight(bs, i, a);
      }
    }
    forall k | 0 <= k < |bs| && bs[k].region == bs[i].region && In(bs[k], a)
      ensures bs[i].region <= a < bs[i].region + bs[i].regionSize
    {
      SameRegionConsecutive(bs, if i < k then i else k, if i < k then k else i);
      assert BlockOk(bs[k]);
    }
    forall j, k | 0 <= j < |bs| && 0 <= k < |bs| && In(bs[j], a) && In(bs[k], a)
      ensures j == k
    {
      if j != k {
        ApartAt(bs, j, k);
      }
    }
  }

  // ----- The fit policies -----

  datatype Policy = FirstFit | BestFit | WorstFit | NoReuse

  /** ALLOCATOR_ALGORITHM; an unset variable means first fit, an unknown name disables reuse. */
  function PolicyOf(algo: Option<string>): Policy {
    match algo
    case None => FirstFit
    case Some(name) =>
      if name == "first_fit" then FirstFit
      else if name == "best_fit" then BestFit
      else if name == "worst_fit" then WorstFit
      else NoReuse
  }

  predicate Eligible(policy: Policy, b: Block, need: nat) {
    match policy
    case FirstFit => b.Slack() > need
    case BestFit => need <= b.Slack() <= INT_MAX
    case WorstFit => need <= b.Slack()
    case NoReuse => false
  }

  /** Block b, met later in the list, takes the place of the candidate c. */
  predicate Displaces(policy: Policy, b: Block, c: Block) {
    match policy
    case FirstFit => false
    case BestFit => b.Slack() <= c.Slack()
    case WorstFit => b.Slack() >= c.Slack()
    case NoReuse => false
  }

  /**
   * The choice the policy makes among all blocks: nothing exactly when no
   * block is eligible; otherwise an eligible block that no later eligible
   * block displaces and that displaces (or, for first fit, precedes) every
   * earlier one.
   */
  ghost predicate Chosen(policy: Policy, bs: seq<Block>, need: nat, r: Option<nat>) {
    match r
    case None => forall j :: 0 <= j < |bs| ==> !Eligible(policy, bs[j], need)
    case Some(i) =>
      && i < |bs| && Eligible(policy, bs[i], need)
      && forall j :: 0 <= j < |bs| && j != i && Eligible(policy, bs[j], need) ==>
        if policy.FirstFit? then i < j
        else if i < j then !Displaces(policy, bs[j], bs[i])
        else Displaces(policy, bs[i], bs[j])
  }

  lemma ChosenUnique(policy: Policy, bs: seq<Block>, need: nat, r: Option<nat>, r': Option<nat>)
    requires Chosen(policy, bs, need, r) && Chosen(policy, bs, need, r')
    ensures r == r'
  {
  }

  function Pick(policy: Policy, bs: seq<Block>, need: nat): (r: Option<nat>)
    ensures Chosen(policy, bs, need, r)
  {
    if bs == [] then None
    else
      var last := |bs| - 1;
      var r := Pick(policy, bs[..last], need);
      if Eligible(policy, bs[last], need) && (r.None? || Displaces(policy, bs[last], bs[r.value])) then Some(last)
      else r
  }

  /** The address of the picked block, NULL without one. */
  ghost function AddrOf(bs: seq<Block>, pick: Option<nat>): nat
    requires pick.Some? ==> pick.value < |bs|
  {
    match pick case None => 0 case Some(i) => bs[i].addr
  }

  /**
   * The running values of the loops of best and worst fit after k blocks: the
   * pick so far, its address, and its room, which is start without a pick.
   */
  ghost predicate IsCandidate(policy: Policy, bs: seq<Block>, k: nat, need: nat, start: int,
                              pick: Option<nat>, b: nat, room: int)
    requires k <= |bs|
  {
    && pick == Pick(policy, bs[..k], need) && b == AddrOf(bs, pick)
    && room == match pick { case None => start case Some(i) => bs[i].Slack() }
  }

  lemma CandidateNext(policy: Policy, bs: seq<Block>, k: nat, need: nat, start: int, pick: Option<nat>, b: nat,
                      room: int)
    requires k < |bs| && need > 0 && IsCandidate(policy, bs, k, need, start, pick, b, room)
    requires (policy.BestFit? && start == INT_MAX) || (policy.WorstFit? && start == 0)
    ensures var slack := bs[k].Slack();
            if slack >= need && (if policy.BestFit? then slack <= room else slack >= room) then
              IsCandidate(policy, bs, k + 1, need, start, Some(k), bs[k].addr, slack)
            else IsCandidate(policy, bs, k + 1, need, start, pick, b, room)
  {
    PickStep(policy, bs, need, k);
  }

  lemma PickStep(policy: Policy, bs: seq<Block>, need: nat, k: nat)
    requires k < |bs|
    ensures var r := Pick(policy, bs[..k], need);
            Pick(policy, bs[..k + 1], need) ==
            if Eligible(policy, bs[k], need) && (r.None? || Displaces(policy, bs[k], bs[r.value])) then Some(k) else r
  {
    assert bs[..k + 1][..k] == bs[..k];
  }
}
