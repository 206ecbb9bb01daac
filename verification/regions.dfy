/**
 * The list read as a concatenation of regions, which is how print_memory
 * shows it.
 */
module Regions {
  import opened Basics
  import opened Memory
  import opened Blocks
  import opened BlockOps
  import opened HeapImage

  /** How many leading blocks share the first block's region. */
  function RunLength(bs: seq<Block>): (n: nat)
    requires bs != []
    ensures 1 <= n <= |bs|
    ensures forall k :: 0 <= k < n ==> bs[k].region == bs[0].region
    ensures n < |bs| ==> bs[n].region != bs[n - 1].region
  {
    if |bs| == 1 || bs[1].region != bs[0].region then 1 else 1 + RunLength(bs[1..])
  }

  datatype Region = Region(start: nat, size: nat, blocks: seq<Block>)

  function Groups(bs: seq<Block>): seq<Region>
    decreases |bs|
  {
    if bs == [] then []
    else
      var n := RunLength(bs);
      [Region(bs[0].region, bs[0].regionSize, bs[..n])] + Groups(bs[n..])
  }

  function Flatten(gs: seq<Region>): seq<Block> {
    if gs == [] then [] else gs[0].blocks + Flatten(gs[1..])
  }

  /** The region's blocks follow each other without a gap from its first byte to its last. */
  ghost predicate Tiles(g: Region) {
    var bs := g.blocks;
    && bs != [] && bs[0].addr == g.start && bs[|bs| - 1].End() == g.start + g.size
    && (forall k :: 0 <= k < |bs| ==> bs[k].region == g.start && bs[k].regionSize == g.size)
    && (forall k :: 0 < k < |bs| ==> bs[k].addr == bs[k - 1].End())
  }

  lemma SuffixLaid(bs: seq<Block>, n: nat)
    requires Laid(bs) && 0 < n <= |bs| && (n < |bs| ==> bs[n].region != bs[n - 1].region)
    ensures Laid(bs[n..])
  {
    var r := bs[n..];
    forall k | 0 <= k < |r| ensures BlockOk(r[k]) && ChainOk(r, k) {
      assert BlockOk(bs[n + k]) && ChainOk(bs, n + k);
    }
    forall i, j | 0 <= i < |r| && 0 <= j < |r| && i != j ensures Apart(r[i], r[j]) {
      ApartAt(bs, n + i, n + j);
    }
  }

  lemma {:induction false} FirstRunTiles(bs: seq<Block>)
    requires Laid(bs) && bs != []
    ensures Tiles(Region(bs[0].region, bs[0].regionSize, bs[..RunLength(bs)]))
  {
    var n := RunLength(bs);
    SameRegionConsecutive(bs, 0, n - 1);
    assert ChainOk(bs, 0) && ChainOk(bs, n - 1);
    forall k | 0 < k < n ensures bs[k].addr == bs[k - 1].End() {
      assert ChainOk(bs, k - 1);
    }
  }

  lemma GroupsUnfold(bs: seq<Block>)
    requires bs != []
    ensures var n := RunLength(bs);
            && Groups(bs) == [Region(bs[0].region, bs[0].regionSize, bs[..n])] + Groups(bs[n..])
            && Groups(bs)[1..] == Groups(bs[n..])
  {
  }

  ghost predicate AllTile(gs: seq<Region>) {
    forall k {:trigger Tiles(gs[k])} :: 0 <= k < |gs| ==> Tiles(gs[k])
  }

  lemma OneMoreRegion(g: Region, gs: seq<Region>, bs: seq<Block>, gs': seq<Region>, bs': seq<Block>)
    requires Tiles(g) && AllTile(gs) && Flatten(gs) == bs && gs' == [g] + gs && bs' == g.blocks + bs
    ensures Flatten(gs') == bs' && AllTile(gs')
  {
    assert gs'[1..] == gs;
  }

  /** The list is the concatenation of its regions, and each region is tiled by its blocks. */
  lemma {:induction false} ListIsRegions(bs: seq<Block>)
    requires Laid(bs)
    ensures Flatten(Groups(bs)) == bs && AllTile(Groups(bs))
    decreases |bs|
  {
    if bs != [] {
      var n := RunLength(bs);
      var g, rest := Region(bs[0].region, bs[0].regionSize, bs[..n]), bs[n..];
      SuffixLaid(bs, n);
      FirstRunTiles(bs);
      ListIsRegions(rest);
      GroupsUnfold(bs);
      OneMoreRegion(g, Groups(rest), rest, Groups(bs), bs);
    }
  }

  // ----- print_memory -----

  datatype Line =
    | HeadingLine
    | RegionLine(start: nat, end: nat, size: nat)
    | BlockLine(start: nat, end: nat, id: nat, size: nat, usage: nat, payload: nat)

  function LineOf(b: Block): Line {
    BlockLine(b.addr, b.End(), b.id, b.size, b.usage, if b.usage < HEADER then 0 else b.usage - HEADER)
  }

  function BlockLines(bs: seq<Block>): seq<Line> {
    if bs == [] then [] else [LineOf(bs[0])] + BlockLines(bs[1..])
  }

  /** Each region once, followed by its blocks. */
  function Report(gs: seq<Region>): seq<Line> {
    if gs == [] then []
    else
      [RegionLine(gs[0].start, gs[0].start + gs[0].size, gs[0].size)] + BlockLines(gs[0].blocks) + Report(gs[1..])
  }

  function RegionLines(b: Block, current: nat): seq<Line> {
    if b.region != current then [RegionLine(b.region, b.region + b.regionSize, b.regionSize)] else []
  }

  /** The region print_memory printed last, after k blocks; NULL before the first. */
  function LastRegion(bs: seq<Block>, k: nat): nat
    requires k <= |bs|
  {
    if k == 0 then 0 else bs[k - 1].region
  }

  /** The walk of print_memory: a region line whenever the region differs from the last one printed. */
  function Printed(bs: seq<Block>, k: nat): seq<Line>
    requires k <= |bs|
  {
    if k == 0 then []
    else Printed(bs, k - 1) + (RegionLines(bs[k - 1], LastRegion(bs, k - 1)) + [LineOf(bs[k - 1])])
  }

  /** The same walk, from the front. */
  function ReportFrom(bs: seq<Block>, current: nat): seq<Line> {
    if bs == [] then []
    else (RegionLines(bs[0], current) + [LineOf(bs[0])]) + ReportFrom(bs[1..], bs[0].region)
  }

  lemma {:induction false} PrintedIsReport(bs: seq<Block>, k: nat)
    requires k <= |bs|
    ensures Printed(bs, k) + ReportFrom(bs[k..], LastRegion(bs, k)) == ReportFrom(bs, 0)
  {
    if k == 0 {
      assert bs[0..] == bs;
    } else {
      PrintedIsReport(bs, k - 1);
      assert bs[k - 1..][1..] == bs[k..];
      Associate(Printed(bs, k - 1), RegionLines(bs[k - 1], LastRegion(bs, k - 1)) + [LineOf(bs[k - 1])],
                ReportFrom(bs[k..], LastRegion(bs, k)));
    }
  }

  lemma {:induction false} ReportRun(bs: seq<Block>, n: nat, region: nat)
    requires n <= |bs|
    requires forall k :: 0 <= k < n ==> bs[k].region == region
    ensures ReportFrom(bs, region) == BlockLines(bs[..n]) + ReportFrom(bs[n..], region)
  {
    if n == 0 {
      assert bs[0..] == bs;
    } else {
      ReportRun(bs[1..], n - 1, region);
      assert bs[..n][1..] == bs[1..][..n - 1] && bs[n..] == bs[1..][n - 1..];
      Associate([LineOf(bs[0])], BlockLines(bs[1..][..n - 1]), ReportFrom(bs[n..], region));
      assert BlockLines(bs[..n]) == [LineOf(bs[0])] + BlockLines(bs[1..][..n - 1]);
    }
  }

  lemma ReportFirst(bs: seq<Block>, current: nat)
    requires bs != [] && bs[0].region != current
    ensures ReportFrom(bs, current) == RegionLines(bs[0], current) + ReportFrom(bs, bs[0].region)
  {
    Associate(RegionLines(bs[0], current), [LineOf(bs[0])], ReportFrom(bs[1..], bs[0].region));
  }

  lemma {:induction false} ReportGroups(bs: seq<Block>, current: nat)
    requires bs != [] && bs[0].region != current
    ensures var n := RunLength(bs);
            Report(Groups(bs)) == RegionLines(bs[0], current) + BlockLines(bs[..n]) + Report(Groups(bs[n..]))
  {
    GroupsUnfold(bs);
  }

  lemma {:induction false} ReportIsGrouped(bs: seq<Block>, current: nat)
    requires bs != [] ==> bs[0].region != current
    ensures ReportFrom(bs, current) == Report(Groups(bs))
    decreases |bs|
  {
    if bs != [] {
      var n, region := RunLength(bs), bs[0].region;
      ReportIsGrouped(bs[n..], region);
      ReportFirst(bs, current);
      ReportRun(bs, n, region);
      ReportGroups(bs, current);
      Associate(RegionLines(bs[0], current), BlockLines(bs[..n]), ReportFrom(bs[n..], region));
    }
  }

  /** What print_memory prints is the list region by region. */
  lemma PrintedByRegion(bs: seq<Block>)
    requires bs != [] ==> bs[0].region != 0
    ensures Printed(bs, |bs|) == Report(Groups(bs))
  {
    PrintedIsReport(bs, |bs|);
    ReportIsGrouped(bs, 0);
    assert Printed(bs, |bs|) + [] == Printed(bs, |bs|);
  }
}
