/**
 * Rounding of sizes: requests go up to a multiple of 8, and mappings are made
 * of whole pages. The source computes the number of pages with a division and
 * a remainder test; the model adds pages until the block fits, and the two are
 * proved to agree.
 */
module Sizes {
  function RoundUp8(size: nat): nat {
    if size % 8 != 0 then size + (8 - size % 8) else size
  }

  /** x is a whole number of pages. */
  ghost predicate PageAligned(x: nat, page: nat)
    requires page > 0
  {
    x == 0 || (page <= x && PageAligned(x - page, page))
  }

  /** The bytes mapped for a block of need bytes: the least number of whole pages that holds it. */
  ghost function RegionBytes(need: nat, page: nat): (r: nat)
    requires page > 0
    ensures PageAligned(r, page) && need <= r && (need > 0 ==> r < need + page)
  {
    if need == 0 then 0 else if need <= page then page else page + RegionBytes(need - page, page)
  }

  /** The source computes it with a division and a remainder test. */
  method PageBytes(need: nat, page: nat) returns (bytes: nat)
    requires page > 0
    ensures bytes == RegionBytes(need, page)
  {
    var pages := need / page;
    if need % page != 0 {
      pages := pages + 1;
    }
    bytes := pages * page;
    RegionBytesIs(need, page);
  }

  lemma {:induction false} RegionBytesIs(need: nat, page: nat)
    requires page > 0
    ensures RegionBytes(need, page) == (if need % page != 0 then need / page + 1 else need / page) * page
    decreases need
  {
    if need > page {
      RegionBytesIs(need - page, page);
      DivStep(need, page);
      MulStep(if need % page != 0 then need / page + 1 else need / page, page);
    } else if 0 < need {
      DivSmall(need, page);
    } else {
      assert 0 / page == 0 && 0 % page == 0;
    }
  }

  lemma MulStep(q: int, page: int)
    ensures q * page == (q - 1) * page + page
  {
  }

  lemma DivSmall(x: nat, page: nat)
    requires 0 < x <= page
    ensures x < page ==> x / page == 0 && x % page == x
    ensures x == page ==> x / page == 1 && x % page == 0
  {
  }

  lemma DivStep(x: nat, page: nat)
    requires 0 < page <= x
    ensures x / page == (x - page) / page + 1 && x % page == (x - page) % page
  {
    var q, r := (x - page) / page, (x - page) % page;
    assert x - page == q * page + r;
    assert (q + 1) * page == q * page + page;
    DivUnique(x, page, q + 1, r);
  }

  lemma DivUnique(x: nat, page: nat, q: int, r: int)
    requires page > 0 && x == q * page + r && 0 <= r < page
    ensures x / page == q && x % page == r
  {
    var q', r' := x / page, x % page;
    assert (q - q') * page == r' - r;
    Scaled(q - q', page);
  }

  lemma Scaled(d: int, page: int)
    requires page > 0
    ensures d >= 1 ==> d * page >= page
    ensures d <= -1 ==> d * page <= -page
  {
    if d >= 1 {
      assert d * page == page + (d - 1) * page;
    } else if d <= -1 {
      assert d * page == -page + (d + 1) * page;
    }
  }

  lemma {:induction false} AlignedTo8(x: nat, page: nat)
    requires page > 0 && page % 8 == 0 && PageAligned(x, page)
    ensures x % 8 == 0
  {
    if x > 0 {
      AlignedTo8(x - page, page);
    }
  }
}
