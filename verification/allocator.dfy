/**
 * Project3/allocator.c: malloc, free, calloc and print_memory over one linked
 * list of block headers kept in the managed memory itself.
 */
module Allocators {
  import opened Memory
  import opened Sizes
  import opened Basics
  import opened Blocks
  import opened BlockOps
  import opened HeapImage
  import opened Regions

  class Allocator {
    const page: nat           // getpagesize()
    var head: nat             // g_head
    var allocations: nat      // g_allocations
    var mem: Bytes            // the mapped address space
    ghost var blocks: seq<Block>

    ghost predicate Valid()
      reads this
    {
      HeapOk(mem, head, blocks, allocations, page)
    }

    ghost function Abs(): Heap
      reads this
    {
      Heap(mem, head, blocks, allocations)
    }

    constructor (pageSize: nat)
      requires pageSize > 0 && pageSize % 8 == 0
      ensures Valid() && Abs() == START && page == pageSize
    {
      page := pageSize;
      head, allocations, mem, blocks := 0, 0, map[], [];
    }

    lemma ListStart()
      requires Valid()
      ensures head == 0 <==> blocks == []
    {
      if blocks != [] {
        assert BlockOk(blocks[0]);
      }
    }

    /** The loop of first fit. */
    method FirstFitBlock(size: nat) returns (b: nat, ghost pick: Option<nat>)
      requires Valid()
      ensures b == AddrOf(blocks, Pick(FirstFit, blocks, size + HEADER))
      ensures pick == Pick(FirstFit, blocks, size + HEADER)
    {
      var current := head;
      ghost var k := 0;
      ListStart();
      while current != 0
        invariant 0 <= k <= |blocks| && current == AddrAt(blocks, k) && (current == 0 <==> k == |blocks|)
        invariant forall j :: 0 <= j < k ==> !Eligible(FirstFit, blocks[j], size + HEADER)
        decreases |blocks| - k
      {
        ReadBlock(mem, head, blocks, k);
        if SizeOf(mem, current) - UsageOf(mem, current) > size + HEADER {
          ChosenUnique(FirstFit, blocks, size + HEADER, Some(k), Pick(FirstFit, blocks, size + HEADER));
          return current, Some(k);
        }
        current, k := NextOf(mem, current), k + 1;
      }
      ChosenUnique(FirstFit, blocks, size + HEADER, None, Pick(FirstFit, blocks, size + HEADER));
      return 0, None;
    }

    /** The loop of best fit: slack above INT_MAX never qualifies, the last of equal blocks wins. */
    method BestFitBlock(size: nat) returns (b: nat, ghost pick: Option<nat>)
      requires Valid()
      ensures b == AddrOf(blocks, Pick(BestFit, blocks, size + HEADER))
      ensures pick == Pick(BestFit, blocks, size + HEADER)
    {
      var current, usage := head, INT_MAX;
      ghost var k := 0;
      b, pick := 0, None;
      ListStart();
      while current != 0
        invariant 0 <= k <= |blocks| && current == AddrAt(blocks, k) && (current == 0 <==> k == |blocks|)
        invariant IsCandidate(BestFit, blocks, k, size + HEADER, INT_MAX, pick, b, usage)
        decreases |blocks| - k
      {
        ReadBlock(mem, head, blocks, k);
        CandidateNext(BestFit, blocks, k, size + HEADER, INT_MAX, pick, b, usage);
        var slack := SizeOf(mem, current) - UsageOf(mem, current);
        if slack >= size + HEADER {
          if slack <= usage {
            usage, b, pick := slack, current, Some(k);
          }
        }
        current, k := NextOf(mem, current), k + 1;
      }
      assert blocks[..k] == blocks;
    }

    /** The loop of worst fit: the last of equal blocks wins. */
    method WorstFitBlock(size: nat) returns (b: nat, ghost pick: Option<nat>)
      requires Valid()
      ensures b == AddrOf(blocks, Pick(WorstFit, blocks, size + HEADER))
      ensures pick == Pick(WorstFit, blocks, size + HEADER)
    {
      var current, usage := head, 0;
      ghost var k := 0;
      b, pick := 0, None;
      ListStart();
      while current != 0
        invariant 0 <= k <= |blocks| && current == AddrAt(blocks, k) && (current == 0 <==> k == |blocks|)
        invariant IsCandidate(WorstFit, blocks, k, size + HEADER, 0, pick, b, usage)
        decreases |blocks| - k
      {
        ReadBlock(mem, head, blocks, k);
        CandidateNext(WorstFit, blocks, k, size + HEADER, 0, pick, b, usage);
        var slack := SizeOf(mem, current) - UsageOf(mem, current);
        assert slack == blocks[k].Slack();
        if slack >= size + HEADER {
          if slack >= usage {
            usage, b, pick := slack, current, Some(k);
          }
        }
        current, k := NextOf(mem, current), k + 1;
      }
      assert blocks[..k] == blocks;
    }

    /**
     * The block the fit policy chooses among the whole list, or NULL exactly
     * when none qualifies.
     */
    method Reuse(algo: Option<string>, size: nat) returns (b: nat, ghost pick: Option<nat>)
      requires Valid()
      ensures b == AddrOf(blocks, Pick(PolicyOf(algo), blocks, size + HEADER))
      ensures pick == Pick(PolicyOf(algo), blocks, size + HEADER)
      ensures b == 0 <==> pick.None?
    {
      match PolicyOf(algo) {
        case FirstFit => b, pick := FirstFitBlock(size);
        case BestFit => b, pick := BestFitBlock(size);
        case WorstFit => b, pick := WorstFitBlock(size);
        case NoReuse =>
          b, pick := 0, None;
          ChosenUnique(NoReuse, blocks, size + HEADER, None, Pick(NoReuse, blocks, size + HEADER));
      }
      assert pick.Some? ==> BlockOk(blocks[pick.value]);
    }

    // ----- malloc -----

    /** The size of the region mapped for a block of need bytes. */
    ghost function Room(need: nat): nat
      requires page > 0
    {
      RegionBytes(need, page)
    }

    /** Pages the kernel may hand out for a block of need bytes: aligned, unmapped, ending below 2^64. */
    ghost predicate Offers(at: nat, need: nat)
      reads this
      requires page > 0
    {
      && at > 0 && PageAligned(at, page) && at + Room(need) < WORD_LIMIT
      && forall a: nat :: at <= a < at + Room(need) ==> a !in mem
    }

    lemma OfferIsFree(at: nat, need: nat)
      requires Valid() && Offers(at, need)
      ensures Offered(blocks, at, Room(need)) && PageAligned(Room(need), page) && need <= Room(need)
    {
      AlignedTo8(at, page);
      AlignedTo8(Room(need), page);
      forall a | at <= a < at + Room(need) ensures !Owned(blocks, a) {
      }
    }

    /** malloc, when the policy found a free block: it is handed out whole. */
    method TakeWhole(b: nat, size: nat, scribble: bool, ghost i: nat) returns (p: nat)
      requires Valid() && allocations < WORD_LIMIT && size % 8 == 0
      requires i < |blocks| && b == blocks[i].addr && !blocks[i].Used() && size + HEADER <= blocks[i].Slack()
      modifies this
      ensures Valid() && p == b + HEADER && HandedOut(old(Abs()), size, scribble, p, Abs())
      ensures blocks == Reused(old(blocks), i, size + HEADER, old(allocations))
    {
      ghost var m0 := mem;
      BlockMapped(mem, head, blocks, i);
      ReadBlock(mem, head, blocks, i);
      mem := WriteField(mem, b, 0, allocations);
      mem := WriteField(mem, b, 2, size + HEADER);
      mem := Scribble(mem, b, size, scribble, SCRIBBLE);
      TookWhole(m0, mem, head, blocks, allocations, page, i, size);
      blocks := Reused(blocks, i, size + HEADER, allocations);
      allocations := allocations + 1;
      p := b + HEADER;
    }

    /** The stores of a split: a header for the tail, then size and next of the block it is cut from. */
    method StoreSplit(b: nat, size: nat, scribble: bool, ghost i: nat) returns (block: nat)
      requires Valid() && allocations < WORD_LIMIT
      requires i < |blocks| && b == blocks[i].addr && blocks[i].Used() && size + HEADER <= blocks[i].Slack()
      modifies this`mem
      ensures block == b + blocks[i].usage && SplitStored(old(mem), mem, blocks, i, size + HEADER, allocations)
      ensures scribble ==> Filled(mem, block + HEADER, size, SCRIBBLE)
    {
      BlockMapped(mem, head, blocks, i);
      ReadBlock(mem, head, blocks, i);
      block := b + UsageOf(mem, b);
      var tail := Header(allocations, SizeOf(mem, b) - UsageOf(mem, b), size + HEADER,
                         RegionStartOf(mem, b), RegionSizeOf(mem, b), NextOf(mem, b));
      mem := SplitStores(mem, b, UsageOf(mem, b), tail);
      ghost var m1 := mem;
      mem := Scribble(mem, block, size, scribble, SCRIBBLE);
      SplitStoresDone(old(mem), m1, mem, head, blocks, i, size, allocations);
    }

    /** malloc, when the policy found a block in use: the unused tail becomes a block of its own. */
    method SplitTail(b: nat, size: nat, scribble: bool, ghost i: nat) returns (p: nat)
      requires Valid() && allocations < WORD_LIMIT && size % 8 == 0
      requires i < |blocks| && b == blocks[i].addr && blocks[i].Used() && size + HEADER <= blocks[i].Slack()
      modifies this
      ensures Valid() && p == b + old(blocks)[i].usage + HEADER && HandedOut(old(Abs()), size, scribble, p, Abs())
      ensures IsSplit(old(blocks), blocks, i, size + HEADER, old(allocations))
    {
      var block := StoreSplit(b, size, scribble, i);
      p := block + HEADER;
      blocks := SplitList(blocks, i, size + HEADER, allocations);
      allocations := allocations + 1;
      SplitDone(old(Abs()), Abs(), page, i, size, scribble, p);
    }

    /** The walk to the last block. */
    method LastBlock() returns (current: nat)
      requires Linked(mem, head, blocks) && Laid(blocks) && blocks != []
      ensures current == blocks[|blocks| - 1].addr
    {
      current := head;
      ghost var k := 0;
      ReadBlock(mem, head, blocks, 0);
      while NextOf(mem, current) != 0
        invariant 0 <= k < |blocks| && current == blocks[k].addr
        invariant Mapped(mem, current, HEADER) && NextOf(mem, current) == AddrAt(blocks, k + 1)
        invariant NextOf(mem, current) == 0 <==> k + 1 == |blocks|
        decreases |blocks| - k
      {
        current, k := NextOf(mem, current), k + 1;
        ReadBlock(mem, head, blocks, k);
      }
    }

    /** The last block's next becomes the new block. */
    method LinkLast(block: nat, ghost b: Block)
      requires Linked(mem, head, blocks) && Laid(blocks) && blocks != [] && block == b.addr < WORD_LIMIT
      modifies this`mem
      ensures var last := blocks[|blocks| - 1];
              && ChangedOnlyIn(old(mem), mem, last.addr, HEADER)
              && Shows(mem, last.addr, HeaderOf(last, block))
    {
      var current := LastBlock();
      ReadBlock(mem, head, blocks, |blocks| - 1);
      mem := WriteField(mem, current, 5, block);
    }

    /** A new mapping, and the header of its one block. */
    method StoreMapping(at: nat, size: nat, bytes: nat) returns (ghost b: Block)
      requires allocations < WORD_LIMIT && size + HEADER <= bytes && at + bytes < WORD_LIMIT
      modifies this`mem
      ensures b == NewRegion(at, bytes, size + HEADER, allocations) && MappedIn(old(mem), mem, b)
    {
      b := NewRegion(at, bytes, size + HEADER, allocations);
      mem := MapZero(mem, at, bytes);
      mem := WriteHeader(mem, at, Header(allocations, bytes, size + HEADER, at, bytes, 0));
    }

    /** The new block becomes the head of the list, or the next of its last block. */
    method LinkRegion(ghost m0: Bytes, at: nat, ghost b: Block)
      requires InMemory(m0, head, blocks) && Laid(blocks) && (head == 0 <==> blocks == [])
      requires MappedIn(m0, mem, b) && at == b.addr < WORD_LIMIT
      requires forall a :: In(b, a) ==> !Owned(blocks, a)
      modifies this`mem, this`head
      ensures NewLast(old(mem), mem, blocks, b) && head == if blocks == [] then at else old(head)
    {
      StillLinked(m0, mem, head, blocks, b);
      if head == 0 {
        head := at;
      } else {
        LinkLast(at, b);
      }
    }

    /** The stores of malloc for a new mapping: its header, and the link from the end of the list. */
    method StoreRegion(at: nat, size: nat, bytes: nat, scribble: bool) returns (ghost b: Block)
      requires Valid() && allocations < WORD_LIMIT && size + HEADER <= bytes && Offered(blocks, at, bytes)
      modifies this`mem, this`head
      ensures b == NewRegion(at, bytes, size + HEADER, allocations)
      ensures GrewBy(old(mem), mem, blocks, b)
      ensures head == if blocks == [] then at else old(head)
      ensures scribble ==> Filled(mem, at + HEADER, size, SCRIBBLE)
    {
      ListStart();
      ghost var m0 := mem;
      b := StoreMapping(at, size, bytes);
      ghost var m1 := mem;
      LinkRegion(m0, at, b);
      ghost var m2 := mem;
      mem := Scribble(mem, at, size, scribble, SCRIBBLE);
      GrewInSteps(m0, m1, m2, mem, old(head), blocks, b);
    }

    /** malloc, when nothing could be reused: a new region holds the block. */
    method MapRegion(at: nat, size: nat, bytes: nat, scribble: bool) returns (p: nat)
      requires Valid() && allocations < WORD_LIMIT && size % 8 == 0
      requires size + HEADER <= bytes && Offered(blocks, at, bytes) && PageAligned(at, page) && PageAligned(bytes, page)
      modifies this
      ensures Valid() && p == at + HEADER && HandedOut(old(Abs()), size, scribble, p, Abs())
      ensures IsAppended(old(blocks), blocks, NewRegion(at, bytes, size + HEADER, old(allocations)))
    {
      ghost var b := StoreRegion(at, size, bytes, scribble);
      p := at + HEADER;
      blocks := blocks + [b];
      allocations := allocations + 1;
      AppendDone(old(Abs()), Abs(), page, b, size, scribble, p);
    }

    /** malloc, when the policy found block i. */
    method HandOut(b: nat, size: nat, scribble: bool, ghost i: nat) returns (p: nat)
      requires Valid() && allocations < WORD_LIMIT && size % 8 == 0
      requires i < |blocks| && b == blocks[i].addr && PickOk(blocks, Some(i), size + HEADER)
      modifies this
      ensures Valid() && p == Pointer(old(blocks), Some(i), 0) && HandedOut(old(Abs()), size, scribble, p, Abs())
      ensures PickOk(old(blocks), Some(i), size + HEADER)
      ensures IsAfterMalloc(old(blocks), Some(i), size + HEADER, old(allocations), 0, 0, blocks)
    {
      ReadBlock(mem, head, blocks, i);
      if UsageOf(mem, b) == 0 {
        p := TakeWhole(b, size, scribble, i);
      } else {
        p := SplitTail(b, size, scribble, i);
      }
    }

    /** malloc, when nothing could be reused: ask the kernel for pages, which may fail. */
    method MapOrFail(size: nat, scribble: bool, kernel: Option<nat>, ghost policy: Policy) returns (p: nat)
      requires Valid() && allocations < WORD_LIMIT && size % 8 == 0
      requires kernel.Some? ==> Offers(kernel.value, size + HEADER)
      requires Pick(policy, blocks, size + HEADER) == None
      modifies this
      ensures Valid() && Mallocs(old(Abs()), policy, size, scribble, kernel, Room(size + HEADER), p, Abs())
    {
      if kernel.None? {
        MallocFails(Abs(), policy, size, scribble, Room(size + HEADER));
        p := 0;
      } else {
        OfferIsFree(kernel.value, size + HEADER);
        var bytes := PageBytes(size + HEADER, page);
        p := MapRegion(kernel.value, size, bytes, scribble);
        MallocMaps(old(Abs()), policy, size, scribble, kernel.value, bytes, p, Abs());
      }
    }

    /**
     * malloc. The kernel's answer to mmap is a parameter, consulted only when
     * no block can be reused; it may be a failure. Otherwise exactly one
     * pointer becomes live, it was not live before, it offers the request
     * rounded up to 8, and no byte of another live allocation changes.
     */
    method Malloc(algo: Option<string>, scribble: bool, request: nat, kernel: Option<nat>) returns (p: nat)
      requires Valid() && allocations < WORD_LIMIT && request + 8 + HEADER + page < WORD_LIMIT
      requires kernel.Some? ==> Offers(kernel.value, RoundUp8(request) + HEADER)
      modifies this
      ensures Valid()
      ensures Mallocs(old(Abs()), PolicyOf(algo), RoundUp8(request), scribble, kernel,
              Room(RoundUp8(request) + HEADER), p, Abs())
    {
      p := MallocRounded(algo, scribble, RoundUp8(request), kernel);
    }

    method MallocRounded(algo: Option<string>, scribble: bool, size: nat, kernel: Option<nat>) returns (p: nat)
      requires Valid() && allocations < WORD_LIMIT && size % 8 == 0
      requires kernel.Some? ==> Offers(kernel.value, size + HEADER)
      modifies this
      ensures Valid()
      ensures Mallocs(old(Abs()), PolicyOf(algo), size, scribble, kernel, Room(size + HEADER), p, Abs())
    {
      var b; ghost var pick;
      b, pick := Reuse(algo, size);
      if b != 0 {
        PickHasRoom(PolicyOf(algo), blocks, size + HEADER);
        p := HandOut(b, size, scribble, pick.value);
        MallocReuses(old(Abs()), PolicyOf(algo), size, scribble, kernel, Room(size + HEADER), p, Abs(), pick.value);
      } else {
        p := MapOrFail(size, scribble, kernel, PolicyOf(algo));
      }
    }

    // ----- free -----

    /** The walk over the freed block's region: does it hold a block in use, and what follows it? */
    method ScanRegion(blk: nat, ghost i: nat, ghost lo: nat, ghost hi: nat) returns (allFree: bool, current: nat)
      requires InMemory(mem, head, blocks) && Laid(blocks)
      requires i < |blocks| && blk == blocks[i].addr && IsSpan(blocks, blocks[i].region, lo, hi)
      requires blocks[lo].addr == blocks[i].region
      ensures allFree <==> !HasUsed(blocks, blocks[i].region)
      ensures allFree ==> current == AddrAt(blocks, hi)
    {
      ReadBlock(mem, head, blocks, i);
      allFree, current := true, RegionStartOf(mem, blk);
      ghost var k := lo;
      ReadBlock(mem, head, blocks, lo);
      while current != 0 && RegionStartOf(mem, current) == RegionStartOf(mem, blk)
        invariant lo <= k <= hi && current == AddrAt(blocks, k) && allFree
        invariant current == 0 <==> k == |blocks|
        invariant current != 0 ==> Shows(mem, current, HeaderOf(blocks[k], AddrAt(blocks, k + 1)))
        invariant forall j :: lo <= j < k ==> !blocks[j].Used()
        decreases hi - k
      {
        if UsageOf(mem, current) != 0 {
          allFree := false;
          assert blocks[k].Used() && blocks[k].region == blocks[i].region;
          break;
        }
        ReadBlock(mem, head, blocks, k);
        current, k := NextOf(mem, current), k + 1;
        if k < |blocks| {
          ReadBlock(mem, head, blocks, k);
        }
      }
    }

    /** The region's blocks leave the list: head or the block before them now leads past them. */
    method Unlink(start: nat, current: nat, ghost lo: nat, ghost hi: nat)
      requires InMemory(mem, head, blocks) && Laid(blocks) && lo < hi <= |blocks|
      requires start == blocks[lo].addr && current == AddrAt(blocks, hi)
      modifies this`mem, this`head
      ensures Relinked(old(mem), mem, old(head), head, blocks, lo, hi)
    {
      ReadBlock(mem, head, blocks, 0);
      if hi < |blocks| {
        ReadBlock(mem, head, blocks, hi);
      }
      if lo > 0 {
        ApartAt(blocks, 0, lo);
      }
      if head == start {
        head := current;
      } else {
        var tmp := head;
        ghost var k := 0;
        while tmp != 0 && NextOf(mem, tmp) != start
          invariant mem == old(mem) && head == old(head)
          invariant 0 <= k < lo && tmp == blocks[k].addr != 0
          invariant Shows(mem, tmp, HeaderOf(blocks[k], AddrAt(blocks, k + 1)))
          decreases lo - k
        {
          tmp, k := NextOf(mem, tmp), k + 1;
          ReadBlock(mem, head, blocks, k);
        }
        if k + 1 != lo {
          ApartAt(blocks, k + 1, lo);
        }
        mem := WriteField(mem, tmp, 5, current);
      }
    }

    /** The region of blk holds no block in use: unlink it and give its pages back. */
    method DropRegion(blk: nat, current: nat, ghost i: nat, ghost lo: nat, ghost hi: nat)
      requires InMemory(mem, head, blocks) && Laid(blocks)
      requires i < |blocks| && blk == blocks[i].addr && IsSpan(blocks, blocks[i].region, lo, hi)
      requires blocks[lo].addr == blocks[i].region && current == AddrAt(blocks, hi)
      requires !HasUsed(blocks, blocks[i].region)
      modifies this`mem, this`head, this`blocks
      ensures blocks == Without(old(blocks), old(blocks)[i].region)
      ensures InMemory(mem, head, blocks)
      ensures Kept(old(mem), mem, Table(old(blocks)))
    {
      ReadBlock(mem, head, blocks, i);
      SameRegionConsecutive(blocks, lo, i);
      var start, bytes := RegionStartOf(mem, blk), RegionSizeOf(mem, blk);
      Unlink(start, current, lo, hi);
      ghost var m1 := mem;
      mem := Unmap(mem, start, bytes);
      DropImage(old(mem), m1, mem, old(head), head, blocks, lo, hi);
      blocks := Without(blocks, start);
    }

    /** usage = 0 in the freed block's header. */
    method Release(blk: nat, ghost i: nat)
      requires Valid() && i < |blocks| && blk == blocks[i].addr
      modifies this`mem, this`blocks
      ensures blocks == Released(old(blocks), i) && InMemory(mem, head, blocks) && Laid(blocks)
      ensures Kept(old(mem), mem, Table(old(blocks)))
    {
      ReadBlock(mem, head, blocks, i);
      mem := WriteField(mem, blk, 2, 0);
      ReleaseImage(old(mem), mem, head, blocks, i);
      ReleasedLayout(blocks, allocations, i);
      blocks := Released(blocks, i);
    }

    /** What free does with the list, given the index of the freed block. */
    method FreeBlock(blk: nat, ghost i: nat)
      requires Valid() && i < |blocks| && blk == blocks[i].addr && blocks[i].Used()
      modifies this`mem, this`head, this`blocks
      ensures InMemory(mem, head, blocks)
      ensures blocks == AfterFree(old(blocks), i)
      ensures Disjoint(blocks) && Kept(old(mem), mem, Table(old(blocks)) - {old(blocks)[i].Payload()})
    {
      ghost var bs := blocks;
      ghost var lo, hi := RegionSpan(blocks, i);
      FreeKeeps(bs, allocations, i);
      Release(blk, i);
      ReleasedTable(bs, i);
      ghost var m1 := mem;
      var allFree, current := ScanRegion(blk, i, lo, hi);
      if allFree {
        DropRegion(blk, current, i, lo, hi);
        KeptTwice(old(mem), m1, mem, Table(bs), Table(bs) - {bs[i].Payload()});
      }
    }

    /**
     * free. NULL is ignored. Otherwise exactly the freed pointer stops being
     * live; if it was the last one of its region, the region's blocks leave
     * the list and its pages are unmapped. No byte of another live allocation
     * changes.
     */
    method Free(p: nat)
      requires Valid() && (p == 0 || p in Table(blocks))
      modifies this`mem, this`head, this`blocks
      ensures Valid() && Frees(old(Abs()), p, Abs())
      ensures Table(blocks) == Table(old(blocks)) - {p}
    {
      if p == 0 {
        NullNotLive(blocks);
        return;
      }
      ghost var i := BlockOf(blocks, p);
      ghost var lo, hi := RegionSpan(blocks, i);
      FreePages(blocks, i, page, lo, hi);
      FreeKeeps(blocks, allocations, i);
      FreeBlock(p - HEADER, i);
    }

    /** The program stores a byte through a live pointer. */
    method WriteByte(p: nat, offset: nat, v: Byte)
      requires Valid() && p in Table(blocks) && offset < Table(blocks)[p]
      modifies this`mem
      ensures Valid() && Abs() == old(Abs()).(mem := old(mem)[p + offset := v])
      ensures Kept(old(mem), mem, Table(blocks) - {p})
    {
      ghost var i := BlockOf(blocks, p);
      TableHas(blocks, i);
      BlockMapped(mem, head, blocks, i);
      ReadBlock(mem, head, blocks, i);
      mem := mem[p + offset := v];
      assert mem.Keys == old(mem).Keys;
      PayloadWritten(old(mem), mem, head, blocks, i);
    }

    /** The bytes [p, p + n) of a live allocation are cleared. */
    method Clear(p: nat, n: nat)
      requires Valid() && p in Table(blocks) && n <= Table(blocks)[p]
      modifies this`mem
      ensures Valid() && Filled(mem, p, n, 0) && Abs() == old(Abs()).(mem := mem)
      ensures Kept(old(mem), mem, Table(blocks) - {p})
    {
      ghost var i := BlockOf(blocks, p);
      TableHas(blocks, i);
      BlockMapped(mem, head, blocks, i);
      ReadBlock(mem, head, blocks, i);
      mem := Fill(mem, p, n, 0);
      PayloadWritten(old(mem), mem, head, blocks, i);
    }

    /**
     * calloc: malloc, then every requested byte is cleared. The source clears
     * without testing for NULL; ok is false when it clears through NULL, which
     * happens exactly when no block can be reused and mmap fails.
     */
    method Calloc(algo: Option<string>, scribble: bool, nmemb: nat, size: nat, kernel: Option<nat>)
      returns (ok: bool, p: nat)
      requires Valid() && allocations < WORD_LIMIT && nmemb * size + 8 + HEADER + page < WORD_LIMIT
      requires kernel.Some? ==> Offers(kernel.value, RoundUp8(nmemb * size) + HEADER)
      modifies this
      ensures Valid()
      ensures ok <==> kernel.Some? || Pick(PolicyOf(algo), old(blocks), RoundUp8(nmemb * size) + HEADER).Some?
      ensures ok ==> p != 0 && HandedOut(old(Abs()), RoundUp8(nmemb * size), false, p, Abs())
      ensures ok ==> Filled(mem, p, nmemb * size, 0)
      ensures !ok ==> Abs() == old(Abs())
    {
      ok, p := MallocCleared(algo, scribble, nmemb * size, kernel);
    }

    method MallocCleared(algo: Option<string>, scribble: bool, n: nat, kernel: Option<nat>) returns (ok: bool, p: nat)
      requires Valid() && allocations < WORD_LIMIT && n + 8 + HEADER + page < WORD_LIMIT
      requires kernel.Some? ==> Offers(kernel.value, RoundUp8(n) + HEADER)
      modifies this
      ensures Valid()
      ensures ok <==> kernel.Some? || Pick(PolicyOf(algo), old(blocks), RoundUp8(n) + HEADER).Some?
      ensures ok ==> p != 0 && HandedOut(old(Abs()), RoundUp8(n), false, p, Abs()) && Filled(mem, p, n, 0)
      ensures !ok ==> Abs() == old(Abs())
    {
      p := Malloc(algo, scribble, n, kernel);
      MallocOutcome(old(Abs()), PolicyOf(algo), RoundUp8(n), scribble, kernel, Room(RoundUp8(n) + HEADER), p, Abs());
      ok := p != 0;
      if ok {
        ghost var h1 := Abs();
        Clear(p, n);
        ClearedToo(old(Abs()), h1, Abs(), RoundUp8(n), scribble, p);
      }
    }

    /** The header at a region's start is its first block's, and gives the region's size. */
    lemma RegionSizeAt(k: nat)
      requires Valid() && k < |blocks|
      ensures Mapped(mem, blocks[k].region, HEADER) && RegionSizeOf(mem, blocks[k].region) == blocks[k].regionSize
    {
      var first := RegionFirst(blocks, k);
      SameRegionConsecutive(blocks, first, k);
      ReadBlock(mem, head, blocks, first);
    }

    /** print_memory: the lines printed, in order. */
    method PrintMemory() returns (lines: seq<Line>)
      requires Valid()
      ensures lines == [HeadingLine] + Report(Groups(blocks))
    {
      lines := [HeadingLine];
      var current, region: nat := head, 0;
      ghost var k := 0;
      ListStart();
      while current != 0
        invariant 0 <= k <= |blocks| && current == AddrAt(blocks, k) && (current == 0 <==> k == |blocks|)
        invariant region == LastRegion(blocks, k) && lines == [HeadingLine] + Printed(blocks, k)
        decreases |blocks| - k
      {
        ReadBlock(mem, head, blocks, k);
        RegionSizeAt(k);
        Associate([HeadingLine], Printed(blocks, k), RegionLines(blocks[k], region) + [LineOf(blocks[k])]);
        var h := HeaderAt(mem, current);
        var block := BlockLine(current, current + h.size, h.allocId, h.size, h.usage,
                               if h.usage == 0 then 0 else h.usage - HEADER);
        if h.regionStart != region {
          region := h.regionStart;
          var size := RegionSizeOf(mem, region);
          lines := lines + ([RegionLine(region, region + size, size)] + [block]);
        } else {
          lines := lines + ([] + [block]);
        }
        current, k := h.next, k + 1;
      }
      if blocks != [] {
        ReadBlock(mem, head, blocks, 0);
        assert BlockOk(blocks[0]);
      }
      PrintedByRegion(blocks);
    }
  }
}
