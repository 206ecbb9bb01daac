/**
 * Whole runs of the allocator, for any program, fit policies and kernel.
 */
module AllocatorRuns {
  import opened Basics
  import opened Memory
  import opened Sizes
  import opened Blocks
  import opened BlockOps
  import opened HeapImage
  import opened Regions
  import opened Allocators
  import opened AllocatorSteps

  // After any sequence of malloc, free and stores by the program the state is
  // sound, its live blocks are exactly the pointers handed out and not yet given
  // back, and every byte of theirs is the one last written there.

  /** hs is a run from the empty heap, hs[i + 1] being the result of event es[i]. */
  ghost predicate Run(hs: seq<Heap>, es: seq<Event>, page: nat)
    requires page > 0
  {
    && |hs| == |es| + 1 && hs[0] == START
    && forall i {:trigger StepAt(hs, es, i, page)} :: 0 <= i < |es| ==> StepAt(hs, es, i, page)
  }

  ghost predicate StepAt(hs: seq<Heap>, es: seq<Event>, i: nat, page: nat)
    requires page > 0 && i < |es| < |hs|
  {
    Sound(hs[i], page) ==> HeapStep(hs[i], es[i], hs[i + 1], page)
  }

  // ----- Whole runs -----

  /** After any run the state is sound and its live blocks are what the program holds. */
  lemma {:induction false} RunRefinesTable(hs: seq<Heap>, es: seq<Event>, page: nat, n: nat)
    requires page > 0 && page % 8 == 0 && Run(hs, es, page) && n <= |es|
    ensures Sound(hs[n], page)
    ensures Table(hs[n].blocks) == Held(es[..n])
  {
    if n > 0 {
      RunRefinesTable(hs, es, page, n - 1);
      assert es[..n][..n - 1] == es[..n - 1];
      assert StepAt(hs, es, n - 1, page);
      StepSound(hs[n - 1], es[n - 1], hs[n], page);
    }
  }

  /**
   * After any run every byte of every live allocation is the one last written
   * there: no header, no split, no mapping or unmapping, no scribbling and no
   * store through another pointer ever gets in its way.
   */
  lemma {:induction false} RunRemembers(hs: seq<Heap>, es: seq<Event>, page: nat, n: nat)
    requires page > 0 && page % 8 == 0 && Run(hs, es, page) && n <= |es|
    ensures Remembers(hs[n].mem, es[..n], Held(es[..n]))
  {
    if n > 0 {
      RunRemembers(hs, es, page, n - 1);
      RunRefinesTable(hs, es, page, n - 1);
      RunRefinesTable(hs, es, page, n);
      assert es[..n] == es[..n - 1] + [es[n - 1]];
      assert StepAt(hs, es, n - 1, page);
      StepSound(hs[n - 1], es[n - 1], hs[n], page);
      StepRemembers(hs[n - 1], es[..n - 1], es[..n], es[n - 1], hs[n], page);
    }
  }

  // ----- Reclamation -----

  /** Without live pointers there are no blocks: every region holds a block in use. */
  lemma NothingLive(bs: seq<Block>, nextId: nat)
    requires WellFormed(bs, nextId) && Table(bs) == map[]
    ensures bs == []
  {
    if bs != [] {
      assert HasUsed(bs, bs[0].region);
      var j :| 0 <= j < |bs| && bs[j].region == bs[0].region && bs[j].Used();
      TableHas(bs, j);
    }
  }

  lemma NothingMapped(h: Heap, page: nat)
    requires Sound(h, page) && Table(h.blocks) == map[]
    ensures h.blocks == [] && h.head == 0 && h.mem == map[]
  {
    NothingLive(h.blocks, h.nextId);
    forall a: nat ensures a !in h.mem {
      assert !Owned([], a);
    }
  }

  /**
   * After any run that gave back all it got, in whatever order and whatever
   * else it did in between, head is NULL and no byte is mapped.
   */
  lemma RunReclaims(hs: seq<Heap>, es: seq<Event>, page: nat, n: nat)
    requires page > 0 && page % 8 == 0 && Run(hs, es, page) && n <= |es| && Held(es[..n]) == map[]
    ensures hs[n].blocks == [] && hs[n].head == 0 && hs[n].mem == map[]
  {
    RunRefinesTable(hs, es, page, n);
    NothingMapped(hs[n], page);
  }

  /** Two live allocations never share a byte, and no header lies in a payload. */
  lemma LiveDisjoint(bs: seq<Block>, nextId: nat, p: nat, q: nat)
    requires WellFormed(bs, nextId) && p in Table(bs) && q in Table(bs) && p != q
    ensures p + Table(bs)[p] <= q - HEADER || q + Table(bs)[q] <= p - HEADER
  {
    var i, j := BlockOf(bs, p), BlockOf(bs, q);
    TableHas(bs, i);
    TableHas(bs, j);
    ApartAt(bs, i, j);
    assert BlockOk(bs[i]) && BlockOk(bs[j]);
  }

  // ----- Programs -----

  /** A call of the program; it names a pointer by the number of the call that returned it. */
  datatype Call =
    | MallocCall(algo: Option<string>, scribble: bool, request: nat)
    | FreeCall(n: nat)
    | WriteCall(n: nat, offset: nat, v: Byte)

  /** The kernel's answer for the mapped bytes and the size of the block; it offers fresh pages or fails. */
  ghost predicate Honest(kernel: (Bytes, nat) -> Option<nat>, page: nat)
    requires page > 0
  {
    forall m, need :: kernel(m, need).Some? ==> FreshPages(m, kernel(m, need).value, RegionBytes(need, page), page)
  }

  ghost predicate FreshPages(m: Bytes, at: nat, bytes: nat, page: nat)
    requires page > 0
  {
    && at > 0 && PageAligned(at, page) && at + bytes < WORD_LIMIT
    && forall a: nat :: at <= a < at + bytes ==> a !in m
  }

  /** The program uses only pointers it holds, and stays inside its allocations. */
  predicate Allowed(call: Call, ptrs: seq<nat>, held: map<nat, int>) {
    match call
    case MallocCall(_, _, _) => true
    case FreeCall(n) => n < |ptrs| && (ptrs[n] == 0 || ptrs[n] in held)
    case WriteCall(n, offset, _) => n < |ptrs| && ptrs[n] in held && offset < held[ptrs[n]]
  }

  /** The event is the call, with the pointers the earlier calls returned. */
  ghost predicate IsEventOf(call: Call, ptrs: seq<nat>, i: nat, e: Event)
    requires i < |ptrs|
  {
    match call
    case MallocCall(algo, scribble, request) =>
      e.Got? && e.p == ptrs[i] && e.size == RoundUp8(request) && e.policy == PolicyOf(algo) && e.scribble == scribble
    case FreeCall(n) => n < i && e == Gave(ptrs[n])
    case WriteCall(n, offset, v) => n < i && e == Wrote(ptrs[n], offset, v)
  }

  /** One call of the program. */
  method Perform(a: Allocator, call: Call, ptrs: seq<nat>, kernel: (Bytes, nat) -> Option<nat>,
                 ghost held: map<nat, int>)
    returns (p: nat, e: Event)
    requires a.Valid() && Honest(kernel, a.page) && Table(a.blocks) == held && Allowed(call, ptrs, held)
    requires a.allocations < WORD_LIMIT && (call.MallocCall? ==> call.request + 8 + HEADER + a.page < WORD_LIMIT)
    modifies a
    ensures a.Valid() && HeapStep(old(a.Abs()), e, a.Abs(), a.page)
    ensures IsEventOf(call, ptrs + [p], |ptrs|, e)
    ensures a.allocations <= old(a.allocations) + 1
  {
    p := 0;
    match call
    case MallocCall(algo, scribble, request) =>
      var at := AskKernel(a, RoundUp8(request) + HEADER, kernel);
      p, e := PerformMalloc(a, algo, scribble, request, RoundUp8(request), at);
    case FreeCall(n) =>
      a.Free(ptrs[n]);
      e := Gave(ptrs[n]);
    case WriteCall(n, offset, v) =>
      a.WriteByte(ptrs[n], offset, v);
      e := Wrote(ptrs[n], offset, v);
  }

  method AskKernel(a: Allocator, need: nat, kernel: (Bytes, nat) -> Option<nat>) returns (at: Option<nat>)
    requires a.Valid() && Honest(kernel, a.page)
    ensures at.Some? ==> a.Offers(at.value, need) && OfferOk(a.Abs(), at.value, need, a.page)
  {
    at := kernel(a.mem, need);
    OfferFresh(a, at, need);
  }

  method PerformMalloc(a: Allocator, algo: Option<string>, scribble: bool, request: nat, size: nat, at: Option<nat>)
    returns (p: nat, e: Event)
    requires a.Valid() && a.allocations < WORD_LIMIT && request + 8 + HEADER + a.page < WORD_LIMIT
    requires size == RoundUp8(request) && size % 8 == 0
    requires at.Some? ==> a.Offers(at.value, size + HEADER) && OfferOk(a.Abs(), at.value, size + HEADER, a.page)
    modifies a
    ensures a.Valid() && HeapStep(old(a.Abs()), e, a.Abs(), a.page)
    ensures e == Got(p, size, PolicyOf(algo), scribble, at)
    ensures a.allocations <= old(a.allocations) + 1
  {
    p := a.Malloc(algo, scribble, request, at);
    assert a.Room(size + HEADER) == RegionBytes(size + HEADER, a.page);
    e := Got(p, size, PolicyOf(algo), scribble, at);
    GotStep(old(a.Abs()), p, size, PolicyOf(algo), scribble, at, a.Abs(), a.page);
  }

  /** malloc's contract makes the call a step. */
  lemma GotStep(h: Heap, p: nat, size: nat, policy: Policy, scribble: bool, at: Option<nat>, h': Heap, page: nat)
    requires Sound(h, page) && Sound(h', page) && size % 8 == 0
    requires at.Some? ==> OfferOk(h, at.value, size + HEADER, page)
    requires Mallocs(h, policy, size, scribble, at, RegionBytes(size + HEADER, page), p, h')
    ensures HeapStep(h, Got(p, size, policy, scribble, at), h', page)
    ensures h'.nextId <= h.nextId + 1
  {
    assert IsMallocOf(h.blocks, h.nextId, policy, size + HEADER, at, RegionBytes(size + HEADER, page), h'.blocks, p);
    assert InMemory(h'.mem, h'.head, h'.blocks);
    if p != 0 {
      assert HandedOut(h, size, scribble, p, h');
    }
  }

  lemma OfferFresh(a: Allocator, at: Option<nat>, need: nat)
    requires a.Valid() && (at.Some? ==> FreshPages(a.mem, at.value, RegionBytes(need, a.page), a.page))
    ensures at.Some? ==> a.Offers(at.value, need) && OfferOk(a.Abs(), at.value, need, a.page)
  {
    if at.Some? {
      a.OfferIsFree(at.value, need);
    }
  }

  lemma RunOneMore(hs: seq<Heap>, es: seq<Event>, page: nat, e: Event, h: Heap)
    requires page > 0 && Run(hs, es, page) && Disjoint(hs[|es|].blocks) && HeapStep(hs[|es|], e, h, page)
    ensures Run(hs + [h], es + [e], page)
  {
    forall i | 0 <= i < |es| + 1 ensures StepAt(hs + [h], es + [e], i, page) {
      if i < |es| {
        assert StepAt(hs, es, i, page);
      }
    }
  }

  /** The first calls were carried out: the events are theirs, and the heaps are a run of them that ends in h. */
  ghost predicate Executed(calls: seq<Call>, ptrs: seq<nat>, es: seq<Event>, hs: seq<Heap>, h: Heap, page: nat)
    requires page > 0
  {
    && |ptrs| == |es| <= |calls| && Run(hs, es, page) && hs[|es|] == h
    && forall i {:trigger es[i]} :: 0 <= i < |es| ==> IsEventOf(calls[i], ptrs, i, es[i])
  }

  lemma ExecutedMore(calls: seq<Call>, ptrs: seq<nat>, es: seq<Event>, hs: seq<Heap>, h: Heap, page: nat,
                                        p: nat, e: Event, h': Heap)
    requires page > 0 && Executed(calls, ptrs, es, hs, h, page) && |es| < |calls|
    requires Disjoint(h.blocks) && HeapStep(h, e, h', page) && IsEventOf(calls[|es|], ptrs + [p], |es|, e)
    ensures Executed(calls, ptrs + [p], es + [e], hs + [h'], h', page)
  {
    RunOneMore(hs, es, page, e, h');
  }

  /**
   * Any program against any kernel, up to a call that is not allowed. What the
   * allocator does is a run, so everything proved of runs holds of it.
   */
  method Execute(a: Allocator, calls: seq<Call>, kernel: (Bytes, nat) -> Option<nat>)
    returns (ptrs: seq<nat>, es: seq<Event>, ghost hs: seq<Heap>)
    requires a.Valid() && a.Abs() == START && Honest(kernel, a.page) && |calls| < WORD_LIMIT
    requires forall i :: 0 <= i < |calls| && calls[i].MallocCall? ==>
             calls[i].request + 8 + HEADER + a.page < WORD_LIMIT
    modifies a
    ensures a.Valid() && Executed(calls, ptrs, es, hs, a.Abs(), a.page)
    ensures |es| < |calls| ==> !Allowed(calls[|es|], ptrs, Held(es))
    ensures Table(a.blocks) == Held(es) && Remembers(a.mem, es, Held(es))
  {
    ptrs, es, hs := [], [], [a.Abs()];
    while |es| < |calls|
      invariant a.Valid() && a.allocations <= |es| && Executed(calls, ptrs, es, hs, a.Abs(), a.page)
      decreases |calls| - |es|
    {
      assert es[..|es|] == es;
      RunRefinesTable(hs, es, a.page, |es|);
      if !Allowed(calls[|es|], ptrs, Held(es)) {
        break;
      }
      ghost var h := a.Abs();
      var p, e := Perform(a, calls[|es|], ptrs, kernel, Held(es));
      ExecutedMore(calls, ptrs, es, hs, h, a.page, p, e, a.Abs());
      ptrs, es, hs := ptrs + [p], es + [e], hs + [a.Abs()];
    }
    assert es[..|es|] == es;
    RunRefinesTable(hs, es, a.page, |es|);
    RunRemembers(hs, es, a.page, |es|);
  }

  /** The same from the program's start. */
  method ExecuteFresh(page: nat, calls: seq<Call>, kernel: (Bytes, nat) -> Option<nat>)
    returns (a: Allocator, ptrs: seq<nat>, es: seq<Event>, ghost hs: seq<Heap>)
    requires page > 0 && page % 8 == 0 && Honest(kernel, page) && |calls| < WORD_LIMIT
    requires forall i :: 0 <= i < |calls| && calls[i].MallocCall? ==> calls[i].request + 8 + HEADER + page < WORD_LIMIT
    ensures fresh(a) && a.page == page && a.Valid() && Executed(calls, ptrs, es, hs, a.Abs(), page)
    ensures |es| < |calls| ==> !Allowed(calls[|es|], ptrs, Held(es))
    ensures Table(a.blocks) == Held(es) && Remembers(a.mem, es, Held(es))
  {
    a := new Allocator(page);
    ptrs, es, hs := Execute(a, calls, kernel);
  }

  /** The live pointers are those of ps from index k on. */
  ghost predicate LiveFrom(t: map<nat, int>, ps: seq<nat>, k: nat) {
    && (forall i :: k <= i < |ps| ==> ps[i] in t)
    && (forall p {:trigger p in t} :: p in t ==> exists i :: k <= i < |ps| && ps[i] == p)
  }

  lemma OneLess(t: map<nat, int>, t': map<nat, int>, ps: seq<nat>, k: nat)
    requires LiveFrom(t, ps, k) && k < |ps| && t' == t - {ps[k]}
    requires forall i, j :: 0 <= i < j < |ps| ==> ps[i] != ps[j]
    ensures LiveFrom(t', ps, k + 1)
  {
    forall p | p in t' ensures exists i :: k + 1 <= i < |ps| && ps[i] == p {
      var i :| k <= i < |ps| && ps[i] == p;
    }
  }

  ghost predicate LiveOnce(bs: seq<Block>, ps: seq<nat>)
    requires Disjoint(bs)
  {
    && (forall i :: 0 <= i < |ps| ==> ps[i] in Table(bs))
    && (forall i, j :: 0 <= i < j < |ps| ==> ps[i] != ps[j])
  }

  /** Freeing every live pointer once, in any order: then head is NULL and no byte is mapped. */
  method FreeAll(a: Allocator, ps: seq<nat>)
    requires a.Valid() && LiveOnce(a.blocks, ps) && forall p :: p in Table(a.blocks) ==> p in ps
    modifies a
    ensures a.Valid() && a.blocks == [] && a.head == 0 && a.mem == map[]
  {
    for k := 0 to |ps|
      invariant a.Valid() && LiveFrom(Table(a.blocks), ps, k)
    {
      ghost var t := Table(a.blocks);
      a.Free(ps[k]);
      OneLess(t, Table(a.blocks), ps, k);
    }
    NothingMapped(a.Abs(), a.page);
  }
}
