/**
 The words that lie inside a block in use.  The user's bytes of a chunk at a run from a + 8 up to
 a + size + 4; a head is kept at offset 4 and a prev_foot at offset 0 of each chunk address.
 No operation of the allocator writes such a word of a chunk that stays in use.
 */
module Payload {
  import opened Words
  import opened TreeBins
  import opened BinIndex
  import opened Bins
  import opened BestFit
  import opened Tags
  import opened HeapState
  import opened DlMalloc
  import opened DlFree

  /** Neither a head nor a foot inside the user's bytes of c has changed. */
  ghost predicate Untouched(g: Tags, g': Tags, c: Chunk) {
    && (forall x {:trigger HeadAt(g', x)} :: c.addr < x < c.addr + c.size ==> HeadAt(g', x) == HeadAt(g, x))
    && (forall x {:trigger FootAt(g', x)} :: c.addr < x < c.addr + c.size + 4 ==> FootAt(g', x) == FootAt(g, x))
  }

  ghost predicate Keeps(g: Tags, g': Tags) {
    forall c :: IsLive(g, c) ==> Untouched(g, g', c)
  }

  lemma UntouchedTrans(g: Tags, g1: Tags, g2: Tags, c: Chunk)
    requires Untouched(g, g1, c) && Untouched(g1, g2, c)
    ensures Untouched(g, g2, c)
  {
    hide HeadAt, FootAt;
    forall x | c.addr < x < c.addr + c.size ensures HeadAt(g2, x) == HeadAt(g, x) {
      assert HeadAt(g1, x) == HeadAt(g, x);
    }
    forall x | c.addr < x < c.addr + c.size + 4 ensures FootAt(g2, x) == FootAt(g, x) {
      assert FootAt(g1, x) == FootAt(g, x);
    }
  }

  lemma KeepsTrans(g: Tags, g1: Tags, g2: Tags)
    requires Keeps(g, g1) && Keeps(g1, g2) && forall c :: IsLive(g, c) ==> IsLive(g1, c)
    ensures Keeps(g, g2)
  {
    hide IsLive, Untouched;
    forall c | IsLive(g, c) ensures Untouched(g, g2, c) {
      UntouchedTrans(g, g1, g2, c);
    }
  }

  // ---- the tag operations -------------------------------------------------------------------

  lemma MergeUntouched(g: Tags, q: nat, e: nat, used: bool, c: Chunk)
    requires Tagged(g) && Mergeable(g, q, e, used) && IsLive(g, c) && !(q <= c.addr < e)
    ensures Untouched(g, Merge(g, q, e, used), c)
  {
    var r := Merge(g, q, e, used);
    MergeApart(g, q, e, used, c.addr);
    assert Apart(g, c.addr, q) && Apart(g, c.addr, e) by { assert e in g.starts || e == g.top; assert BoundAt(g, c.addr); }
    forall x: nat
      ensures c.addr < x < c.addr + c.size ==> HeadAt(r, x) == HeadAt(g, x)
      ensures c.addr < x < c.addr + c.size + 4 ==> FootAt(r, x) == FootAt(g, x)
    {
      MergeWords(g, q, e, used, x);
    }
  }

  lemma CutUntouched(g: Tags, a: nat, nb: nat, used: bool, c: Chunk)
    requires Tagged(g) && Cuttable(g, a, nb, used) && ((IsLive(g, c) && c.addr != a) || c == Chunk(a, nb))
    ensures Untouched(g, Cut(g, a, nb, used), c)
  {
    var r := Cut(g, a, nb, used);
    if c.addr != a {
      CutApart(g, a, nb, used, c.addr);
    }
    forall x: nat
      ensures c.addr < x < c.addr + c.size ==> HeadAt(r, x) == HeadAt(g, x)
      ensures c.addr < x < c.addr + c.size + 4 ==> FootAt(r, x) == FootAt(g, x)
    {
      CutWords(g, a, nb, used, x);
    }
  }

  lemma TakeTopKeeps(g: Tags, nb: nat)
    requires Tagged(g) && nb <= g.topsize
    ensures Keeps(g, TakeTop(g, nb))
  {
    forall c | IsLive(g, c) ensures Untouched(g, TakeTop(g, nb), c) {
      assert BoundAt(g, c.addr);
    }
  }

  lemma ResizeTopKeeps(g: Tags, n: nat)
    requires Tagged(g)
    ensures Keeps(g, ResizeTop(g, n))
  {
    forall c | IsLive(g, c) ensures Untouched(g, ResizeTop(g, n), c) {
      assert BoundAt(g, c.addr);
    }
  }

  lemma GiveTopUntouched(g: Tags, q: nat, c: Chunk)
    requires Tagged(g) && q in g.starts && q <= g.top && IsLive(g, c) && c.addr < q
    ensures Untouched(g, GiveTop(g, q), c)
  {
    assert Apart(g, c.addr, q);
  }

  lemma GrowUntouched(g: Tags, p: nat, nb: nat, c: Chunk)
    requires Tagged(g) && Growable(g, p, nb) && IsLive(g, c)
    ensures Untouched(g, GrowUsed(g, p, nb), c)
  {
    GrowWords(g, p, nb, c.addr);
  }

  lemma TakeWholeKeeps(g: Tags, f: Chunk)
    requires Tagged(g) && IsFree(g, f)
    ensures f.size > 0 && Keeps(g, TakeWhole(g, f))
  {
    FreeChunk(g, f);
    forall c | IsLive(g, c) ensures Untouched(g, TakeWhole(g, f), c) {
      assert Apart(g, f.addr, c.addr);
      MergeUntouched(g, f.addr, f.addr + f.size, true, c);
    }
  }

  lemma TakeSplitKeeps(g: Tags, f: Chunk, nb: nat)
    requires Tagged(g) && IsFree(g, f) && 16 <= nb && nb % 8 == 0 && nb + 16 <= f.size
    ensures Keeps(g, TakeSplit(g, f, nb))
  {
    FreeChunk(g, f);
    TakeWholeKeeps(g, f);
    TakenWhole(g, f);
    var m := TakeWhole(g, f);
    MergeWords(g, f.addr, f.addr + f.size, true, f.addr);
    MergeWords(g, f.addr, f.addr + f.size, true, f.addr + f.size);
    forall c | IsLive(g, c) ensures Untouched(g, TakeSplit(g, f, nb), c) {
      CutUntouched(m, f.addr, nb, false, c);
      UntouchedTrans(g, m, TakeSplit(g, f, nb), c);
    }
  }

  // ---- malloc ----------------------------------------------------------------------------------

  ghost predicate KeepsOutcome(h: Heap, o: Outcome) {
    o.Done? ==> Keeps(h.g, o.h.g)
  }

  lemma SplitForSmallKeeps(h: Heap, c: Chunk, nb: nat)
    requires Ready(h) && Held(h.bins, c) > 0 && 16 <= nb <= c.size && nb % 8 == 0
    requires c.size < WORD && h.dvsize < WORD && h.dvsize % 8 == 0
    ensures KeepsOutcome(h, SplitForSmall(h, c, nb))
  {
    hide Keeps, Held, BinOldDv, Unbinned, UnlinkChunk, TakeSplit, TakeWhole;
    HeldIsFree(h, c);
    if c.size - nb < 16 {
      TakeWholeKeeps(h.g, c);
    } else {
      TakeSplitKeeps(h.g, c, nb);
    }
  }

  lemma SplitForLargeKeeps(h: Heap, c: Chunk, nb: nat)
    requires Ready(h) && Held(h.bins, c) > 0 && 16 <= nb <= c.size && nb % 8 == 0
    requires c.size < WORD && c.size % 8 == 0
    ensures KeepsOutcome(h, SplitForLarge(h, c, nb))
  {
    hide Keeps, Held, Binned, Unbinned, UnlinkChunk, TakeSplit, TakeWhole;
    HeldIsFree(h, c);
    if c.size - nb < 16 {
      TakeWholeKeeps(h.g, c);
    } else {
      TakeSplitKeeps(h.g, c, nb);
    }
  }

  lemma FromSmallBinKeeps(h: Heap, i: nat)
    requires Inv(h) && 0 < i < NBINS && ValidBins(h.bins) && h.bins.smallmap[i]
    ensures KeepsOutcome(h, FromSmallBin(h, i))
  {
    hide Keeps, UnlinkChunk, TakeWhole;
    var c := FirstOf(h.bins, i);
    FreshIsEmpty(h);
    HeldIsFree(h, c);
    TakeWholeKeeps(h.g, c);
  }

  lemma NothingLive(h: Heap, g: Tags)
    requires Fresh(h)
    ensures Keeps(h.g, g)
  {
  }

  lemma ExtendedKeeps(h: Heap, n: nat)
    requires Inv(h)
    ensures Keeps(h.g, Extended(h, n).g)
    ensures Ready(h) ==> Tagged(Extended(h, n).g) && forall c :: IsLive(h.g, c) ==> IsLive(Extended(h, n).g, c)
  {
    hide Keeps, ResizeTop;
    if Fresh(h) {
      NothingLive(h, Extended(h, n).g);
    } else {
      ResizeTopKeeps(h.g, h.g.topsize + n);
      ResizeTopTagged(h.g, h.g.topsize + n);
    }
  }

  lemma GrowKeeps(h: Heap, n: nat, nb: nat)
    requires Inv(h)
    ensures KeepsOutcome(h, Grow(h, n, nb))
  {
    hide Keeps, TakeTop, Extended;
    var g := Extended(h, n).g;
    ExtendedKeeps(h, n);
    if nb < g.topsize {
      if Fresh(h) {
        NothingLive(h, TakeTop(g, nb));
      } else {
        TakeTopKeeps(g, nb);
        KeepsTrans(h.g, g, TakeTop(g, nb));
      }
    }
  }

  lemma SysAllocKeeps(h: Heap, nb: nat)
    requires Inv(h) && nb < WORD && h.g.topsize < WORD
    ensures KeepsOutcome(h, SysAlloc(h, nb))
  {
    hide Keeps, Grow, FirstAsk, LaterAsk;
    SameButFlag(h);
    KeepsSelf(h.g);
    GrowKeeps(h, FirstAsk(h, nb), nb);
    GrowKeeps(h.(contiguous := false), LaterAsk(nb), nb);
  }

  lemma KeepsSelf(g: Tags)
    ensures Keeps(g, g)
  {
  }

  lemma FromDvOrTopKeeps(h: Heap, nb: nat)
    requires Inv(h) && 16 <= nb < WORD && (nb % 8 == 0 || nb == WORD - 1) && h.g.topsize < WORD
    ensures KeepsOutcome(h, FromDvOrTop(h, nb))
  {
    hide Keeps, SysAlloc, TakeTop, TakeWhole, TakeSplit;
    if nb <= h.dvsize {
      DvSize(h);
      TakeWholeKeeps(h.g, Chunk(h.dv, h.dvsize));
      if h.dvsize - nb >= 16 {
        TakeSplitKeeps(h.g, Chunk(h.dv, h.dvsize), nb);
      }
    } else if nb < h.g.topsize {
      TakeTopKeeps(h.g, nb);
    } else {
      SysAllocKeeps(h, nb);
    }
  }

  lemma SmallMallocKeeps(h: Heap, nb: nat)
    requires Inv(h) && 16 <= nb < MIN_LARGE && nb % 8 == 0
    ensures KeepsOutcome(h, SmallMalloc(h, nb))
  {
    hide KeepsOutcome, FromSmallBin, SplitForSmall, FromDvOrTop;
    FreshIsEmpty(h);
    var idx := nb / 8;
    if h.bins.smallmap[idx] {
      FromSmallBinKeeps(h, idx);
    } else if idx + 1 < NBINS && h.bins.smallmap[idx + 1] {
      FromSmallBinKeeps(h, idx + 1);
    } else if nb > h.dvsize {
      SplitSmallestKeeps(h, nb);
    } else {
      FromDvOrTopKeeps(h, nb);
    }
  }

  lemma SplitSmallestKeeps(h: Heap, nb: nat)
    requires Inv(h) && 16 <= nb < MIN_LARGE && nb % 8 == 0
    ensures KeepsOutcome(h, SplitSmallest(h, nb))
  {
    hide KeepsOutcome, SplitForSmall, FromDvOrTop;
    FreshIsEmpty(h);
    var j := NextMarked(h.bins.smallmap, nb / 8);
    if j < NBINS {
      SplitForSmallKeeps(h, FirstOf(h.bins, j), nb);
    } else if NextMarked(h.bins.treemap, 0) < NBINS {
      SplitForSmallKeeps(h, SmallestLarge(h.bins, nb), nb);
    } else {
      FromDvOrTopKeeps(h, nb);
    }
  }

  lemma LargeMallocKeeps(h: Heap, nb: nat)
    requires Inv(h) && MIN_LARGE <= nb < WORD && nb % 8 == 0
    ensures KeepsOutcome(h, LargeMalloc(h, nb))
  {
    hide KeepsOutcome, SplitForLarge, FromDvOrTop;
    FreshIsEmpty(h);
    LargeFitIsBest(h.bins, nb);
    var f := LargeFit(h.bins, nb);
    if NextMarked(h.bins.treemap, 0) < NBINS && f.v.Node? && f.rem < Sub32(h.dvsize, nb) {
      var c := f.v.ring[0];
      assert Held(h.bins, c) > 0;
      BinnedSize(h, c);
      SplitForLargeKeeps(h, c, nb);
    } else {
      FromDvOrTopKeeps(h, nb);
    }
  }

  /** malloc writes nothing into a block in use. */
  lemma MallocKeeps(h: Heap, bytes: nat)
    requires Inv(h)
    ensures KeepsOutcome(h, Malloc(h, bytes))
  {
    hide KeepsOutcome, SmallMalloc, LargeMalloc, FromDvOrTop;
    FreshIsEmpty(h);
    if bytes <= MAX_SMALL_REQUEST {
      SmallMallocKeeps(h, RequestToSize(bytes));
    } else if bytes >= MAX_REQUEST {
      FromDvOrTopKeeps(h, WORD - 1);
    } else {
      LargeMallocKeeps(h, PadRequest(bytes));
    }
  }

  // ---- free ---------------------------------------------------------------------------------------

  lemma JoinTopUntouched(h: Heap, p: nat, c: Chunk)
    requires Ready(h) && p in h.g.starts && HeadAt(h.g, p).cinuse && NextAt(h.g, p) == h.g.top
    requires IsLive(h.g, c) && c.addr != p
    ensures Untouched(h.g, JoinTop(h, p).g, c)
  {
    hide WithoutPrev, Untouched, BinsOk;
    Neighbours(h.g, p);
    var q := LowEnd(h.g, p);
    assert BoundAt(h.g, c.addr);
    if q <= c.addr {
      Between(h.g, p, c.addr);
    }
    GiveTopUntouched(h.g, q, c);
  }

  lemma CoalesceUntouched(h: Heap, p: nat, c: Chunk)
    requires Ready(h) && p in h.g.starts && HeadAt(h.g, p).cinuse && NextAt(h.g, p) != h.g.top
    requires IsLive(h.g, c) && c.addr != p
    ensures Untouched(h.g, Coalesce(h, p).g, c)
  {
    hide WithoutNeighbours, Untouched, BinsOk, Binned;
    Neighbours(h.g, p);
    CoalesceChunks(h, p, c);
    var q, e := LowEnd(h.g, p), HighEnd(h.g, p);
    if q <= c.addr < e {
      Between(h.g, p, c.addr);
    }
    MergeUntouched(h.g, q, e, false, c);
  }

  lemma TrimUntouched(h: Heap, c: Chunk)
    requires Ready(h) && IsLive(h.g, c)
    ensures Untouched(h.g, Trim(h).g, c)
  {
    hide Untouched, ResizeTop, TrimSize;
    var n := if h.g.topsize > TOP_FOOT then TrimSize(h.g.topsize) else 0;
    if n > 0 {
      ResizeTopKeeps(h.g, h.g.topsize - n);
    }
    KeepsSelf(h.g);
  }

  /** free writes nothing into any other block in use. */
  lemma FreeUntouched(h: Heap, p: nat, c: Chunk)
    requires Ready(h) && p in h.g.starts && HeadAt(h.g, p).cinuse && IsLive(h.g, c) && c.addr != p
    ensures Untouched(h.g, Free(h, p).g, c)
  {
    hide Untouched, JoinTop, Coalesce, Trim;
    if NextAt(h.g, p) == h.g.top {
      JoinTopUntouched(h, p, c);
      JoinTopGood(h, p);
      var h1 := JoinTop(h, p);
      if h1.g.topsize > h1.trimCheck {
        TrimUntouched(h1, c);
        UntouchedTrans(h.g, h1.g, Trim(h1).g, c);
      }
    } else {
      CoalesceUntouched(h, p, c);
    }
  }
}
