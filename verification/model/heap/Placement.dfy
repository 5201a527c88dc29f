/** Which free memory a request is served from, and when it is served at all. */
module Placement {
  import opened Words
  import opened TreeBins
  import opened BinIndex
  import opened Bins
  import FreeBins = Bins
  import opened BestFit
  import opened HeapState
  import opened DlMalloc

  /** c is a smallest free chunk of at least nb bytes, the designated victim apart. */
  ghost predicate Best(h: Heap, c: Chunk, nb: nat) {
    ShouldBin(h, c) && nb <= c.size && forall d {:trigger ShouldBin(h, d)} :: ShouldBin(h, d) && nb <= d.size ==> c.size <= d.size
  }

  /** The chunk is in a small bin, and leaves nothing that could be a chunk. */
  predicate Remainderless(c: Chunk, nb: nat) {
    c.size < nb + 16 && c.size < MIN_LARGE
  }

  /** Such a chunk is used rather than dv: for a small request if it need not be split or dv is too small,
      for a large one unless dv fits at least as well. */
  predicate Preferred(h: Heap, c: Chunk, nb: nat) {
    if nb < MIN_LARGE then nb > h.dvsize || Remainderless(c, nb) else !(nb <= h.dvsize <= c.size)
  }

  ghost predicate Source(h: Heap, c: Chunk, nb: nat) {
    Best(h, c, nb) && Preferred(h, c, nb)
  }

  /** The part of a free chunk that is handed out. */
  function Cut(c: Chunk, nb: nat): Chunk
    requires nb <= c.size
  {
    Chunk(c.addr, if c.size - nb < 16 then c.size else nb)
  }

  /** The request got its part of c, and dv is what is left of c if the request is small and leaves something. */
  ghost predicate ServedFrom(h: Heap, o: Outcome, c: Chunk, nb: nat) {
    && nb <= c.size && o.Done? && o.got == Cut(c, nb) && o.got != NULL
    && (if nb < MIN_LARGE && c.size - nb >= 16 then o.h.dv == c.addr + nb && o.h.dvsize == c.size - nb
        else o.h.dv == h.dv && o.h.dvsize == h.dvsize)
  }

  ghost predicate ServedFromDv(h: Heap, o: Outcome, nb: nat) {
    && nb <= h.dvsize && o.Done? && o.got == Cut(Chunk(h.dv, h.dvsize), nb) && o.got != NULL
    && (if h.dvsize - nb >= 16 then o.h.dv == h.dv + nb && o.h.dvsize == h.dvsize - nb
        else o.h.dv == 0 && o.h.dvsize == 0)
  }

  ghost predicate ServedFromTop(h: Heap, o: Outcome, nb: nat) {
    && o.Done? && o.got == Chunk(h.g.top, nb) && o.got != NULL
    && o.h.g.top == h.g.top + nb && o.h.g.topsize == h.g.topsize - nb && o.h.dv == h.dv && o.h.dvsize == h.dvsize
  }

  // ---- the bins hold the free chunks ---------------------------------------------------------

  lemma FreeIsHeld(h: Heap, c: Chunk)
    requires Inv(h) && ValidBins(h.bins)
    ensures Held(h.bins, c) > 0 <==> ShouldBin(h, c)
    ensures ShouldBin(h, c) ==> Ready(h) && 16 <= c.size < WORD && c.size % 8 == 0 && c.addr > 0
  {
    if Ready(h) && ShouldBin(h, c) {
      BinnedSize(h, c);
    }
  }

  /** A held small chunk is in a marked bin, and a held large one in a marked tree. */
  lemma MarkedBin(b: Bins, c: Chunk)
    requires ValidBins(b) && Held(b, c) > 0 && c.size % 8 == 0
    ensures c.size < MIN_LARGE ==> b.smallmap[c.size / 8]
    ensures c.size >= MIN_LARGE ==> LargeHeld(b, c) && NextMarked(b.treemap, 0) < NBINS
  {
    if c.size < MIN_LARGE {
      assert SmallOk(b.small[c.size / 8], b.smallmap[c.size / 8], c.size / 8);
    } else {
      HeldInOwnTree(b, c);
    }
  }

  lemma FreeMarked(h: Heap, d: Chunk)
    requires Inv(h) && ValidBins(h.bins) && ShouldBin(h, d)
    ensures 16 <= d.size < WORD && d.size % 8 == 0 && d.addr > 0 && Ready(h)
    ensures d.size < MIN_LARGE ==> h.bins.smallmap[d.size / 8]
    ensures d.size >= MIN_LARGE ==> LargeHeld(h.bins, d) && NextMarked(h.bins.treemap, 0) < NBINS
  {
    FreeIsHeld(h, d);
    MarkedBin(h.bins, d);
  }

  /** The front of the first marked small bin that can hold the request is a smallest fitting chunk. */
  lemma SmallBest(h: Heap, nb: nat, i: nat)
    requires Inv(h) && ValidBins(h.bins) && 16 <= nb && nb % 8 == 0 && nb / 8 <= i < NBINS && h.bins.smallmap[i]
    requires forall k :: nb / 8 <= k < i ==> !h.bins.smallmap[k]
    ensures Best(h, FirstOf(h.bins, i), nb) && FirstOf(h.bins, i).size == 8 * i && FirstOf(h.bins, i).addr > 0
  {
    hide Inv, Held, ValidBins;
    var c := FirstOf(h.bins, i);
    FreeIsHeld(h, c);
    forall d {:trigger ShouldBin(h, d)} | ShouldBin(h, d) && nb <= d.size ensures c.size <= d.size {
      FreeMarked(h, d);
    }
  }

  // ---- small requests --------------------------------------------------------------------------

  /** What malloc promises about a request of nb bytes. */
  ghost predicate Places(h: Heap, o: Outcome, nb: nat)
    requires 0 < nb < WORD && h.g.topsize < WORD
  {
    if exists c :: Source(h, c, nb) then exists c :: Source(h, c, nb) && ServedFrom(h, o, c, nb)
    else if nb <= h.dvsize then ServedFromDv(h, o, nb)
    else if nb < h.g.topsize then ServedFromTop(h, o, nb)
    else o == SysAlloc(h, nb)
  }

  lemma DvOrTop(h: Heap, nb: nat)
    requires Inv(h) && 16 <= nb < WORD && h.g.topsize < WORD && forall c :: !Source(h, c, nb)
    ensures Places(h, FromDvOrTop(h, nb), nb)
  {
    hide Source, SysAlloc;
    if nb <= h.dvsize {
      DvSize(h) by { assert Ready(h); }
    } else if nb < h.g.topsize {
      TopBehindBase(h);
    }
  }

  lemma TopBehindBase(h: Heap)
    requires Inv(h) && h.g.topsize > 0
    ensures h.g.top > 0
  {
  }

  lemma FromSource(h: Heap, o: Outcome, c: Chunk, nb: nat)
    requires Source(h, c, nb) && ServedFrom(h, o, c, nb) && 0 < nb < WORD && h.g.topsize < WORD
    ensures Places(h, o, nb)
  {
  }

  lemma SplitSmallServes(h: Heap, c: Chunk, nb: nat)
    requires ValidBins(h.bins) && Held(h.bins, c) > 0 && nb <= c.size && 0 < c.size < WORD
    requires h.dvsize < WORD && h.dvsize % 8 == 0 && nb < MIN_LARGE && c.addr > 0
    ensures ServedFrom(h, SplitForSmall(h, c, nb), c, nb)
  {
  }

  lemma SplitSmallestPlaces(h: Heap, nb: nat)
    requires Inv(h) && 16 <= nb < MIN_LARGE && nb % 8 == 0 && nb > h.dvsize && h.g.topsize < WORD && ValidBins(h.bins)
    requires !h.bins.smallmap[nb / 8]
    ensures Places(h, SplitSmallest(h, nb), nb)
  {
    hide Inv, Held, Source, Places, FromDvOrTop, SplitForSmall, ServedFrom, SmallOk, TreeOk;
    FreshIsEmpty(h);
    var j := NextMarked(h.bins.smallmap, nb / 8);
    var c := if j < NBINS then FirstOf(h.bins, j) else if NextMarked(h.bins.treemap, 0) < NBINS then SmallestLarge(h.bins, nb) else NULL;
    if j < NBINS {
      SmallBest(h, nb, j);
    } else if NextMarked(h.bins.treemap, 0) < NBINS {
      TreeBest(h, nb);
    } else {
      NoneFree(h, nb);
      DvOrTop(h, nb);
    }
    if j < NBINS || NextMarked(h.bins.treemap, 0) < NBINS {
      FreeIsHeld(h, c);
      SplitSmallServes(h, c, nb);
      Chosen(h, c, nb);
      FromSource(h, SplitSmallest(h, nb), c, nb);
    }
  }

  lemma Chosen(h: Heap, c: Chunk, nb: nat)
    requires Best(h, c, nb) && Preferred(h, c, nb)
    ensures Source(h, c, nb)
  {
  }

  lemma TreeBest(h: Heap, nb: nat)
    requires Inv(h) && ValidBins(h.bins) && 16 <= nb < MIN_LARGE && nb % 8 == 0
    requires NextMarked(h.bins.smallmap, nb / 8) == NBINS && NextMarked(h.bins.treemap, 0) < NBINS
    ensures Best(h, SmallestLarge(h.bins, nb), nb)
  {
    hide Inv, ValidBins, Held;
    var c := SmallestLarge(h.bins, nb);
    FreeIsHeld(h, c);
    forall d {:trigger ShouldBin(h, d)} | ShouldBin(h, d) && nb <= d.size ensures c.size <= d.size {
      FreeMarked(h, d);
    }
  }

  lemma NoneFree(h: Heap, nb: nat)
    requires Inv(h) && ValidBins(h.bins) && 16 <= nb < MIN_LARGE && nb % 8 == 0
    requires NextMarked(h.bins.smallmap, nb / 8) == NBINS && NextMarked(h.bins.treemap, 0) == NBINS
    ensures forall c :: !Source(h, c, nb)
  {
    hide Inv, ValidBins, Held;
    forall c ensures !Source(h, c, nb) {
      if Source(h, c, nb) {
        FreeMarked(h, c);
      }
    }
  }

  /** With neither its own small bin nor the next one marked, only a request that dv cannot serve looks at the bins. */
  lemma NoExactFit(h: Heap, nb: nat)
    requires Inv(h) && ValidBins(h.bins) && 16 <= nb < MIN_LARGE && nb % 8 == 0 && nb <= h.dvsize
    requires !h.bins.smallmap[nb / 8] && (nb / 8 + 1 < NBINS ==> !h.bins.smallmap[nb / 8 + 1])
    ensures forall c :: !Source(h, c, nb)
  {
    hide Inv, ValidBins, Held;
    forall c ensures !Source(h, c, nb) {
      if Source(h, c, nb) {
        FreeMarked(h, c);
      }
    }
  }

  lemma TakenServes(h: Heap, i: nat, nb: nat)
    requires Inv(h) && ValidBins(h.bins) && 16 <= nb < MIN_LARGE && nb % 8 == 0 && h.g.topsize < WORD
    requires nb / 8 <= i <= nb / 8 + 1 && i < NBINS && h.bins.smallmap[i]
    requires i == nb / 8 + 1 ==> !h.bins.smallmap[nb / 8]
    ensures Places(h, FromSmallBin(h, i), nb)
  {
    hide Inv, Source, Places, Held;
    SmallBest(h, nb, i);
    var c := FirstOf(h.bins, i);
    Chosen(h, c, nb);
    FromSource(h, FromSmallBin(h, i), c, nb);
  }

  lemma SmallPlaces(h: Heap, nb: nat)
    requires Inv(h) && 16 <= nb < MIN_LARGE && nb % 8 == 0 && h.g.topsize < WORD
    ensures Places(h, SmallMalloc(h, nb), nb)
  {
    hide Inv, Held, Source, Places, FromDvOrTop, FromSmallBin, SplitSmallest, SmallOk, TreeOk;
    FreshIsEmpty(h);
    var idx := nb / 8;
    if h.bins.smallmap[idx] {
      TakenServes(h, idx, nb);
    } else if idx + 1 < NBINS && h.bins.smallmap[idx + 1] {
      TakenServes(h, idx + 1, nb);
    } else if nb > h.dvsize {
      SplitSmallestPlaces(h, nb);
    } else {
      NoExactFit(h, nb);
      DvOrTop(h, nb);
    }
  }

  // ---- large requests ---------------------------------------------------------------------------

  /** A best fit of all trees is a smallest fitting free chunk. */
  lemma LargeBest(h: Heap, c: Chunk, nb: nat)
    requires Inv(h) && ValidBins(h.bins) && nb >= MIN_LARGE && FreeBins.BestFit(h.bins, c, nb)
    ensures Best(h, c, nb)
  {
    hide Inv, ValidBins, Held;
    FreeIsHeld(h, c);
    forall d {:trigger ShouldBin(h, d)} | ShouldBin(h, d) && nb <= d.size ensures c.size <= d.size {
      FreeMarked(h, d);
    }
  }

  lemma LargePlaces(h: Heap, nb: nat)
    requires Inv(h) && MIN_LARGE <= nb < WORD && nb % 8 == 0 && h.g.topsize < WORD
    ensures Places(h, LargeMalloc(h, nb), nb)
  {
    hide Inv, ValidBins, Held, Source, Places, FromDvOrTop, LargeFit, SplitForLarge, Best;
    FreshIsEmpty(h);
    LargeFitIsBest(h.bins, nb);
    if TakesLarge(h, nb) {
      var c := LargeFit(h.bins, nb).v.ring[0];
      DvPreferred(h, nb);
      LargeBest(h, c, nb);
      Chosen(h, c, nb);
      FreeIsHeld(h, c) by { assert ShouldBin(h, c) by { BestIsFree(h, c, nb); } }
      SplitLargeServes(h, c, nb);
      FromSource(h, LargeMalloc(h, nb), c, nb);
    } else {
      NoneTaken(h, nb);
      DvOrTop(h, nb);
    }
  }

  lemma BestIsFree(h: Heap, c: Chunk, nb: nat)
    requires Best(h, c, nb)
    ensures ShouldBin(h, c) && nb <= c.size
  {
  }

  lemma SplitLargeServes(h: Heap, c: Chunk, nb: nat)
    requires ValidBins(h.bins) && Held(h.bins, c) > 0 && nb <= c.size && 0 < c.size < WORD
    requires c.size % 8 == 0 && nb % 8 == 0 && nb >= MIN_LARGE && c.addr > 0
    ensures ServedFrom(h, SplitForLarge(h, c, nb), c, nb)
  {
  }

  /** tmalloc_large serves the request whenever a smallest fitting chunk is preferred to dv. */
  lemma LargeTaken(h: Heap, c: Chunk, nb: nat)
    requires Inv(h) && ValidBins(h.bins) && h.dvsize < WORD && MIN_LARGE <= nb < WORD && Source(h, c, nb)
    ensures TakesLarge(h, nb)
  {
    hide Inv, Held, LargeFit;
    FreeMarked(h, c);
    LargeFitIsBest(h.bins, nb);
    var v := LargeFit(h.bins, nb).v;
    assert LargeHeld(h.bins, c);
    DvPreferred(h, nb);
    LargeBest(h, v.ring[0], nb);
    BestIsFree(h, v.ring[0], nb);
  }

  lemma NoneTaken(h: Heap, nb: nat)
    requires Inv(h) && ValidBins(h.bins) && h.dvsize < WORD && MIN_LARGE <= nb < WORD && !TakesLarge(h, nb)
    ensures forall c :: !Source(h, c, nb)
  {
    hide Inv, ValidBins, Source, TakesLarge;
    forall c ensures !Source(h, c, nb) {
      if Source(h, c, nb) {
        LargeTaken(h, c, nb);
      }
    }
  }

  // ---- malloc --------------------------------------------------------------------------------------

  /**
   Every malloc: a request is served from a smallest fitting free chunk if that is preferred to dv, else
   from dv if dv is large enough, else from the front of top if top is larger, and only else by the system.
   */
  lemma MallocPlaces(h: Heap, bytes: nat)
    requires Inv(h)
    ensures h.g.topsize < WORD && Places(h, Malloc(h, bytes), Needed(bytes))
  {
    hide Inv, SmallMalloc, LargeMalloc, FromDvOrTop, Places, Source;
    FreshIsEmpty(h);
    if bytes <= MAX_SMALL_REQUEST {
      SmallPlaces(h, RequestToSize(bytes));
    } else if bytes >= MAX_REQUEST {
      NoneSoLarge(h, WORD - 1);
      DvOrTop(h, WORD - 1);
    } else {
      LargePlaces(h, PadRequest(bytes));
    }
  }

  lemma NoneSoLarge(h: Heap, nb: nat)
    requires Inv(h) && ValidBins(h.bins) && nb == WORD - 1
    ensures forall c :: !Source(h, c, nb)
  {
    hide Inv, ValidBins, Held;
    forall c ensures !Source(h, c, nb) {
      if Source(h, c, nb) {
        FreeMarked(h, c);
      }
    }
  }

  // ---- when a request is served ----------------------------------------------------------------------

  /** If some free chunk fits, a smallest one does. */
  lemma {:induction false} SomeBest(h: Heap, c: Chunk, nb: nat) returns (b: Chunk)
    requires ShouldBin(h, c) && nb <= c.size
    ensures Best(h, b, nb)
    decreases c.size
  {
    if d :| ShouldBin(h, d) && nb <= d.size && d.size < c.size {
      b := SomeBest(h, d, nb);
    } else {
      b := c;
    }
  }

  /** A request that dv, top or any binned chunk can serve is served from there. */
  lemma ServedLocally(h: Heap, bytes: nat)
    requires Inv(h) && ValidBins(h.bins) && !Unserved(h, Needed(bytes))
    ensures Malloc(h, bytes).Done? && Malloc(h, bytes).got != NULL
  {
    hide Inv, Held, Malloc;
    var nb := Needed(bytes);
    MallocPlaces(h, bytes);
    if LastResort(h, nb) {
      var c :| Held(h.bins, c) > 0 && nb <= c.size;
      FreeIsHeld(h, c);
      var b := SomeBest(h, c, nb);
      Chosen(h, b, nb);
    }
  }

  /** What sys_alloc asks for covers what top lacks, rounded up to pages, and is 0 only for a request of almost 2 GB. */
  lemma AskedIs(h: Heap, nb: nat)
    requires Inv(h) && nb % 8 == 0 && 16 <= nb <= WORD - 48 && h.g.topsize <= nb && !WrapsFirst(h, nb)
    ensures var n := Asked(h, nb);
            && n < HALF_MAX && n % 8 == 0
            && (n > 0 ==> nb - h.g.topsize + TOP_FOOT + 1 < n <= nb + TOP_FOOT + 1 + PAGE)
            && (n == 0 ==> nb + TOP_FOOT + 1 + PAGE >= HALF_MAX)
            && (h.contiguous && nb - h.g.topsize + TOP_FOOT + 1 + PAGE < HALF_MAX ==>
                  0 < n <= nb - h.g.topsize + TOP_FOOT + 1 + PAGE)
  {
    var short := nb - h.g.topsize + TOP_FOOT + 1;
    assert (nb + WORD - h.g.topsize + TOP_FOOT + 1) % WORD == short;
    NextPage(short);
    NextPage(nb + TOP_FOOT + 1);
  }

  /** sys_alloc asks for nothing and gives nothing, or panics for want of address space, or serves the request. */
  lemma SysServes(h: Heap, nb: nat)
    requires Inv(h) && nb % 8 == 0 && 16 <= nb <= WORD - 48 && h.g.topsize <= nb
    requires !WrapsFirst(h, nb) && !WrapsBreak(h, nb)
    ensures var n := Asked(h, nb); var o := SysAlloc(h, nb);
            if n == 0 then o.Done? && o.got == NULL
            else if Exhausted(h, n) then o == Panic
            else o.Done? && o.got == Chunk(if h.g.top == 0 then HEAP_START else h.g.top, nb)
  {
    hide FirstAsk, LaterAsk;
    AskedIs(h, nb);
    var n := Asked(h, nb);
    if h.g.top == 0 && h.contiguous {
      FirstSize(h, nb);
    }
    if n > 0 && !(h.contiguous && FirstAsk(h, nb) < HALF_MAX) {
      LaterSize(nb, n);
      Enough(h.(contiguous := false), n, nb);
    } else {
      Enough(h, n, nb);
    }
  }

  /** Once the segment has grown, top is larger than the request. */
  lemma Enough(h: Heap, n: nat, nb: nat)
    requires (h.g.top == 0 ==> h.g.topsize == 0) && n < WORD && TOP_FOOT < WORD
    requires n > 0 ==> nb - h.g.topsize + TOP_FOOT + 1 < n
    requires h.g.topsize <= nb
    ensures n > 0 ==> nb < Extended(h, n).g.topsize && Extended(h, n).g.top == (if h.g.top == 0 then HEAP_START else h.g.top)
  {
  }

  /**
   malloc fails only when no free memory fits and the request is too large for sys_alloc to ask for, or
   to begin with; and it panics only when no free memory fits and the kernel heap area is exhausted.
   */
  lemma MallocServed(h: Heap, bytes: nat)
    requires Inv(h) && !Overflows(h, Needed(bytes))
    ensures ValidBins(h.bins) && h.g.topsize < WORD
    ensures var nb := Needed(bytes); var o := Malloc(h, bytes); var n := Asked(h, nb);
            && (o == Panic <==> Unserved(h, nb) && Exhausted(h, n))
            && (o.Done? && o.got != NULL <==>
                  !Unserved(h, nb) || (bytes < MAX_REQUEST && 0 < n && !Exhausted(h, n)))
  {
    hide Inv, ValidBins, Held, Malloc, SysAlloc, Exhausted, Asked, Overflows;
    FreshIsEmpty(h);
    var nb := Needed(bytes);
    if !Unserved(h, nb) {
      ServedLocally(h, bytes);
    } else {
      BySystem(h, bytes);
      if bytes < MAX_REQUEST {
        NoOverflow(h, nb);
        SysServes(h, nb);
        NothingAsked(h);
      } else {
        HugeFails(h);
      }
    }
  }

  lemma NothingAsked(h: Heap)
    ensures !Exhausted(h, 0)
  {
  }

  lemma NoOverflow(h: Heap, nb: nat)
    requires Inv(h) && ValidBins(h.bins) && h.g.topsize < WORD && nb < WORD && Unserved(h, nb) && !Overflows(h, nb)
    ensures !WrapsFirst(h, nb) && !WrapsBreak(h, nb)
  {
  }

  lemma BySystem(h: Heap, bytes: nat)
    requires Inv(h) && ValidBins(h.bins) && h.g.topsize < WORD && Unserved(h, Needed(bytes))
    ensures Malloc(h, bytes) == SysAlloc(h, Needed(bytes))
  {
    hide Inv, ValidBins, Held, Malloc, SysAlloc;
    var nb := Needed(bytes);
    MallocPlaces(h, bytes);
    forall c ensures !Source(h, c, nb) {
      if Source(h, c, nb) {
        FreeIsHeld(h, c);
      }
    }
  }

  /** A request beyond MAX_REQUEST is never granted. */
  lemma HugeFails(h: Heap)
    requires Inv(h) && h.g.topsize < WORD && LastResort(h, WORD - 1)
    ensures var o := SysAlloc(h, WORD - 1); var n := Asked(h, WORD - 1);
            if Exhausted(h, n) then o == Panic else o.Done? && o.got == NULL
  {
    HugeAsk(h);
  }
}
