/** dlmalloc: where the memory for a request comes from, and what is left of the heap. */
module DlMalloc {
  import opened Words
  import opened TreeBins
  import opened BinIndex
  import opened Bins
  import opened BestFit
  import opened Tags
  import opened HeapState

  const MAX_REQUEST := 0xFFFF_FFC0
  const MAX_SMALL_REQUEST := 244
  const MIN_REQUEST := 11

  function PadRequest(bytes: nat): nat {
    (bytes + 11) / 8 * 8
  }

  function RequestToSize(bytes: nat): (nb: nat)
    ensures nb % 8 == 0 && 16 <= nb && bytes + 4 <= nb
    ensures bytes < MAX_REQUEST ==> nb < WORD - 40
  {
    if bytes < MIN_REQUEST then 16 else PadRequest(bytes)
  }

  /** Exactly one chunk went into use, at an address where none was before. */
  ghost predicate Served(h: Heap, h': Heap, p: Chunk) {
    && Ready(h')
    && (forall c :: IsLive(h'.g, c) <==> IsLive(h.g, c) || c == p)
    && (forall n :: !IsLive(h.g, Chunk(p.addr, n)))
  }

  ghost predicate Fits(p: Chunk, nb: nat) {
    nb <= p.size < nb + 16 && p.addr % 8 == 0 && p.size % 8 == 0 && 0 < p.addr
  }

  lemma Interior(g: Tags, c: Chunk, k: nat)
    requires Tagged(g) && c.addr in g.starts && SizeAt(g, c.addr) == c.size && 0 < k < c.size
    ensures c.addr + k !in g.starts
  {
    assert c.addr + k in g.starts ==> Apart(g, c.addr, c.addr + k);
  }

  /** A free chunk has no live chunk at its address. */
  lemma FreeNotLive(g: Tags, c: Chunk, n: nat)
    requires IsFree(g, c)
    ensures !IsLive(g, Chunk(c.addr, n))
  {
  }

  lemma HeldIsFree(h: Heap, c: Chunk)
    requires BinsOk(h) && Held(h.bins, c) > 0
    ensures IsFree(h.g, c) && c.addr != h.dv
  {
  }

  // ---- a binned chunk taken whole --------------------------------------------------

  function UseBinned(h: Heap, c: Chunk): (r: Heap)
    requires ValidBins(h.bins) && Held(h.bins, c) > 0 && c.size > 0
  {
    h.(g := TakeWhole(h.g, c), bins := UnlinkChunk(h.bins, c))
  }

  lemma UsedBinned(h: Heap, c: Chunk)
    requires Ready(h) && Held(h.bins, c) > 0
    ensures c.size > 0 && Served(h, UseBinned(h, c), c)
  {
    HeldIsFree(h, c);
    TakenWhole(h.g, c);
    ChunkUnlinked(h.bins, c);
    var h' := UseBinned(h, c);
    forall d ensures Held(h'.bins, d) == if ShouldBin(h', d) then 1 else 0 {
      assert Held(h.bins, d) == Held(h'.bins, d) + One(c, d);
    }
    forall n ensures !IsLive(h.g, Chunk(c.addr, n)) {
      FreeNotLive(h.g, c, n);
    }
  }

  // ---- a binned chunk split, the rest binned (tmalloc_large) ------------------------

  function Rest(c: Chunk, nb: nat): Chunk
    requires nb <= c.size
  {
    Chunk(c.addr + nb, c.size - nb)
  }

  function Unbinned(b: Bins, c: Chunk): (r: Bins)
    requires ValidBins(b) && Held(b, c) > 0
    ensures ValidBins(r)
    ensures forall d :: Held(b, d) == Held(r, d) + One(c, d)
  {
    ChunkUnlinked(b, c);
    UnlinkChunk(b, c)
  }

  function Binned(b: Bins, c: Chunk): (r: Bins)
    requires ValidBins(b) && c.size < WORD && c.size % 8 == 0
    ensures ValidBins(r)
    ensures forall d :: Held(r, d) == Held(b, d) + One(c, d)
  {
    ChunkInserted(b, c);
    InsertChunk(b, c)
  }

  function SplitBinned(h: Heap, c: Chunk, nb: nat): (r: Heap)
    requires ValidBins(h.bins) && Held(h.bins, c) > 0 && 0 < c.size < WORD && c.size % 8 == 0 && nb <= c.size && nb % 8 == 0
  {
    h.(g := TakeSplit(h.g, c, nb), bins := Binned(Unbinned(h.bins, c), Rest(c, nb)))
  }

  /** The remainder of a split free chunk was not a chunk before. */
  lemma RestIsNew(h: Heap, c: Chunk, nb: nat)
    requires Ready(h) && IsFree(h.g, c) && 0 < nb < c.size
    ensures c.addr + nb != h.dv && Held(h.bins, Rest(c, nb)) == 0
  {
    Interior(h.g, c, nb);
    FreeChunk(h.g, c);
  }

  lemma SplitBinnedServed(h: Heap, c: Chunk, nb: nat)
    requires Ready(h) && Held(h.bins, c) > 0 && 16 <= nb && nb % 8 == 0 && nb + 16 <= c.size
    ensures 0 < c.size < WORD && c.size % 8 == 0 && Served(h, SplitBinned(h, c, nb), Chunk(c.addr, nb))
  {
    hide Held, Unbinned, Binned, Tagged;
    HeldIsFree(h, c);
    FreeChunk(h.g, c);
    TakenSplit(h.g, c, nb);
    RestIsNew(h, c, nb);
    var h' := SplitBinned(h, c, nb);
    forall d ensures Held(h'.bins, d) == if ShouldBin(h', d) then 1 else 0 {
      RestBinned(h, c, nb, d);
    }
    forall n ensures !IsLive(h.g, Chunk(c.addr, n)) {
      FreeNotLive(h.g, c, n);
    }
  }

  lemma RestBinned(h: Heap, c: Chunk, nb: nat, d: Chunk)
    requires Ready(h) && Held(h.bins, c) > 0 && 0 < nb < c.size && nb % 8 == 0
    ensures c.size < WORD && c.size % 8 == 0
    ensures Held(Binned(Unbinned(h.bins, c), Rest(c, nb)), d) ==
            (if (ShouldBin(h, d) && d.addr != c.addr) || d == Rest(c, nb) then 1 else 0)
  {
    HeldIsFree(h, c);
    FreeChunk(h.g, c);
    RestIsNew(h, c, nb);
    assert Held(h.bins, d) == Held(Unbinned(h.bins, c), d) + One(c, d);
    assert Held(h.bins, d) == if ShouldBin(h, d) then 1 else 0;
  }

  // ---- a binned chunk split, the rest the new dv (small requests) --------------------

  /** replace_dv on the bins: the old victim, if any, goes to a small bin. */
  function BinOldDv(h: Heap, b: Bins): (r: Bins)
    requires ValidBins(b) && h.dvsize < WORD && h.dvsize % 8 == 0
  {
    if h.dvsize == 0 then b else Binned(b, Chunk(h.dv, h.dvsize))
  }

  function SplitToDv(h: Heap, c: Chunk, nb: nat): (r: Heap)
    requires ValidBins(h.bins) && Held(h.bins, c) > 0 && 0 < c.size < WORD && nb <= c.size
    requires h.dvsize < WORD && h.dvsize % 8 == 0
  {
    h.(g := TakeSplit(h.g, c, nb), bins := BinOldDv(h, Unbinned(h.bins, c)),
       dv := c.addr + nb, dvsize := c.size - nb)
  }

  lemma DvSize(h: Heap)
    requires Ready(h)
    ensures h.dvsize < WORD && h.dvsize % 8 == 0
    ensures h.dvsize > 0 ==> 16 <= h.dvsize && IsFree(h.g, Chunk(h.dv, h.dvsize)) && h.dv > 0
  {
    if h.dvsize > 0 {
      FreeChunk(h.g, Chunk(h.dv, h.dvsize));
    }
  }

  /** Taking c out and binning the old victim leaves every free chunk but c in a bin. */
  lemma OldDvBinned(h: Heap, c: Chunk, d: Chunk)
    requires Ready(h) && Held(h.bins, c) > 0
    ensures h.dvsize < WORD && h.dvsize % 8 == 0
    ensures Held(BinOldDv(h, Unbinned(h.bins, c)), d) == (if IsFree(h.g, d) && d.addr != c.addr then 1 else 0)
  {
    DvSize(h);
    HeldIsFree(h, c);
    assert Held(h.bins, d) == Held(Unbinned(h.bins, c), d) + One(c, d);
    assert Held(h.bins, d) == if ShouldBin(h, d) then 1 else 0;
    if IsFree(h.g, d) {
      FreeChunk(h.g, d);
    }
  }

  lemma SplitToDvServed(h: Heap, c: Chunk, nb: nat)
    requires Ready(h) && Held(h.bins, c) > 0 && 16 <= nb && nb % 8 == 0 && nb + 16 <= c.size
    ensures 0 < c.size < WORD && h.dvsize < WORD && h.dvsize % 8 == 0
    ensures Served(h, SplitToDv(h, c, nb), Chunk(c.addr, nb))
  {
    HeldIsFree(h, c);
    FreeChunk(h.g, c);
    DvSize(h);
    TakenSplit(h.g, c, nb);
    RestIsNew(h, c, nb);
    var h' := SplitToDv(h, c, nb);
    assert IsFree(h'.g, Chunk(h'.dv, h'.dvsize));
    forall d ensures Held(h'.bins, d) == if ShouldBin(h', d) then 1 else 0 {
      OldDvBinned(h, c, d);
      if d.addr == h'.dv {
        Interior(h.g, c, nb);
      }
    }
    forall n ensures !IsLive(h.g, Chunk(c.addr, n)) {
      FreeNotLive(h.g, c, n);
    }
  }

  // ---- from dv ---------------------------------------------------------------------------

  function UseDv(h: Heap, nb: nat): (r: Heap)
    requires nb <= h.dvsize && 0 < h.dvsize
  {
    var c := Chunk(h.dv, h.dvsize);
    if h.dvsize - nb >= 16 then h.(g := TakeSplit(h.g, c, nb), dv := h.dv + nb, dvsize := h.dvsize - nb)
    else h.(g := TakeWhole(h.g, c), dv := 0, dvsize := 0)
  }

  function UsedOfDv(h: Heap, nb: nat): Chunk
    requires nb <= h.dvsize
  {
    Chunk(h.dv, if h.dvsize - nb >= 16 then nb else h.dvsize)
  }

  lemma UseDvServed(h: Heap, nb: nat)
    requires Ready(h) && 16 <= nb <= h.dvsize && nb % 8 == 0
    ensures Served(h, UseDv(h, nb), UsedOfDv(h, nb)) && Fits(UsedOfDv(h, nb), nb)
  {
    hide Held, Tagged;
    var c := Chunk(h.dv, h.dvsize);
    FreeChunk(h.g, c);
    var h' := UseDv(h, nb);
    if h.dvsize - nb >= 16 {
      TakenSplit(h.g, c, nb);
      RestIsNew(h, c, nb);
      Interior(h.g, c, nb);
      assert IsFree(h'.g, Chunk(h'.dv, h'.dvsize));
    } else {
      TakenWhole(h.g, c);
    }
    forall d ensures Held(h'.bins, d) == if ShouldBin(h', d) then 1 else 0 {
      assert Held(h.bins, d) == if ShouldBin(h, d) then 1 else 0;
      if IsFree(h.g, d) {
        FreeChunk(h.g, d);
      }
    }
    forall n ensures !IsLive(h.g, Chunk(c.addr, n)) {
      FreeNotLive(h.g, c, n);
    }
  }

  // ---- from top --------------------------------------------------------------------------

  function UseTop(h: Heap, nb: nat): (r: Heap)
    requires nb <= h.g.topsize
  {
    h.(g := TakeTop(h.g, nb))
  }

  lemma UseTopServed(h: Heap, nb: nat)
    requires Ready(h) && 16 <= nb < h.g.topsize && nb % 8 == 0
    ensures Served(h, UseTop(h, nb), Chunk(h.g.top, nb)) && Fits(Chunk(h.g.top, nb), nb)
  {
    TakeTopTagged(h.g, nb);
    var h' := UseTop(h, nb);
    forall d
      ensures IsFree(h'.g, d) <==> IsFree(h.g, d)
      ensures IsLive(h'.g, d) <==> IsLive(h.g, d) || d == Chunk(h.g.top, nb)
    {
      TakeTopChunks(h.g, nb, d);
    }
    forall d ensures Held(h'.bins, d) == if ShouldBin(h', d) then 1 else 0 {
      assert Held(h.bins, d) == if ShouldBin(h, d) then 1 else 0;
    }
    forall n ensures !IsLive(h.g, Chunk(h.g.top, n)) {
      if h.g.top in h.g.starts {
        assert BoundAt(h.g, h.g.top);
      }
    }
  }

  // ---- memory from the system -------------------------------------------------------------

  const HALF_MAX := 0x7FFF_FFFF

  /** MORECORE panics instead of returning when the kernel heap area is exhausted. */
  datatype Outcome = Panic | Done(h: Heap, got: Chunk)

  const NULL := Chunk(0, 0)

  /** granularity_align: always rounds up to a later page, modulo 2^32. */
  function GranularityAlign(s: nat): (r: nat)
    ensures s < WORD - PAGE ==> s < r <= s + PAGE && PAGE <= r && r % 8 == 0
    ensures WORD - PAGE <= s < WORD ==> r == 0
  {
    NextPage(s);
    Wrap32((s + PAGE) / PAGE * PAGE)
  }

  /** The page boundary after s. */
  lemma NextPage(s: nat)
    ensures var r := (s + PAGE) / PAGE * PAGE;
            && s < r <= s + PAGE && r % 8 == 0
            && (WORD - PAGE <= s < WORD ==> r == WORD && Wrap32(r) == 0)
  {
    var k := (s + PAGE) / PAGE;
    assert k * PAGE == 8 * (512 * k);
  }

  /** The break after MORECORE(n): the sum is taken in 32 bits. */
  function Moved(h: Heap, n: nat): nat {
    Wrap32(h.brk + n)
  }

  /** MORECORE maps pages up to the new break, and panics when that reaches the end of the heap area. */
  predicate Exhausted(h: Heap, n: nat) {
    n > 0 && Moved(h, n) >= HEAP_LIMIT
  }

  /** The segment after MORECORE added n bytes at its end: top takes them all. */
  function Extended(h: Heap, n: nat): (r: Heap) {
    if h.g.top == 0 then
      var size := (n + WORD - TOP_FOOT) % WORD;
      h.(g := Tags(map[HEAP_START := Head(size, true, false)], map[], {}, HEAP_START, HEAP_START, size),
         end := HEAP_START + n, brk := Moved(h, n), trimCheck := TRIM_THRESHOLD)
    else
      h.(g := ResizeTop(h.g, h.g.topsize + n), end := h.end + n, brk := Moved(h, n), trimCheck := TRIM_THRESHOLD)
  }

  function Grow(h: Heap, n: nat, nb: nat): (o: Outcome) {
    if Exhausted(h, n) then Panic
    else
      var h' := Extended(h, n);
      if nb < h'.g.topsize then Done(UseTop(h', nb), Chunk(h'.g.top, nb)) else Done(h', NULL)
  }

  /** The last resort: the memory is used only if the break went up by enough. */
  function GrowApart(h: Heap, n: nat, nb: nat): (o: Outcome) {
    if !Exhausted(h, n) && !(h.brk < Moved(h, n) && (nb + TOP_FOOT) % WORD < Moved(h, n) - h.brk)
    then Done(h.(brk := Moved(h, n)), NULL)
    else Grow(h, n, nb)
  }

  /** The size of the first MORECORE call, which counts on what is left of top. */
  function FirstAsk(h: Heap, nb: nat): nat
    requires nb < WORD && h.g.topsize < WORD
  {
    GranularityAlign((nb + WORD - h.g.topsize + TOP_FOOT + 1) % WORD)
  }

  function LaterAsk(nb: nat): nat {
    GranularityAlign((nb + TOP_FOOT + 1) % WORD)
  }

  /** sys_alloc with contiguous MORECORE and no mmap. */
  function SysAlloc(h: Heap, nb: nat): (o: Outcome)
    requires nb < WORD && h.g.topsize < WORD
  {
    if h.contiguous && FirstAsk(h, nb) < HALF_MAX then Grow(h, FirstAsk(h, nb), nb)
    else
      var h1 := h.(contiguous := false);
      if LaterAsk(nb) < HALF_MAX then GrowApart(h1, LaterAsk(nb), nb) else Done(h1, NULL)
  }

  /** The live chunks are as before. */
  ghost predicate SameLive(h: Heap, h': Heap) {
    forall c :: IsLive(h'.g, c) <==> IsLive(h.g, c)
  }

  /** A correct outcome: no memory and nothing changed for the live chunks, or one new fitting chunk. */
  ghost predicate GoodOutcome(h: Heap, o: Outcome, nb: nat) {
    match o
    case Panic => true
    case Done(h', got) =>
      if got == NULL then Inv(h') && SameLive(h, h') else Served(h, h', got) && Fits(got, nb)
  }

  lemma ExtendedReady(h: Heap, n: nat)
    requires Inv(h) && h.brk + n < HEAP_LIMIT
    requires Fresh(h) ==> TOP_FOOT < n && n % 8 == 0
    ensures Ready(Extended(h, n)) && SameLive(h, Extended(h, n))
    ensures Extended(h, n).g.topsize == (if Fresh(h) then n - TOP_FOOT else h.g.topsize + n)
  {
    var h' := Extended(h, n);
    if Fresh(h) {
    } else {
      ResizeTopTagged(h.g, h.g.topsize + n);
      forall d ensures Held(h'.bins, d) == if ShouldBin(h', d) then 1 else 0 {
        assert Held(h.bins, d) == if ShouldBin(h, d) then 1 else 0;
      }
    }
  }

  lemma ServedAfter(h: Heap, h1: Heap, h2: Heap, p: Chunk)
    requires SameLive(h, h1) && Served(h1, h2, p)
    ensures Served(h, h2, p)
  {
  }

  lemma GrowGood(h: Heap, n: nat, nb: nat)
    requires Inv(h) && h.brk + n < WORD && 16 <= nb < WORD && (nb % 8 == 0 || nb == WORD - 1)
    requires Fresh(h) ==> TOP_FOOT < n && n % 8 == 0
    ensures GoodOutcome(h, Grow(h, n, nb), nb)
  {
    if !Exhausted(h, n) {
      ExtendedReady(h, n);
      var h' := Extended(h, n);
      if nb < h'.g.topsize {
        UseTopServed(h', nb);
        ServedAfter(h, h', UseTop(h', nb), Chunk(h'.g.top, nb));
      }
    }
  }

  /** The bytes that the one MORECORE call of sys_alloc is asked for. */
  function Asked(h: Heap, nb: nat): nat
    requires nb < WORD && h.g.topsize < WORD
  {
    if h.contiguous && FirstAsk(h, nb) < HALF_MAX then FirstAsk(h, nb)
    else if LaterAsk(nb) < HALF_MAX then LaterAsk(nb) else 0
  }

  /** The first of all requests, so large that its segment size wraps to 0. */
  ghost predicate WrapsFirst(h: Heap, nb: nat) {
    h.g.top == 0 && h.contiguous && WORD - PAGE <= nb + TOP_FOOT + 1 < WORD
  }

  /** The break plus the bytes asked for reach 2^32, so that MORECORE takes the sum for a low address. */
  predicate WrapsBreak(h: Heap, nb: nat)
    requires nb < WORD && h.g.topsize < WORD
  {
    h.brk + Asked(h, nb) >= WORD
  }

  lemma FirstSize(h: Heap, nb: nat)
    requires h.g.topsize == 0 && 16 <= nb < WORD && (nb % 8 == 0 || nb == WORD - 1)
    requires !(WORD - PAGE <= nb + TOP_FOOT + 1 < WORD)
    ensures TOP_FOOT < FirstAsk(h, nb) && FirstAsk(h, nb) % 8 == 0
  {
  }

  lemma SysAllocGood(h: Heap, nb: nat)
    requires Inv(h) && h.g.topsize < WORD && 16 <= nb < WORD && (nb % 8 == 0 || nb == WORD - 1)
    requires !WrapsFirst(h, nb) && !WrapsBreak(h, nb)
    ensures GoodOutcome(h, SysAlloc(h, nb), nb)
  {
    hide GoodOutcome, Grow, GrowApart, FirstAsk, LaterAsk;
    if h.contiguous && FirstAsk(h, nb) < HALF_MAX {
      if Fresh(h) {
        FirstSize(h, nb);
      }
      GrowGood(h, FirstAsk(h, nb), nb);
    } else {
      var h1 := h.(contiguous := false);
      SameButFlag(h);
      if LaterAsk(nb) < HALF_MAX {
        LaterGood(h1, LaterAsk(nb), nb);
        FlagOutcome(h, h1, SysAlloc(h, nb), nb);
      } else {
        NoneGood(h, h1, nb);
      }
    }
  }

  lemma NoneGood(h: Heap, h1: Heap, nb: nat)
    requires Inv(h1) && SameLive(h, h1)
    ensures GoodOutcome(h, Done(h1, NULL), nb)
  {
  }

  /** The noncontiguous path, which still extends the one segment. */
  lemma LaterGood(h: Heap, n: nat, nb: nat)
    requires Inv(h) && 16 <= nb < WORD && (nb % 8 == 0 || nb == WORD - 1)
    requires n == LaterAsk(nb) && h.brk + n < WORD
    ensures GoodOutcome(h, GrowApart(h, n, nb), nb)
  {
    hide GoodOutcome, Grow;
    if n == 0 {
      assert h.(brk := Moved(h, n)) == h;
      NoneGood(h, h, nb);
    } else {
      LaterSize(nb, n);
      GrowGood(h, n, nb);
    }
  }

  lemma LaterSize(nb: nat, n: nat)
    requires 16 <= nb < WORD && (nb % 8 == 0 || nb == WORD - 1) && n == LaterAsk(nb) && 0 < n
    ensures TOP_FOOT < n && n % 8 == 0 && (nb + TOP_FOOT) % WORD < n
  {
  }

  /** Once the break has wrapped, the segment runs past the address space, or ends elsewhere than the break. */
  lemma WrappedBreak(h: Heap, nb: nat)
    requires Inv(h) && nb < WORD && h.g.topsize < WORD && WrapsBreak(h, nb)
    ensures SysAlloc(h, nb).Done? && !Inv(SysAlloc(h, nb).h)
  {
    hide FirstAsk, LaterAsk;
    var n := Asked(h, nb);
    assert n < HALF_MAX && h.brk < HEAP_LIMIT;
    assert Moved(h, n) == h.brk + n - WORD < h.brk;
    if h.contiguous && FirstAsk(h, nb) < HALF_MAX {
      assert SysAlloc(h, nb).h.end >= WORD;
    } else {
      assert SysAlloc(h, nb).h.brk < h.brk;
    }
  }

  lemma SameButFlag(h: Heap)
    requires Inv(h)
    ensures Inv(h.(contiguous := false)) && SameLive(h, h.(contiguous := false))
  {
    var h1 := h.(contiguous := false);
    if Ready(h) {
      forall d ensures Held(h1.bins, d) == if ShouldBin(h1, d) then 1 else 0 {
        assert Held(h.bins, d) == if ShouldBin(h, d) then 1 else 0;
      }
    }
  }

  lemma FlagOutcome(h: Heap, h1: Heap, o: Outcome, nb: nat)
    requires SameLive(h, h1) && GoodOutcome(h1, o, nb)
    ensures GoodOutcome(h, o, nb)
  {
    if o.Done? && o.got != NULL {
      ServedAfter(h, h1, o.h, o.got);
    }
  }

  // ---- dlmalloc ---------------------------------------------------------------------------------

  /** dv, then top, then the system. */
  function FromDvOrTop(h: Heap, nb: nat): (o: Outcome)
    requires 0 < nb < WORD && h.g.topsize < WORD
  {
    if nb <= h.dvsize then Done(UseDv(h, nb), UsedOfDv(h, nb))
    else if nb < h.g.topsize then Done(UseTop(h, nb), Chunk(h.g.top, nb))
    else SysAlloc(h, nb)
  }

  /** The chunk at the front of a marked small bin. */
  function FirstOf(b: Bins, i: nat): (c: Chunk)
    requires ValidBins(b) && 0 < i < NBINS && b.smallmap[i]
    ensures Held(b, c) > 0 && c.size == 8 * i
  {
    assert SmallOk(b.small[i], b.smallmap[i], i);
    assert b.small[i][0] in b.small[i];
    b.small[i][0]
  }

  /** A chunk of the given bin, taken whole. */
  function FromSmallBin(h: Heap, i: nat): (o: Outcome)
    requires ValidBins(h.bins) && 0 < i < NBINS && h.bins.smallmap[i]
  {
    var c := FirstOf(h.bins, i);
    Done(UseBinned(h, c), c)
  }

  /** The smallest chunk of all trees. */
  function SmallestLarge(b: Bins, nb: nat): (c: Chunk)
    requires ValidBins(b) && 0 < nb < MIN_LARGE && NextMarked(b.treemap, 0) < NBINS
    ensures Held(b, c) > 0 && nb <= c.size < WORD
    ensures forall d :: LargeHeld(b, d) ==> c.size <= d.size
  {
    SmallFitIsBest(b, nb);
    SmallestIn(b, NextMarked(b.treemap, 0), nb).v.ring[0]
  }

  /** Split the chunk c and make the rest the new dv, unless the rest is too small to be a chunk. */
  function SplitForSmall(h: Heap, c: Chunk, nb: nat): (o: Outcome)
    requires ValidBins(h.bins) && Held(h.bins, c) > 0 && nb <= c.size && 0 < c.size < WORD
    requires h.dvsize < WORD && h.dvsize % 8 == 0
  {
    if c.size - nb < 16 then Done(UseBinned(h, c), c)
    else Done(SplitToDv(h, c, nb), Chunk(c.addr, nb))
  }

  function SplitForLarge(h: Heap, c: Chunk, nb: nat): (o: Outcome)
    requires ValidBins(h.bins) && Held(h.bins, c) > 0 && nb <= c.size && 0 < c.size < WORD
    requires c.size % 8 == 0 && nb % 8 == 0
  {
    if c.size - nb < 16 then Done(UseBinned(h, c), c)
    else Done(SplitBinned(h, c, nb), Chunk(c.addr, nb))
  }

  lemma BinnedSize(h: Heap, c: Chunk)
    requires Ready(h) && Held(h.bins, c) > 0
    ensures 16 <= c.size < WORD && c.size % 8 == 0 && c.addr % 8 == 0 && 0 < c.addr
  {
    HeldIsFree(h, c);
    FreeChunk(h.g, c);
  }

  /** A Fresh heap has nothing to hand out but what the system gives. */
  lemma FreshIsEmpty(h: Heap)
    requires Inv(h)
    ensures ValidBins(h.bins) && h.dvsize < WORD && h.dvsize % 8 == 0 && h.g.topsize < WORD
    ensures (exists c :: Held(h.bins, c) > 0) ==> Ready(h)
  {
    if Ready(h) {
      DvSize(h);
    }
  }

  /** A larger small bin, else the smallest tree chunk, else dv and top. */
  function SplitSmallest(h: Heap, nb: nat): (o: Outcome)
    requires Inv(h) && 16 <= nb < MIN_LARGE && nb % 8 == 0
  {
    FreshIsEmpty(h);
    var j := NextMarked(h.bins.smallmap, nb / 8);
    if j < NBINS then SplitForSmall(h, FirstOf(h.bins, j), nb)
    else if NextMarked(h.bins.treemap, 0) < NBINS then SplitForSmall(h, SmallestLarge(h.bins, nb), nb)
    else FromDvOrTop(h, nb)
  }

  function SmallMalloc(h: Heap, nb: nat): (o: Outcome)
    requires Inv(h) && 16 <= nb < MIN_LARGE && nb % 8 == 0
  {
    FreshIsEmpty(h);
    var idx := nb / 8;
    if h.bins.smallmap[idx] then FromSmallBin(h, idx)
    else if idx + 1 < NBINS && h.bins.smallmap[idx + 1] then FromSmallBin(h, idx + 1)
    else if nb > h.dvsize then SplitSmallest(h, nb)
    else FromDvOrTop(h, nb)
  }

  function LargeMalloc(h: Heap, nb: nat): (o: Outcome)
    requires Inv(h) && MIN_LARGE <= nb < WORD && nb % 8 == 0
  {
    FreshIsEmpty(h);
    LargeFitIsBest(h.bins, nb);
    var f := LargeFit(h.bins, nb);
    if NextMarked(h.bins.treemap, 0) < NBINS && f.v.Node? && f.rem < Sub32(h.dvsize, nb) then
      assert Held(h.bins, f.v.ring[0]) > 0;
      BinnedSize(h, f.v.ring[0]);
      SplitForLarge(h, f.v.ring[0], nb)
    else FromDvOrTop(h, nb)
  }

  /**
   tmalloc_large gives up its best chunk exactly when dv fits the request at least as well: the
   comparison of remainders is unsigned, so that a dv too small for the request never wins.
   */
  lemma DvPreferred(h: Heap, nb: nat)
    requires Inv(h) && MIN_LARGE <= nb < WORD && ValidBins(h.bins) && h.dvsize < WORD && LargeFit(h.bins, nb).v.Node?
    ensures var f := LargeFit(h.bins, nb);
            && f.v.ring != []
            && (f.rem < Sub32(h.dvsize, nb) <==> !(nb <= h.dvsize <= f.v.ring[0].size))
  {
    LargeFitIsBest(h.bins, nb);
  }

  function Malloc(h: Heap, bytes: nat): (o: Outcome)
    requires Inv(h)
  {
    FreshIsEmpty(h);
    if bytes <= MAX_SMALL_REQUEST then SmallMalloc(h, RequestToSize(bytes))
    else if bytes >= MAX_REQUEST then FromDvOrTop(h, WORD - 1)
    else LargeMalloc(h, PadRequest(bytes))
  }

  // ---- correctness ------------------------------------------------------------------------------

  /** dv, then top, then the system, and the request that the system gets wrong. */
  ghost predicate LastResort(h: Heap, nb: nat) {
    nb > h.dvsize && nb >= h.g.topsize
  }

  lemma FromDvOrTopGood(h: Heap, nb: nat)
    requires Inv(h) && 16 <= nb < WORD && (nb % 8 == 0 || nb == WORD - 1) && h.g.topsize < WORD
    requires !WrapsFirst(h, nb) && !(LastResort(h, nb) && WrapsBreak(h, nb))
    ensures GoodOutcome(h, FromDvOrTop(h, nb), nb)
  {
    hide WrapsBreak, SysAlloc;
    if nb <= h.dvsize {
      DvSize(h);
      UseDvServed(h, nb);
    } else if nb < h.g.topsize {
      UseTopServed(h, nb);
    } else {
      SysAllocGood(h, nb);
    }
  }

  lemma FromSmallBinGood(h: Heap, i: nat, nb: nat)
    requires Inv(h) && 0 < i < NBINS && ValidBins(h.bins) && h.bins.smallmap[i]
    requires nb <= 8 * i < nb + 16
    ensures GoodOutcome(h, FromSmallBin(h, i), nb)
  {
    var c := FirstOf(h.bins, i);
    FreshIsEmpty(h);
    BinnedSize(h, c);
    UsedBinned(h, c);
  }

  lemma SplitForSmallGood(h: Heap, c: Chunk, nb: nat)
    requires Ready(h) && Held(h.bins, c) > 0 && 16 <= nb <= c.size && nb % 8 == 0
    requires c.size < WORD && h.dvsize < WORD && h.dvsize % 8 == 0
    ensures GoodOutcome(h, SplitForSmall(h, c, nb), nb)
  {
    BinnedSize(h, c);
    if c.size - nb < 16 {
      UsedBinned(h, c);
    } else {
      SplitToDvServed(h, c, nb);
    }
  }

  lemma SplitForLargeGood(h: Heap, c: Chunk, nb: nat)
    requires Ready(h) && Held(h.bins, c) > 0 && 16 <= nb <= c.size && nb % 8 == 0
    requires c.size < WORD && c.size % 8 == 0
    ensures GoodOutcome(h, SplitForLarge(h, c, nb), nb)
  {
    BinnedSize(h, c);
    if c.size - nb < 16 {
      UsedBinned(h, c);
    } else {
      SplitBinnedServed(h, c, nb);
    }
  }

  lemma SplitSmallestGood(h: Heap, nb: nat)
    requires Inv(h) && 16 <= nb < MIN_LARGE && nb % 8 == 0
    ensures GoodOutcome(h, SplitSmallest(h, nb), nb)
  {
    hide GoodOutcome, SplitForSmall, FromDvOrTop;
    FreshIsEmpty(h);
    var j := NextMarked(h.bins.smallmap, nb / 8);
    if j < NBINS {
      SplitForSmallGood(h, FirstOf(h.bins, j), nb);
    } else if NextMarked(h.bins.treemap, 0) < NBINS {
      SplitForSmallGood(h, SmallestLarge(h.bins, nb), nb);
    } else {
      SmallAsk(h, nb);
      FromDvOrTopGood(h, nb);
    }
  }

  /** A small request asks for two pages at most, and the address space above the heap area has room for them. */
  lemma SmallAsk(h: Heap, nb: nat)
    requires Inv(h) && nb < MIN_LARGE && h.g.topsize < WORD
    ensures !WrapsFirst(h, nb) && !(LastResort(h, nb) && WrapsBreak(h, nb))
  {
    if LastResort(h, nb) {
      assert (nb + WORD - h.g.topsize + TOP_FOOT + 1) % WORD == nb - h.g.topsize + TOP_FOOT + 1;
    }
  }

  lemma SmallMallocGood(h: Heap, nb: nat)
    requires Inv(h) && 16 <= nb < MIN_LARGE && nb % 8 == 0
    ensures GoodOutcome(h, SmallMalloc(h, nb), nb)
  {
    hide GoodOutcome, FromSmallBin, SplitSmallest, FromDvOrTop, Held;
    FreshIsEmpty(h);
    var idx := nb / 8;
    if h.bins.smallmap[idx] {
      FromSmallBinGood(h, idx, nb);
    } else if idx + 1 < NBINS && h.bins.smallmap[idx + 1] {
      FromSmallBinGood(h, idx + 1, nb);
    } else if nb > h.dvsize {
      SplitSmallestGood(h, nb);
    } else {
      SmallAsk(h, nb);
      FromDvOrTopGood(h, nb);
    }
  }

  /** Neither dv, nor top, nor any binned chunk can serve the request. */
  ghost predicate Unserved(h: Heap, nb: nat)
    requires ValidBins(h.bins)
  {
    LastResort(h, nb) && forall c :: Held(h.bins, c) > 0 ==> c.size < nb
  }

  /** The requests that the code gets wrong. */
  ghost predicate Overflows(h: Heap, nb: nat)
    requires Inv(h) && nb < WORD
  {
    FreshIsEmpty(h);
    WrapsFirst(h, nb) || (Unserved(h, nb) && WrapsBreak(h, nb))
  }

  /** tmalloc_large serves the request. */
  predicate TakesLarge(h: Heap, nb: nat)
    requires ValidBins(h.bins) && h.dvsize < WORD && MIN_LARGE <= nb < WORD
  {
    var f := LargeFit(h.bins, nb);
    NextMarked(h.bins.treemap, 0) < NBINS && f.v.Node? && f.rem < Sub32(h.dvsize, nb)
  }

  /** When neither dv nor top will do, tmalloc_large serves exactly what some binned chunk can. */
  lemma LargeChoice(h: Heap, nb: nat)
    requires Inv(h) && MIN_LARGE <= nb < WORD && ValidBins(h.bins) && h.dvsize < WORD && LastResort(h, nb)
    ensures TakesLarge(h, nb) <==> !Unserved(h, nb)
  {
    hide LargeFit, Inv;
    LargeFitIsBest(h.bins, nb);
    var f := LargeFit(h.bins, nb);
    if f.v.Node? {
      var c := f.v.ring[0];
      assert LargeHeld(h.bins, c) && nb <= c.size;
      HeldInOwnTree(h.bins, c);
      DvPreferred(h, nb);
    } else {
      forall c | Held(h.bins, c) > 0 ensures c.size < nb {
        if !IsSmall(c.size) {
          assert LargeHeld(h.bins, c);
        }
      }
    }
  }

  lemma LargeMallocGood(h: Heap, nb: nat)
    requires Inv(h) && MIN_LARGE <= nb < WORD && nb % 8 == 0 && !Overflows(h, nb)
    ensures GoodOutcome(h, LargeMalloc(h, nb), nb)
  {
    hide GoodOutcome, SplitForLarge, FromDvOrTop, LargeFit, WrapsFirst, WrapsBreak, Inv, Unserved;
    FreshIsEmpty(h);
    if TakesLarge(h, nb) {
      LargeFitIsBest(h.bins, nb);
      var c := LargeFit(h.bins, nb).v.ring[0];
      assert Held(h.bins, c) > 0;
      BinnedSize(h, c);
      SplitForLargeGood(h, c, nb);
    } else {
      if LastResort(h, nb) {
        LargeChoice(h, nb);
      }
      FromDvOrTopGood(h, nb);
    }
  }

  function Needed(bytes: nat): nat
    ensures Needed(bytes) < WORD
  {
    if bytes >= MAX_REQUEST then WORD - 1 else RequestToSize(bytes)
  }

  /** A request beyond MAX_REQUEST turns into an ask of at most one page, and fails. */
  lemma HugeAsk(h: Heap)
    requires Inv(h) && h.g.topsize < WORD
    ensures !WrapsFirst(h, WORD - 1) && !WrapsBreak(h, WORD - 1)
  {
    var nb := WORD - 1;
    assert h.g.topsize <= 40 ==> (nb + WORD - h.g.topsize + TOP_FOOT + 1) % WORD == 40 - h.g.topsize;
    assert 40 < h.g.topsize < HEAP_LIMIT - HEAP_START ==> (nb + WORD - h.g.topsize + TOP_FOOT + 1) % WORD == WORD + 40 - h.g.topsize;
    assert (nb + TOP_FOOT + 1) % WORD == 40;
  }

  /**
   Every malloc keeps the heap invariant and all live chunks.  If it returns memory, exactly
   one chunk more is live, where none was before, and its size is the padded request plus less
   than a minimum chunk.
   */
  lemma MallocGood(h: Heap, bytes: nat)
    requires Inv(h) && !Overflows(h, Needed(bytes))
    ensures GoodOutcome(h, Malloc(h, bytes), Needed(bytes))
  {
    hide GoodOutcome, SmallMalloc, LargeMalloc, FromDvOrTop, Inv, Overflows, WrapsFirst, WrapsBreak;
    FreshIsEmpty(h);
    if bytes <= MAX_SMALL_REQUEST {
      SmallMallocGood(h, RequestToSize(bytes));
    } else if bytes >= MAX_REQUEST {
      HugeAsk(h);
      FromDvOrTopGood(h, WORD - 1);
    } else {
      LargeMallocGood(h, PadRequest(bytes));
    }
  }

  // ---- the requests that go wrong -----------------------------------------------------------------

  /** A request that overflows goes all the way to the system. */
  lemma OverflowReaches(h: Heap, bytes: nat)
    requires Inv(h) && Overflows(h, Needed(bytes))
    ensures h.g.topsize < WORD && Malloc(h, bytes) == SysAlloc(h, Needed(bytes))
  {
    hide SmallMalloc, LargeMalloc, SysAlloc, LargeFit, WrapsBreak, Held;
    FreshIsEmpty(h);
    var nb := Needed(bytes);
    assert LastResort(h, nb) && (WrapsFirst(h, nb) || WrapsBreak(h, nb));
    if bytes >= MAX_REQUEST {
      HugeAsk(h);
    } else if bytes <= MAX_SMALL_REQUEST {
      SmallAsk(h, nb);
    } else {
      assert Unserved(h, nb);
      LargeChoice(h, nb);
      AllUnserved(h, nb);
    }
  }

  lemma AllUnserved(h: Heap, nb: nat)
    requires Inv(h) && MIN_LARGE <= nb < WORD && nb % 8 == 0 && ValidBins(h.bins) && h.dvsize < WORD && h.g.topsize < WORD
    requires LastResort(h, nb) && !TakesLarge(h, nb)
    ensures LargeMalloc(h, nb) == SysAlloc(h, nb)
  {
    hide LargeFit, SysAlloc, Inv;
  }

  /** On the first request that wraps, the segment size wraps to 0 and top is left larger than the segment. */
  lemma WrapsFirstBreaks(h: Heap, nb: nat)
    requires Fresh(h) && nb < WORD && WrapsFirst(h, nb)
    ensures SysAlloc(h, nb).Done? && !Inv(SysAlloc(h, nb).h)
  {
    hide Inv, SysAlloc, Grow;
    WrappedAsk(h, nb);
    WrappedGrow(h, nb);
  }

  lemma OverflowBreaks(h: Heap, bytes: nat)
    requires Inv(h) && Overflows(h, Needed(bytes))
    ensures Malloc(h, bytes).Done? && !Inv(Malloc(h, bytes).h)
  {
    hide Malloc, Fresh, Ready, SysAlloc, WrapsBreak, Unserved;
    OverflowReaches(h, bytes);
    if WrapsFirst(h, Needed(bytes)) {
      StillFresh(h);
      WrapsFirstBreaks(h, Needed(bytes));
    } else {
      WrappedBreak(h, Needed(bytes));
    }
  }

  /** malloc is correct on exactly the requests that do not overflow. */
  lemma MallocExact(h: Heap, bytes: nat)
    requires Inv(h)
    ensures GoodOutcome(h, Malloc(h, bytes), Needed(bytes)) <==> !Overflows(h, Needed(bytes))
  {
    hide Malloc, Fresh, Ready, Overflows;
    if Overflows(h, Needed(bytes)) {
      OverflowBreaks(h, bytes);
    } else {
      MallocGood(h, bytes);
    }
  }

  /** The first request, for half a gigabyte: granted, with a block that runs past the address space. */
  lemma HalfGigabyte(h: Heap)
    requires Fresh(h) && h.contiguous
    ensures var o := Malloc(h, 0x2000_0000);
            && o.Done? && o.got == Chunk(HEAP_START, 0x2000_0008) && o.got.addr + o.got.size > WORD
            && !Inv(o.h)
  {
    hide Malloc, SysAlloc;
    var nb := 0x2000_0008;
    assert Needed(0x2000_0000) == nb;
    assert (nb + WORD - h.g.topsize + TOP_FOOT + 1) % WORD == 0x2000_0031;
    assert FirstAsk(h, nb) == 0x2000_1000;
    OverflowReaches(h, 0x2000_0000);
    WrappedBreak(h, nb);
    HalfGigabyteAsk(h, nb);
  }

  lemma HalfGigabyteAsk(h: Heap, nb: nat)
    requires Fresh(h) && h.contiguous && nb == 0x2000_0008 && FirstAsk(h, nb) == 0x2000_1000
    ensures SysAlloc(h, nb).Done? && SysAlloc(h, nb).got == Chunk(HEAP_START, nb)
  {
    hide FirstAsk;
    assert Moved(h, 0x2000_1000) == 0x1000;
  }

  lemma StillFresh(h: Heap)
    requires Inv(h) && h.g.top == 0
    ensures Fresh(h)
  {
  }

  lemma WrappedAsk(h: Heap, nb: nat)
    requires Fresh(h) && nb < WORD && WrapsFirst(h, nb)
    ensures SysAlloc(h, nb) == Grow(h, 0, nb)
  {
    var ask := nb + TOP_FOOT + 1;
    assert (nb + WORD - h.g.topsize + TOP_FOOT + 1) % WORD == ask;
    assert GranularityAlign(ask) == 0;
  }

  lemma WrappedGrow(h: Heap, nb: nat)
    requires Fresh(h)
    ensures Grow(h, 0, nb).Done? && !Inv(Grow(h, 0, nb).h)
  {
    var h' := Grow(h, 0, nb).h;
    assert Extended(h, 0).g.topsize == WORD - TOP_FOOT;
    assert h'.g.top >= HEAP_START && h'.g.top + h'.g.topsize == HEAP_START + WORD - TOP_FOOT;
  }
}
