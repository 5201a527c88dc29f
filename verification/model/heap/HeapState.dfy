/** The allocator state, its invariant, and serving a request from one free chunk. */
module HeapState {
  import opened TreeBins
  import opened Bins
  import opened Tags

  const TOP_FOOT := 40
  const PAGE := 4096
  /** MORECORE hands out addresses from HEAP_START up to, not including, HEAP_LIMIT. */
  const HEAP_START := 0xE000_0000
  const HEAP_LIMIT := 0xF000_0000
  const TRIM_THRESHOLD := 0x20_0000

  /**
   end is the end of the one segment and brk the break that MORECORE keeps; contiguous is cleared
   by a request too large for MORECORE.
   */
  datatype Heap = Heap(g: Tags, bins: Bins, dv: nat, dvsize: nat, end: nat, brk: nat, trimCheck: nat, contiguous: bool)

  const NO_TAGS := Tags(map[], map[], {}, 0, 0, 0)

  /** The zeroed malloc_state before the first request. */
  ghost predicate Fresh(h: Heap) {
    h == Heap(NO_TAGS, EmptyBins(), 0, 0, 0, HEAP_START, h.trimCheck, h.contiguous)
  }

  /** The designated victim is a free chunk of the recorded size, or absent. */
  ghost predicate DvOk(h: Heap) {
    if h.dvsize == 0 then h.dv == 0 else IsFree(h.g, Chunk(h.dv, h.dvsize))
  }

  predicate ShouldBin(h: Heap, c: Chunk) {
    IsFree(h.g, c) && c.addr != h.dv
  }

  /** Every free chunk other than dv is in exactly one bin, once, and bins hold nothing else. */
  ghost predicate BinsOk(h: Heap) {
    && ValidBins(h.bins)
    && forall c :: Held(h.bins, c) == (if ShouldBin(h, c) then 1 else 0)
  }

  ghost predicate SegmentOk(h: Heap) {
    && h.g.base == HEAP_START && h.g.topsize > 0
    && h.g.top + h.g.topsize + TOP_FOOT == h.end == h.brk < HEAP_LIMIT
  }

  ghost predicate Ready(h: Heap) {
    Tagged(h.g) && DvOk(h) && BinsOk(h) && SegmentOk(h)
  }

  ghost predicate Inv(h: Heap) {
    Fresh(h) || Ready(h)
  }

  // ---- one free chunk into use ----------------------------------------------------

  function TakeWhole(g: Tags, c: Chunk): (r: Tags)
    requires c.size > 0
  {
    Merge(g, c.addr, c.addr + c.size, true)
  }

  function TakeSplit(g: Tags, c: Chunk, nb: nat): (r: Tags)
    requires c.size > 0 && nb <= c.size
  {
    Cut(TakeWhole(g, c), c.addr, nb, false)
  }

  lemma FreeChunk(g: Tags, c: Chunk)
    requires Tagged(g) && IsFree(g, c)
    ensures 16 <= c.size && c.size % 8 == 0 && c.addr % 8 == 0 && c.addr + c.size < g.top && 0 < c.addr
    ensures c.addr + c.size in g.starts && HeadAt(g, c.addr + c.size).cinuse
    ensures HeadAt(g, c.addr).pinuse
    ensures Mergeable(g, c.addr, c.addr + c.size, true)
  {
    assert BoundAt(g, c.addr) && FreeAt(g, c.addr);
    NoAdjacentFree(g, c.addr);
    assert BoundAt(g, c.addr + c.size);
  }

  lemma TakenWhole(g: Tags, c: Chunk)
    requires Tagged(g) && IsFree(g, c)
    ensures c.size > 0 && Tagged(TakeWhole(g, c))
    ensures forall d :: IsFree(TakeWhole(g, c), d) <==> IsFree(g, d) && d.addr != c.addr
    ensures forall d :: IsLive(TakeWhole(g, c), d) <==> IsLive(g, d) || d == c
  {
    FreeChunk(g, c);
    var e := c.addr + c.size;
    MergeTagged(g, c.addr, e, true);
    forall d
      ensures IsFree(TakeWhole(g, c), d) <==> IsFree(g, d) && d.addr != c.addr
      ensures IsLive(TakeWhole(g, c), d) <==> IsLive(g, d) || d == c
    {
      MergeChunks(g, c.addr, e, true, d);
      if d.addr in g.starts && c.addr < d.addr {
        assert Apart(g, c.addr, d.addr);
      }
    }
  }

  lemma TakenSplit(g: Tags, c: Chunk, nb: nat)
    requires Tagged(g) && IsFree(g, c) && 16 <= nb && nb % 8 == 0 && nb + 16 <= c.size
    ensures Tagged(TakeSplit(g, c, nb))
    ensures forall d :: IsFree(TakeSplit(g, c, nb), d) <==>
                        (IsFree(g, d) && d.addr != c.addr) || d == Chunk(c.addr + nb, c.size - nb)
    ensures forall d :: IsLive(TakeSplit(g, c, nb), d) <==> IsLive(g, d) || d == Chunk(c.addr, nb)
  {
    FreeChunk(g, c);
    TakenWhole(g, c);
    var m := TakeWhole(g, c);
    var e := c.addr + c.size;
    MergeWords(g, c.addr, e, true, c.addr);
    MergeWords(g, c.addr, e, true, e);
    assert IsLive(m, c);
    CutTagged(m, c.addr, nb, false);
    forall d
      ensures IsFree(TakeSplit(g, c, nb), d) <==>
              (IsFree(g, d) && d.addr != c.addr) || d == Chunk(c.addr + nb, c.size - nb)
      ensures IsLive(TakeSplit(g, c, nb), d) <==> IsLive(g, d) || d == Chunk(c.addr, nb)
    {
      CutChunks(m, c.addr, nb, false, d);
      assert !IsLive(g, Chunk(c.addr, d.size));
    }
  }
}
