/** dlfree: a chunk given back absorbs its free neighbours, or joins top. */
module DlFree {
  import opened Words
  import opened TreeBins
  import opened Bins
  import opened Tags
  import opened HeapState
  import opened DlMalloc

  /** Where the free chunk that will hold p starts: at p, or at the free chunk before it. */
  function LowEnd(g: Tags, p: nat): (q: nat) {
    if HeadAt(g, p).pinuse || p < FootAt(g, p) then p else p - FootAt(g, p)
  }

  /** The chunk after p is free and is not top. */
  predicate NextFree(g: Tags, p: nat) {
    var n := NextAt(g, p);
    n != g.top && !HeadAt(g, n).cinuse
  }

  function HighEnd(g: Tags, p: nat): (e: nat) {
    if NextFree(g, p) then NextAt(g, NextAt(g, p)) else NextAt(g, p)
  }

  function PrevChunk(g: Tags, p: nat): Chunk {
    Chunk(LowEnd(g, p), FootAt(g, p))
  }

  function NextChunk(g: Tags, p: nat): Chunk {
    var n := NextAt(g, p);
    Chunk(n, SizeAt(g, n))
  }

  lemma Neighbours(g: Tags, p: nat)
    requires Tagged(g) && p in g.starts && HeadAt(g, p).cinuse
    ensures var q := LowEnd(g, p);
            && q in g.starts && q <= p < NextAt(g, p) && HeadAt(g, q).pinuse
            && (q != p ==> IsFree(g, PrevChunk(g, p)) && NextAt(g, q) == p)
            && (HeadAt(g, p).pinuse <==> q == p)
    ensures NextAt(g, p) != g.top ==> NextAt(g, p) in g.starts
    ensures NextFree(g, p) ==> IsFree(g, NextChunk(g, p)) && HighEnd(g, p) in g.starts && HeadAt(g, HighEnd(g, p)).cinuse
    ensures NextAt(g, p) <= HighEnd(g, p) <= g.top
    ensures NextFree(g, p) ==> NextAt(g, p) < HighEnd(g, p)
  {
    assert BackAt(g, p) && ChainAt(g, p) && BoundAt(g, p);
    if !HeadAt(g, p).pinuse {
      var q := p - FootAt(g, p);
      assert FreeAt(g, q) && BoundAt(g, q);
    }
    if NextFree(g, p) {
      var n := NextAt(g, p);
      NoAdjacentFree(g, n);
      assert BoundAt(g, n) && BoundAt(g, NextAt(g, n));
    }
  }

  /** Between the two ends lie only p and the free neighbours. */
  lemma Between(g: Tags, p: nat, a: nat)
    requires Tagged(g) && p in g.starts && HeadAt(g, p).cinuse && a in g.starts
    requires LowEnd(g, p) <= a < HighEnd(g, p)
    ensures a == p || (a == LowEnd(g, p) && a != p) || (a == NextAt(g, p) && NextFree(g, p))
  {
    Neighbours(g, p);
    var q, n := LowEnd(g, p), NextAt(g, p);
    assert Apart(g, q, a) && Apart(g, p, a);
    if NextFree(g, p) {
      assert Apart(g, n, a) && Apart(g, a, n);
    }
    assert Apart(g, a, p) && BoundAt(g, a);
  }

  /** The bins without the free chunk before p. */
  function WithoutPrev(h: Heap, p: nat): (b: Bins)
    requires Ready(h) && p in h.g.starts && HeadAt(h.g, p).cinuse
    ensures ValidBins(b)
    ensures forall d :: Held(b, d) == (if ShouldBin(h, d) && d.addr != LowEnd(h.g, p) then 1 else 0)
  {
    Neighbours(h.g, p);
    var q := LowEnd(h.g, p);
    if q == p || q == h.dv then h.bins
    else
      assert ShouldBin(h, PrevChunk(h.g, p));
      Unbinned(h.bins, PrevChunk(h.g, p))
  }

  /** The bins without either free neighbour of p. */
  function WithoutNeighbours(h: Heap, p: nat): (b: Bins)
    requires Ready(h) && p in h.g.starts && HeadAt(h.g, p).cinuse
    ensures ValidBins(b)
    ensures forall d :: Held(b, d) ==
              (if ShouldBin(h, d) && !(LowEnd(h.g, p) <= d.addr < HighEnd(h.g, p)) then 1 else 0)
  {
    Neighbours(h.g, p);
    OnlyNeighbours(h, p);
    var b := WithoutPrev(h, p);
    if !NextFree(h.g, p) || NextAt(h.g, p) == h.dv then b
    else
      assert ShouldBin(h, NextChunk(h.g, p));
      Unbinned(b, NextChunk(h.g, p))
  }

  lemma OnlyNeighbours(h: Heap, p: nat)
    requires Ready(h) && p in h.g.starts && HeadAt(h.g, p).cinuse
    ensures forall d :: IsFree(h.g, d) ==>
              ((LowEnd(h.g, p) <= d.addr < HighEnd(h.g, p)) <==>
               (d.addr == LowEnd(h.g, p) || (NextFree(h.g, p) && d == NextChunk(h.g, p))))
  {
    Neighbours(h.g, p);
    forall d | IsFree(h.g, d)
      ensures (LowEnd(h.g, p) <= d.addr < HighEnd(h.g, p)) <==>
              (d.addr == LowEnd(h.g, p) || (NextFree(h.g, p) && d == NextChunk(h.g, p)))
    {
      if LowEnd(h.g, p) <= d.addr < HighEnd(h.g, p) {
        Between(h.g, p, d.addr);
      }
    }
  }

  /** The merged chunk takes over the role of dv if dv is one of the chunks it absorbs. */
  predicate AbsorbsDv(h: Heap, p: nat) {
    (LowEnd(h.g, p) != p && LowEnd(h.g, p) == h.dv) || (NextFree(h.g, p) && NextAt(h.g, p) == h.dv)
  }

  function Coalesce(h: Heap, p: nat): (r: Heap)
    requires Ready(h) && p in h.g.starts && HeadAt(h.g, p).cinuse
  {
    Neighbours(h.g, p);
    var q, e := LowEnd(h.g, p), HighEnd(h.g, p);
    var b := WithoutNeighbours(h, p);
    var g := Merge(h.g, q, e, false);
    if AbsorbsDv(h, p) then h.(g := g, bins := b, dv := q, dvsize := e - q)
    else
      MergedSize(h, p);
      h.(g := g, bins := Binned(b, Chunk(q, e - q)))
  }

  lemma MergedSize(h: Heap, p: nat)
    requires Ready(h) && p in h.g.starts && HeadAt(h.g, p).cinuse
    ensures var s := HighEnd(h.g, p) - LowEnd(h.g, p); 16 <= s < WORD && s % 8 == 0
  {
    Neighbours(h.g, p);
    var q, e := LowEnd(h.g, p), HighEnd(h.g, p);
    assert BoundAt(h.g, q) && BoundAt(h.g, p);
    if e in h.g.starts {
      assert BoundAt(h.g, e);
    }
  }

  function JoinTop(h: Heap, p: nat): (r: Heap)
    requires Ready(h) && p in h.g.starts && HeadAt(h.g, p).cinuse
  {
    Neighbours(h.g, p);
    var q := LowEnd(h.g, p);
    var h1 := h.(g := GiveTop(h.g, q), bins := WithoutPrev(h, p));
    if q != p && q == h.dv then h1.(dv := 0, dvsize := 0) else h1
  }

  /** How much sys_trim gives back: all but one page and the reserve, in whole pages. */
  function TrimSize(topsize: nat): (n: nat)
    requires topsize > TOP_FOOT
    ensures n < topsize - TOP_FOOT <= n + PAGE && n % PAGE == 0
  {
    ((topsize - TOP_FOOT + PAGE - 1) / PAGE - 1) * PAGE
  }

  function Trim(h: Heap): (r: Heap) {
    var n := if h.g.topsize > TOP_FOOT then TrimSize(h.g.topsize) else 0;
    if n == 0 || h.brk != h.end || h.end < n then h.(trimCheck := WORD - 1)
    else h.(g := ResizeTop(h.g, h.g.topsize - n), end := h.end - n, brk := h.brk - n, trimCheck := TRIM_THRESHOLD)
  }

  function Free(h: Heap, p: nat): (r: Heap)
    requires Ready(h) && p in h.g.starts && HeadAt(h.g, p).cinuse
  {
    if NextAt(h.g, p) == h.g.top then
      var h1 := JoinTop(h, p);
      if h1.g.topsize > h1.trimCheck then Trim(h1) else h1
    else Coalesce(h, p)
  }

  // ---- correctness --------------------------------------------------------------------

  /** Exactly the chunk at p is no longer live. */
  ghost predicate Released(h: Heap, h': Heap, p: nat) {
    Ready(h') && forall c :: IsLive(h'.g, c) <==> IsLive(h.g, c) && c.addr != p
  }

  lemma CoalesceChunks(h: Heap, p: nat, c: Chunk)
    requires Ready(h) && p in h.g.starts && HeadAt(h.g, p).cinuse && NextAt(h.g, p) != h.g.top
    ensures LowEnd(h.g, p) < HighEnd(h.g, p) && Mergeable(h.g, LowEnd(h.g, p), HighEnd(h.g, p), false)
    ensures var g := Merge(h.g, LowEnd(h.g, p), HighEnd(h.g, p), false); var q := LowEnd(h.g, p);
            && (IsFree(g, c) <==> (IsFree(h.g, c) && !(q <= c.addr < HighEnd(h.g, p))) || c == Chunk(q, HighEnd(h.g, p) - q))
            && (IsLive(g, c) <==> IsLive(h.g, c) && c.addr != p)
  {
    Neighbours(h.g, p);
    var q, e := LowEnd(h.g, p), HighEnd(h.g, p);
    MergeChunks(h.g, q, e, false, c);
    if c.addr in h.g.starts && q <= c.addr < e {
      Between(h.g, p, c.addr);
    }
  }

  /** If dv is not absorbed it lies outside the merged range. */
  lemma DvOutside(h: Heap, p: nat)
    requires Ready(h) && p in h.g.starts && HeadAt(h.g, p).cinuse && !AbsorbsDv(h, p)
    ensures !(LowEnd(h.g, p) <= h.dv < HighEnd(h.g, p))
  {
    Neighbours(h.g, p);
    if h.dvsize == 0 {
      assert BoundAt(h.g, LowEnd(h.g, p));
    } else {
      assert IsFree(h.g, Chunk(h.dv, h.dvsize));
      OnlyNeighbours(h, p);
    }
  }

  lemma CoalesceBins(h: Heap, p: nat, d: Chunk)
    requires Ready(h) && p in h.g.starts && HeadAt(h.g, p).cinuse && NextAt(h.g, p) != h.g.top
    ensures var h' := Coalesce(h, p);
            ValidBins(h'.bins) && Held(h'.bins, d) == if ShouldBin(h', d) then 1 else 0
  {
    Neighbours(h.g, p);
    CoalesceChunks(h, p, d);
    MergedSize(h, p);
    var q, e := LowEnd(h.g, p), HighEnd(h.g, p);
    assert Held(WithoutNeighbours(h, p), d) == if ShouldBin(h, d) && !(q <= d.addr < e) then 1 else 0;
    if AbsorbsDv(h, p) {
      AbsorbedInside(h, p, d);
    } else {
      DvOutside(h, p);
    }
  }

  /** When dv is absorbed, a free chunk outside the merged range is not dv. */
  lemma AbsorbedInside(h: Heap, p: nat, d: Chunk)
    requires Ready(h) && p in h.g.starts && HeadAt(h.g, p).cinuse && AbsorbsDv(h, p)
    ensures LowEnd(h.g, p) <= h.dv < HighEnd(h.g, p)
  {
    Neighbours(h.g, p);
  }

  lemma CoalesceDv(h: Heap, p: nat)
    requires Ready(h) && p in h.g.starts && HeadAt(h.g, p).cinuse && NextAt(h.g, p) != h.g.top
    ensures DvOk(Coalesce(h, p))
  {
    var h' := Coalesce(h, p);
    MergedSize(h, p);
    CoalesceChunks(h, p, Chunk(h'.dv, h'.dvsize));
    if !AbsorbsDv(h, p) {
      DvOutside(h, p);
    }
  }

  lemma CoalesceBinsOk(h: Heap, p: nat)
    requires Ready(h) && p in h.g.starts && HeadAt(h.g, p).cinuse && NextAt(h.g, p) != h.g.top
    ensures BinsOk(Coalesce(h, p))
  {
    var h' := Coalesce(h, p);
    CoalesceBins(h, p, Chunk(0, 0));
    forall d ensures Held(h'.bins, d) == if ShouldBin(h', d) then 1 else 0 {
      CoalesceBins(h, p, d);
    }
  }

  lemma CoalesceTagged(h: Heap, p: nat)
    requires Ready(h) && p in h.g.starts && HeadAt(h.g, p).cinuse && NextAt(h.g, p) != h.g.top
    ensures Tagged(Coalesce(h, p).g) && SegmentOk(Coalesce(h, p))
  {
    CoalesceChunks(h, p, Chunk(0, 0));
    MergeTagged(h.g, LowEnd(h.g, p), HighEnd(h.g, p), false);
  }

  lemma CoalesceGood(h: Heap, p: nat)
    requires Ready(h) && p in h.g.starts && HeadAt(h.g, p).cinuse && NextAt(h.g, p) != h.g.top
    ensures Released(h, Coalesce(h, p), p)
  {
    var h' := Coalesce(h, p);
    CoalesceTagged(h, p);
    CoalesceDv(h, p);
    CoalesceBinsOk(h, p);
    forall c ensures IsLive(h'.g, c) <==> IsLive(h.g, c) && c.addr != p {
      CoalesceChunks(h, p, c);
    }
  }

  lemma JoinTopChunks(h: Heap, p: nat, c: Chunk)
    requires Ready(h) && p in h.g.starts && HeadAt(h.g, p).cinuse && NextAt(h.g, p) == h.g.top
    ensures var q := LowEnd(h.g, p);
            && q <= h.g.top
            && (IsFree(GiveTop(h.g, q), c) <==> IsFree(h.g, c) && c.addr != q)
            && (IsLive(GiveTop(h.g, q), c) <==> IsLive(h.g, c) && c.addr != p)
  {
    Neighbours(h.g, p);
    var q := LowEnd(h.g, p);
    GiveTopChunks(h.g, q, c);
    if c.addr in h.g.starts {
      assert BoundAt(h.g, c.addr);
      if q <= c.addr {
        Between(h.g, p, c.addr);
      }
    }
  }

  lemma JoinTopGood(h: Heap, p: nat)
    requires Ready(h) && p in h.g.starts && HeadAt(h.g, p).cinuse && NextAt(h.g, p) == h.g.top
    ensures Released(h, JoinTop(h, p), p)
  {
    hide Held, Tagged;
    Neighbours(h.g, p);
    var h' := JoinTop(h, p);
    var q := LowEnd(h.g, p);
    GiveTopTagged(h.g, q);
    JoinTopChunks(h, p, Chunk(h.dv, h.dvsize));
    forall d ensures Held(h'.bins, d) == if ShouldBin(h', d) then 1 else 0 {
      JoinTopChunks(h, p, d);
      assert Held(WithoutPrev(h, p), d) == if ShouldBin(h, d) && d.addr != q then 1 else 0;
      if IsFree(h.g, d) {
        FreeChunk(h.g, d);
      }
    }
    forall c ensures IsLive(h'.g, c) <==> IsLive(h.g, c) && c.addr != p {
      JoinTopChunks(h, p, c);
    }
  }

  lemma TrimGood(h: Heap)
    requires Ready(h)
    ensures Ready(Trim(h)) && SameLive(h, Trim(h))
    ensures Trim(h).g.topsize > 0
  {
    var h' := Trim(h);
    var n := if h.g.topsize > TOP_FOOT then TrimSize(h.g.topsize) else 0;
    if n > 0 {
      ResizeTopTagged(h.g, h.g.topsize - n);
    }
    forall d ensures Held(h'.bins, d) == if ShouldBin(h', d) then 1 else 0 {
      assert Held(h.bins, d) == if ShouldBin(h, d) then 1 else 0;
    }
  }

  /** Every free keeps the heap invariant, releases exactly that chunk and leaves no two free neighbours. */
  lemma FreeGood(h: Heap, p: nat)
    requires Ready(h) && p in h.g.starts && HeadAt(h.g, p).cinuse
    ensures Released(h, Free(h, p), p)
  {
    if NextAt(h.g, p) == h.g.top {
      JoinTopGood(h, p);
      var h1 := JoinTop(h, p);
      if h1.g.topsize > h1.trimCheck {
        TrimGood(h1);
      }
    } else {
      CoalesceGood(h, p);
    }
  }

  /** A trim gives back whole pages and leaves the reserve and at most a page in top. */
  lemma TrimLeaves(h: Heap)
    requires Ready(h)
    ensures var r := Trim(h);
            && r.g.top == h.g.top && (h.g.topsize - r.g.topsize) % PAGE == 0
            && (if h.g.topsize <= TOP_FOOT + PAGE then r.g.topsize == h.g.topsize
                else TOP_FOOT < r.g.topsize <= TOP_FOOT + PAGE)
            && r.end == r.brk == h.end - (h.g.topsize - r.g.topsize)
  {
    hide TrimSize;
  }

  lemma ReadyEnds(h: Heap, p: nat)
    requires Ready(h) && p in h.g.starts && HeadAt(h.g, p).cinuse
    ensures LowEnd(h.g, p) <= p < NextAt(h.g, p) <= h.g.top
  {
    Neighbours(h.g, p);
  }

  /** Where top starts after a free in front of it, and how large it is then. */
  lemma FreeTrims(h: Heap, p: nat)
    requires Ready(h) && p in h.g.starts && HeadAt(h.g, p).cinuse && NextAt(h.g, p) == h.g.top
    ensures var r := Free(h, p); var q := LowEnd(h.g, p); var joined := h.g.topsize + (h.g.top - q);
            && q <= h.g.top && r.g.top == q
            && (joined <= h.trimCheck ==> r.g.topsize == joined)
            && (joined > h.trimCheck && joined > TOP_FOOT + PAGE ==> TOP_FOOT < r.g.topsize <= TOP_FOOT + PAGE)
  {
    hide Ready, Trim;
    JoinTopGood(h, p);
    ReadyEnds(h, p);
    TrimLeaves(JoinTop(h, p));
  }

  lemma DvBounds(h: Heap)
    requires Ready(h) && h.dvsize > 0
    ensures IsFree(h.g, Chunk(h.dv, h.dvsize)) && h.dv + h.dvsize <= h.g.top
  {
    assert BoundAt(h.g, h.dv);
  }

  lemma CoalesceVictim(h: Heap, p: nat)
    requires Ready(h) && p in h.g.starts && HeadAt(h.g, p).cinuse && NextAt(h.g, p) != h.g.top
    ensures var r := Coalesce(h, p);
            && r.g.top == h.g.top
            && (if h.dvsize == 0 then r.dvsize == 0
                else r.dvsize > 0 && r.dv <= h.dv && h.dv + h.dvsize <= r.dv + r.dvsize)
  {
    hide Tagged, BinsOk;
    Neighbours(h.g, p);
    MergedSize(h, p);
    if h.dvsize == 0 {
      NoVictim(h, p);
    } else {
      DvBounds(h);
    }
  }

  /** Without a victim no neighbour has its address, 0. */
  lemma NoVictim(h: Heap, p: nat)
    requires Ready(h) && p in h.g.starts && HeadAt(h.g, p).cinuse && h.dvsize == 0
    ensures !AbsorbsDv(h, p)
  {
    Neighbours(h.g, p);
    assert BoundAt(h.g, LowEnd(h.g, p)) && BoundAt(h.g, p);
  }

  lemma JoinVictim(h: Heap, p: nat)
    requires Ready(h) && p in h.g.starts && HeadAt(h.g, p).cinuse && NextAt(h.g, p) == h.g.top
    ensures var r := JoinTop(h, p);
            && (r.dv, r.dvsize) == (if h.dvsize > 0 && h.dv >= r.g.top then (0, 0) else (h.dv, h.dvsize))
  {
    hide Tagged, BinsOk;
    JoinTopGood(h, p);
    var r := JoinTop(h, p);
    ReadyEnds(h, p);
    if h.dvsize == 0 {
      NoVictim(h, p);
    } else if r.dvsize > 0 {
      DvBounds(r);
    }
  }

  /** After a free the designated victim is the free chunk that holds the old one, or none if that went to top. */
  lemma VictimKept(h: Heap, p: nat)
    requires Ready(h) && p in h.g.starts && HeadAt(h.g, p).cinuse
    ensures var r := Free(h, p);
            if h.dvsize == 0 || h.dv >= r.g.top then r.dvsize == 0
            else r.dvsize > 0 && r.dv <= h.dv && h.dv + h.dvsize <= r.dv + r.dvsize
  {
    hide Ready, Coalesce, JoinTop;
    if NextAt(h.g, p) == h.g.top {
      JoinVictim(h, p);
    } else {
      CoalesceVictim(h, p);
      if h.dvsize > 0 {
        DvBounds(h);
      }
    }
  }
}
