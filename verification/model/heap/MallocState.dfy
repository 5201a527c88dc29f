/** The allocator as it runs: words written one by one, in the order of the source. */
module MallocState {
  import opened Words
  import opened TreeBins
  import opened BinIndex
  import opened Bins
  import opened BestFit
  import opened BitMaps
  import opened TreeLoops
  import opened Tags
  import opened HeapState
  import opened DlMalloc
  import opened DlFree
  import opened Memalign
  import opened Realloc

  // ---- what the head and foot macros add up to ---------------------------------------------

  /** Taking a free chunk whole sets both its bits and the next pinuse bit. */
  lemma WholeWords(g: Tags, c: Chunk)
    requires Tagged(g) && IsFree(g, c)
    ensures c.size > 0
    ensures var e := c.addr + c.size;
            TakeWhole(g, c).head == g.head[c.addr := Head(c.size, true, true)][e := HeadAt(g, e).(pinuse := true)] &&
            TakeWhole(g, c).foot == g.foot
  {
    FreeChunk(g, c);
  }

  /** Splitting a free chunk writes two heads and a foot; the pinuse bit behind it is clear already. */
  lemma SplitWords(g: Tags, c: Chunk, nb: nat)
    requires Tagged(g) && IsFree(g, c) && 16 <= nb && nb + 16 <= c.size
    ensures var r := TakeSplit(g, c, nb);
            && r.head == g.head[c.addr := Head(nb, true, true)][c.addr + nb := Head(c.size - nb, true, false)]
            && r.foot == g.foot[c.addr + c.size := c.size - nb]
  {
    hide Tagged;
    FreeChunk(g, c);
    WholeWords(g, c);
    ClearBehind(g, c);
    SplitHeads(g, c, nb);
  }

  lemma ClearBehind(g: Tags, c: Chunk)
    requires Tagged(g) && IsFree(g, c)
    ensures var e := c.addr + c.size; e in g.head && !g.head[e].pinuse
  {
    FreeChunk(g, c);
    assert PinAt(g, c.addr);
  }

  lemma SplitHeads(g: Tags, c: Chunk, nb: nat)
    requires 16 <= nb && nb + 16 <= c.size && c.addr + c.size in g.head && !g.head[c.addr + c.size].pinuse
    requires HeadAt(g, c.addr).pinuse
    ensures var r := TakeSplit(g, c, nb);
            && r.head == g.head[c.addr := Head(nb, true, true)][c.addr + nb := Head(c.size - nb, true, false)]
            && r.foot == g.foot[c.addr + c.size := c.size - nb]
  {
    var e, m := c.addr + c.size, c.addr + nb;
    var w := TakeWhole(g, c);
    assert HeadAt(w, c.addr) == Head(c.size, true, true) && HeadAt(w, e) == g.head[e].(pinuse := true);
    assert NextAt(w, c.addr) == e;
    var want := g.head[c.addr := Head(nb, true, true)][m := Head(c.size - nb, true, false)];
    assert want[e := g.head[e]] == want;
  }

  class State {
    var head: map<nat, Head>
    var foot: map<nat, nat>
    /** Where chunks start; only the proofs look at it. */
    ghost var starts: set<nat>
    var base: nat
    var top: nat
    var topsize: nat
    var bins: Bins
    var dv: nat
    var dvsize: nat
    var end: nat
    /** _heap_top of the system allocator. */
    var brk: nat
    var trimCheck: nat
    var contiguous: bool

    ghost function Value(): Heap
      reads this
    {
      Heap(Tags(head, foot, starts, base, top, topsize), bins, dv, dvsize, end, brk, trimCheck, contiguous)
    }

    function HeadOf(p: nat): Head
      reads this`head
    {
      if p in head then head[p] else Head(0, false, false)
    }

    function FootOf(p: nat): nat
      reads this`foot
    {
      if p in foot then foot[p] else 0
    }

    constructor ()
      ensures Fresh(Value())
    {
      head, foot, starts, base, top, topsize := map[], map[], {}, 0, 0, 0;
      bins := EmptyBins();
      dv, dvsize, end, brk, trimCheck, contiguous := 0, 0, 0, HEAP_START, 0, true;
    }

    // ---- the macros -----------------------------------------------------------------------

    /** set_size_and_pinuse_of_inuse_chunk */
    method SetInuseHead(p: nat, s: nat)
      modifies this`head
      ensures head == old(head)[p := Head(s, true, true)]
    {
      head := head[p := Head(s, true, true)];
    }

    /** set_inuse_and_pinuse */
    method SetInuseAndPinuse(p: nat, s: nat)
      requires s > 0
      modifies this`head
      ensures head == old(head)[p := Head(s, true, true)][p + s := old(HeadOf(p + s)).(pinuse := true)]
    {
      SetInuseHead(p, s);
      head := head[p + s := HeadOf(p + s).(pinuse := true)];
    }

    /** set_size_and_pinuse_of_free_chunk */
    method SetFreeHead(p: nat, s: nat)
      modifies this`head, this`foot
      ensures head == old(head)[p := Head(s, true, false)] && foot == old(foot)[p + s := s]
    {
      head := head[p := Head(s, true, false)];
      foot := foot[p + s := s];
    }

    /** set_free_with_pinuse */
    method SetFreeWithPinuse(p: nat, s: nat, n: nat)
      modifies this`head, this`foot
      ensures head == old(head)[n := old(HeadOf(n)).(pinuse := false)][p := Head(s, true, false)]
      ensures foot == old(foot)[p + s := s]
    {
      head := head[n := HeadOf(n).(pinuse := false)];
      SetFreeHead(p, s);
    }

    /** insert_chunk */
    method Link(c: Chunk)
      requires ValidBins(bins) && c.size < WORD && c.size % 8 == 0
      modifies this`bins
      ensures bins == Binned(old(bins), c)
    {
      hide InsertChunk;
      bins := LinkChunk(bins, c);
    }

    /** unlink_chunk */
    method Unlink(c: Chunk)
      requires ValidBins(bins) && Held(bins, c) > 0
      modifies this`bins
      ensures bins == Unbinned(old(bins), c)
    {
      hide UnlinkChunk;
      bins := UnlinkFromBin(bins, c);
    }

    // ---- serving a request ---------------------------------------------------------------------

    /** A binned chunk is unlinked and used whole. */
    method TakeBinned(c: Chunk)
      requires Ready(Value()) && Held(bins, c) > 0
      modifies this
      ensures c.size > 0 && Value() == UseBinned(old(Value()), c)
    {
      hide Held, UnlinkChunk;
      ghost var h := Value();
      HeldIsFree(h, c);
      WholeWords(h.g, c);
      Unlink(c);
      SetInuseAndPinuse(c.addr, c.size);
      starts := TakeWhole(h.g, c).starts;
    }

    /** A free chunk is split: nb bytes for the user, the rest free. */
    method SplitTags(c: Chunk, nb: nat)
      requires Tagged(Value().g) && IsFree(Value().g, c) && 16 <= nb && nb + 16 <= c.size
      modifies this`head, this`foot, this`starts
      ensures Value() == old(Value()).(g := TakeSplit(old(Value()).g, c, nb))
    {
      hide Tagged;
      ghost var g := Value().g;
      SplitWords(g, c, nb);
      SetInuseHead(c.addr, nb);
      SetFreeHead(c.addr + nb, c.size - nb);
      starts := TakeSplit(g, c, nb).starts;
    }

    /** The rest becomes the designated victim; the old one goes to its small bin. */
    method SplitBinnedToDv(c: Chunk, nb: nat)
      requires Ready(Value()) && Held(bins, c) > 0 && 16 <= nb && nb + 16 <= c.size
      modifies this
      ensures 0 < c.size < WORD && old(dvsize) < WORD && old(dvsize) % 8 == 0
      ensures Value() == SplitToDv(old(Value()), c, nb)
    {
      hide Held, UnlinkChunk, InsertChunk, TakeSplit;
      ghost var h := Value();
      HeldIsFree(h, c);
      BinnedSize(h, c);
      DvSize(h);
      Unlink(c);
      SplitTags(c, nb);
      if dvsize != 0 {
        Link(Chunk(dv, dvsize));
      }
      dvsize := c.size - nb;
      dv := c.addr + nb;
    }

    /** The rest goes to a bin. */
    method SplitBinnedToBin(c: Chunk, nb: nat)
      requires Ready(Value()) && Held(bins, c) > 0 && 16 <= nb && nb % 8 == 0 && nb + 16 <= c.size
      modifies this
      ensures 0 < c.size < WORD && c.size % 8 == 0
      ensures Value() == SplitBinned(old(Value()), c, nb)
    {
      hide Held, UnlinkChunk, InsertChunk, TakeSplit;
      ghost var h := Value();
      HeldIsFree(h, c);
      BinnedSize(h, c);
      Unlink(c);
      SplitTags(c, nb);
      Link(Chunk(c.addr + nb, c.size - nb));
    }

    /** From the designated victim, which is split or used up. */
    method TakeFromDv(nb: nat) returns (got: Chunk)
      requires Ready(Value()) && 16 <= nb <= dvsize
      modifies this
      ensures Value() == UseDv(old(Value()), nb) && got == UsedOfDv(old(Value()), nb)
    {
      hide TakeSplit, BinsOk;
      ghost var h := Value();
      var c := Chunk(dv, dvsize);
      if dvsize - nb >= 16 {
        SplitTags(c, nb);
        dv := c.addr + nb;
        dvsize := c.size - nb;
        got := Chunk(c.addr, nb);
      } else {
        WholeWords(h.g, c);
        dvsize := 0;
        dv := 0;
        SetInuseAndPinuse(c.addr, c.size);
        starts := TakeWhole(h.g, c).starts;
        got := c;
      }
    }

    /** From the low end of top. */
    method TakeFromTop(nb: nat) returns (got: Chunk)
      requires 0 < nb <= topsize
      modifies this
      ensures Value() == UseTop(old(Value()), nb) && got == Chunk(old(top), nb)
    {
      var p := top;
      topsize := topsize - nb;
      top := p + nb;
      head := head[top := Head(topsize, true, false)];
      SetInuseHead(p, nb);
      starts := starts + {p};
      got := Chunk(p, nb);
    }

    // ---- sys_alloc -----------------------------------------------------------------------------

    /** MORECORE's bytes go to top. */
    method ExtendTop(n: nat)
      modifies this
      ensures Value() == Extended(old(Value()), n)
    {
      if top == 0 {
        var size := (n + WORD - TOP_FOOT) % WORD;
        head, foot, starts := map[HEAP_START := Head(size, true, false)], map[], {};
        base, top, topsize := HEAP_START, HEAP_START, size;
        end := HEAP_START + n;
      } else {
        topsize := topsize + n;
        head := head[top := Head(topsize, true, false)];
        end := end + n;
      }
      brk := Wrap32(brk + n);
      trimCheck := TRIM_THRESHOLD;
    }

    /** ksbrk, then the request from top; a panic leaves the state alone. */
    method GrowAndTake(n: nat, nb: nat) returns (panicked: bool, got: Chunk)
      requires 0 < nb
      modifies this
      ensures Matches(panicked, got, Value(), Grow(old(Value()), n, nb))
    {
      hide Extended, UseTop;
      got := NULL;
      panicked := n > 0 && Wrap32(brk + n) >= HEAP_LIMIT;
      if !panicked {
        ExtendTop(n);
        if nb < topsize {
          got := TakeFromTop(nb);
        }
      }
    }

    /** ksbrk twice, to see how far the break went up. */
    method GrowNoncontiguous(n: nat, nb: nat) returns (panicked: bool, got: Chunk)
      requires 0 < nb
      modifies this
      ensures Matches(panicked, got, Value(), GrowApart(old(Value()), n, nb))
    {
      hide Grow;
      panicked, got := n > 0 && Wrap32(brk + n) >= HEAP_LIMIT, NULL;
      var br, now := brk, Wrap32(brk + n);
      if !panicked && !(br < now && (nb + TOP_FOOT) % WORD < now - br) {
        brk := now;
      } else {
        panicked, got := GrowAndTake(n, nb);
      }
    }

    /** sys_alloc */
    method SystemAlloc(nb: nat) returns (panicked: bool, got: Chunk)
      requires 0 < nb < WORD && topsize < WORD
      modifies this
      ensures Matches(panicked, got, Value(), SysAlloc(old(Value()), nb))
    {
      hide Grow, GrowApart, GranularityAlign;
      var asize := GranularityAlign((nb + WORD - topsize + TOP_FOOT + 1) % WORD);
      if contiguous && asize < HALF_MAX {
        panicked, got := GrowAndTake(asize, nb);
        return;
      }
      contiguous := false;
      panicked, got := false, NULL;
      var ssize := GranularityAlign((nb + TOP_FOOT + 1) % WORD);
      if ssize < HALF_MAX {
        panicked, got := GrowNoncontiguous(ssize, nb);
      }
    }

    // ---- dlmalloc ----------------------------------------------------------------------------------

    method FromVictimOrTop(nb: nat) returns (panicked: bool, got: Chunk)
      requires Inv(Value()) && 16 <= nb < WORD && topsize < WORD
      modifies this
      ensures Matches(panicked, got, Value(), FromDvOrTop(old(Value()), nb))
    {
      hide UseDv, UseTop, SysAlloc, Ready, Fresh;
      panicked := false;
      if nb <= dvsize {
        VictimReady(Value());
        got := TakeFromDv(nb);
      } else if nb < topsize {
        got := TakeFromTop(nb);
      } else {
        panicked, got := SystemAlloc(nb);
      }
    }

    /** The split of a chunk found for a small request. */
    method SplitSmallChunk(c: Chunk, nb: nat) returns (got: Chunk)
      requires Ready(Value()) && Held(bins, c) > 0 && 16 <= nb <= c.size
      requires c.size < WORD && dvsize < WORD && dvsize % 8 == 0
      modifies this
      ensures SplitForSmall(old(Value()), c, nb) == Done(Value(), got)
    {
      hide Held, UseBinned, SplitToDv, Ready;
      if c.size - nb < 16 {
        TakeBinned(c);
        got := c;
      } else {
        SplitBinnedToDv(c, nb);
        got := Chunk(c.addr, nb);
      }
    }

    /** A small request that neither its own bins nor dv can serve. */
    method SplitForRequest(nb: nat) returns (panicked: bool, got: Chunk)
      requires Inv(Value()) && 16 <= nb < MIN_LARGE && nb % 8 == 0
      requires |bins.smallmap| == NBINS ==> !bins.smallmap[nb / 8]
      modifies this
      ensures Matches(panicked, got, Value(), SplitSmallest(old(Value()), nb))
    {
      hide Inv, Held, SplitForSmall, FromDvOrTop, SmallestIn, NextMarked;
      FreshIsEmpty(Value());
      NextFrom(bins.smallmap, nb / 8);
      panicked := false;
      var j := NextSmall(bins.smallmap, nb / 8);
      if j < NBINS {
        var c := FirstOf(bins, j);
        got := SplitSmallChunk(c, nb);
      } else if true in bins.treemap {
        var f, _ := SearchSmall(bins, nb);
        SmallFitIsBest(bins, nb);
        var c := f.v.ring[0];
        got := SplitSmallChunk(c, nb);
      } else {
        panicked, got := FromVictimOrTop(nb);
      }
    }

    method SmallRequest(nb: nat) returns (panicked: bool, got: Chunk)
      requires Inv(Value()) && 16 <= nb < MIN_LARGE && nb % 8 == 0
      modifies this
      ensures Matches(panicked, got, Value(), SmallMalloc(old(Value()), nb))
    {
      hide Inv, Held, SplitSmallest, FromDvOrTop, UseBinned;
      FreshIsEmpty(Value());
      panicked := false;
      var idx := nb / 8;
      var smallbits := ShiftDown(bins.smallmap, idx);
      SmallBits(bins.smallmap, idx);
      if smallbits[0] || smallbits[1] {
        idx := idx + if smallbits[0] then 0 else 1;
        got := FirstOf(bins, idx);
        TakeBinned(got);
      } else if nb > dvsize {
        panicked, got := SplitForRequest(nb);
      } else {
        panicked, got := FromVictimOrTop(nb);
      }
    }

    method LargeRequest(nb: nat) returns (panicked: bool, got: Chunk)
      requires Inv(Value()) && MIN_LARGE <= nb < WORD && nb % 8 == 0
      modifies this
      ensures Matches(panicked, got, Value(), LargeMalloc(old(Value()), nb))
    {
      hide Inv, Held, FromDvOrTop, UseBinned, SplitBinned, LargeFit;
      FreshIsEmpty(Value());
      panicked := false;
      if true in bins.treemap {
        LargeFitIsBest(bins, nb);
        var f, _ := SearchLarge(bins, nb);
        if f.v.Node? && f.rem < Sub32(dvsize, nb) {
          got := SplitLargeChunk(f.v.ring[0], nb);
          return;
        }
      }
      panicked, got := FromVictimOrTop(nb);
    }

    method SplitLargeChunk(c: Chunk, nb: nat) returns (got: Chunk)
      requires Ready(Value()) && Held(bins, c) > 0 && 16 <= nb <= c.size && nb % 8 == 0
      modifies this
      ensures c.size < WORD && c.size % 8 == 0 && SplitForLarge(old(Value()), c, nb) == Done(Value(), got)
    {
      hide Held, UseBinned, SplitBinned, Ready;
      BinnedSize(Value(), c);
      if c.size - nb < 16 {
        TakeBinned(c);
        got := c;
      } else {
        SplitBinnedToBin(c, nb);
        got := Chunk(c.addr, nb);
      }
    }

    /** dlmalloc */
    method Allocate(bytes: nat) returns (panicked: bool, got: Chunk)
      requires Inv(Value())
      modifies this
      ensures Matches(panicked, got, Value(), Malloc(old(Value()), bytes))
    {
      hide Inv, SmallMalloc, LargeMalloc, FromDvOrTop;
      FreshIsEmpty(Value());
      if bytes <= MAX_SMALL_REQUEST {
        panicked, got := SmallRequest(RequestToSize(bytes));
      } else if bytes >= MAX_REQUEST {
        panicked, got := FromVictimOrTop(WORD - 1);
      } else {
        panicked, got := LargeRequest(PadRequest(bytes));
      }
    }

    // ---- dlfree ------------------------------------------------------------------------------------

    /** sys_trim */
    method TrimTop()
      modifies this
      ensures Value() == Trim(old(Value()))
    {
      hide TrimSize;
      var n := if topsize > TOP_FOOT then TrimSize(topsize) else 0;
      if n == 0 || brk != end || end < n {
        trimCheck := WORD - 1;
      } else {
        brk := brk - n;
        end := end - n;
        topsize := topsize - n;
        head := head[top := Head(topsize, true, false)];
        trimCheck := TRIM_THRESHOLD;
      }
    }

    /** The free chunk in front is taken out of its bin, unless it is dv. */
    method UnlinkPrev(p: nat) returns (q: nat)
      requires Ready(Value()) && p in starts && HeadOf(p).cinuse
      modifies this`bins
      ensures q == LowEnd(Value().g, p) && bins == WithoutPrev(old(Value()), p)
    {
      hide Unbinned, Held, BinsOk, Tagged;
      ghost var h := Value();
      Neighbours(h.g, p);
      q := p;
      if !HeadOf(p).pinuse {
        q := p - FootOf(p);
        if q != dv {
          PrevIsHeld(h, p);
          Unlink(Chunk(q, FootOf(p)));
        }
      }
    }

    /** top starts at q, and a victim there is gone. */
    method LowerTop(q: nat)
      requires q <= top
      modifies this
      ensures var h := old(Value()); var n := h.g.topsize + (h.g.top - q);
              Value() == h.(g := Tags(h.g.head[q := Head(n, true, false)], h.g.foot, (set a | a in h.g.starts && a < q), h.g.base, q, n),
                            dv := if q == h.dv then 0 else h.dv, dvsize := if q == h.dv then 0 else h.dvsize)
    {
      topsize := topsize + (top - q);
      head := head[q := Head(topsize, true, false)];
      top := q;
      starts := set a | a in starts && a < q;
      if q == dv {
        dv := 0;
        dvsize := 0;
      }
    }

    /** The chunk, with the one in front of it, joins top. */
    method GiveToTop(p: nat)
      requires Ready(Value()) && p in starts && HeadOf(p).cinuse && p + HeadOf(p).size == top
      modifies this
      ensures Value() == JoinTop(old(Value()), p)
    {
      hide WithoutPrev, Ready, JoinTop, LowEnd;
      ghost var h := Value();
      JoinTopIs(h, p);
      var q := UnlinkPrev(p);
      LowerTop(q);
    }

    /** Both free neighbours are absorbed. */
    method Consolidate(p: nat)
      requires Ready(Value()) && p in starts && HeadOf(p).cinuse && p + HeadOf(p).size != top
      modifies this
      ensures Value() == Coalesce(old(Value()), p)
    {
      hide WithoutPrev, Ready, Coalesce, LowEnd, HighEnd;
      ghost var h := Value();
      var next := p + HeadOf(p).size;
      var q := UnlinkPrev(p);
      if HeadOf(next).cinuse {
        CoalesceUsedNext(h, p);
        FreeBeforeUsed(p, q, next, h);
      } else {
        CoalesceFreeNext(h, p);
        AbsorbNext(p, q, next, h);
      }
    }

    /** The chunk behind is in use: its pinuse bit is cleared. */
    method FreeBeforeUsed(p: nat, q: nat, next: nat, ghost h: Heap)
      requires Value() == h.(bins := BinsBefore(h, p)) && q < next && next - q < WORD && (next - q) % 8 == 0
      requires ValidBins(BinsBefore(h, p))
      modifies this
      ensures Value() == FreedUsedNext(h, p, q, next)
    {
      hide Binned;
      SetFreeWithPinuse(q, next - q, next);
      starts := set a | a in starts && (a <= q || next <= a);
      if q == dv {
        dvsize := next - q;
      } else {
        Link(Chunk(q, next - q));
      }
    }

    /** The chunk behind is free too. */
    method AbsorbNext(p: nat, q: nat, next: nat, ghost h: Heap)
      requires Value() == h.(bins := BinsBefore(h, p)) && FreeNextOk(h, p, q, next)
      modifies this
      ensures Value() == FreedFreeNext(h, p, q, next)
    {
      hide Binned, Unbinned, Held, ValidBins;
      var e := next + HeadOf(next).size;
      if next != dv {
        Unlink(Chunk(next, HeadOf(next).size));
      }
      SetFreeHead(q, e - q);
      starts := set a | a in starts && (a <= q || e <= a);
      if next == dv || q == dv {
        dv := q;
        dvsize := e - q;
      } else {
        Link(Chunk(q, e - q));
      }
    }

    /** dlfree */
    method Release(p: nat)
      requires Ready(Value()) && p in starts && HeadOf(p).cinuse
      modifies this
      ensures Value() == Free(old(Value()), p)
    {
      hide JoinTop, Coalesce, Trim, Ready;
      if p + HeadOf(p).size == top {
        GiveToTop(p);
        if topsize > trimCheck {
          TrimTop();
        }
      } else {
        Consolidate(p);
      }
    }

    // ---- internal_realloc --------------------------------------------------------------------------

    /** set_inuse, which keeps the chunk's own pinuse bit. */
    method SetInuse(p: nat, s: nat)
      requires s > 0
      modifies this`head
      ensures head == old(head)[p := Head(s, old(HeadOf(p)).pinuse, true)][p + s := old(HeadOf(p + s)).(pinuse := true)]
    {
      head := head[p := Head(s, HeadOf(p).pinuse, true)];
      head := head[p + s := HeadOf(p + s).(pinuse := true)];
    }

    /** A block in use is cut in two blocks in use. */
    method CutInuse(c: Chunk, nb: nat)
      requires IsLive(Value().g, c) && 0 < nb < c.size
      modifies this`head, this`starts
      ensures Value() == CutLive(old(Value()), c.addr, nb)
    {
      ghost var g := Value().g;
      SetInuse(c.addr, nb);
      SetInuse(c.addr + nb, c.size - nb);
      starts := starts + {c.addr + nb};
      CutHeads(g, c, nb);
    }

    /** internal_realloc; copied bytes are moved by memcpy. */
    method Reallocate(c: Chunk, bytes: nat) returns (panicked: bool, got: Chunk, copied: nat)
      requires Ready(Value()) && IsLive(Value().g, c) && !(Moves(Value(), c, bytes) && Overflows(Value(), Needed(bytes)))
      modifies this
      ensures if panicked then Resize(old(Value()), c, bytes).Panicked?
              else Resize(old(Value()), c, bytes) == Returned(Value(), got, copied)
    {
      hide Ready, Malloc, CutLive, Free, Overflows;
      panicked, got, copied := false, NULL, 0;
      LiveSize(Value(), c);
      if bytes >= MAX_REQUEST {
        return;
      }
      var nb := RequestToSize(bytes);
      if c.size >= nb {
        got := ShrinkBlock(c, nb);
      } else if c.addr + c.size == top && c.size + topsize > nb {
        GrowBlock(c, nb);
        got := Chunk(c.addr, nb);
      } else {
        panicked, got, copied := MoveBlock(c, bytes);
      }
    }

    method ShrinkBlock(c: Chunk, nb: nat) returns (got: Chunk)
      requires Ready(Value()) && IsLive(Value().g, c) && 16 <= nb <= c.size && nb % 8 == 0
      modifies this
      ensures Shrink(old(Value()), c, nb) == Returned(Value(), got, 0)
    {
      hide Ready, CutLive, Free;
      got := c;
      if c.size - nb >= 16 {
        CutLiveReady(Value(), c, nb);
        CutInuse(c, nb);
        assert IsLive(Value().g, Rest(c, nb));
        Release(c.addr + nb);
        got := Chunk(c.addr, nb);
      }
    }

    method GrowBlock(c: Chunk, nb: nat)
      requires IsLive(Value().g, c) && c.addr + c.size == top && c.size < nb < c.size + topsize
      modifies this
      ensures Value() == GrowInPlace(old(Value()), c, nb)
    {
      ghost var g := Value().g;
      var newtopsize := c.size + topsize - nb;
      SetInuse(c.addr, nb);
      head := head[c.addr + nb := Head(newtopsize, true, false)];
      top := c.addr + nb;
      topsize := newtopsize;
      assert head == GrowUsed(g, c.addr, nb).head;
    }

    method MoveBlock(c: Chunk, bytes: nat) returns (panicked: bool, got: Chunk, copied: nat)
      requires Ready(Value()) && IsLive(Value().g, c) && bytes < MAX_REQUEST && !Overflows(Value(), Needed(bytes))
      modifies this
      ensures if panicked then Move(old(Value()), c, bytes, Malloc(old(Value()), bytes)).Panicked?
              else Move(old(Value()), c, bytes, Malloc(old(Value()), bytes)) == Returned(Value(), got, copied)
    {
      hide Ready, Malloc, Free, GoodOutcome, Overflows;
      ghost var h := Value();
      StillThere(h, c, bytes);
      copied := 0;
      panicked, got := Allocate(bytes);
      if !panicked && got != NULL {
        copied := Least(Usable(c), bytes);
        Release(c.addr);
      }
    }

    // ---- internal_memalign -----------------------------------------------------------------------------

    /** The loop that finds the next power of two; a is 0 once the loop can no longer end. */
    method NextPower(alignment: nat) returns (a: nat)
      requires 0 < alignment
      ensures a < WORD
      ensures PowerOfTwo(16) && RoundToPower(16, alignment) == if a == 0 then Forever else Power(a)
    {
      hide PowerOfTwo;
      PowIsPower(4);
      a := 16;
      while 0 < a < alignment
        invariant a < WORD && (a == 0 || PowerOfTwo(a)) && RoundToPower(a, alignment) == RoundToPower(16, alignment)
        decreases if a == 0 then 0 else WORD - a
      {
        Doubled(a);
        a := Wrap32(2 * a);
      }
    }

    /** internal_memalign; hung when it does not return. */
    method AllocateAligned(alignment: nat, bytes: nat) returns (hung: bool, panicked: bool, got: Chunk)
      requires Inv(Value()) && (Settles(alignment) ==> AlignOk(Value(), alignment, bytes))
      modifies this
      ensures hung <==> alignment > 8 && !Settles(alignment)
      ensures var r := Memalign.Memalign(old(Value()), alignment, bytes);
              if hung then r.Hangs? else r.Returns? && Matches(panicked, got, Value(), r.o)
    {
      hide Inv, Malloc, GoodOutcome, AlignOutcome, Overflows, RoundToPower, PowerOfTwo;
      hung, panicked, got := false, false, NULL;
      if alignment <= 8 {
        panicked, got := Allocate(bytes);
        return;
      }
      EffectiveAlignmentIs(alignment);
      var a := if alignment < 16 then 16 else alignment;
      if !PowerOfTwo(a) {
        a := NextPower(a);
        if a == 0 {
          hung := true;
          return;
        }
      }
      if bytes + a >= MAX_REQUEST {
        return;
      }
      EightsOf16(a);
      var nb := RequestToSize(bytes);
      ghost var h := Value();
      MallocGood(h, nb + a + 12);
      panicked, got := Allocate(nb + a + 12);
      AlignNothing(h, Malloc(h, nb + a + 12), a, nb);
      if !panicked && got != NULL {
        got := AlignBlock(h, Malloc(h, nb + a + 12), got, a, nb);
      }
    }

    /** Lead and trailer are cut off and given back. */
    method AlignBlock(ghost h: Heap, ghost o: Outcome, c: Chunk, a: nat, nb: nat) returns (got: Chunk)
      requires a >= 16 && a % 8 == 0 && 16 <= nb && nb % 8 == 0 && nb + a < MAX_REQUEST + 11
      requires GoodOutcome(h, o, Needed(nb + a + 12)) && o == Done(Value(), c) && c != NULL
      modifies this
      ensures AlignOutcome(h, o, a, nb) == Done(Value(), got)
    {
      hide Ready, LeadSize, CutLive, Free, Needed;
      var lead := LeadSize(c.addr, a);
      LeadIsChunk(c.addr, a);
      AskedIsEnough(nb, a, c);
      got := CutBlock(c, lead, nb);
    }

    method CutBlock(c: Chunk, lead: nat, nb: nat) returns (got: Chunk)
      requires Ready(Value()) && IsLive(Value().g, c) && lead % 8 == 0 && (lead == 0 || 16 <= lead)
      requires 16 <= nb && nb % 8 == 0 && lead + nb + 8 <= c.size && c.size % 8 == 0
      modifies this
      ensures Value() == AlignWithin(old(Value()), c, lead, nb) && got == Trimmed(AlignedChunk(c, lead), nb)
    {
      hide Ready, CutLive, Free;
      ghost var h := Value();
      CutPieces(h, c, lead, nb);
      var p := AlignedChunk(c, lead);
      if lead > 0 {
        CutInuse(c, lead);
      }
      got := Trimmed(p, nb);
      if p.size > nb + 16 {
        LivePart(Value(), p, h, c, lead);
        CutInuse(p, nb);
      }
      ghost var h2 := Value();
      if lead > 0 {
        assert IsLive(h2.g, Chunk(c.addr, lead));
        FreeGood(h2, c.addr);
        Release(c.addr);
      }
      if p.size > nb + 16 {
        assert IsLive(h2.g, Chunk(p.addr + nb, p.size - nb));
        Release(p.addr + nb);
      }
    }
  }

  lemma CutHeads(g: Tags, c: Chunk, nb: nat)
    requires IsLive(g, c) && 0 < nb < c.size
    ensures var m, e := c.addr + nb, c.addr + c.size;
            var h1: map<nat, Head> := g.head[c.addr := Head(nb, HeadAt(g, c.addr).pinuse, true)][m := HeadAt(g, m).(pinuse := true)];
            h1[m := Head(c.size - nb, true, true)][e := HeadAt(g, e).(pinuse := true)] == Cut(g, c.addr, nb, true).head
  {
    var m, e := c.addr + nb, c.addr + c.size;
    var h0: map<nat, Head> := g.head[c.addr := Head(nb, HeadAt(g, c.addr).pinuse, true)];
    assert h0[m := HeadAt(g, m).(pinuse := true)][m := Head(c.size - nb, true, true)] == h0[m := Head(c.size - nb, true, true)];
  }

  lemma AlignNothing(h: Heap, o: Outcome, a: nat, nb: nat)
    requires a >= 16 && a % 8 == 0 && 16 <= nb && nb % 8 == 0 && nb + a < MAX_REQUEST + 11
    requires GoodOutcome(h, o, Needed(nb + a + 12))
    ensures o.Panic? || o.got == NULL ==> AlignOutcome(h, o, a, nb) == o
  {
    hide GoodOutcome;
  }

  /** The old block is still in use after the malloc of the new one. */
  lemma StillThere(h: Heap, c: Chunk, bytes: nat)
    requires Ready(h) && IsLive(h.g, c) && bytes < MAX_REQUEST && !Overflows(h, Needed(bytes))
    ensures var o := Malloc(h, bytes); o.Done? && o.got != NULL ==> Ready(o.h) && IsLive(o.h.g, c)
  {
    hide Ready, Malloc, Overflows;
    LiveSize(h, c);
    MallocGood(h, bytes);
  }

  /** What is left after the lead was cut off is in use. */
  lemma LivePart(h1: Heap, p: Chunk, h: Heap, c: Chunk, lead: nat)
    requires Ready(h) && IsLive(h.g, c) && lead % 8 == 0 && (lead == 0 || 16 <= lead) && lead + 16 <= c.size
    requires p == AlignedChunk(c, lead) && h1 == CutLead(h, c, lead)
    ensures IsLive(h1.g, p)
  {
    hide Ready, CutLive;
    CutLeadReady(h, c, lead);
  }

  // ---- facts the free path relies on ----------------------------------------------------------

  lemma PrevIsHeld(h: Heap, p: nat)
    requires Ready(h) && p in h.g.starts && HeadAt(h.g, p).cinuse && !HeadAt(h.g, p).pinuse && LowEnd(h.g, p) != h.dv
    ensures FootAt(h.g, p) <= p && LowEnd(h.g, p) == p - FootAt(h.g, p)
    ensures ValidBins(h.bins) && Held(h.bins, PrevChunk(h.g, p)) > 0
  {
    Neighbours(h.g, p);
    assert ShouldBin(h, PrevChunk(h.g, p));
    assert BackAt(h.g, p);
  }

  lemma DvNotAt(h: Heap, p: nat)
    requires Ready(h) && p in h.g.starts && HeadAt(h.g, p).cinuse
    ensures h.dv != p
  {
    assert BoundAt(h.g, p);
  }

  /** The bins without the free chunk in front of p. */
  ghost function BinsBefore(h: Heap, p: nat): (b: Bins) {
    if Ready(h) && p in h.g.starts && HeadAt(h.g, p).cinuse then WithoutPrev(h, p) else h.bins
  }

  /** JoinTop, field by field. */
  lemma JoinTopIs(h: Heap, p: nat)
    requires Ready(h) && p in h.g.starts && HeadAt(h.g, p).cinuse && NextAt(h.g, p) == h.g.top
    ensures var q := LowEnd(h.g, p); var n := h.g.topsize + (h.g.top - q);
            && q <= h.g.top
            && JoinTop(h, p) == Heap(Tags(h.g.head[q := Head(n, true, false)], h.g.foot, (set a | a in h.g.starts && a < q), h.g.base, q, n),
                                     WithoutPrev(h, p), if q == h.dv then 0 else h.dv, if q == h.dv then 0 else h.dvsize,
                                     h.end, h.brk, h.trimCheck, h.contiguous)
  {
    hide WithoutPrev, BinsOk, Tagged, DvOk, HeadAt, FootAt;
    Neighbours(h.g, p);
    DvNotAt(h, p);
  }

  /** The heap after the words, the bins and dv are written, with the chunk behind in use. */
  ghost function FreedUsedNext(h: Heap, p: nat, q: nat, n: nat): Heap
    requires q < n && n - q < WORD && (n - q) % 8 == 0 && ValidBins(BinsBefore(h, p))
  {
    var s := n - q;
    var g := Tags(h.g.head[n := HeadAt(h.g, n).(pinuse := false)][q := Head(s, true, false)], h.g.foot[q + s := s],
                  (set a | a in h.g.starts && (a <= q || n <= a)), h.g.base, h.g.top, h.g.topsize);
    if q == h.dv then h.(g := g, bins := BinsBefore(h, p), dvsize := s)
    else h.(g := g, bins := Binned(BinsBefore(h, p), Chunk(q, s)))
  }

  ghost predicate FreeNextOk(h: Heap, p: nat, q: nat, n: nat) {
    var e := NextAt(h.g, n);
    && q < e && e - q < WORD && (e - q) % 8 == 0 && ValidBins(BinsBefore(h, p))
    && (n != h.dv ==> Held(BinsBefore(h, p), Chunk(n, SizeAt(h.g, n))) > 0)
  }

  /** The same with the chunk behind free. */
  ghost function FreedFreeNext(h: Heap, p: nat, q: nat, n: nat): Heap
    requires FreeNextOk(h, p, q, n)
  {
    var e := NextAt(h.g, n);
    var s := e - q;
    var g := Tags(h.g.head[q := Head(s, true, false)], h.g.foot[q + s := s],
                  (set a | a in h.g.starts && (a <= q || e <= a)), h.g.base, h.g.top, h.g.topsize);
    var b := if n == h.dv then BinsBefore(h, p) else Unbinned(BinsBefore(h, p), Chunk(n, SizeAt(h.g, n)));
    if n == h.dv || q == h.dv then h.(g := g, bins := b, dv := q, dvsize := s)
    else h.(g := g, bins := Binned(b, Chunk(q, s)))
  }

  lemma CoalesceUsedNext(h: Heap, p: nat)
    requires Ready(h) && p in h.g.starts && HeadAt(h.g, p).cinuse && NextAt(h.g, p) != h.g.top
    requires HeadAt(h.g, NextAt(h.g, p)).cinuse
    ensures var q, n := LowEnd(h.g, p), NextAt(h.g, p);
            && q < n && n - q < WORD && (n - q) % 8 == 0 && BinsBefore(h, p) == WithoutPrev(h, p) && ValidBins(BinsBefore(h, p))
            && Coalesce(h, p) == FreedUsedNext(h, p, q, n)
  {
    hide WithoutPrev, Binned, BinsOk, Merge, Tagged, DvOk;
    Neighbours(h.g, p);
    MergedSize(h, p);
    DvNotAt(h, p);
    UsedNextMerge(h.g, p);
    assert WithoutNeighbours(h, p) == WithoutPrev(h, p);
  }

  lemma UsedNextMerge(g: Tags, p: nat)
    requires Tagged(g) && p in g.starts && HeadAt(g, p).cinuse && NextAt(g, p) != g.top
    ensures var q, n := LowEnd(g, p), NextAt(g, p);
            && q < n
            && Merge(g, q, n, false) ==
               Tags(g.head[n := HeadAt(g, n).(pinuse := false)][q := Head(n - q, true, false)], g.foot[q + (n - q) := n - q],
                    (set a | a in g.starts && (a <= q || n <= a)), g.base, g.top, g.topsize)
  {
    Neighbours(g, p);
    var q, n := LowEnd(g, p), NextAt(g, p);
    assert g.head[q := Head(n - q, true, false)][n := HeadAt(g, n).(pinuse := false)]
        == g.head[n := HeadAt(g, n).(pinuse := false)][q := Head(n - q, true, false)];
  }

  /** Behind a free chunk the pinuse bit is clear already. */
  lemma FreeNextMerge(g: Tags, p: nat)
    requires Tagged(g) && p in g.starts && HeadAt(g, p).cinuse && NextFree(g, p)
    ensures var q, e := LowEnd(g, p), HighEnd(g, p);
            && q < e && e == NextAt(g, NextAt(g, p))
            && Merge(g, q, e, false) ==
               Tags(g.head[q := Head(e - q, true, false)], g.foot[q + (e - q) := e - q],
                    (set a | a in g.starts && (a <= q || e <= a)), g.base, g.top, g.topsize)
  {
    Neighbours(g, p);
    var q, e := LowEnd(g, p), HighEnd(g, p);
    ClearBehind(g, NextChunk(g, p));
    assert g.head[q := Head(e - q, true, false)][e := g.head[e]] == g.head[q := Head(e - q, true, false)];
  }

  lemma NextUnlinked(h: Heap, p: nat)
    requires Ready(h) && p in h.g.starts && HeadAt(h.g, p).cinuse && NextFree(h.g, p)
    ensures var b := WithoutPrev(h, p);
            && ValidBins(b)
            && (NextAt(h.g, p) != h.dv ==> Held(b, NextChunk(h.g, p)) > 0)
            && WithoutNeighbours(h, p) == if NextAt(h.g, p) == h.dv then b else Unbinned(b, NextChunk(h.g, p))
  {
    hide Unbinned;
    Neighbours(h.g, p);
    if NextAt(h.g, p) != h.dv {
      assert ShouldBin(h, NextChunk(h.g, p));
    }
  }

  lemma CoalesceFreeNext(h: Heap, p: nat)
    requires Ready(h) && p in h.g.starts && HeadAt(h.g, p).cinuse && NextAt(h.g, p) != h.g.top
    requires !HeadAt(h.g, NextAt(h.g, p)).cinuse
    ensures var q, n := LowEnd(h.g, p), NextAt(h.g, p);
            && FreeNextOk(h, p, q, n) && BinsBefore(h, p) == WithoutPrev(h, p)
            && Coalesce(h, p) == FreedFreeNext(h, p, q, n)
  {
    hide WithoutPrev, WithoutNeighbours, Binned, Unbinned, Held, Merge, ValidBins;
    Neighbours(h.g, p);
    MergedSize(h, p);
    DvNotAt(h, p);
    FreeNextMerge(h.g, p);
    NextUnlinked(h, p);
  }

  /** The step panicked or left the outcome's heap. */
  ghost predicate Matches(panicked: bool, got: Chunk, now: Heap, o: Outcome) {
    if panicked then o.Panic? else o == Done(now, got)
  }

  /** A victim exists only in a heap that has been used. */
  lemma VictimReady(h: Heap)
    requires Inv(h) && h.dvsize > 0
    ensures Ready(h)
  {
  }
}
