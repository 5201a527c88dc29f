/** tmalloc_large and tmalloc_small: which tree chunk a request is served from. */
module BestFit {
  import opened Words
  import opened TreeBins
  import opened TreeSearch
  import opened BinIndex
  import opened Bins
  import opened BitMaps

  /** What tmalloc_large finds: best of nb's own bin, else smallest of the next non-empty bin. */
  function LargeFit(b: Bins, nb: nat): (f: Fit)
    requires ValidBins(b) && MIN_LARGE <= nb < WORD
  {
    InRootRange(nb);
    var idx := TreeIndex(nb);
    RootRange(idx);
    assert TreeOk(b.tree[idx], b.treemap[idx], idx);
    var f := if b.tree[idx].Node? then SearchBin(b.tree[idx], nb, RootLo(idx), RootWidth(idx))
             else Fit(Empty, WORD - nb);
    if f.v.Node? then f else FromNextBin(b, nb)
  }

  function SmallestIn(b: Bins, i: nat, nb: nat): (f: Fit)
    requires ValidBins(b) && i < NBINS && 0 < nb < WORD
  {
    RootRange(i);
    assert TreeOk(b.tree[i], b.treemap[i], i);
    Smallest(b.tree[i], Fit(Empty, WORD - nb), nb, RootLo(i), RootWidth(i))
  }

  lemma HeldInOwnTree(b: Bins, c: Chunk)
    requires ValidBins(b) && LargeHeld(b, c)
    ensures MIN_LARGE <= c.size < WORD
    ensures var i := TreeIndex(c.size);
            i < NBINS && b.treemap[i] && HasSize(b.tree[i], c.size)
  {
    var i := TreeIndex(c.size);
    assert TreeOk(b.tree[i], b.treemap[i], i);
    CountHasSize(b.tree[i], RootLo(i), RootWidth(i), c);
    OwnSizesHas(b.tree[i], i, c.size);
  }

  lemma PickedIsHeld(b: Bins, i: nat, v: Chunk)
    requires ValidBins(b) && i < NBINS && Count(b.tree[i], v) > 0
    ensures LargeHeld(b, v) && TreeIndex(v.size) == i && MIN_LARGE <= v.size < WORD
  {
    assert TreeOk(b.tree[i], b.treemap[i], i);
    CountHasSize(b.tree[i], RootLo(i), RootWidth(i), v);
    OwnSizesHas(b.tree[i], i, v.size);
  }

  lemma OwnBinBest(b: Bins, nb: nat, c: Chunk)
    requires ValidBins(b) && MIN_LARGE <= nb < WORD
    ensures var idx := TreeIndex(nb); idx < NBINS
    ensures var idx := TreeIndex(nb);
            b.tree[idx].Node? && TreeOk(b.tree[idx], b.treemap[idx], idx) && RootLo(idx) <= nb < RootLo(idx) + RootWidth(idx) <= WORD && Halves(RootWidth(idx)) ==>
              var f := SearchBin(b.tree[idx], nb, RootLo(idx), RootWidth(idx));
              && ValidFit(f, nb)
              && (f.v.Node? ==> LargeHeld(b, f.v.ring[0]) && TreeIndex(f.v.ring[0].size) == idx)
              && (LargeHeld(b, c) && nb <= c.size && TreeIndex(c.size) == idx ==> Covers(f, c.size))
  {
    InRootRange(nb);
    var idx := TreeIndex(nb);
    RootRange(idx);
    assert TreeOk(b.tree[idx], b.treemap[idx], idx);
    if b.tree[idx].Node? {
      SearchBinBest(b.tree[idx], nb, RootLo(idx), RootWidth(idx), c.size);
      var f := SearchBin(b.tree[idx], nb, RootLo(idx), RootWidth(idx));
      if f.v.Node? {
        PickedIsHeld(b, idx, f.v.ring[0]);
      }
      if LargeHeld(b, c) {
        HeldInOwnTree(b, c);
      }
    }
  }

  /** The leftmost walk in a bin above nb's finds a smallest chunk of that bin, and it fits. */
  lemma NextBinBest(b: Bins, i: nat, nb: nat, c: Chunk)
    requires ValidBins(b) && i < NBINS && b.treemap[i] && 0 < nb < WORD
    requires nb < MIN_LARGE || TreeIndex(nb) < i
    ensures var f := SmallestIn(b, i, nb);
            && ValidFit(f, nb) && f.v.Node?
            && LargeHeld(b, f.v.ring[0]) && TreeIndex(f.v.ring[0].size) == i
            && (LargeHeld(b, c) && TreeIndex(c.size) == i ==> Covers(f, c.size))
  {
    RootRange(i);
    var t, lo, w := b.tree[i], RootLo(i), RootWidth(i);
    assert TreeOk(t, b.treemap[i], i);
    var f0 := Fit(Empty, WORD - nb);
    SmallestValid(t, f0, nb, lo, w);
    SmallestPicks(t, f0, nb, lo, w);
    SmallestFits(t, f0, nb, lo, w, i, t.ring[0].size);
    PickedIsHeld(b, i, SmallestIn(b, i, nb).v.ring[0]);
    if LargeHeld(b, c) && TreeIndex(c.size) == i {
      HeldInOwnTree(b, c);
      SmallestFits(t, f0, nb, lo, w, i, c.size);
    }
  }

  /** Like SmallestCovers, with every chunk of the bin known to fit. */
  lemma {:induction false} SmallestFits(t: Tree, f: Fit, nb: nat, lo: nat, w: nat, i: nat, s: nat)
    requires Trie(t, lo, w) && lo + w <= WORD && ValidFit(f, nb) && OwnSizes(t, i)
    requires nb < MIN_LARGE || TreeIndex(nb) < i
    requires HasSize(t, s)
    ensures Covers(Smallest(t, f, nb, lo, w), s)
    decreases t
  {
    hide TreeIndex;
    ImproveIsMin(t, f, nb);
    if nb >= MIN_LARGE {
      BinsOrdered(nb, t.ring[0].size);
    }
    var g := Improve(t, f, nb);
    HasSizeRange(t, s, lo, w);
    if t.left.Node? {
      SmallestValid(t.left, g, nb, lo, w / 2);
      if HasSize(t.left, s) {
        SmallestFits(t.left, g, nb, lo, w / 2, i, s);
      } else if HasSize(t.right, s) {
        HasSizeRange(t.right, s, lo + w / 2, w / 2);
        SmallestFits(t.left, g, nb, lo, w / 2, i, t.left.ring[0].size);
      }
    } else if t.right.Node? {
      SmallestValid(t.right, g, nb, lo + w / 2, w / 2);
      if HasSize(t.right, s) {
        SmallestFits(t.right, g, nb, lo + w / 2, w / 2, i, s);
      }
    }
  }

  lemma LargeFitCovers(b: Bins, nb: nat, c: Chunk)
    requires ValidBins(b) && MIN_LARGE <= nb < WORD
    ensures var f := LargeFit(b, nb);
            && ValidFit(f, nb)
            && (f.v.Node? ==> LargeHeld(b, f.v.ring[0]))
            && (LargeHeld(b, c) && nb <= c.size ==> Covers(f, c.size))
  {
    hide SearchBin, SmallestIn, TreeIndex, RootLo, RootWidth, Halves, Held, LargeHeld;
    InRootRange(nb);
    var idx := TreeIndex(nb);
    RootRange(idx);
    assert TreeOk(b.tree[idx], b.treemap[idx], idx);
    OwnBinBest(b, nb, c);
    var f := LargeFit(b, nb);
    var i := NextMarked(b.treemap, idx + 1);
    if i < NBINS {
      NextBinBest(b, i, nb, c);
    }
    if LargeHeld(b, c) && nb <= c.size {
      HeldInOwnTree(b, c);
      var j := TreeIndex(c.size);
      if j < idx {
        BinsOrdered(c.size, nb);
      } else if f.v.Node? && TreeIndex(f.v.ring[0].size) < j {
        BinsOrdered(f.v.ring[0].size, c.size);
      }
    }
  }

  /** tmalloc_large's search: a smallest tree chunk of at least nb bytes over all bins, or there is none. */
  lemma LargeFitIsBest(b: Bins, nb: nat)
    requires ValidBins(b) && MIN_LARGE <= nb < WORD
    ensures var f := LargeFit(b, nb);
            && ValidFit(f, nb)
            && (f.v.Node? ==> BestFit(b, f.v.ring[0], nb))
            && (f.v.Empty? ==> forall c :: LargeHeld(b, c) ==> c.size < nb)
  {
    forall c {
      LargeFitCovers(b, nb, c);
    }
    LargeFitCovers(b, nb, Chunk(0, 0));
  }

  /** tmalloc_small's search starts in the least marked bin. */
  lemma SmallFitIsBest(b: Bins, nb: nat)
    requires ValidBins(b) && 0 < nb < MIN_LARGE && NextMarked(b.treemap, 0) < NBINS
    ensures var f := SmallestIn(b, NextMarked(b.treemap, 0), nb);
            && ValidFit(f, nb) && f.v.Node?
            && BestFit(b, f.v.ring[0], nb)
            && (forall c :: LargeHeld(b, c) ==> f.v.ring[0].size <= c.size)
  {
    var i := NextMarked(b.treemap, 0);
    var f := SmallestIn(b, i, nb);
    NextBinBest(b, i, nb, Chunk(0, 0));
    forall c | LargeHeld(b, c) ensures f.v.ring[0].size <= c.size {
      NextBinBest(b, i, nb, c);
      HeldInOwnTree(b, c);
      PickedSize(b, f.v.ring[0]);
      if i < TreeIndex(c.size) {
        BinsOrdered(f.v.ring[0].size, c.size);
      }
    }
  }

  lemma PickedSize(b: Bins, c: Chunk)
    requires ValidBins(b) && LargeHeld(b, c)
    ensures MIN_LARGE <= c.size < WORD
  {
    HeldInOwnTree(b, c);
  }

  // ---- the loops ------------------------------------------------------------------

  /** What is left after the first loop: a subtree to walk and the best so far. */
  lemma AfterDescent(b: Bins, nb: nat, p: Probe)
    requires ValidBins(b) && MIN_LARGE <= nb < WORD
    requires TreeIndex(nb) < NBINS && b.tree[TreeIndex(nb)].Node?
    requires var i := TreeIndex(nb);
             && Halves(RootWidth(i)) && Trie(b.tree[i], RootLo(i), RootWidth(i))
             && RootLo(i) <= nb < RootLo(i) + RootWidth(i) <= WORD
             && p == Descend(b.tree[i], Fit(Empty, WORD - nb), NOWHERE, nb, RootLo(i), RootWidth(i))
    ensures ValidSub(p.u)
    ensures p.u.t.Node? || p.f.v.Node? ==> LargeFit(b, nb) == Smallest(p.u.t, p.f, nb, p.u.lo, p.u.w)
    ensures p.u.t.Empty? && p.f.v.Empty? ==> p.f == Fit(Empty, WORD - nb) && LargeFit(b, nb) == FromNextBin(b, nb)
  {
    var i := TreeIndex(nb);
    DescendValid(b.tree[i], Fit(Empty, WORD - nb), NOWHERE, nb, RootLo(i), RootWidth(i));
    SmallestValid(p.u.t, p.f, nb, p.u.lo, p.u.w);
    if p.u.t.Node? && p.f.v.Empty? {
      SmallestCovers(p.u.t, p.f, nb, p.u.lo, p.u.w, p.u.t.ring[0].size);
    }
  }

  /** The second source of tmalloc_large: the next non-empty bin. */
  function FromNextBin(b: Bins, nb: nat): (f: Fit)
    requires ValidBins(b) && 0 < nb < WORD && TreeIndex(nb) < NBINS
  {
    var i := NextMarked(b.treemap, TreeIndex(nb) + 1);
    if i == NBINS then Fit(Empty, WORD - nb) else SmallestIn(b, i, nb)
  }

  /** A tree under the root of bin i has at most one node more on a path than the register has bits. */
  lemma BinHeight(b: Bins, i: nat)
    requires ValidBins(b) && i < NBINS
    ensures Height(b.tree[i]) <= RootBits(i) + 1
  {
    assert TreeOk(b.tree[i], b.treemap[i], i);
    RootWidthIs(i);
    HeightBound(b.tree[i], RootLo(i), RootBits(i));
  }

  /** A subtree that the descent leaves for the walk is no higher than the tree. */
  lemma {:induction false} DescentHeight(t: Tree, f: Fit, rst: Sub, nb: nat, lo: nat, w: nat)
    requires t.Node? && Halves(w) && Trie(t, lo, w) && lo <= nb < lo + w <= WORD
    ensures var u := Descend(t, f, rst, nb, lo, w).u; u == rst || Height(u.t) <= Height(t)
    decreases t
  {
    var g := Improve(t, f, nb);
    if !(g != f && g.rem == 0) {
      var u := Next(t, nb, lo, w);
      if u.t.Node? {
        DescentHeight(u.t, g, Untaken(t, rst, nb, lo, w), nb, u.lo, u.w);
      }
    }
  }

  method ProbeOwnBin(b: Bins, nb: nat) returns (t: Tree, f: Fit, ghost lo: nat, ghost w: nat, ghost rounds: nat)
    requires ValidBins(b) && MIN_LARGE <= nb < WORD
    ensures TreeIndex(nb) < NBINS && Trie(t, lo, w) && lo + w <= WORD
    ensures t.Node? || f.v.Node? ==> LargeFit(b, nb) == Smallest(t, f, nb, lo, w)
    ensures t.Empty? && f.v.Empty? ==> f == Fit(Empty, WORD - nb) && LargeFit(b, nb) == FromNextBin(b, nb)
    ensures rounds <= RootBits(TreeIndex(nb)) + 1 && Height(t) <= RootBits(TreeIndex(nb)) + 1
  {
    InRootRange(nb);
    ShiftedPath(nb);
    var idx := TreeIndex(nb);
    RootRange(idx);
    BinHeight(b, idx);
    assert TreeOk(b.tree[idx], b.treemap[idx], idx);
    t := b.tree[idx];
    f := Fit(Empty, WORD - nb);
    lo, w, rounds := RootLo(idx), RootWidth(idx), 0;
    if t.Node? {
      ghost var p := Descend(t, f, NOWHERE, nb, lo, w);
      AfterDescent(b, nb, p);
      DescentHeight(t, f, NOWHERE, nb, lo, w);
      t, f, rounds := DescendLoop(t, f, nb, ShiftIn(nb, LeftShift(idx)), lo, w);
      lo, w := p.u.lo, p.u.w;
    }
  }

  /** tmalloc_large's two loops; together they visit at most 66 nodes. */
  method SearchLarge(b: Bins, nb: nat) returns (f: Fit, ghost rounds: nat)
    requires ValidBins(b) && MIN_LARGE <= nb < WORD
    ensures f == LargeFit(b, nb)
    ensures rounds <= 66
  {
    var t;
    ghost var lo, w, walked;
    t, f, lo, w, rounds := ProbeOwnBin(b, nb);
    if t.Empty? && f.v.Empty? {
      var i := NextBit(b.treemap, TreeIndex(nb));
      if i < NBINS {
        t := b.tree[i];
        lo, w := RootLo(i), RootWidth(i);
        RootRange(i);
        BinHeight(b, i);
        assert TreeOk(b.tree[i], b.treemap[i], i);
      }
    }
    f, walked := WalkLeftmost(t, f, nb, lo, w);
    rounds := rounds + walked;
  }

  method SearchSmall(b: Bins, nb: nat) returns (f: Fit, ghost rounds: nat)
    requires ValidBins(b) && 0 < nb < MIN_LARGE && NextMarked(b.treemap, 0) < NBINS
    ensures f == SmallestIn(b, NextMarked(b.treemap, 0), nb)
    ensures rounds <= RootBits(NextMarked(b.treemap, 0)) + 1
  {
    var i := FirstBit(b.treemap);
    RootRange(i);
    BinHeight(b, i);
    assert TreeOk(b.tree[i], b.treemap[i], i);
    f, rounds := WalkLeftmost(b.tree[i], Fit(Empty, WORD - nb), nb, RootLo(i), RootWidth(i));
  }
}
