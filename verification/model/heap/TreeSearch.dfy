/**
 Best-fit search in the tries (tmalloc_large and tmalloc_small).

 A subtree value stands for the pointer to its root chunk; Empty is the null pointer.
 */
module TreeSearch {
  import opened Words
  import opened TreeBins

  /** The best chunk so far and the bytes it leaves over; null leaves the wrapped negative of nb. */
  datatype Fit = Fit(v: Tree, rem: nat)

  ghost predicate ValidFit(f: Fit, nb: nat) {
    && 0 < nb < WORD
    && (f.v.Empty? ==> f.rem == WORD - nb)
    && (f.v.Node? ==> f.v.ring != [] && nb <= f.v.ring[0].size < WORD && f.rem == f.v.ring[0].size - nb)
  }

  /** f is at most s. */
  ghost predicate Covers(f: Fit, s: nat) {
    f.v.Node? && f.v.ring != [] && f.v.ring[0].size <= s
  }

  /** One comparison: `trem < rsize` on wrapped differences. */
  function Improve(t: Tree, f: Fit, nb: nat): (r: Fit)
    requires t.Node? && t.ring != [] && t.ring[0].size < WORD && nb < WORD
  {
    var trem := Sub32(t.ring[0].size, nb);
    if trem < f.rem then Fit(t, trem) else f
  }

  lemma ImproveIsMin(t: Tree, f: Fit, nb: nat)
    requires t.Node? && t.ring != [] && t.ring[0].size < WORD && ValidFit(f, nb)
    ensures ValidFit(Improve(t, f, nb), nb)
    ensures Improve(t, f, nb).v == f.v || Improve(t, f, nb).v == t
    ensures nb <= t.ring[0].size ==> Covers(Improve(t, f, nb), t.ring[0].size)
    ensures f.v.Node? ==> Covers(Improve(t, f, nb), f.v.ring[0].size)
    ensures t.ring[0].size < nb ==> Improve(t, f, nb) == f
    ensures f.rem == 0 ==> Improve(t, f, nb) == f
  {
  }

  function LeftmostChild(t: Tree): (r: Tree)
    requires t.Node?
  {
    if t.left.Node? then t.left else t.right
  }

  /** The smallest of a tree: best of the chunks on the leftmost path. */
  function Smallest(t: Tree, f: Fit, nb: nat, lo: nat, w: nat): (r: Fit)
    requires Trie(t, lo, w) && lo + w <= WORD && nb < WORD
    decreases t
  {
    if t.Empty? then f
    else if t.left.Node? then Smallest(t.left, Improve(t, f, nb), nb, lo, w / 2)
    else if t.right.Node? then Smallest(t.right, Improve(t, f, nb), nb, lo + w / 2, w / 2)
    else Improve(t, f, nb)
  }

  /** The walk along leftmost_child; it takes no more rounds than a longest path has nodes. */
  method WalkLeftmost(t0: Tree, f0: Fit, nb: nat, ghost lo: nat, ghost w: nat) returns (f: Fit, ghost rounds: nat)
    requires Trie(t0, lo, w) && lo + w <= WORD && nb < WORD
    ensures f == Smallest(t0, f0, nb, lo, w)
    ensures rounds <= Height(t0)
  {
    f, rounds := f0, 0;
    var t := t0;
    ghost var l: nat, n: nat := lo, w;
    while t.Node?
      invariant Trie(t, l, n) && l + n <= WORD
      invariant Smallest(t, f, nb, l, n) == Smallest(t0, f0, nb, lo, w)
      invariant rounds + Height(t) <= Height(t0)
      decreases t
    {
      rounds := rounds + 1;
      f := Improve(t, f, nb);
      if t.left.Node? {
        n := n / 2;
      } else if t.right.Node? {
        l, n := l + n / 2, n / 2;
      }
      t := LeftmostChild(t);
    }
  }

  lemma {:induction false} SmallestValid(t: Tree, f: Fit, nb: nat, lo: nat, w: nat)
    requires Trie(t, lo, w) && lo + w <= WORD && ValidFit(f, nb)
    ensures ValidFit(Smallest(t, f, nb, lo, w), nb)
    ensures f.v.Node? ==> Covers(Smallest(t, f, nb, lo, w), f.v.ring[0].size)
    ensures f.rem == 0 ==> Smallest(t, f, nb, lo, w) == f
    decreases t
  {
    if t.Node? {
      ImproveIsMin(t, f, nb);
      if t.left.Node? {
        SmallestValid(t.left, Improve(t, f, nb), nb, lo, w / 2);
      } else if t.right.Node? {
        SmallestValid(t.right, Improve(t, f, nb), nb, lo + w / 2, w / 2);
      }
    }
  }

  /** No chunk of the tree is smaller than the one found. */
  lemma {:induction false} SmallestCovers(t: Tree, f: Fit, nb: nat, lo: nat, w: nat, s: nat)
    requires Trie(t, lo, w) && lo + w <= WORD && ValidFit(f, nb) && nb <= lo
    requires HasSize(t, s)
    ensures Covers(Smallest(t, f, nb, lo, w), s)
    decreases t
  {
    ImproveIsMin(t, f, nb);
    var g := Improve(t, f, nb);
    HasSizeRange(t, s, lo, w);
    if t.left.Node? {
      SmallestValid(t.left, g, nb, lo, w / 2);
      if HasSize(t.left, s) {
        SmallestCovers(t.left, g, nb, lo, w / 2, s);
      } else if HasSize(t.right, s) {
        HasSizeRange(t.right, s, lo + w / 2, w / 2);
        SmallestCovers(t.left, g, nb, lo, w / 2, t.left.ring[0].size);
      }
    } else if t.right.Node? {
      SmallestValid(t.right, g, nb, lo + w / 2, w / 2);
      if HasSize(t.right, s) {
        SmallestCovers(t.right, g, nb, lo + w / 2, w / 2, s);
      }
    }
  }

  /** What is found is f itself or a chunk linked into the tree. */
  lemma {:induction false} SmallestPicks(t: Tree, f: Fit, nb: nat, lo: nat, w: nat)
    requires Trie(t, lo, w) && lo + w <= WORD && ValidFit(f, nb)
    ensures var r := Smallest(t, f, nb, lo, w);
            r.v == f.v || (r.v.Node? && r.v.ring != [] && Count(t, r.v.ring[0]) > 0)
    decreases t
  {
    if t.Node? {
      ImproveIsMin(t, f, nb);
      if t.left.Node? {
        SmallestPicks(t.left, Improve(t, f, nb), nb, lo, w / 2);
      } else if t.right.Node? {
        SmallestPicks(t.right, Improve(t, f, nb), nb, lo + w / 2, w / 2);
      }
    }
  }

  // ---- the descent of tmalloc_large along the bits of nb ------------------

  /** A subtree together with the range of sizes it covers. */
  datatype Sub = Sub(t: Tree, lo: nat, w: nat)

  ghost predicate ValidSub(u: Sub) {
    Trie(u.t, u.lo, u.w) && u.lo + u.w <= WORD
  }

  /** Where the first loop ends: the subtree still to be searched and the best so far. */
  datatype Probe = Probe(u: Sub, f: Fit)

  /** The child on the bit path of nb. */
  function Next(t: Tree, nb: nat, lo: nat, w: nat): (u: Sub)
    requires t.Node?
  {
    if nb < lo + w / 2 then Sub(t.left, lo, w / 2) else Sub(t.right, lo + w / 2, w / 2)
  }

  /** The deepest right subtree not taken, after this node. */
  function Untaken(t: Tree, rst: Sub, nb: nat, lo: nat, w: nat): (u: Sub)
    requires t.Node?
  {
    if nb < lo + w / 2 && t.right.Node? then Sub(t.right, lo + w / 2, w / 2) else rst
  }

  /**
   The descent: stop at an exact fit (with the node found) or when the bit path ends
   (with the deepest right subtree not taken, rst).
   */
  function Descend(t: Tree, f: Fit, rst: Sub, nb: nat, lo: nat, w: nat): (p: Probe)
    requires t.Node? && Halves(w) && Trie(t, lo, w) && lo <= nb < lo + w <= WORD
    decreases t
  {
    var g := Improve(t, f, nb);
    if g != f && g.rem == 0 then Probe(Sub(t, lo, w), g)
    else
      var u := Next(t, nb, lo, w);
      var rst' := Untaken(t, rst, nb, lo, w);
      if u.t.Empty? then Probe(rst', g)
      else Descend(u.t, g, rst', nb, u.lo, u.w)
  }

  const NOWHERE := Sub(Empty, 0, 0)

  /** rst lies to the right of everything still reachable. */
  ghost predicate Beyond(rst: Sub, hi: nat) {
    ValidSub(rst) && (rst.t.Node? ==> hi <= rst.lo)
  }

  lemma StepDown(t: Tree, rst: Sub, nb: nat, lo: nat, w: nat)
    requires t.Node? && Halves(w) && Trie(t, lo, w) && lo <= nb < lo + w <= WORD && Beyond(rst, lo + w)
    ensures var u := Next(t, nb, lo, w); var rst' := Untaken(t, rst, nb, lo, w);
            && ValidSub(rst')
            && (rst'.t.Node? ==> nb <= rst'.lo)
            && (rst.t.Node? ==> rst'.t.Node? && (rst'.lo + rst'.w <= rst.lo || rst' == rst))
            && (u.t.Node? ==> w > 1 && Halves(u.w) && ValidSub(u) && u.lo <= nb < u.lo + u.w && Beyond(rst', u.lo + u.w))
  {
  }

  lemma {:induction false} DescendValid(t: Tree, f: Fit, rst: Sub, nb: nat, lo: nat, w: nat)
    requires t.Node? && Halves(w) && Trie(t, lo, w) && lo <= nb < lo + w <= WORD
    requires ValidFit(f, nb) && Beyond(rst, lo + w)
    ensures var p := Descend(t, f, rst, nb, lo, w);
            && ValidFit(p.f, nb) && ValidSub(p.u)
            && (p.u.t.Node? ==> nb <= p.u.lo || (p.f.rem == 0 && p.f.v.Node?))
            && (f.v.Node? ==> Covers(p.f, f.v.ring[0].size))
    decreases t
  {
    ImproveIsMin(t, f, nb);
    var g := Improve(t, f, nb);
    if g != f && g.rem == 0 {
    } else {
      StepDown(t, rst, nb, lo, w);
      var u := Next(t, nb, lo, w);
      if u.t.Node? {
        DescendValid(u.t, g, Untaken(t, rst, nb, lo, w), nb, u.lo, u.w);
      }
    }
  }

  /** Unless an exact fit is found, the descent ends at the given subtree or one to the left of it. */
  lemma {:induction false} DescendLeftward(t: Tree, f: Fit, rst: Sub, nb: nat, lo: nat, w: nat)
    requires t.Node? && Halves(w) && Trie(t, lo, w) && lo <= nb < lo + w <= WORD
    requires ValidFit(f, nb) && Beyond(rst, lo + w) && rst.t.Node?
    ensures var p := Descend(t, f, rst, nb, lo, w);
            p.u.t.Node? && (p.u.lo + p.u.w <= rst.lo || p.u == rst)
    decreases t
  {
    ImproveIsMin(t, f, nb);
    var g := Improve(t, f, nb);
    if g != f && g.rem == 0 {
    } else {
      StepDown(t, rst, nb, lo, w);
      var u := Next(t, nb, lo, w);
      if u.t.Node? {
        DescendLeftward(u.t, g, Untaken(t, rst, nb, lo, w), nb, u.lo, u.w);
      }
    }
  }

  /** The size s of t, if not the root's, is on the path, or below nb, or in the right subtree not taken. */
  lemma StepSizes(t: Tree, rst: Sub, nb: nat, lo: nat, w: nat, s: nat)
    requires t.Node? && Halves(w) && Trie(t, lo, w) && lo <= nb < lo + w <= WORD
    requires HasSize(t, s) && nb <= s && s != t.ring[0].size
    ensures HasSize(Next(t, nb, lo, w).t, s) ||
            (var r := Untaken(t, rst, nb, lo, w); nb < lo + w / 2 <= s && r == Sub(t.right, lo + w / 2, w / 2) && HasSize(r.t, s))
  {
    if HasSize(t.right, s) {
      HasSizeRange(t.right, s, lo + w / 2, w / 2);
    }
    if HasSize(t.left, s) {
      HasSizeRange(t.left, s, lo, w / 2);
    }
  }

  /** Every fitting size is beaten by the best so far or lies in, or right of, the subtree left to search. */
  lemma {:induction false} DescendCovers(t: Tree, f: Fit, rst: Sub, nb: nat, lo: nat, w: nat, s: nat)
    requires t.Node? && Halves(w) && Trie(t, lo, w) && lo <= nb < lo + w <= WORD
    requires ValidFit(f, nb) && Beyond(rst, lo + w)
    requires HasSize(t, s) && nb <= s
    ensures var p := Descend(t, f, rst, nb, lo, w);
            Covers(p.f, s) || (p.u.t.Node? && (HasSize(p.u.t, s) || p.u.lo + p.u.w <= s))
    decreases t
  {
    ImproveIsMin(t, f, nb);
    var g := Improve(t, f, nb);
    if g != f && g.rem == 0 {
    } else {
      StepDown(t, rst, nb, lo, w);
      var u := Next(t, nb, lo, w);
      var rst' := Untaken(t, rst, nb, lo, w);
      if s == t.ring[0].size {
        if u.t.Node? {
          DescendValid(u.t, g, rst', nb, u.lo, u.w);
        }
      } else {
        StepSizes(t, rst, nb, lo, w, s);
        if HasSize(u.t, s) {
          DescendCovers(u.t, g, rst', nb, u.lo, u.w, s);
        } else if u.t.Node? {
          DescendLeftward(u.t, g, rst', nb, u.lo, u.w);
        }
      }
    }
  }

  /** The best so far and the subtree left to search consist of chunks of t. */
  lemma {:induction false} DescendPicks(t: Tree, f: Fit, rst: Sub, nb: nat, lo: nat, w: nat, c: Chunk)
    requires t.Node? && Halves(w) && Trie(t, lo, w) && lo <= nb < lo + w <= WORD
    requires ValidFit(f, nb)
    ensures var p := Descend(t, f, rst, nb, lo, w);
            && (p.f.v == f.v || (p.f.v.Node? && p.f.v.ring != [] && Count(t, p.f.v.ring[0]) > 0))
            && (Count(p.u.t, c) > 0 ==> p.u == rst || Count(t, c) > 0)
    decreases t
  {
    ImproveIsMin(t, f, nb);
    var g := Improve(t, f, nb);
    if g != f && g.rem == 0 {
    } else {
      var u := Next(t, nb, lo, w);
      if u.t.Node? {
        DescendPicks(u.t, g, Untaken(t, rst, nb, lo, w), nb, u.lo, u.w, c);
      }
    }
  }

  /** One round of the descent. */
  lemma DescendOnce(t: Tree, f: Fit, rst: Sub, nb: nat, lo: nat, w: nat)
    requires t.Node? && Halves(w) && Trie(t, lo, w) && lo <= nb < lo + w <= WORD
    ensures var g := Improve(t, f, nb); var u := Next(t, nb, lo, w); var rst' := Untaken(t, rst, nb, lo, w);
            Descend(t, f, rst, nb, lo, w) ==
              if g != f && g.rem == 0 then Probe(Sub(t, lo, w), g)
              else if u.t.Empty? then Probe(rst', g)
              else Descend(u.t, g, rst', nb, u.lo, u.w)
  {
  }

  method DescendLoop(t0: Tree, f0: Fit, nb: nat, k0: nat, ghost lo: nat, ghost w: nat)
    returns (t: Tree, f: Fit, ghost rounds: nat)
    requires t0.Node? && Halves(w) && Trie(t0, lo, w) && lo + w <= WORD
    requires BitPath(k0, nb, lo, w)
    ensures f == Descend(t0, f0, NOWHERE, nb, lo, w).f
    ensures t == Descend(t0, f0, NOWHERE, nb, lo, w).u.t
    ensures rounds <= Height(t0)
  {
    hide Height, Descend;
    t, f, rounds := t0, f0, 0;
    var sizebits := k0;
    var rst := Empty;
    ghost var l: nat, n: nat, r := lo, w, NOWHERE;
    while true
      invariant r.t == rst
      invariant t.Node? && Halves(n) && Trie(t, l, n) && l + n <= WORD
      invariant BitPath(sizebits, nb, l, n)
      invariant Descend(t, f, r, nb, l, n) == Descend(t0, f0, NOWHERE, nb, lo, w)
      invariant rounds + Height(t) <= Height(t0)
      decreases t
    {
      ChildHeight(t);
      DescendOnce(t, f, r, nb, l, n);
      rounds := rounds + 1;
      var trem := Sub32(t.ring[0].size, nb);
      if trem < f.rem {
        f := Fit(t, trem);
        if trem == 0 {
          break;
        }
      }
      SidesDiffer(t, l, n);
      var rt := t.right;
      t := if TopBit(sizebits) == 1 then t.right else t.left;
      if rt.Node? && rt != t {
        rst := rt;
        r := Sub(rt, l + n / 2, n / 2);
      }
      if t.Empty? {
        t := rst;
        break;
      }
      if nb >= l + n / 2 {
        l := l + n / 2;
      }
      n := n / 2;
      sizebits := ShiftLeft(sizebits);
    }
  }

  lemma SidesDiffer(t: Tree, lo: nat, w: nat)
    requires t.Node? && Trie(t, lo, w)
    ensures t.right.Node? ==> t.left != t.right
  {
  }

  // ---- one bin -------------------------------------------------------------

  /** Descent and, in the subtree it leaves, the leftmost walk. */
  function SearchBin(t: Tree, nb: nat, lo: nat, w: nat): (f: Fit)
    requires t.Node? && Halves(w) && Trie(t, lo, w) && lo <= nb < lo + w <= WORD && 0 < nb
  {
    var f0 := Fit(Empty, WORD - nb);
    var p := Descend(t, f0, NOWHERE, nb, lo, w);
    DescendValid(t, f0, NOWHERE, nb, lo, w);
    Smallest(p.u.t, p.f, nb, p.u.lo, p.u.w)
  }

  /** The search of nb's own bin finds a smallest chunk of at least nb bytes, or none exists. */
  lemma SearchBinBest(t: Tree, nb: nat, lo: nat, w: nat, s: nat)
    requires t.Node? && Halves(w) && Trie(t, lo, w) && lo <= nb < lo + w <= WORD && 0 < nb
    ensures ValidFit(SearchBin(t, nb, lo, w), nb)
    ensures var v := SearchBin(t, nb, lo, w).v; v.Node? ==> Count(t, v.ring[0]) > 0
    ensures HasSize(t, s) && nb <= s ==> Covers(SearchBin(t, nb, lo, w), s)
  {
    var f0 := Fit(Empty, WORD - nb);
    var p := Descend(t, f0, NOWHERE, nb, lo, w);
    var r := SearchBin(t, nb, lo, w);
    DescendValid(t, f0, NOWHERE, nb, lo, w);
    SmallestValid(p.u.t, p.f, nb, p.u.lo, p.u.w);
    SmallestPicks(p.u.t, p.f, nb, p.u.lo, p.u.w);
    DescendPicks(t, f0, NOWHERE, nb, lo, w, if r.v.Node? then r.v.ring[0] else Chunk(0, 0));
    if HasSize(t, s) && nb <= s {
      DescendCovers(t, f0, NOWHERE, nb, lo, w, s);
      if !Covers(p.f, s) {
        var d := p.u.t.ring[0].size;
        SmallestCovers(p.u.t, p.f, nb, p.u.lo, p.u.w, if HasSize(p.u.t, s) then s else d);
      }
    }
  }
}
