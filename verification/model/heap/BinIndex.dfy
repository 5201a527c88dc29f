/** Which bin a chunk size belongs to: the index macros of the small and tree bins. */
module BinIndex {
  import opened Words
  import opened TreeBins

  const NBINS := 32
  const MIN_LARGE := 256

  predicate IsSmall(s: nat) {
    s / 8 < NBINS
  }

  function SmallIndex(s: nat): nat {
    s / 8
  }

  /** bsr: the position of the highest set bit. */
  function Log2(x: nat): (k: nat)
    requires x > 0
    ensures Pow2(k) <= x < 2 * Pow2(k)
  {
    if x == 1 then 0 else Log2(x / 2) + 1
  }

  /** s >> n */
  function Shr(s: nat, n: nat): nat
    decreases n
  {
    if n == 0 then s else Shr(s / 2, n - 1)
  }

  /** compute_tree_index */
  function TreeIndex(s: nat): (i: nat) {
    var x := s / 256;
    if x == 0 then 0
    else if x > 0xFFFF then NBINS - 1
    else
      var k := Log2(x);
      2 * k + Shr(s, k + 7) % 2
  }

  /** minsize_for_tree_index */
  function MinSize(i: nat): (s: nat) {
    Pow2(i / 2 + 8) + (if i % 2 == 1 then Pow2(i / 2 + 7) else 0)
  }

  lemma MinSizeStep(i: nat)
    ensures MinSize(i + 1) == MinSize(i) + Pow2(i / 2 + 7)
  {
    assert Pow2(i / 2 + 8) == 2 * Pow2(i / 2 + 7);
    assert Pow2(i / 2 + 9) == 2 * Pow2(i / 2 + 8);
    if i % 2 == 1 {
      assert (i + 1) / 2 == i / 2 + 1;
    }
  }

  lemma {:induction false} MinSizeMonotone(i: nat, j: nat)
    requires i <= j
    ensures MinSize(i) <= MinSize(j)
    decreases j
  {
    if i < j {
      MinSizeMonotone(i, j - 1);
      MinSizeStep(j - 1);
    }
  }

  lemma {:induction false} Log2Small(x: nat, n: nat)
    requires 0 < x < Pow2(n)
    ensures Log2(x) < n
    decreases n
  {
    if x > 1 {
      Log2Small(x / 2, n - 1);
    }
  }

  lemma LastMinSize()
    ensures MinSize(31) == 0xC0_0000
  {
    Pow2_32();
    assert Pow2(7) == 128;
    Pow2Add(16, 7);
    assert Pow2(23) == 2 * Pow2(22);
  }

  lemma MiddleRange(s: nat, k: nat)
    requires 1 <= s / 256 <= 0xFFFF && k == Log2(s / 256)
    ensures k < 16 && 2 * Pow2(k + 7) <= s < 4 * Pow2(k + 7)
  {
    Pow2_32();
    Log2Small(s / 256, 16);
    Pow2Scale(k);
  }

  lemma MiddleIndex(s: nat, k: nat)
    requires 1 <= s / 256 <= 0xFFFF && k == Log2(s / 256)
    ensures k < 16 && 2 * Pow2(k + 7) <= s < 4 * Pow2(k + 7)
    ensures TreeIndex(s) == (if s < 3 * Pow2(k + 7) then 2 * k else 2 * k + 1)
  {
    MiddleRange(s, k);
    ShrQuarter(s, k + 7);
  }

  lemma {:induction false} Pow2Scale(k: nat)
    ensures Pow2(k + 8) == 256 * Pow2(k) && Pow2(k + 7) == 128 * Pow2(k)
  {
    if k == 0 {
      Pow2_32();
    } else {
      Pow2Scale(k - 1);
    }
  }

  lemma MinSizeOf(k: nat)
    ensures MinSize(2 * k) == 2 * Pow2(k + 7)
    ensures MinSize(2 * k + 1) == 3 * Pow2(k + 7)
    ensures MinSize(2 * k + 2) == 4 * Pow2(k + 7)
  {
    assert (2 * k + 1) / 2 == k && (2 * k + 2) / 2 == k + 1;
    assert Pow2(k + 9) == 2 * Pow2(k + 8);
  }

  /** The bin of a large size is the one whose range of sizes holds it, as do_check_tree asserts. */
  lemma TreeIndexRange(s: nat)
    requires MIN_LARGE <= s < WORD
    ensures TreeIndex(s) < NBINS
    ensures MinSize(TreeIndex(s)) <= s
    ensures TreeIndex(s) < NBINS - 1 ==> s < MinSize(TreeIndex(s) + 1)
  {
    hide Pow2, MinSize, Log2;
    if s / 256 > 0xFFFF {
      LastMinSize();
    } else {
      var k := Log2(s / 256);
      MiddleIndex(s, k);
      MinSizeOf(k);
    }
  }

  lemma {:induction false} ShrQuarter(s: nat, n: nat)
    requires 2 * Pow2(n) <= s < 4 * Pow2(n)
    ensures Shr(s, n) == (if s < 3 * Pow2(n) then 2 else 3)
    decreases n
  {
    if n > 0 {
      ShrQuarter(s / 2, n - 1);
    }
  }

  /** Bins are ordered by size class: a larger bin holds only larger chunks. */
  lemma BinsOrdered(s: nat, t: nat)
    requires MIN_LARGE <= s < WORD && MIN_LARGE <= t < WORD
    requires TreeIndex(s) < TreeIndex(t)
    ensures s < t
  {
    TreeIndexRange(s);
    TreeIndexRange(t);
    MinSizeMonotone(TreeIndex(s) + 1, TreeIndex(t));
  }

  // ---- the range covered by the root of a tree bin -------------------------

  /** Width of the range that the root of bin i splits; the last bin resolves all 32 bits. */
  function RootWidth(i: nat): (w: nat) {
    if i == NBINS - 1 then WORD else Pow2(i / 2 + 7)
  }

  function RootLo(i: nat): (lo: nat) {
    if i == NBINS - 1 then 0 else MinSize(i)
  }

  /** The bits that leftshift_for_tree_index leaves in the register: the levels below the root of bin i. */
  function RootBits(i: nat): (n: nat)
    ensures n <= 32 || i >= NBINS
  {
    if i == NBINS - 1 then 32 else i / 2 + 7
  }

  lemma RootWidthIs(i: nat)
    ensures RootWidth(i) == Pow2(RootBits(i))
  {
    Pow2_32();
  }

  /** The multiplication done by `<< leftshift_for_tree_index(i)`. */
  function LeftShift(i: nat): (m: nat)
    requires i < NBINS
  {
    if i == NBINS - 1 then 1 else Pow2(25 - i / 2)
  }

  lemma {:induction false} Pow2Halves(n: nat)
    ensures Halves(Pow2(n))
  {
    if n > 0 {
      Pow2Halves(n - 1);
      assert Pow2(n) / 2 == Pow2(n - 1);
    }
  }

  lemma RootRange(i: nat)
    requires i < NBINS
    ensures Halves(RootWidth(i)) && RootLo(i) + RootWidth(i) <= WORD
  {
    hide Pow2, Halves;
    Pow2_32();
    if i < NBINS - 1 {
      Pow2Halves(i / 2 + 7);
      MinSizeStep(i);
      MinSizeMonotone(i + 1, 31);
      LastMinSize();
    } else {
      Pow2Halves(32);
    }
  }

  /** A size lies in the root range of its own bin. */
  lemma InRootRange(s: nat)
    requires MIN_LARGE <= s < WORD
    ensures TreeIndex(s) < NBINS
    ensures RootLo(TreeIndex(s)) <= s < RootLo(TreeIndex(s)) + RootWidth(TreeIndex(s))
  {
    TreeIndexRange(s);
    MinSizeStep(TreeIndex(s));
  }

  /** `S << leftshift` sets the register up so that its top bits steer down the trie of S's bin. */
  lemma ShiftedPath(s: nat)
    requires MIN_LARGE <= s < WORD
    ensures var i := TreeIndex(s);
            i < NBINS && BitPath(ShiftIn(s, LeftShift(i)), s, RootLo(i), RootWidth(i))
  {
    var i := TreeIndex(s);
    InRootRange(s);
    RootRange(i);
    var w, m := RootWidth(i), LeftShift(i);
    var q := if i == NBINS - 1 then 0 else 2 + i % 2;
    RootProduct(i);
    RegisterInit(s, q, w, m);
    RegisterPath(ShiftIn(s, m), s, q * w, w, m);
  }

  lemma RootProduct(i: nat)
    requires i < NBINS
    ensures RootWidth(i) * LeftShift(i) == WORD
    ensures RootLo(i) == (if i == NBINS - 1 then 0 else 2 + i % 2) * RootWidth(i)
  {
    if i < NBINS - 1 {
      Pow2_32();
      Pow2Add(i / 2 + 7, 25 - i / 2);
      MinSizeOf(i / 2);
    }
  }
}
