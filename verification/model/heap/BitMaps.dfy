/**
 The bit expressions on smallmap and treemap.  A word is the sequence of its bits, the least
 significant first, and the operators are those of the machine.
 */
module BitMaps {
  import opened Words
  import opened BinIndex
  import opened Bins

  type Bits = seq<bool>

  function Not(x: Bits): (r: Bits)
    ensures |r| == |x|
  {
    seq(|x|, i requires 0 <= i < |x| => !x[i])
  }

  function And(x: Bits, y: Bits): (r: Bits)
    requires |x| == |y|
    ensures |r| == |x|
  {
    seq(|x|, i requires 0 <= i < |x| => x[i] && y[i])
  }

  function Or(x: Bits, y: Bits): (r: Bits)
    requires |x| == |y|
    ensures |r| == |x|
  {
    seq(|x|, i requires 0 <= i < |x| => x[i] || y[i])
  }

  function Zeros(n: nat): (r: Bits)
    ensures |r| == n
  {
    seq(n, _ => false)
  }

  /** x + 1, with the carry running up through the ones. */
  function Increment(x: Bits): (r: Bits)
    ensures |r| == |x|
  {
    if x == [] then [] else if x[0] then [false] + Increment(x[1..]) else [true] + x[1..]
  }

  /** -x in two's complement. */
  function Negate(x: Bits): (r: Bits)
    ensures |r| == |x|
  {
    Increment(Not(x))
  }

  /** x << n */
  function ShiftUp(x: Bits, n: nat): (r: Bits)
    requires n <= |x|
    ensures |r| == |x|
  {
    Zeros(n) + x[..|x| - n]
  }

  /** x >> n */
  function ShiftDown(x: Bits, n: nat): (r: Bits)
    requires n <= |x|
    ensures |r| == |x|
  {
    x[n..] + Zeros(n)
  }

  /** idx2bit */
  function Single(i: nat): (r: Bits)
    ensures |r| == NBINS
  {
    seq(NBINS, j => j == i)
  }

  /** least_bit */
  function LeastBit(x: Bits): (r: Bits)
    ensures |r| == |x|
  {
    And(x, Negate(x))
  }

  /** left_bits */
  function LeftBits(x: Bits): (r: Bits)
    requires x != []
    ensures |r| == |x|
  {
    Or(ShiftUp(x, 1), Negate(ShiftUp(x, 1)))
  }

  /** bsfl: the position of the least set bit. */
  function BitScan(x: Bits): (i: nat)
    requires true in x
    ensures i < |x| && x[i] && forall j :: 0 <= j < i ==> !x[j]
  {
    if x[0] then 0 else 1 + BitScan(x[1..])
  }

  /** The number that the bits stand for. */
  function Value(x: Bits): (v: nat)
    ensures v < Pow2(|x|)
  {
    if x == [] then 0 else (if x[0] then 1 else 0) + 2 * Value(x[1..])
  }

  lemma {:induction false} NotValue(x: Bits)
    ensures Value(Not(x)) == Pow2(|x|) - 1 - Value(x)
  {
    if x != [] {
      assert Not(x)[1..] == Not(x[1..]);
      NotValue(x[1..]);
    }
  }

  lemma {:induction false} IncrementValue(x: Bits)
    ensures Value(Increment(x)) == if Value(x) + 1 == Pow2(|x|) then 0 else Value(x) + 1
  {
    if x != [] && x[0] {
      IncrementValue(x[1..]);
      assert Increment(x)[1..] == Increment(x[1..]);
    } else if x != [] {
      assert Increment(x)[1..] == x[1..];
    }
  }

  /** The complement plus one is the negative number, modulo the word. */
  lemma NegateValue(x: Bits)
    ensures Value(Negate(x)) == if Value(x) == 0 then 0 else Pow2(|x|) - Value(x)
  {
    NotValue(x);
    IncrementValue(Not(x));
  }

  ghost predicate AnyBelow(x: Bits, i: nat)
    requires i <= |x|
  {
    exists j :: 0 <= j < i && x[j]
  }

  lemma {:induction false} IncrementAt(x: Bits, i: nat)
    requires i < |x|
    ensures Increment(x)[i] == if forall j :: 0 <= j < i ==> x[j] then !x[i] else x[i]
  {
    if i > 0 && x[0] {
      IncrementAt(x[1..], i - 1);
      assert x[i] == x[1..][i - 1];
      if forall j :: 0 <= j < i ==> x[j] {
        assert forall j :: 0 <= j < i - 1 ==> x[1..][j] == x[j + 1];
      } else {
        var j :| 0 <= j < i && !x[j];
        assert !x[1..][j - 1];
      }
    }
  }

  /** Up to its least set bit a number and its negative agree, and above it they differ in every bit. */
  lemma NegateAt(x: Bits, i: nat)
    requires i < |x|
    ensures Negate(x)[i] == if AnyBelow(x, i) then !x[i] else x[i]
  {
    IncrementAt(Not(x), i);
    if AnyBelow(x, i) {
      var j :| 0 <= j < i && x[j];
      assert !Not(x)[j];
    }
  }

  lemma LeastBitAt(x: Bits, i: nat)
    requires i < |x|
    ensures LeastBit(x)[i] <==> x[i] && !AnyBelow(x, i)
  {
    NegateAt(x, i);
  }

  /** left_bits of one bit are all the bits above it. */
  lemma LeftBitsAt(k: nat, i: nat)
    requires k < NBINS && i < NBINS
    ensures LeftBits(Single(k))[i] <==> k < i
  {
    var s := ShiftUp(Single(k), 1);
    forall j | 0 <= j < NBINS ensures s[j] <==> j == k + 1 {
      assert j > 0 ==> s[j] == Single(k)[j - 1];
    }
    NegateAt(s, i);
    if k + 1 < i {
      assert s[k + 1];
    }
  }

  /** Isolating the least bit and scanning for it finds the least set bit. */
  lemma ScanLeast(x: Bits)
    requires true in x
    ensures true in LeastBit(x) && BitScan(LeastBit(x)) == BitScan(x)
  {
    var i := BitScan(x);
    LeastBitAt(x, i);
    assert LeastBit(x)[i];
    LeastBitAt(x, BitScan(LeastBit(x)));
    assert !AnyBelow(x, BitScan(LeastBit(x)));
  }

  /** The least marked bin; NBINS when the map is zero. */
  function FirstBit(x: Bits): (i: nat)
    requires |x| == NBINS
    ensures i == NextMarked(x, 0)
  {
    if true !in x then
      assert forall j :: 0 <= j < NBINS ==> x[j] in x;
      NBINS
    else
      ScanLeast(x);
      BitScan(LeastBit(x))
  }

  /** left_bits(idx2bit(k)) & x */
  function BitsAbove(x: Bits, k: nat): (r: Bits)
    requires |x| == NBINS && k < NBINS
    ensures |r| == NBINS && forall i :: 0 <= i < NBINS ==> (r[i] <==> k < i && x[i])
  {
    assert forall i :: 0 <= i < NBINS ==> (LeftBits(Single(k))[i] <==> k < i) by {
      forall i | 0 <= i < NBINS ensures LeftBits(Single(k))[i] <==> k < i {
        LeftBitsAt(k, i);
      }
    }
    And(LeftBits(Single(k)), x)
  }

  /** The least marked bin above k, as tmalloc_large finds it. */
  function NextBit(x: Bits, k: nat): (i: nat)
    requires |x| == NBINS && k < NBINS
    ensures i == NextMarked(x, k + 1)
  {
    var left := BitsAbove(x, k);
    FirstAbove(x, k, left);
    FirstBit(left)
  }

  lemma FirstAbove(x: Bits, k: nat, left: Bits)
    requires |x| == NBINS && k < NBINS && left == BitsAbove(x, k)
    ensures NextMarked(left, 0) == NextMarked(x, k + 1)
  {
    hide BitsAbove, NextMarked;
    var i, j := NextMarked(left, 0), NextMarked(x, k + 1);
    assert i < NBINS ==> left[i];
    assert j < NBINS ==> left[j];
  }

  /** dlmalloc's test of a small request: its own bin or the next one is marked. */
  lemma SmallBits(x: Bits, k: nat)
    requires |x| == NBINS && k < NBINS
    ensures var bits := ShiftDown(x, k);
            (bits[0] <==> x[k]) && (bits[1] <==> k + 1 < NBINS && x[k + 1])
  {
  }

  /** dlmalloc's scan of the small bins above: shifting down and up again clears what left_bits masks out anyway. */
  function NextSmall(x: Bits, k: nat): (i: nat)
    requires |x| == NBINS && k < NBINS
    ensures i == NextMarked(x, k + 1)
  {
    var bits := ShiftUp(ShiftDown(x, k), k);
    assert forall i :: k <= i < NBINS ==> bits[i] == x[i];
    SameAbove(x, bits, k);
    NextBit(bits, k)
  }

  lemma SameAbove(x: Bits, y: Bits, k: nat)
    requires |x| == NBINS && |y| == NBINS && k < NBINS && forall i :: k <= i < NBINS ==> y[i] == x[i]
    ensures NextMarked(y, k + 1) == NextMarked(x, k + 1)
  {
    hide NextMarked;
    var i, j := NextMarked(y, k + 1), NextMarked(x, k + 1);
    assert i < NBINS ==> y[i];
    assert j < NBINS ==> x[j];
  }
}
