/** The frame bitmap, one frame at a time. */
module Phys {
  const BITS: nat := 32
  /** Where the high and the normal zone start, in frames. */
  const HIGH_START: nat := 0x20000
  const NORMAL_START: nat := 0x1000

  /** One word of the bitmap; a set bit is a frame in use. */
  type Word = seq<bool>

  /** ffz_bit: the lowest clear bit, or the width of the word. */
  function FirstZero(w: Word): (i: nat)
    ensures i <= |w|
    ensures forall j :: 0 <= j < i ==> w[j]
    ensures i < |w| ==> !w[i]
  {
    if w == [] || !w[0] then 0 else 1 + FirstZero(w[1..])
  }

  ghost predicate Shaped(m: seq<Word>) {
    forall i :: 0 <= i < |m| ==> |m[i]| == BITS
  }

  /** A frame of the map that is not in use. */
  predicate Free(m: seq<Word>, f: nat)
    requires Shaped(m)
  {
    f / BITS < |m| && !m[f / BITS][f % BITS]
  }

  /** The map with frame f set or cleared. */
  function Marked(m: seq<Word>, f: nat, used: bool): (r: seq<Word>)
    requires Shaped(m) && f / BITS < |m|
    ensures Shaped(r) && |r| == |m|
  {
    m[f / BITS := m[f / BITS][f % BITS := used]]
  }

  lemma MarkedOnly(m: seq<Word>, f: nat, used: bool, g: nat)
    requires Shaped(m) && f / BITS < |m|
    ensures Free(Marked(m, f, used), g) <==> if g == f then !used else Free(m, g)
  {
    if g / BITS == f / BITS && g % BITS == f % BITS {
      assert g == f;
    }
  }

  /** The first free frame from a word boundary on. */
  ghost predicate FirstFree(m: seq<Word>, from: nat, f: nat)
    requires Shaped(m)
  {
    from / BITS * BITS <= f && Free(m, f) && forall g {:trigger Free(m, g)} :: from / BITS * BITS <= g < f ==> !Free(m, g)
  }

  ghost predicate NoneFree(m: seq<Word>, from: nat)
    requires Shaped(m)
  {
    forall g {:trigger Free(m, g)} :: from / BITS * BITS <= g ==> !Free(m, g)
  }

  class FrameMap {
    const words: array<Word>

    constructor (words: array<Word>)
      ensures this.words == words
    {
      this.words := words;
    }

    ghost predicate Valid()
      reads this, words
    {
      Shaped(words[..])
    }

    /** _find_first_zero: 0 both for none and for frame 0. */
    method FindFirstZero(start: nat) returns (f: nat)
      requires Valid()
      ensures f != 0 ==> FirstFree(words[..], start, f)
      ensures f == 0 <==> NoneFree(words[..], start) || (start < BITS && Free(words[..], 0))
    {
      var i := start / BITS;
      while i < words.Length
        invariant start / BITS <= i
        invariant forall g {:trigger Free(words[..], g)} :: start / BITS * BITS <= g < i * BITS ==> !Free(words[..], g)
      {
        var z := FirstZero(words[i]);
        WordFrames(words[..], i, z);
        if z < |words[i]| {
          f := i * BITS + z;
          return;
        }
        i := i + 1;
      }
      f := 0;
      PastEnd(words[..], i);
    }

    /** _alloc_frames for one frame. */
    method AllocFrom(start: nat) returns (f: nat)
      requires Valid()
      modifies words
      ensures Valid()
      ensures f != 0 ==> FirstFree(old(words[..]), start, f) && words[..] == Marked(old(words[..]), f, true)
      ensures f == 0 <==> NoneFree(old(words[..]), start) || (start < BITS && Free(old(words[..]), 0))
      ensures f == 0 ==> words[..] == old(words[..])
    {
      f := FindFirstZero(start);
      if f != 0 {
        words[f / BITS] := words[f / BITS][f % BITS := true];
      }
    }

    /**
     phys_alloc for one frame: the high zone, then the normal zone, then anywhere.  It fails with a
     frame free exactly when frame 0 is free and no zone asked for has a frame of its own.
     */
    method Alloc(high: bool, normal: bool) returns (f: nat)
      requires Valid()
      modifies words
      ensures Valid()
      ensures f != 0 ==> Free(old(words[..]), f) && words[..] == Marked(old(words[..]), f, true)
      ensures f == 0 ==> words[..] == old(words[..]) && (NoneFree(words[..], 0) || Free(words[..], 0))
      ensures f == 0 <==> && (high ==> NoneFree(old(words[..]), HIGH_START)) && (normal ==> NoneFree(old(words[..]), NORMAL_START))
                          && (NoneFree(old(words[..]), 0) || Free(old(words[..]), 0))
      ensures f == 0 && !NoneFree(old(words[..]), 0) <==>
              && Free(old(words[..]), 0)
              && (high ==> NoneFree(old(words[..]), HIGH_START)) && (normal ==> NoneFree(old(words[..]), NORMAL_START))
      ensures !Free(old(words[..]), 0) ==> (f == 0 <==> NoneFree(old(words[..]), 0))
    {
      f := 0;
      if high {
        f := AllocFrom(HIGH_START);
      }
      if f == 0 && normal {
        f := AllocFrom(NORMAL_START);
      }
      if f == 0 {
        f := AllocFrom(0);
      }
    }

    /** phys_free of one frame. */
    method Release(f: nat)
      requires Valid()
      modifies words
      ensures Valid()
      ensures words[..] == if f / BITS < |old(words[..])| then Marked(old(words[..]), f, false) else old(words[..])
    {
      if f < words.Length * BITS {
        words[f / BITS] := words[f / BITS][f % BITS := false];
      }
    }
  }

  /** The frames of word i: in use below bit z, and free at z if z is in the word. */
  lemma WordFrames(m: seq<Word>, i: nat, z: nat)
    requires Shaped(m) && i < |m| && z == FirstZero(m[i])
    ensures z < BITS ==> Free(m, i * BITS + z)
    ensures forall g {:trigger Free(m, g)} :: i * BITS <= g < i * BITS + z ==> !Free(m, g)
  {
    forall g {:trigger Free(m, g)} | i * BITS <= g < i * BITS + z ensures !Free(m, g) {
      assert g / BITS == i && g % BITS == g - i * BITS;
    }
    if z < BITS {
      assert (i * BITS + z) / BITS == i && (i * BITS + z) % BITS == z;
    }
  }

  lemma PastEnd(m: seq<Word>, i: nat)
    requires Shaped(m) && i >= |m|
    ensures forall g {:trigger Free(m, g)} :: i * BITS <= g ==> !Free(m, g)
  {
  }

  /** Allocating a frame and freeing it restores the map. */
  lemma RoundTrip(m: seq<Word>, f: nat)
    requires Shaped(m) && Free(m, f)
    ensures Marked(Marked(m, f, true), f, false) == m
  {
    var w := m[f / BITS];
    assert w[f % BITS := true][f % BITS := false] == w;
  }
}
