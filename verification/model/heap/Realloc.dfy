/** internal_realloc: shrink in place, grow into top, or move. */
module Realloc {
  import opened TreeBins
  import opened Bins
  import opened Tags
  import opened HeapState
  import opened DlMalloc
  import opened DlFree
  import opened Memalign
  import opened Payload

  /** copied is the number of bytes copied from the old block to a new one. */
  datatype Result = Panicked | Returned(h: Heap, got: Chunk, copied: nat)

  function Least(a: nat, b: nat): nat {
    if a < b then a else b
  }

  /** The bytes of a block that its user may use. */
  function Usable(c: Chunk): nat {
    if c.size < 4 then 0 else c.size - 4
  }

  /** The block shrinks to nb bytes, and a surplus that can be a chunk is freed. */
  ghost function Shrink(h: Heap, c: Chunk, nb: nat): (r: Result)
    requires nb <= c.size && IsLive(h.g, c)
  {
    if c.size - nb >= 16 then Returned(Given(CutLive(h, c.addr, nb), c.addr + nb), Chunk(c.addr, nb), 0)
    else Returned(h, c, 0)
  }

  function GrowInPlace(h: Heap, c: Chunk, nb: nat): (r: Heap)
    requires SizeAt(h.g, c.addr) <= nb <= SizeAt(h.g, c.addr) + h.g.topsize
  {
    h.(g := GrowUsed(h.g, c.addr, nb))
  }

  /** malloc, copy, free. */
  ghost function Move(h: Heap, c: Chunk, bytes: nat, o: Outcome): (r: Result) {
    match o
    case Panic => Panicked
    case Done(h1, got) =>
      if got == NULL then Returned(h1, NULL, 0)
      else Returned(Given(h1, c.addr), got, Least(Usable(c), bytes))
  }

  predicate CanGrow(h: Heap, c: Chunk, nb: nat) {
    c.addr + c.size == h.g.top && c.size < nb < c.size + h.g.topsize
  }

  ghost function Resize(h: Heap, c: Chunk, bytes: nat): (r: Result)
    requires Ready(h) && IsLive(h.g, c)
  {
    hide Ready, Malloc;
    var nb := RequestToSize(bytes);
    if bytes >= MAX_REQUEST then Returned(h, NULL, 0)
    else if c.size >= nb then Shrink(h, c, nb)
    else if CanGrow(h, c, nb) then Returned(GrowInPlace(h, c, nb), Chunk(c.addr, nb), 0)
    else
      assert Inv(h);
      Move(h, c, bytes, Malloc(h, bytes))
  }

  /** The old block has become got, and nothing else about the live blocks has changed. */
  ghost predicate Replaced(h: Heap, h': Heap, c: Chunk, got: Chunk) {
    && Ready(h')
    && (forall d :: IsLive(h'.g, d) <==> (IsLive(h.g, d) && d.addr != c.addr) || d == got)
    && (forall d :: IsLive(h.g, d) && d.addr != c.addr ==> Untouched(h.g, h'.g, d))
  }

  // ---- shrinking -----------------------------------------------------------------------------

  lemma ShrinkGood(h: Heap, c: Chunk, nb: nat)
    requires Ready(h) && IsLive(h.g, c) && 16 <= nb <= c.size && nb % 8 == 0
    ensures var r := Shrink(h, c, nb);
            && Replaced(h, r.h, c, r.got) && r.got.addr == c.addr && nb <= r.got.size < nb + 16
            && Untouched(h.g, r.h.g, r.got) && r.copied == 0 && r.got == Chunk(c.addr, Least(c.size, r.got.size))
  {
    hide Ready, Given, CutLive, Untouched;
    if c.size - nb >= 16 {
      CutLiveReady(h, c, nb);
      var h1 := CutLive(h, c.addr, nb);
      var rest := Rest(c, nb);
      GivenGood(h1, rest);
      LiveApart(h, c, rest.addr);
      forall d | (IsLive(h.g, d) && d.addr != c.addr) || d == Chunk(c.addr, nb)
        ensures Untouched(h.g, Given(h1, rest.addr).g, d)
      {
        ShrinkUntouched(h, h1, c, nb, d);
      }
    } else {
      SelfUntouched(h.g);
    }
  }

  lemma SelfUntouched(g: Tags)
    ensures forall d :: Untouched(g, g, d)
  {
  }

  lemma ShrinkUntouched(h: Heap, h1: Heap, c: Chunk, nb: nat, d: Chunk)
    requires Ready(h) && IsLive(h.g, c) && 16 <= nb && nb % 8 == 0 && nb + 16 <= c.size
    requires h1 == CutLive(h, c.addr, nb)
    requires (IsLive(h.g, d) && d.addr != c.addr) || d == Chunk(c.addr, nb)
    ensures Untouched(h.g, Given(h1, c.addr + nb).g, d)
  {
    hide Untouched, Free;
    CutLiveReady(h, c, nb);
    CutUntouched(h.g, c.addr, nb, true, d);
    LiveApart(h, c, c.addr + nb);
    assert IsLive(h1.g, d) && IsLive(h1.g, Rest(c, nb));
    FreeUntouched(h1, c.addr + nb, d);
    UntouchedTrans(h.g, h1.g, Free(h1, c.addr + nb).g, d);
  }

  // ---- growing into top ----------------------------------------------------------------------

  lemma GrowGood(h: Heap, c: Chunk, nb: nat)
    requires Ready(h) && IsLive(h.g, c) && CanGrow(h, c, nb) && nb % 8 == 0
    ensures var h' := GrowInPlace(h, c, nb);
            Replaced(h, h', c, Chunk(c.addr, nb)) && Untouched(h.g, h'.g, c)
  {
    hide Untouched;
    GrowTagged(h.g, c.addr, nb);
    var h' := GrowInPlace(h, c, nb);
    forall d
      ensures IsFree(h'.g, d) <==> IsFree(h.g, d)
      ensures IsLive(h'.g, d) <==> (IsLive(h.g, d) && d.addr != c.addr) || d == Chunk(c.addr, nb)
    {
      GrowChunks(h.g, c.addr, nb, d);
    }
    forall d ensures Held(h'.bins, d) == if ShouldBin(h', d) then 1 else 0 {
      assert Held(h.bins, d) == if ShouldBin(h, d) then 1 else 0;
    }
    forall d | IsLive(h.g, d) ensures Untouched(h.g, h'.g, d) {
      GrowUntouched(h.g, c.addr, nb, d);
    }
  }

  // ---- moving ----------------------------------------------------------------------------------

  /** A new block that was served while c was live lies elsewhere. */
  lemma MovedApart(h: Heap, h1: Heap, c: Chunk, got: Chunk)
    requires IsLive(h.g, c) && Served(h, h1, got)
    ensures got.addr != c.addr && IsLive(h1.g, c) && IsLive(h1.g, got)
    ensures c.addr + c.size <= got.addr || got.addr + got.size <= c.addr
  {
    NotLiveBefore(h, h1, got);
    assert IsLive(h1.g, c) && IsLive(h1.g, got);
    assert Apart(h1.g, c.addr, got.addr) && Apart(h1.g, got.addr, c.addr);
  }

  lemma MoveGood(h: Heap, c: Chunk, bytes: nat, o: Outcome)
    requires Ready(h) && IsLive(h.g, c) && GoodOutcome(h, o, RequestToSize(bytes)) && KeepsOutcome(h, o) && 16 <= c.size
    requires o.Done? && o.got != NULL
    ensures var r := Move(h, c, bytes, o);
            && Replaced(h, r.h, c, r.got) && r.got == o.got && r.got.addr != c.addr
            && r.copied == Least(Usable(c), bytes) && r.copied <= r.got.size - 4
            && Untouched(h.g, o.h.g, c) && Untouched(o.h.g, r.h.g, r.got)
  {
    hide Ready, Given, Untouched;
    var h1, got := o.h, o.got;
    MovedApart(h, h1, c, got);
    GivenGood(h1, c);
    forall d | IsLive(h1.g, d) && d.addr != c.addr ensures Untouched(h1.g, Given(h1, c.addr).g, d) {
      GivenUntouched(h1, c, d);
    }
    forall d | IsLive(h.g, d) && d.addr != c.addr ensures Untouched(h.g, Given(h1, c.addr).g, d) {
      UntouchedTrans(h.g, h1.g, Given(h1, c.addr).g, d);
    }
    MovedLive(h, h1, Given(h1, c.addr), c, got);
  }

  lemma GivenUntouched(h: Heap, c: Chunk, d: Chunk)
    requires Ready(h) && IsLive(h.g, c) && IsLive(h.g, d) && d.addr != c.addr
    ensures Untouched(h.g, Given(h, c.addr).g, d)
  {
    hide Untouched, Free;
    FreeUntouched(h, c.addr, d);
  }

  lemma MovedLive(h: Heap, h1: Heap, h2: Heap, c: Chunk, got: Chunk)
    requires Served(h, h1, got) && Released(h1, h2, c.addr) && got.addr != c.addr
    ensures forall d :: IsLive(h2.g, d) <==> (IsLive(h.g, d) && d.addr != c.addr) || d == got
  {
    hide Ready, IsLive;
  }

  // ---- the whole call ------------------------------------------------------------------------------

  /** What a caller may rely on. */
  ghost predicate GoodResult(h: Heap, c: Chunk, bytes: nat, r: Result) {
    match r
    case Panicked => true
    case Returned(h', got, copied) =>
      if got == NULL then Inv(h') && SameLive(h, h') && copied == 0
      else
        && Replaced(h, h', c, got)
        && RequestToSize(bytes) <= got.size < RequestToSize(bytes) + 16
        && (if got.addr == c.addr then copied == 0 && Untouched(h.g, h'.g, Chunk(c.addr, Least(c.size, got.size)))
            else copied == Least(Usable(c), bytes) && copied <= got.size - 4)
  }

  /** Neither shrinking nor growing in place will do. */
  predicate Moves(h: Heap, c: Chunk, bytes: nat) {
    bytes < MAX_REQUEST && c.size < RequestToSize(bytes) && !CanGrow(h, c, RequestToSize(bytes))
  }

  /**
   realloc returns a block of the new padded size plus less than a minimum chunk, leaves every
   other block alone, and on failure leaves the old block in use; it goes wrong exactly when it
   moves the block and the malloc of the new one overflows.
   */
  lemma ResizeExact(h: Heap, c: Chunk, bytes: nat)
    requires Ready(h) && IsLive(h.g, c)
    ensures GoodResult(h, c, bytes, Resize(h, c, bytes)) <==> !(Moves(h, c, bytes) && Overflows(h, Needed(bytes)))
  {
    hide Ready, Malloc, Move, Given, CutLive, GrowInPlace, Replaced, Untouched, IsLive, GoodOutcome, KeepsOutcome, Overflows;
    var nb := RequestToSize(bytes);
    LiveSize(h, c);
    if bytes >= MAX_REQUEST {
      assert Inv(h) && SameLive(h, h);
    } else if c.size >= nb {
      ShrinkGood(h, c, nb);
    } else if CanGrow(h, c, nb) {
      GrowGood(h, c, nb);
    } else if Overflows(h, Needed(bytes)) {
      OverflowBreaks(h, bytes);
      MoveBroken(h, c, bytes, Malloc(h, bytes));
    } else {
      MoveCase(h, c, bytes, Malloc(h, bytes)) by {
        MallocGood(h, bytes);
        MallocKeeps(h, bytes);
      }
    }
  }

  /**
   A block that shrinks, or that can grow into top, stays where it is and never fails.  One that has
   to move fails exactly if malloc does.
   */
  lemma ResizeSucceeds(h: Heap, c: Chunk, bytes: nat)
    requires Ready(h) && IsLive(h.g, c)
    ensures var r := Resize(h, c, bytes); var nb := RequestToSize(bytes); var o := Malloc(h, bytes);
            if bytes >= MAX_REQUEST then r == Returned(h, NULL, 0)
            else if !Moves(h, c, bytes) then
              r.Returned? && r.got != NULL && r.got == Chunk(c.addr, if nb <= c.size < nb + 16 then c.size else nb)
            else
              && (r.Panicked? <==> o.Panic?)
              && (o.Done? ==> r.got == o.got)
  {
    hide Ready, Malloc, Given, CutLive, GrowInPlace;
    LiveSize(h, c);
    LiveAddress(h, c);
  }

  lemma LiveAddress(h: Heap, c: Chunk)
    requires Ready(h) && IsLive(h.g, c)
    ensures c.addr > 0
  {
    assert BoundAt(h.g, c.addr);
  }

  lemma MoveBroken(h: Heap, c: Chunk, bytes: nat, o: Outcome)
    requires o.Done? && !Inv(o.h)
    ensures !GoodResult(h, c, bytes, Move(h, c, bytes, o))
  {
    hide Ready, Fresh, Untouched, IsLive;
  }

  lemma MoveCase(h: Heap, c: Chunk, bytes: nat, o: Outcome)
    requires Ready(h) && IsLive(h.g, c) && bytes < MAX_REQUEST && 16 <= c.size
    requires GoodOutcome(h, o, Needed(bytes)) && KeepsOutcome(h, o)
    ensures GoodResult(h, c, bytes, Move(h, c, bytes, o))
  {
    hide Ready, Replaced, Untouched, IsLive, KeepsOutcome, Given;
    if o.Done? && o.got != NULL {
      MoveGood(h, c, bytes, o);
    }
  }

  lemma LiveSize(h: Heap, c: Chunk)
    requires Ready(h) && IsLive(h.g, c)
    ensures 16 <= c.size && c.size % 8 == 0 && h.g.top > 0
  {
    assert BoundAt(h.g, c.addr);
  }
}
