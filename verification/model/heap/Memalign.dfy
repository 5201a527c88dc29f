/** internal_memalign: a larger block is taken, and its ends are given back. */
module Memalign {
  import opened Words
  import opened TreeBins
  import opened Bins
  import opened Tags
  import opened HeapState
  import opened DlMalloc
  import opened DlFree

  // ---- a live chunk cut in two live chunks ------------------------------------------

  function CutLive(h: Heap, a: nat, nb: nat): (r: Heap)
    requires nb <= SizeAt(h.g, a)
  {
    h.(g := Cut(h.g, a, nb, true))
  }

  lemma CutLiveReady(h: Heap, c: Chunk, nb: nat)
    requires Ready(h) && IsLive(h.g, c) && 16 <= nb && nb % 8 == 0 && nb + 16 <= c.size
    ensures Ready(CutLive(h, c.addr, nb))
    ensures forall d :: IsLive(CutLive(h, c.addr, nb).g, d) <==>
                        (IsLive(h.g, d) && d.addr != c.addr) || d == Chunk(c.addr, nb) || d == Rest(c, nb)
  {
    CutTagged(h.g, c.addr, nb, true);
    var h' := CutLive(h, c.addr, nb);
    forall d
      ensures IsFree(h'.g, d) <==> IsFree(h.g, d)
      ensures IsLive(h'.g, d) <==> (IsLive(h.g, d) && d.addr != c.addr) || d == Chunk(c.addr, nb) || d == Rest(c, nb)
    {
      CutChunks(h.g, c.addr, nb, true, d);
    }
    forall d ensures Held(h'.bins, d) == if ShouldBin(h', d) then 1 else 0 {
      assert Held(h.bins, d) == if ShouldBin(h, d) then 1 else 0;
    }
  }

  // ---- alignment ------------------------------------------------------------------------

  predicate PowerOfTwo(a: nat) {
    a == 1 || (a > 1 && a % 2 == 0 && PowerOfTwo(a / 2))
  }

  /** What the loop over powers of two comes to: it never ends once the power has been shifted out. */
  datatype Rounded = Forever | Power(a: nat)

  function RoundToPower(a: nat, alignment: nat): (r: Rounded)
    requires a < WORD && (a == 0 || PowerOfTwo(a))
    decreases if a == 0 then 0 else WORD - a
  {
    if a >= alignment then Power(a)
    else if a == 0 then Forever
    else
      Doubled(a);
      RoundToPower(Wrap32(2 * a), alignment)
  }

  /** A power of two is doubled, or shifted out of the word. */
  lemma Doubled(a: nat)
    requires a < WORD && PowerOfTwo(a)
    ensures Wrap32(2 * a) == 0 || (Wrap32(2 * a) == 2 * a && PowerOfTwo(2 * a))
  {
    hide PowerOfTwo;
    var n := Exponent(a);
    Pow2_32();
    if n > 31 {
      Pow2Monotone(32, n);
    } else {
      Pow2Monotone(n, 31);
      PowIsPower(n + 1);
    }
  }

  lemma {:induction false} Exponent(a: nat) returns (n: nat)
    requires PowerOfTwo(a)
    ensures a == Pow2(n)
  {
    if a == 1 {
      n := 0;
    } else {
      n := Exponent(a / 2);
      n := n + 1;
    }
  }

  /** The alignment memalign works with, for one above MALLOC_ALIGNMENT. */
  function EffectiveAlignment(alignment: nat): (r: Rounded) {
    PowIsPower(4);
    var a := if alignment < 16 then 16 else alignment;
    if PowerOfTwo(a) then Power(a) else RoundToPower(16, a)
  }

  /** The powers of two that fit a word. */
  lemma WordPower(n: nat)
    requires n <= 31
    ensures Pow2(n) <= 0x8000_0000 && Pow2(n + 1) == 2 * Pow2(n)
    ensures n == 31 ==> Pow2(n) == 0x8000_0000
  {
    Pow2_32();
    Pow2Monotone(n, 31);
  }

  /** The loop stops exactly at alignments up to the largest power of two in a word. */
  lemma {:induction false} RoundToPowerIs(n: nat, alignment: nat)
    requires n <= 31 && Pow2(n) < alignment
    ensures Pow2(n) < WORD && PowerOfTwo(Pow2(n))
    ensures var r := RoundToPower(Pow2(n), alignment);
            && (r.Power? <==> alignment <= 0x8000_0000)
            && (r.Power? ==> PowerOfTwo(r.a) && alignment <= r.a < 2 * alignment)
    decreases 31 - n
  {
    hide PowerOfTwo, Pow2;
    WordPower(n);
    PowIsPower(n);
    if n < 31 {
      WordPower(n + 1);
      PowIsPower(n + 1);
      if Pow2(n + 1) < alignment {
        RoundToPowerIs(n + 1, alignment);
      }
    }
  }

  lemma {:induction false} PowIsPower(n: nat)
    ensures PowerOfTwo(Pow2(n))
  {
    if n > 0 {
      PowIsPower(n - 1);
    }
  }

  lemma {:induction false} PowerMultiple(a: nat)
    requires PowerOfTwo(a) && a >= 16
    ensures a % 16 == 0
  {
    if a >= 32 {
      PowerMultiple(a / 2);
    } else {
      PowerBelow32(a);
    }
  }

  lemma PowerBelow32(a: nat)
    requires PowerOfTwo(a) && 16 <= a < 32
    ensures a == 16
  {
    assert PowerOfTwo(a / 2) && PowerOfTwo(a / 2 / 2) && PowerOfTwo(a / 2 / 2 / 2);
  }

  /** memalign's search for a power of two ends. */
  predicate Settles(alignment: nat) {
    PowerOfTwo(alignment) || alignment <= 0x8000_0000
  }

  lemma EffectiveAlignmentIs(alignment: nat)
    ensures EffectiveAlignment(alignment).Power? <==> Settles(alignment)
    ensures var r := EffectiveAlignment(alignment);
            r.Power? ==> PowerOfTwo(r.a) && r.a >= alignment && r.a >= 16 && r.a % 16 == 0
    ensures PowerOfTwo(alignment) && alignment >= 16 ==> EffectiveAlignment(alignment) == Power(alignment)
  {
    hide RoundToPower, PowerOfTwo;
    var a := if alignment < 16 then 16 else alignment;
    assert Pow2(4) == 16;
    PowIsPower(4);
    if !PowerOfTwo(a) {
      RoundToPowerIs(4, a);
    }
    if EffectiveAlignment(alignment).Power? {
      PowerMultiple(EffectiveAlignment(alignment).a);
    }
  }

  /** Just above the largest power of two the loop goes on forever. */
  lemma NeverSettles()
    ensures EffectiveAlignment(0x8000_0001).Forever?
  {
    hide EffectiveAlignment;
    EffectiveAlignmentIs(0x8000_0001);
  }

  /** (x + a - 1) & -a, for an alignment a. */
  function AlignUp(x: nat, a: nat): (r: nat)
    requires a > 0
  {
    x + (if x % a == 0 then 0 else a - x % a)
  }

  lemma AlignUpIs(x: nat, a: nat)
    requires a > 0
    ensures x <= AlignUp(x, a) < x + a && AlignUp(x, a) % a == 0 && (AlignUp(x, a) + a) % a == 0
    ensures AlignUp(x, a) == (x + a - 1) / a * a
  {
    var q, r := x / a, x % a;
    assert x == q * a + r;
    if r == 0 {
      assert q * a + a == (q + 1) * a;
      DivMod(x, a, q, 0);
      DivMod(x + a, a, q + 1, 0);
      DivMod(x + a - 1, a, q, a - 1);
    } else {
      assert q * a + a == (q + 1) * a;
      assert (q + 1) * a + a == (q + 2) * a;
      DivMod(x + a - r, a, q + 1, 0);
      DivMod(x + a - r + a, a, q + 2, 0);
      DivMod(x + a - 1, a, q + 1, r - 1);
    }
  }

  lemma {:induction false} EightsMultiple(k: nat, a: nat, m: nat)
    requires a == 8 * m
    ensures k * a == 8 * (k * m)
  {
    if k > 0 {
      EightsMultiple(k - 1, a, m);
      assert k * a == (k - 1) * a + a;
      assert k * m == (k - 1) * m + m;
    }
  }

  lemma ModEights(x: nat, a: nat, q: nat, r: nat, m: nat)
    requires x == q * a + r && a == 8 * m && x % 8 == 0
    ensures r % 8 == 0
  {
    EightsMultiple(q, a, m);
    EightsRest(x, q * a, r, q * m);
  }

  lemma EightsRest(x: nat, y: nat, r: nat, k: nat)
    requires x == y + r && y == 8 * k && x % 8 == 0
    ensures r % 8 == 0
  {
  }

  /** Bytes of the chunk at p to give back in front so that the rest is aligned. */
  function LeadSize(p: nat, a: nat): (n: nat)
    requires a > 0
  {
    if (p + 8) % a == 0 then 0
    else
      var d := AlignUp(p + 8, a) - (p + 8);
      if d >= 16 then d else d + a
  }

  /** The lead is itself a possible chunk, and what follows it is aligned. */
  lemma LeadIsChunk(p: nat, a: nat)
    requires a >= 16 && a % 8 == 0 && p % 8 == 0
    ensures (p + LeadSize(p, a) + 8) % a == 0
    ensures LeadSize(p, a) == 0 || 16 <= LeadSize(p, a) <= a + 8
    ensures LeadSize(p, a) % 8 == 0
  {
    var x := p + 8;
    if x % a != 0 {
      LeadRemainder(x, a);
      LeadEights(a, x % a);
      LeadAligned(x, a, x % a);
    }
  }

  /** One alignment further is still aligned. */
  lemma LeadAligned(x: nat, a: nat, r: nat)
    requires 0 < r < a && r == x % a
    ensures (x + (a - r)) % a == 0 && (x + (a - r + a)) % a == 0
  {
    AlignUpIs(x, a);
  }

  lemma LeadRemainder(x: nat, a: nat)
    requires a > 0 && a % 8 == 0 && x % 8 == 0
    ensures (x % a) % 8 == 0
  {
    var q, r := Quotient(x, a);
    ModEights(x, a, q, r, a / 8);
  }

  lemma LeadEights(a: nat, r: nat)
    requires a % 8 == 0 && r % 8 == 0 && 0 < r < a
    ensures (a - r) % 8 == 0 && 8 <= a - r <= a - 8 && (a - r + a) % 8 == 0
  {
  }

  // ---- memalign -----------------------------------------------------------------------------

  function AlignedChunk(c: Chunk, lead: nat): Chunk
    requires lead <= c.size
  {
    Chunk(c.addr + lead, c.size - lead)
  }

  function Trimmed(c: Chunk, nb: nat): Chunk {
    if c.size > nb + 16 then Chunk(c.addr, nb) else c
  }

  /** Cutting the surplus behind a live chunk, keeping nb bytes. */
  lemma TrimReady(h: Heap, c: Chunk, nb: nat)
    requires Ready(h) && IsLive(h.g, c) && 16 <= nb <= c.size && nb % 8 == 0
    ensures var h1 := if c.size > nb + 16 then CutLive(h, c.addr, nb) else h;
            && Ready(h1) && IsLive(h1.g, Trimmed(c, nb)) && nb <= Trimmed(c, nb).size <= nb + 16
            && (forall d :: IsLive(h1.g, d) <==>
                  (IsLive(h.g, d) && d.addr != c.addr) || d == Trimmed(c, nb) || (c.size > nb + 16 && d == Rest(c, nb)))
  {
    if c.size > nb + 16 {
      CutLiveReady(h, c, nb);
    }
  }

  /** No other live chunk starts inside c. */
  lemma LiveApart(h: Heap, c: Chunk, a: nat)
    requires Ready(h) && IsLive(h.g, c) && c.addr <= a < c.addr + c.size
    ensures forall d :: IsLive(h.g, d) && d.addr != c.addr ==> d.addr != a
  {
    forall d | IsLive(h.g, d) && d.addr != c.addr ensures d.addr != a {
      assert Apart(h.g, c.addr, d.addr);
    }
  }

  /** What is live once c has been cut: the aligned part, a lead in front and a trailer behind it. */
  ghost predicate Pieces(h: Heap, h2: Heap, c: Chunk, lead: nat, nb: nat)
    requires lead <= c.size
  {
    var p := AlignedChunk(c, lead);
    && Ready(h2)
    && forall d :: IsLive(h2.g, d) <==>
         || (IsLive(h.g, d) && d.addr != c.addr)
         || d == Trimmed(p, nb)
         || (lead > 0 && d == Chunk(c.addr, lead))
         || (p.size > nb + 16 && d == Chunk(p.addr + nb, p.size - nb))
  }

  function CutLead(h: Heap, c: Chunk, lead: nat): (r: Heap)
    requires lead <= SizeAt(h.g, c.addr)
  {
    if lead == 0 then h else CutLive(h, c.addr, lead)
  }

  function CutTrailer(h: Heap, p: Chunk, nb: nat): (r: Heap)
    requires SizeAt(h.g, p.addr) == p.size
  {
    if p.size > nb + 16 then CutLive(h, p.addr, nb) else h
  }

  lemma CutLeadReady(h: Heap, c: Chunk, lead: nat)
    requires Ready(h) && IsLive(h.g, c) && lead % 8 == 0 && (lead == 0 || (16 <= lead && lead + 16 <= c.size))
    ensures var h1 := CutLead(h, c, lead); var p := AlignedChunk(c, lead);
            && Ready(h1) && IsLive(h1.g, p)
            && (forall d :: IsLive(h1.g, d) <==>
                  (IsLive(h.g, d) && d.addr != c.addr) || d == p || (lead > 0 && d == Chunk(c.addr, lead)))
  {
    if lead > 0 {
      CutLiveReady(h, c, lead);
    }
  }

  lemma CutPieces(h: Heap, c: Chunk, lead: nat, nb: nat)
    requires Ready(h) && IsLive(h.g, c) && lead % 8 == 0 && (lead == 0 || 16 <= lead)
    requires 16 <= nb && nb % 8 == 0 && lead + nb + 8 <= c.size && c.size % 8 == 0
    ensures var h1 := CutLead(h, c, lead); var p := AlignedChunk(c, lead);
            SizeAt(h1.g, p.addr) == p.size && Pieces(h, CutTrailer(h1, p, nb), c, lead, nb)
  {
    CutLeadReady(h, c, lead);
    var h1, p := CutLead(h, c, lead), AlignedChunk(c, lead);
    TrimReady(h1, p, nb);
    LiveApart(h, c, p.addr);
  }

  /** Freeing the lead and the trailer leaves just the aligned part. */
  lemma PiecesFreed(h: Heap, h2: Heap, h3: Heap, h4: Heap, c: Chunk, lead: nat, nb: nat)
    requires lead <= c.size && Ready(h) && IsLive(h.g, c) && 16 <= nb && lead + nb <= c.size
    requires Pieces(h, h2, c, lead, nb)
    requires if lead > 0 then Released(h2, h3, c.addr) else h3 == h2
    requires if c.size - lead > nb + 16 then Released(h3, h4, c.addr + lead + nb) else h4 == h3
    ensures Ready(h4)
    ensures forall d :: IsLive(h4.g, d) <==>
              (IsLive(h.g, d) && d.addr != c.addr) || d == Trimmed(AlignedChunk(c, lead), nb)
  {
    if c.size - lead > nb + 16 {
      LiveApart(h, c, c.addr + lead + nb);
    }
  }

  predicate CanFree(h: Heap, a: nat) {
    a in h.g.starts && HeadAt(h.g, a).cinuse
  }

  /** internal_free of a piece that was just cut off. */
  ghost function Given(h: Heap, a: nat): (r: Heap) {
    if Ready(h) && CanFree(h, a) then Free(h, a) else h
  }

  lemma GivenGood(h: Heap, c: Chunk)
    requires Ready(h) && IsLive(h.g, c)
    ensures Released(h, Given(h, c.addr), c.addr)
  {
    hide Free;
    FreeGood(h, c.addr);
  }

  /** internal_memalign on the chunk obtained: cut, then free the lead and the trailer. */
  ghost function AlignWithin(h: Heap, c: Chunk, lead: nat, nb: nat): (r: Heap)
    requires Ready(h) && IsLive(h.g, c) && lead % 8 == 0 && (lead == 0 || 16 <= lead)
    requires 16 <= nb && nb % 8 == 0 && lead + nb + 8 <= c.size && c.size % 8 == 0
  {
    hide Given, Ready;
    CutPieces(h, c, lead, nb);
    var p := AlignedChunk(c, lead);
    var h2 := CutTrailer(CutLead(h, c, lead), p, nb);
    var h3 := if lead == 0 then h2 else Given(h2, c.addr);
    if p.size > nb + 16 then Given(h3, p.addr + nb) else h3
  }

  lemma AlignWithinGood(h: Heap, c: Chunk, lead: nat, nb: nat)
    requires Ready(h) && IsLive(h.g, c) && lead % 8 == 0 && (lead == 0 || 16 <= lead)
    requires 16 <= nb && nb % 8 == 0 && lead + nb + 8 <= c.size && c.size % 8 == 0
    ensures var h4 := AlignWithin(h, c, lead, nb);
            && Ready(h4)
            && (forall d :: IsLive(h4.g, d) <==>
                  (IsLive(h.g, d) && d.addr != c.addr) || d == Trimmed(AlignedChunk(c, lead), nb))
  {
    hide Given, CutTrailer, CutLead, Ready;
    CutPieces(h, c, lead, nb);
    var p := AlignedChunk(c, lead);
    var h2 := CutTrailer(CutLead(h, c, lead), p, nb);
    var h3 := if lead == 0 then h2 else Given(h2, c.addr);
    if lead > 0 {
      assert IsLive(h2.g, Chunk(c.addr, lead));
      GivenGood(h2, Chunk(c.addr, lead));
    }
    if p.size > nb + 16 {
      assert IsLive(h2.g, Chunk(p.addr + nb, p.size - nb));
      GivenGood(h3, Chunk(p.addr + nb, p.size - nb));
    }
    PiecesFreed(h, h2, h3, AlignWithin(h, c, lead, nb), c, lead, nb);
  }

  /** What memalign does with the outcome of its malloc; a malloc that broke the heap is not followed further. */
  ghost function AlignOutcome(h: Heap, o: Outcome, a: nat, nb: nat): (r: Outcome)
    requires a >= 16 && a % 8 == 0 && 16 <= nb && nb % 8 == 0 && nb + a < MAX_REQUEST + 11
  {
    hide Ready, LeadSize, AlignWithin;
    if o.Panic? || o.got == NULL || !GoodOutcome(h, o, Needed(nb + a + 12)) then o
    else
      var lead := LeadSize(o.got.addr, a);
      LeadIsChunk(o.got.addr, a);
      AskedIsEnough(nb, a, o.got);
      assert IsLive(o.h.g, o.got);
      Done(AlignWithin(o.h, o.got, lead, nb), Trimmed(AlignedChunk(o.got, lead), nb))
  }

  datatype Call = Hangs | Returns(o: Outcome)

  /** internal_memalign */
  ghost function Memalign(h: Heap, alignment: nat, bytes: nat): (r: Call)
    requires Inv(h)
  {
    hide Malloc, GoodOutcome, AlignOutcome, EffectiveAlignment;
    if alignment <= 8 then Returns(Malloc(h, bytes))
    else
      match EffectiveAlignment(alignment)
      case Forever => Hangs
      case Power(a) =>
        if bytes + a >= MAX_REQUEST then Returns(Done(h, NULL))
        else
          EffectiveAlignmentIs(alignment);
          EightsOf16(a);
          Returns(AlignOutcome(h, Malloc(h, RequestToSize(bytes) + a + 12), a, RequestToSize(bytes)))
  }

  lemma EightsOf16(a: nat)
    requires a % 16 == 0
    ensures a % 8 == 0
  {
  }

  lemma AskedIsEnough(nb: nat, a: nat, got: Chunk)
    requires Fits(got, Needed(nb + a + 12)) && nb + a < MAX_REQUEST + 11
    ensures nb + a + 16 <= got.size
  {
  }

  ghost predicate AlignedOutcome(h: Heap, o: Outcome, a: nat, nb: nat)
    requires a > 0
  {
    match o
    case Panic => true
    case Done(h', got) =>
      if got == NULL then Inv(h') && SameLive(h, h')
      else
        && Ready(h')
        && (forall d :: IsLive(h'.g, d) <==> IsLive(h.g, d) || d == got)
        && (got.addr + 8) % a == 0
        && nb <= got.size <= nb + 16
  }

  lemma AlignOutcomeGood(h: Heap, o: Outcome, a: nat, nb: nat)
    requires a >= 16 && a % 8 == 0 && 16 <= nb && nb % 8 == 0 && nb + a < MAX_REQUEST + 11
    requires GoodOutcome(h, o, Needed(nb + a + 12))
    ensures AlignedOutcome(h, AlignOutcome(h, o, a, nb), a, nb)
  {
    hide AlignWithin, Ready, LeadSize;
    if o.Done? && o.got != NULL {
      var lead := LeadSize(o.got.addr, a);
      LeadIsChunk(o.got.addr, a);
      AskedIsEnough(nb, a, o.got);
      assert IsLive(o.h.g, o.got);
      AlignWithinGood(o.h, o.got, lead, nb);
      NotLiveBefore(h, o.h, o.got);
    }
  }

  lemma NotLiveBefore(h: Heap, h': Heap, p: Chunk)
    requires Served(h, h', p)
    ensures forall d :: IsLive(h.g, d) ==> d.addr != p.addr
  {
    forall d | IsLive(h.g, d) ensures d.addr != p.addr {
      assert !IsLive(h.g, Chunk(p.addr, d.size));
    }
  }

  /** The search for the alignment ends, and the malloc of the larger block, if there is one, does not overflow. */
  ghost predicate AlignOk(h: Heap, alignment: nat, bytes: nat)
    requires Inv(h)
  {
    if alignment <= 8 then !Overflows(h, Needed(bytes))
    else
      && Settles(alignment)
      && (EffectiveAlignmentIs(alignment);
          var a := EffectiveAlignment(alignment).a;
          bytes + a < MAX_REQUEST ==> !Overflows(h, Needed(RequestToSize(bytes) + a + 12)))
  }

  /** What a caller of memalign may rely on. */
  ghost predicate GoodCall(h: Heap, alignment: nat, bytes: nat, r: Call) {
    && r.Returns?
    && if alignment <= 8 then GoodOutcome(h, r.o, Needed(bytes))
       else
         var e := EffectiveAlignment(alignment);
         e.Power? && alignment <= e.a && e.a > 0 && AlignedOutcome(h, r.o, e.a, RequestToSize(bytes))
  }

  /**
   memalign returns memory whose address is a multiple of the effective alignment, in a new
   live chunk of at least the padded request, and all other live chunks stay as they were,
   exactly when its search for a power of two ends and its malloc does not overflow.
   */
  lemma MemalignExact(h: Heap, alignment: nat, bytes: nat)
    requires Inv(h)
    ensures GoodCall(h, alignment, bytes, Memalign(h, alignment, bytes)) <==> AlignOk(h, alignment, bytes)
  {
    hide Malloc, AlignOutcome, GoodOutcome, AlignedOutcome, EffectiveAlignment, Inv, Ready, Overflows, Settles, PowerOfTwo;
    EffectiveAlignmentIs(alignment);
    if alignment <= 8 {
      MallocExact(h, bytes);
    } else if Settles(alignment) {
      AlignedExact(h, EffectiveAlignment(alignment).a, bytes);
    }
  }

  lemma AlignedExact(h: Heap, a: nat, bytes: nat)
    requires Inv(h) && a >= 16 && a % 16 == 0
    ensures bytes + a >= MAX_REQUEST ==> AlignedOutcome(h, Done(h, NULL), a, RequestToSize(bytes))
    ensures bytes + a < MAX_REQUEST ==>
              a % 8 == 0 &&
              var nb := RequestToSize(bytes);
              (AlignedOutcome(h, AlignOutcome(h, Malloc(h, nb + a + 12), a, nb), a, nb) <==> !Overflows(h, Needed(nb + a + 12)))
  {
    hide Malloc, Ready, Overflows, AlignOutcome, Fresh;
    EightsOf16(a);
    if bytes + a < MAX_REQUEST {
      var nb := RequestToSize(bytes);
      MallocExact(h, nb + a + 12);
      if Overflows(h, Needed(nb + a + 12)) {
        OverflowBreaks(h, nb + a + 12);
        AlignStops(h, Malloc(h, nb + a + 12), a, nb);
      } else {
        AlignOutcomeGood(h, Malloc(h, nb + a + 12), a, nb);
      }
    }
  }

  lemma AlignStops(h: Heap, o: Outcome, a: nat, nb: nat)
    requires a >= 16 && a % 8 == 0 && 16 <= nb && nb % 8 == 0 && nb + a < MAX_REQUEST + 11
    requires o.Panic? || o.got == NULL || !GoodOutcome(h, o, Needed(nb + a + 12))
    ensures AlignOutcome(h, o, a, nb) == o
  {
    hide GoodOutcome;
  }

  /** memalign fails exactly if its size test refuses the request or its malloc fails. */
  lemma MemalignSucceeds(h: Heap, alignment: nat, bytes: nat)
    requires Inv(h) && alignment > 8 && Settles(alignment)
    ensures EffectiveAlignment(alignment).Power?
    ensures var a := EffectiveAlignment(alignment).a; var r := Memalign(h, alignment, bytes);
            var o := Malloc(h, RequestToSize(bytes) + a + 12);
            && r.Returns?
            && (if bytes + a >= MAX_REQUEST then r.o == Done(h, NULL)
                else (r.o == Panic <==> o == Panic) && (o.Done? ==> (r.o.got == NULL <==> o.got == NULL)))
  {
    hide Malloc, AlignOutcome, GoodOutcome, EffectiveAlignment, Inv, Ready, Settles;
    EffectiveAlignmentIs(alignment);
    var a := EffectiveAlignment(alignment).a;
    EightsOf16(a);
    if bytes + a < MAX_REQUEST {
      AlignPasses(h, Malloc(h, RequestToSize(bytes) + a + 12), a, RequestToSize(bytes));
    }
  }

  lemma AlignPasses(h: Heap, o: Outcome, a: nat, nb: nat)
    requires a >= 16 && a % 8 == 0 && 16 <= nb && nb % 8 == 0 && nb + a < MAX_REQUEST + 11
    ensures var r := AlignOutcome(h, o, a, nb);
            (r == Panic <==> o == Panic) && (o.Done? ==> (r.got == NULL <==> o.got == NULL))
  {
    hide AlignWithin, LeadSize, Ready;
    if o.Done? && o.got != NULL && GoodOutcome(h, o, Needed(nb + a + 12)) {
      LeadIsChunk(o.got.addr, a);
      AskedIsEnough(nb, a, o.got);
    }
  }
}
