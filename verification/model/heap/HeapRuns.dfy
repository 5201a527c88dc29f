/** Runs of malloc, memalign, realloc and free: what the callers hold is what is in use. */
module HeapRuns {
  import opened TreeBins
  import opened Tags
  import opened HeapState
  import opened DlMalloc
  import opened Memalign
  import opened Payload
  import opened Realloc

  datatype Request =
    | Alloc(bytes: nat)
    | Aligned(alignment: nat, bytes: nat)
    | Reallocate(c: Chunk, bytes: nat)
    | Release(c: Chunk)

  /** Blocks given back and resized are in use, and the request is one that the code serves correctly. */
  ghost predicate Allowed(h: Heap, q: Request)
    requires Inv(h)
  {
    match q
    case Alloc(bytes) => !Overflows(h, Needed(bytes))
    case Aligned(alignment, bytes) => AlignOk(h, alignment, bytes)
    case Reallocate(c, bytes) => Ready(h) && IsLive(h.g, c) && !(Moves(h, c, bytes) && Overflows(h, Needed(bytes)))
    case Release(c) => Ready(h) && IsLive(h.g, c)
  }

  /** A panic or a call that never returns, or the next heap with the block that came and the block that went; NULL is neither. */
  datatype Effect = Stopped | Next(h: Heap, came: Chunk, went: Chunk)

  ghost function FromOutcome(o: Outcome): Effect {
    if o.Panic? then Stopped else Next(o.h, o.got, NULL)
  }

  ghost function Do(h: Heap, q: Request): (e: Effect)
    requires Inv(h) && Allowed(h, q)
  {
    match q
    case Alloc(bytes) => FromOutcome(Malloc(h, bytes))
    case Aligned(alignment, bytes) =>
      var r := Memalign.Memalign(h, alignment, bytes);
      if r.Hangs? then Stopped else FromOutcome(r.o)
    case Reallocate(c, bytes) =>
      var r := Resize(h, c, bytes);
      if r.Panicked? then Stopped else if r.got == NULL then Next(r.h, NULL, NULL) else Next(r.h, r.got, c)
    case Release(c) => Next(Given(h, c.addr), NULL, c)
  }

  /** The blocks the callers hold. */
  ghost predicate Ledger(h: Heap, held: set<Chunk>) {
    forall c {:trigger IsLive(h.g, c)} :: IsLive(h.g, c) <==> c in held
  }

  ghost function Books(held: set<Chunk>, e: Effect): set<Chunk>
    requires e.Next?
  {
    held - {e.went} + if e.came == NULL then {} else {e.came}
  }

  /** A live block is determined by its address. */
  lemma SameAddress(g: Tags, c: Chunk, d: Chunk)
    requires IsLive(g, c) && IsLive(g, d) && c.addr == d.addr
    ensures c == d
  {
  }

  lemma NullNotLive(h: Heap)
    requires Inv(h)
    ensures !IsLive(h.g, NULL)
  {
    if Ready(h) {
      assert NULL.addr in h.g.starts ==> BoundAt(h.g, NULL.addr);
    }
  }

  lemma OutcomeLedger(h: Heap, o: Outcome, held: set<Chunk>, nb: nat)
    requires Inv(h) && Ledger(h, held) && o.Done? && GoodOutcome(h, o, nb)
    ensures Inv(o.h) && Ledger(o.h, Books(held, FromOutcome(o)))
  {
    hide Ready, IsLive, Fresh;
    NullNotLive(h);
  }

  lemma AlignedLedger(h: Heap, o: Outcome, held: set<Chunk>, a: nat, nb: nat)
    requires Inv(h) && Ledger(h, held) && o.Done? && a > 0 && AlignedOutcome(h, o, a, nb)
    ensures Inv(o.h) && Ledger(o.h, Books(held, FromOutcome(o)))
  {
    hide Ready, IsLive, Fresh;
    NullNotLive(h);
  }

  lemma ResizeLedger(h: Heap, c: Chunk, bytes: nat, r: Result, held: set<Chunk>)
    requires Ready(h) && IsLive(h.g, c) && Ledger(h, held) && GoodResult(h, c, bytes, r) && r.Returned?
    ensures Inv(r.h)
    ensures r.got == NULL ==> Ledger(r.h, held - {NULL} + {})
    ensures r.got != NULL ==> Ledger(r.h, held - {c} + {r.got})
  {
    hide Ready, Fresh, Untouched;
    NullNotLive(h);
    forall d | IsLive(h.g, d) && d.addr == c.addr ensures d == c {
      SameAddress(h.g, c, d);
    }
  }

  lemma ReleaseLedger(h: Heap, c: Chunk, held: set<Chunk>)
    requires Ready(h) && IsLive(h.g, c) && Ledger(h, held)
    ensures Inv(Given(h, c.addr)) && Ledger(Given(h, c.addr), held - {c} + {})
  {
    hide Ready, Fresh, Given;
    GivenGood(h, c);
    forall d | IsLive(h.g, d) && d.addr == c.addr ensures d == c {
      SameAddress(h.g, c, d);
    }
  }

  /** One request keeps the heap sound and the callers' books right. */
  lemma DoGood(h: Heap, q: Request, held: set<Chunk>)
    requires Inv(h) && Allowed(h, q) && Ledger(h, held) && Do(h, q).Next?
    ensures Inv(Do(h, q).h) && Ledger(Do(h, q).h, Books(held, Do(h, q)))
  {
    hide Inv, Ready, Malloc, Memalign.Memalign, Resize, Given, Ledger, GoodOutcome, AlignedOutcome, GoodResult, Overflows, AlignOk;
    match q
    case Alloc(bytes) =>
      MallocGood(h, bytes);
      OutcomeLedger(h, Malloc(h, bytes), held, Needed(bytes));
    case Aligned(alignment, bytes) =>
      AlignedCase(h, alignment, bytes, held);
    case Reallocate(c, bytes) =>
      ResizeExact(h, c, bytes);
      ResizeLedger(h, c, bytes, Resize(h, c, bytes), held);
    case Release(c) =>
      ReleaseLedger(h, c, held);
  }

  lemma AlignedCase(h: Heap, alignment: nat, bytes: nat, held: set<Chunk>)
    requires Inv(h) && AlignOk(h, alignment, bytes) && Ledger(h, held)
    requires Memalign.Memalign(h, alignment, bytes).Returns? ==> Memalign.Memalign(h, alignment, bytes).o.Done?
    ensures var r := Memalign.Memalign(h, alignment, bytes);
            r.Returns? && Inv(r.o.h) && Ledger(r.o.h, Books(held, FromOutcome(r.o)))
  {
    hide Inv, Memalign.Memalign, Ledger, GoodOutcome, AlignedOutcome, AlignOk, EffectiveAlignment, Books;
    MemalignExact(h, alignment, bytes);
    var o := Memalign.Memalign(h, alignment, bytes).o;
    if alignment <= 8 {
      OutcomeLedger(h, o, held, Needed(bytes));
    } else {
      AlignedLedger(h, o, held, EffectiveAlignment(alignment).a, RequestToSize(bytes));
    }
  }

  /** The blocks in use. */
  ghost function LiveSet(h: Heap): set<Chunk> {
    set a | a in h.g.starts && HeadAt(h.g, a).cinuse :: Chunk(a, SizeAt(h.g, a))
  }

  /** Whatever the callers hold, a request keeps the heap invariant. */
  lemma DoInv(h: Heap, q: Request)
    requires Inv(h) && Allowed(h, q)
    ensures Do(h, q).Next? ==> Inv(Do(h, q).h)
  {
    hide Inv, Do, Allowed, Books;
    assert Ledger(h, LiveSet(h));
    if Do(h, q).Next? {
      DoGood(h, q, LiveSet(h));
    }
  }

  /** A run whose requests are allowed when they are made; it ends early at a panic. */
  ghost predicate Possible(h: Heap, run: seq<Request>)
    requires Inv(h)
    decreases |run|
  {
    hide Do, Inv;
    run == [] ||
    (Allowed(h, run[0]) && (DoInv(h, run[0]); Do(h, run[0]).Next? ==> Possible(Do(h, run[0]).h, run[1..])))
  }

  /** The heap and the books stay right over the whole run. */
  ghost predicate Sound(h: Heap, held: set<Chunk>, run: seq<Request>)
    requires Inv(h) && Possible(h, run)
    decreases |run|
  {
    hide Do, Inv;
    && Ledger(h, held)
    && (run == [] || (DoInv(h, run[0]); Do(h, run[0]).Next? ==> Sound(Do(h, run[0]).h, Books(held, Do(h, run[0])), run[1..])))
  }

  /**
   After every prefix of every run the heap invariant holds and the chunks in use are exactly
   those handed out and not yet given back.
   */
  lemma {:induction false} RunSound(h: Heap, held: set<Chunk>, run: seq<Request>)
    requires Inv(h) && Ledger(h, held) && Possible(h, run)
    ensures Sound(h, held, run)
    decreases |run|
  {
    hide Inv, Do, Allowed, Ledger, Books;
    if run != [] && Do(h, run[0]).Next? {
      DoGood(h, run[0], held);
      RunSound(Do(h, run[0]).h, Books(held, Do(h, run[0])), run[1..]);
    }
  }

  /** From the zeroed state on, with nothing handed out. */
  lemma FirstRun(h: Heap, run: seq<Request>)
    requires Fresh(h) && Possible(h, run)
    ensures Sound(h, {}, run)
  {
    hide Do, Allowed;
    assert Ledger(h, {});
    RunSound(h, {}, run);
  }

  /** Two blocks in use never overlap, and each lies inside the heap, 8-aligned. */
  lemma BlocksDisjoint(h: Heap, c: Chunk, d: Chunk)
    requires Inv(h) && IsLive(h.g, c) && IsLive(h.g, d) && c != d
    ensures c.addr + c.size <= d.addr || d.addr + d.size <= c.addr
    ensures HEAP_START <= c.addr && c.addr + c.size <= h.end && c.addr % 8 == 0
  {
    assert Apart(h.g, c.addr, d.addr) && Apart(h.g, d.addr, c.addr) && BoundAt(h.g, c.addr);
  }

  /** A block never overlaps a head word, nor the foot of a free chunk: the user's bytes are the user's alone. */
  lemma PayloadPrivate(h: Heap, c: Chunk, x: nat)
    requires Ready(h) && IsLive(h.g, c) && (x in h.g.starts || x == h.g.top)
    ensures !(c.addr + 8 <= x + 4 < c.addr + c.size + 4)
    ensures !HeadAt(h.g, x).pinuse ==> !(c.addr + 8 <= x < c.addr + c.size + 4)
  {
    assert BoundAt(h.g, c.addr) && PinAt(h.g, c.addr);
    if x in h.g.starts {
      assert Apart(h.g, c.addr, x) && BoundAt(h.g, x);
    }
  }
}
