/**
 The one memory that the blocks, their tags and the links of the free chunks share.  A call writes
 head words, feet and links; none of them lies in the user's bytes of a block that is in use before
 and after the call.  What the users write, in turn, is nothing the allocator depends on.
 */
module Memory {
  import opened Words
  import opened TreeBins
  import opened BinIndex
  import opened Bins
  import opened BestFit
  import opened Tags
  import opened HeapState
  import opened DlMalloc
  import opened DlFree
  import opened Memalign
  import opened Payload
  import opened Realloc
  import opened Links

  type Bytes = nat -> nat

  /** The user's bytes of a block. */
  predicate InPayload(c: Chunk, x: nat) {
    c.addr + 8 <= x < c.addr + c.size + 4
  }

  // ---- the bin steps of each call ---------------------------------------------------------------

  function DvSteps(h: Heap): seq<BinStep> {
    if h.dvsize == 0 then [] else [Linked(Chunk(h.dv, h.dvsize))]
  }

  function SmallSplitSteps(h: Heap, c: Chunk, nb: nat): seq<BinStep> {
    if c.size < nb + 16 then [Unlinked(c)] else [Unlinked(c)] + DvSteps(h)
  }

  function LargeSplitSteps(c: Chunk, nb: nat): seq<BinStep> {
    if c.size < nb + 16 then [Unlinked(c)] else [Unlinked(c), Linked(Rest(c, nb))]
  }

  function SplitSteps(h: Heap, nb: nat): seq<BinStep>
    requires ValidBins(h.bins) && 16 <= nb < MIN_LARGE
  {
    var j := NextMarked(h.bins.smallmap, nb / 8);
    if j < NBINS then SmallSplitSteps(h, FirstOf(h.bins, j), nb)
    else if NextMarked(h.bins.treemap, 0) < NBINS then SmallSplitSteps(h, SmallestLarge(h.bins, nb), nb)
    else []
  }

  function SmallSteps(h: Heap, nb: nat): seq<BinStep>
    requires ValidBins(h.bins) && 16 <= nb < MIN_LARGE
  {
    var idx := nb / 8;
    if h.bins.smallmap[idx] then [Unlinked(FirstOf(h.bins, idx))]
    else if idx + 1 < NBINS && h.bins.smallmap[idx + 1] then [Unlinked(FirstOf(h.bins, idx + 1))]
    else if nb > h.dvsize then SplitSteps(h, nb)
    else []
  }

  function LargeSteps(h: Heap, nb: nat): seq<BinStep>
    requires ValidBins(h.bins) && h.dvsize < WORD && MIN_LARGE <= nb < WORD
  {
    LargeFitIsBest(h.bins, nb);
    if TakesLarge(h, nb) then LargeSplitSteps(LargeFit(h.bins, nb).v.ring[0], nb) else []
  }

  /** dlmalloc */
  function MallocSteps(h: Heap, bytes: nat): seq<BinStep>
    requires ValidBins(h.bins) && h.dvsize < WORD
  {
    if bytes <= MAX_SMALL_REQUEST then SmallSteps(h, RequestToSize(bytes))
    else if bytes >= MAX_REQUEST then []
    else LargeSteps(h, PadRequest(bytes))
  }

  function PrevSteps(h: Heap, p: nat): seq<BinStep> {
    if LowEnd(h.g, p) == p || LowEnd(h.g, p) == h.dv then [] else [Unlinked(PrevChunk(h.g, p))]
  }

  function NextSteps(h: Heap, p: nat): seq<BinStep> {
    if !NextFree(h.g, p) || NextAt(h.g, p) == h.dv then [] else [Unlinked(NextChunk(h.g, p))]
  }

  function MergedSteps(h: Heap, p: nat): seq<BinStep> {
    if AbsorbsDv(h, p) || HighEnd(h.g, p) < LowEnd(h.g, p) then []
    else [Linked(Chunk(LowEnd(h.g, p), HighEnd(h.g, p) - LowEnd(h.g, p)))]
  }

  /** dlfree */
  function FreeSteps(h: Heap, p: nat): seq<BinStep> {
    if NextAt(h.g, p) == h.g.top then PrevSteps(h, p) else PrevSteps(h, p) + NextSteps(h, p) + MergedSteps(h, p)
  }

  /** The steps lead from the bins before to the bins after, and bin only chunks that are free before or after. */
  ghost predicate Traced(h: Heap, h': Heap, steps: seq<BinStep>) {
    && Runs(h.bins, steps) && Run(h.bins, steps) == h'.bins
    && forall c :: Linked(c) in steps ==> IsFree(h.g, c) || IsFree(h'.g, c)
  }

  lemma NoSteps(h: Heap, h': Heap)
    requires ValidBins(h.bins) && h'.bins == h.bins
    ensures Traced(h, h', [])
  {
  }

  lemma OneOut(b: Bins, c: Chunk)
    requires ValidBins(b) && Held(b, c) > 0
    ensures Runs(b, [Unlinked(c)]) && Run(b, [Unlinked(c)]) == Unbinned(b, c)
  {
    assert [Unlinked(c)][1..] == [];
  }

  lemma OutIn(b: Bins, c: Chunk, d: Chunk)
    requires ValidBins(b) && Held(b, c) > 0 && d.size < WORD && d.size % 8 == 0
    ensures var s := [Unlinked(c), Linked(d)];
            Runs(b, s) && Run(b, s) == Binned(Unbinned(b, c), d)
  {
    var s := [Unlinked(c), Linked(d)];
    assert s[1..] == [Linked(d)] && [Linked(d)][1..] == [];
    var b1 := Unbinned(b, c);
    assert Runs(b1, [Linked(d)]) && Run(b1, [Linked(d)]) == Binned(b1, d);
  }

  // ---- malloc ----------------------------------------------------------------------------------------

  lemma UseBinnedTraced(h: Heap, c: Chunk)
    requires Ready(h) && Held(h.bins, c) > 0 && c.size > 0
    ensures Traced(h, UseBinned(h, c), [Unlinked(c)])
  {
    hide UnlinkChunk, TakeWhole, Held;
    OneOut(h.bins, c);
  }

  lemma SmallSplitTraced(h: Heap, c: Chunk, nb: nat)
    requires Ready(h) && Held(h.bins, c) > 0 && 16 <= nb <= c.size && nb % 8 == 0
    requires c.size < WORD && h.dvsize < WORD && h.dvsize % 8 == 0
    ensures Traced(h, SplitForSmall(h, c, nb).h, SmallSplitSteps(h, c, nb))
  {
    hide UnlinkChunk, TakeWhole, TakeSplit, Held, Unbinned, Binned;
    BinnedSize(h, c);
    if c.size - nb < 16 {
      UseBinnedTraced(h, c);
    } else if h.dvsize == 0 {
      OneOut(h.bins, c);
      assert SmallSplitSteps(h, c, nb) == [Unlinked(c)];
    } else {
      var dv := Chunk(h.dv, h.dvsize);
      OutIn(h.bins, c, dv);
      assert SmallSplitSteps(h, c, nb) == [Unlinked(c), Linked(dv)];
    }
  }

  lemma LargeSplitTraced(h: Heap, c: Chunk, nb: nat)
    requires Ready(h) && Held(h.bins, c) > 0 && 16 <= nb <= c.size && nb % 8 == 0
    requires c.size < WORD && c.size % 8 == 0
    ensures Traced(h, SplitForLarge(h, c, nb).h, LargeSplitSteps(c, nb))
  {
    hide UnlinkChunk, TakeWhole, TakeSplit, Held, Unbinned, Binned;
    BinnedSize(h, c);
    if c.size - nb < 16 {
      UseBinnedTraced(h, c);
    } else {
      HeldIsFree(h, c);
      OutIn(h.bins, c, Rest(c, nb));
      TakenSplit(h.g, c, nb);
      assert IsFree(SplitBinned(h, c, nb).g, Rest(c, nb));
    }
  }

  /** dv, top and the system leave the bins alone. */
  lemma NoBins(h: Heap, nb: nat)
    requires Inv(h) && 0 < nb < WORD && h.g.topsize < WORD && FromDvOrTop(h, nb).Done?
    ensures Traced(h, FromDvOrTop(h, nb).h, [])
  {
    hide FirstAsk, LaterAsk, TakeTop, TakeSplit, TakeWhole, Held;
    FreshIsEmpty(h);
    NoSteps(h, FromDvOrTop(h, nb).h);
  }

  lemma SplitTraced(h: Heap, nb: nat)
    requires Inv(h) && 16 <= nb < MIN_LARGE && nb % 8 == 0 && SplitSmallest(h, nb).Done?
    ensures ValidBins(h.bins) && Traced(h, SplitSmallest(h, nb).h, SplitSteps(h, nb))
  {
    hide Traced, SplitForSmall, SmallSplitSteps, FromDvOrTop, Held;
    FreshIsEmpty(h);
    var j := NextMarked(h.bins.smallmap, nb / 8);
    if j < NBINS {
      SmallSplitTraced(h, FirstOf(h.bins, j), nb);
    } else if NextMarked(h.bins.treemap, 0) < NBINS {
      SmallSplitTraced(h, SmallestLarge(h.bins, nb), nb);
    } else {
      NoBins(h, nb);
    }
  }

  lemma FirstTraced(h: Heap, i: nat)
    requires Inv(h) && 0 < i < NBINS && ValidBins(h.bins) && h.bins.smallmap[i]
    ensures Traced(h, FromSmallBin(h, i).h, [Unlinked(FirstOf(h.bins, i))])
  {
    hide Traced, UseBinned;
    FreshIsEmpty(h);
    UseBinnedTraced(h, FirstOf(h.bins, i));
  }

  lemma SmallTraced(h: Heap, nb: nat)
    requires Inv(h) && 16 <= nb < MIN_LARGE && nb % 8 == 0 && SmallMalloc(h, nb).Done?
    ensures ValidBins(h.bins) && Traced(h, SmallMalloc(h, nb).h, SmallSteps(h, nb))
  {
    hide Traced, FromSmallBin, SplitSmallest, SplitSteps, FromDvOrTop, Held;
    FreshIsEmpty(h);
    var idx := nb / 8;
    if h.bins.smallmap[idx] {
      FirstTraced(h, idx);
    } else if idx + 1 < NBINS && h.bins.smallmap[idx + 1] {
      FirstTraced(h, idx + 1);
    } else if nb > h.dvsize {
      SplitTraced(h, nb);
    } else {
      NoBins(h, nb);
    }
  }

  lemma LargeTraced(h: Heap, nb: nat)
    requires Inv(h) && MIN_LARGE <= nb < WORD && nb % 8 == 0 && LargeMalloc(h, nb).Done?
    ensures ValidBins(h.bins) && h.dvsize < WORD && Traced(h, LargeMalloc(h, nb).h, LargeSteps(h, nb))
  {
    hide Traced, SplitForLarge, LargeSplitSteps, FromDvOrTop, LargeFit;
    FreshIsEmpty(h);
    LargeFitIsBest(h.bins, nb);
    if TakesLarge(h, nb) {
      var c := LargeFit(h.bins, nb).v.ring[0];
      assert Held(h.bins, c) > 0;
      BinnedSize(h, c);
      LargeSplitTraced(h, c, nb);
    } else {
      NoBins(h, nb);
    }
  }

  lemma MallocTraced(h: Heap, bytes: nat)
    requires Inv(h) && Malloc(h, bytes).Done?
    ensures ValidBins(h.bins) && h.dvsize < WORD && Traced(h, Malloc(h, bytes).h, MallocSteps(h, bytes))
  {
    hide Traced, SmallMalloc, LargeMalloc, FromDvOrTop, SmallSteps, LargeSteps, Inv;
    FreshIsEmpty(h);
    if bytes <= MAX_SMALL_REQUEST {
      SmallTraced(h, RequestToSize(bytes));
    } else if bytes >= MAX_REQUEST {
      NoBins(h, WORD - 1);
    } else {
      LargeTraced(h, PadRequest(bytes));
    }
  }

  // ---- free -------------------------------------------------------------------------------------------

  lemma PrevRuns(h: Heap, p: nat)
    requires Ready(h) && p in h.g.starts && HeadAt(h.g, p).cinuse
    ensures Runs(h.bins, PrevSteps(h, p)) && Run(h.bins, PrevSteps(h, p)) == WithoutPrev(h, p)
  {
    hide Unbinned, Tagged;
    Neighbours(h.g, p);
    if PrevSteps(h, p) != [] {
      assert ShouldBin(h, PrevChunk(h.g, p));
      assert Held(h.bins, PrevChunk(h.g, p)) == 1;
      OneOut(h.bins, PrevChunk(h.g, p));
    }
  }

  lemma NextRuns(h: Heap, p: nat)
    requires Ready(h) && p in h.g.starts && HeadAt(h.g, p).cinuse
    ensures Runs(WithoutPrev(h, p), NextSteps(h, p))
    ensures Run(WithoutPrev(h, p), NextSteps(h, p)) == WithoutNeighbours(h, p)
  {
    hide Unbinned, Tagged, WithoutPrev;
    Neighbours(h.g, p);
    OnlyNeighbours(h, p);
    if NextSteps(h, p) != [] {
      var c := NextChunk(h.g, p);
      assert ShouldBin(h, c);
      assert Held(WithoutPrev(h, p), c) == 1;
      OneOut(WithoutPrev(h, p), c);
    }
  }

  lemma MergedRuns(h: Heap, p: nat)
    requires Ready(h) && p in h.g.starts && HeadAt(h.g, p).cinuse && NextAt(h.g, p) != h.g.top
    ensures Runs(WithoutNeighbours(h, p), MergedSteps(h, p))
    ensures Run(WithoutNeighbours(h, p), MergedSteps(h, p)) == Coalesce(h, p).bins
    ensures forall c :: Linked(c) in MergedSteps(h, p) ==> IsFree(Coalesce(h, p).g, c)
  {
    hide Binned, Tagged, WithoutNeighbours, Merge, BinsOk, DvOk, HeadAt, LowEnd, HighEnd;
    Neighbours(h.g, p);
    MergedSize(h, p);
    if MergedSteps(h, p) != [] {
      var c := Chunk(LowEnd(h.g, p), HighEnd(h.g, p) - LowEnd(h.g, p));
      assert [Linked(c)][1..] == [];
      CoalesceChunks(h, p, c);
    }
  }

  /** Steps one after the other. */
  lemma {:induction false} RunsAppend(b: Bins, s: seq<BinStep>, t: seq<BinStep>)
    requires Runs(b, s) && Runs(Run(b, s), t)
    ensures Runs(b, s + t) && Run(b, s + t) == Run(Run(b, s), t)
    decreases |s|
  {
    hide Binned, Unbinned, ValidBins;
    if s == [] {
      assert s + t == t;
    } else {
      assert (s + t)[1..] == s[1..] + t && (s + t)[0] == s[0];
      match s[0]
      case Linked(c) => RunsAppend(Binned(b, c), s[1..], t);
      case Unlinked(c) => RunsAppend(Unbinned(b, c), s[1..], t);
    }
  }

  lemma TrimBins(h: Heap)
    ensures Trim(h).bins == h.bins
  {
  }

  lemma FreeTraced(h: Heap, p: nat)
    requires Ready(h) && p in h.g.starts && HeadAt(h.g, p).cinuse
    ensures Traced(h, Free(h, p), FreeSteps(h, p))
  {
    hide Runs, Run, Ready, WithoutPrev, WithoutNeighbours, Trim, LowEnd, HighEnd;
    PrevRuns(h, p);
    if NextAt(h.g, p) == h.g.top {
      TrimBins(JoinTop(h, p));
    } else {
      NextRuns(h, p);
      RunsAppend(h.bins, PrevSteps(h, p), NextSteps(h, p));
      MergedRuns(h, p);
      RunsAppend(h.bins, PrevSteps(h, p) + NextSteps(h, p), MergedSteps(h, p));
    }
  }

  // ---- what a call writes ---------------------------------------------------------------------------

  /** The end of the link words: fd and bk, and in a tree chunk the children, the parent and the index. */
  function LinkEnd(c: Chunk): nat {
    c.addr + if IsSmall(c.size) then 16 else 32
  }

  ghost predicate HeadWritten(g: Tags, g': Tags, x: nat) {
    exists a: nat {:trigger HeadAt(g', a)} :: HeadAt(g', a) != HeadAt(g, a) && a + 4 <= x < a + 8
  }

  ghost predicate FootWritten(g: Tags, g': Tags, x: nat) {
    exists a: nat {:trigger FootAt(g', a)} :: FootAt(g', a) != FootAt(g, a) && a <= x < a + 4
  }

  ghost predicate LinkWritten(b: Bins, steps: seq<BinStep>, x: nat)
    requires Runs(b, steps)
  {
    exists c :: c in Touched(b, steps) && c.addr + 8 <= x < LinkEnd(c)
  }

  /** init_top's mark behind top. */
  predicate MarkWritten(g: Tags, x: nat) {
    g.top + g.topsize + 4 <= x < g.top + g.topsize + 8
  }

  /** The byte may differ after a call that takes h to h' by these steps on the bins. */
  ghost predicate Written(h: Heap, h': Heap, steps: seq<BinStep>, x: nat)
    requires Runs(h.bins, steps)
  {
    HeadWritten(h.g, h'.g, x) || FootWritten(h.g, h'.g, x) || LinkWritten(h.bins, steps, x) || MarkWritten(h'.g, x)
  }

  /** No byte of the block is written. */
  ghost predicate Quiet(h: Heap, h': Heap, steps: seq<BinStep>, c: Chunk)
    requires Runs(h.bins, steps)
  {
    forall x: nat {:trigger InPayload(c, x)} :: InPayload(c, x) ==> !Written(h, h', steps, x)
  }

  lemma LinksApart(g: Tags, c: Chunk, d: Chunk, x: nat)
    requires Tagged(g) && IsLive(g, c) && IsFree(g, d) && d.addr + 8 <= x < LinkEnd(d)
    ensures !InPayload(c, x)
  {
    assert Apart(g, c.addr, d.addr) && Apart(g, d.addr, c.addr) && BoundAt(g, d.addr);
  }

  /** The links that are written belong to chunks free before or after. */
  lemma TouchedFree(h: Heap, h': Heap, steps: seq<BinStep>, d: Chunk)
    requires Ready(h) && Traced(h, h', steps) && d in Touched(h.bins, steps)
    ensures IsFree(h.g, d) || IsFree(h'.g, d)
  {
    hide Touched, Tagged, Runs, Run;
    var free := iset c | IsFree(h.g, c) || IsFree(h'.g, c);
    forall c | Held(h.bins, c) > 0 ensures c in free {
      HeldIsFree(h, c);
    }
    TouchedWithin(h.bins, steps, free);
  }

  /** A block in use before and after, whose tags are untouched, is untouched altogether. */
  lemma StepQuiet(h: Heap, h': Heap, steps: seq<BinStep>, c: Chunk)
    requires Ready(h) && Ready(h') && Traced(h, h', steps)
    requires IsLive(h.g, c) && IsLive(h'.g, c) && Untouched(h.g, h'.g, c)
    ensures Quiet(h, h', steps, c)
  {
    hide Touched, BinsOk, Runs, Run, HeadAt, FootAt, IsLive, IsFree;
    forall x: nat | InPayload(c, x) ensures !Written(h, h', steps, x) {
      forall d | d in Touched(h.bins, steps) ensures !(d.addr + 8 <= x < LinkEnd(d)) {
        LinkQuiet(h, h', steps, c, d, x);
      }
      assert BelowTop(h'.g, c) by { Below(h'.g, c); }
    }
  }

  lemma LinkQuiet(h: Heap, h': Heap, steps: seq<BinStep>, c: Chunk, d: Chunk, x: nat)
    requires Ready(h) && Ready(h') && Traced(h, h', steps) && d in Touched(h.bins, steps)
    requires IsLive(h.g, c) && IsLive(h'.g, c) && InPayload(c, x)
    ensures !(d.addr + 8 <= x < LinkEnd(d))
  {
    hide Touched, BinsOk, Runs, Run, Tagged, IsLive, IsFree, LinkEnd;
    TouchedFree(h, h', steps, d);
    if d.addr + 8 <= x < LinkEnd(d) {
      if IsFree(h.g, d) {
        LinksApart(h.g, c, d, x);
      } else {
        LinksApart(h'.g, c, d, x);
      }
    }
  }

  predicate BelowTop(g: Tags, c: Chunk) {
    c.addr + c.size <= g.top
  }

  lemma Below(g: Tags, c: Chunk)
    requires Tagged(g) && IsLive(g, c)
    ensures BelowTop(g, c)
  {
    assert BoundAt(g, c.addr);
  }

  /** malloc writes no byte of any block in use. */
  lemma MallocQuiet(h: Heap, bytes: nat, c: Chunk)
    requires Inv(h) && !Overflows(h, Needed(bytes)) && Malloc(h, bytes).Done? && IsLive(h.g, c)
    ensures ValidBins(h.bins) && h.dvsize < WORD && Traced(h, Malloc(h, bytes).h, MallocSteps(h, bytes))
    ensures Quiet(h, Malloc(h, bytes).h, MallocSteps(h, bytes), c)
  {
    hide Malloc, Overflows, Traced, Quiet, Untouched, MallocSteps, BinsOk, SegmentOk, Tagged, DvOk;
    FreshIsEmpty(h);
    var o := Malloc(h, bytes);
    MallocGood(h, bytes);
    MallocKeeps(h, bytes);
    MallocTraced(h, bytes);
    StillLive(h, o, Needed(bytes), c);
    StepQuiet(h, o.h, MallocSteps(h, bytes), c);
  }

  lemma StillLive(h: Heap, o: Outcome, nb: nat, c: Chunk)
    requires Inv(h) && IsLive(h.g, c) && o.Done? && GoodOutcome(h, o, nb)
    ensures Ready(h) && Ready(o.h) && IsLive(o.h.g, c)
  {
    hide Ready;
  }

  /** free writes no byte of any other block in use. */
  lemma FreeQuiet(h: Heap, p: nat, c: Chunk)
    requires Ready(h) && p in h.g.starts && HeadAt(h.g, p).cinuse && IsLive(h.g, c) && c.addr != p
    ensures Traced(h, Free(h, p), FreeSteps(h, p)) && Quiet(h, Free(h, p), FreeSteps(h, p), c)
  {
    hide Ready, Free, Traced, Quiet, Untouched, FreeSteps;
    FreeGood(h, p);
    FreeUntouched(h, p, c);
    FreeTraced(h, p);
    StepQuiet(h, Free(h, p), FreeSteps(h, p), c);
  }

  /** Cutting a block in two writes no byte of another block, nor of the part in front. */
  lemma CutQuiet(h: Heap, c: Chunk, nb: nat, d: Chunk)
    requires Ready(h) && IsLive(h.g, c) && 16 <= nb && nb % 8 == 0 && nb + 16 <= c.size
    requires (IsLive(h.g, d) && d.addr != c.addr) || d == Chunk(c.addr, nb)
    ensures Traced(h, CutLive(h, c.addr, nb), []) && Quiet(h, CutLive(h, c.addr, nb), [], d)
  {
    hide Held, HeadAt, FootAt;
    var h' := CutLive(h, c.addr, nb);
    CutLiveReady(h, c, nb);
    CutUntouched(h.g, c.addr, nb, true, d);
    NoSteps(h, h');
    Below(h'.g, d);
  }

  lemma GrowQuiet(h: Heap, c: Chunk, nb: nat, d: Chunk)
    requires Ready(h) && IsLive(h.g, c) && CanGrow(h, c, nb) && nb % 8 == 0 && IsLive(h.g, d)
    ensures var h' := GrowInPlace(h, c, nb); Traced(h, h', []) && Quiet(h, h', [], d)
  {
    hide Held, HeadAt, FootAt;
    var h' := GrowInPlace(h, c, nb);
    Realloc.GrowGood(h, c, nb);
    NoSteps(h, h');
    GrowUntouched(h.g, c.addr, nb, d);
    Below(h.g, d);
  }

  // ---- the words that nothing depends on -----------------------------------------------------------

  /** The little-endian word at x. */
  function WordAt(mem: Bytes, x: nat): nat {
    mem(x) + 0x100 * mem(x + 1) + 0x1_0000 * mem(x + 2) + 0x100_0000 * mem(x + 3)
  }

  function Decoded(w: nat): Head {
    Head(w / 4 * 4, w % 2 == 1, w / 2 % 2 == 1)
  }

  /** Whatever lies in memory is what a look at any head or foot shows. */
  ghost predicate InMemory(g: Tags, mem: Bytes) {
    forall a: nat {:trigger HeadAt(g, a)} {:trigger FootAt(g, a)} :: a % 8 == 0 && a < WORD ==>
      HeadAt(g, a) == Decoded(WordAt(mem, a + 4)) && FootAt(g, a) == WordAt(mem, a)
  }

  ghost predicate SameHead(g: Tags, g': Tags, a: nat) {
    && HeadAt(g', a) == HeadAt(g, a)
    && (!HeadAt(g, a).cinuse ==> FootAt(g', NextAt(g, a)) == FootAt(g, NextAt(g, a)))
  }

  /** The two states agree but for stale words, where no chunk starts and no free chunk ends. */
  ghost predicate SameHeap(h: Heap, k: Heap) {
    && k == h.(g := k.g)
    && k.g.starts == h.g.starts && k.g.base == h.g.base && k.g.top == h.g.top && k.g.topsize == h.g.topsize
    && HeadAt(k.g, k.g.top) == HeadAt(h.g, h.g.top)
    && forall a {:trigger SameHead(h.g, k.g, a)} :: a in h.g.starts ==> SameHead(h.g, k.g, a)
  }

  lemma SameAt(h: Heap, k: Heap, a: nat)
    requires Tagged(h.g) && SameHeap(h, k) && a in h.g.starts
    ensures HeadAt(k.g, a) == HeadAt(h.g, a) && HeadAt(k.g, NextAt(h.g, a)) == HeadAt(h.g, NextAt(h.g, a))
    ensures !HeadAt(h.g, a).cinuse ==> FootAt(k.g, NextAt(h.g, a)) == FootAt(h.g, NextAt(h.g, a))
    ensures !HeadAt(h.g, a).pinuse ==> FootAt(k.g, a) == FootAt(h.g, a)
  {
    assert SameHead(h.g, k.g, a) && ChainAt(h.g, a);
    if NextAt(h.g, a) != h.g.top {
      assert SameHead(h.g, k.g, NextAt(h.g, a));
    }
    if !HeadAt(h.g, a).pinuse {
      assert BackAt(h.g, a);
      assert SameHead(h.g, k.g, a - FootAt(h.g, a));
    }
  }

  lemma StaleTiles(h: Heap, k: Heap)
    requires Tagged(h.g) && SameHeap(h, k)
    ensures Bounded(k.g) && Disjoint(k.g) && Chained(k.g)
  {
    hide HeadAt, FootAt;
    var g := k.g;
    forall a | a in g.starts ensures BoundAt(g, a) && ChainAt(g, a) {
      SameAt(h, k, a);
      assert BoundAt(h.g, a) && ChainAt(h.g, a);
    }
    forall a, b | a in g.starts && b in g.starts ensures Apart(g, a, b) {
      SameAt(h, k, a);
      assert Apart(h.g, a, b);
    }
  }

  lemma StaleFlags(h: Heap, k: Heap)
    requires Tagged(h.g) && SameHeap(h, k)
    ensures PinuseOk(k.g) && FreeOk(k.g) && TopOk(k.g)
  {
    hide HeadAt, FootAt;
    var g := k.g;
    forall a | a in g.starts ensures PinAt(g, a) && FreeAt(g, a) {
      SameAt(h, k, a);
      assert PinAt(h.g, a) && FreeAt(h.g, a);
    }
    if g.base in g.starts {
      SameAt(h, k, g.base);
    }
  }

  lemma StaleBacks(h: Heap, k: Heap)
    requires Tagged(h.g) && SameHeap(h, k)
    ensures BackOk(k.g)
  {
    hide HeadAt, FootAt;
    var g := k.g;
    forall a | a in g.starts ensures BackAt(g, a) {
      SameAt(h, k, a);
      assert BackAt(h.g, a);
      if !HeadAt(h.g, a).pinuse {
        SameAt(h, k, a - FootAt(h.g, a));
      }
    }
  }

  lemma StaleTagged(h: Heap, k: Heap)
    requires Tagged(h.g) && SameHeap(h, k)
    ensures Tagged(k.g)
  {
    StaleTiles(h, k);
    StaleFlags(h, k);
    StaleBacks(h, k);
  }

  /** The heap invariant and the chunks do not depend on stale words. */
  lemma StaleReady(h: Heap, k: Heap)
    requires Ready(h) && SameHeap(h, k)
    ensures Ready(k)
    ensures forall c :: IsLive(k.g, c) <==> IsLive(h.g, c)
    ensures forall c :: IsFree(k.g, c) <==> IsFree(h.g, c)
  {
    hide Tagged, HeadAt, Held;
    StaleTagged(h, k);
    forall c ensures (IsLive(k.g, c) <==> IsLive(h.g, c)) && (IsFree(k.g, c) <==> IsFree(h.g, c)) {
      if c.addr in h.g.starts {
        SameAt(h, k, c.addr);
      }
    }
    forall c ensures Held(k.bins, c) == if ShouldBin(k, c) then 1 else 0 {
      assert Held(h.bins, c) == if ShouldBin(h, c) then 1 else 0;
    }
  }

  /** The byte belongs to the user of some block. */
  ghost predicate Users(g: Tags, x: nat) {
    exists c :: IsLive(g, c) && InPayload(c, x)
  }

  /** No head of a chunk or of top, and no foot of a free chunk, is made of users' bytes. */
  lemma TagsPrivate(h: Heap, a: nat, x: nat)
    requires Ready(h) && (a in h.g.starts || a == h.g.top)
    ensures a + 4 <= x < a + 8 ==> !Users(h.g, x)
    ensures !HeadAt(h.g, a).pinuse && a <= x < a + 4 ==> !Users(h.g, x)
  {
    forall c | IsLive(h.g, c) && InPayload(c, x)
      ensures !(a + 4 <= x < a + 8) && (!HeadAt(h.g, a).pinuse ==> !(a <= x < a + 4))
    {
      assert BoundAt(h.g, c.addr) && PinAt(h.g, c.addr);
      if a in h.g.starts {
        assert Apart(h.g, c.addr, a) && BoundAt(h.g, a);
      }
    }
  }

  lemma SameWord(mem: Bytes, mem': Bytes, x: nat)
    requires forall y :: x <= y < x + 4 ==> mem'(y) == mem(y)
    ensures WordAt(mem', x) == WordAt(mem, x)
  {
    assert mem'(x) == mem(x) && mem'(x + 1) == mem(x + 1) && mem'(x + 2) == mem(x + 2) && mem'(x + 3) == mem(x + 3);
  }

  lemma SameTags(h: Heap, g: Tags, mem: Bytes, mem': Bytes, a: nat)
    requires Ready(h) && InMemory(h.g, mem) && InMemory(g, mem') && (a in h.g.starts || a == h.g.top)
    requires forall x: nat {:trigger mem'(x)} :: mem'(x) == mem(x) || Users(h.g, x)
    ensures HeadAt(g, a) == HeadAt(h.g, a)
    ensures !HeadAt(h.g, a).pinuse ==> FootAt(g, a) == FootAt(h.g, a)
  {
    hide Users, BinsOk;
    assert a in h.g.starts ==> BoundAt(h.g, a);
    forall x | a <= x < a + 8
      ensures a + 4 <= x ==> mem'(x) == mem(x)
      ensures !HeadAt(h.g, a).pinuse && x < a + 4 ==> mem'(x) == mem(x)
    {
      TagsPrivate(h, a, x);
    }
    SameWord(mem, mem', a + 4);
    if !HeadAt(h.g, a).pinuse {
      SameWord(mem, mem', a);
    }
  }

  /** Whatever the users write into their blocks, the heap read back from memory is as sound as before. */
  lemma UsersWriteFreely(h: Heap, g: Tags, mem: Bytes, mem': Bytes)
    requires Ready(h) && InMemory(h.g, mem) && InMemory(g, mem')
    requires g.starts == h.g.starts && g.base == h.g.base && g.top == h.g.top && g.topsize == h.g.topsize
    requires forall x: nat {:trigger mem'(x)} :: mem'(x) == mem(x) || Users(h.g, x)
    ensures SameHeap(h, h.(g := g)) && Ready(h.(g := g))
  {
    hide Users, BinsOk, InMemory, HeadAt, FootAt;
    SameTags(h, g, mem, mem', h.g.top);
    forall a | a in h.g.starts ensures SameHead(h.g, g, a) {
      SameTags(h, g, mem, mem', a);
      assert ChainAt(h.g, a) && PinAt(h.g, a);
      SameTags(h, g, mem, mem', NextAt(h.g, a));
    }
    StaleReady(h, h.(g := g));
  }

  // ---- realloc in memory -------------------------------------------------------------------------------

  /** The call leaves this memory: it runs on the heap as memory shows it, and writes nothing but its words. */
  ghost predicate Leaves(h: Heap, h': Heap, steps: seq<BinStep>, mem: Bytes, mem': Bytes) {
    && InMemory(h.g, mem) && Runs(h.bins, steps)
    && forall x: nat {:trigger mem'(x)} :: mem'(x) == mem(x) || Written(h, h', steps, x)
  }

  lemma QuietBytes(h: Heap, h': Heap, steps: seq<BinStep>, mem: Bytes, mem': Bytes, c: Chunk, x: nat)
    requires Leaves(h, h', steps, mem, mem') && Quiet(h, h', steps, c) && InPayload(c, x)
    ensures mem'(x) == mem(x)
  {
  }

  /** Memory after the copy of n bytes. */
  function Copied(mem: Bytes, from: nat, to: nat, n: nat): Bytes {
    (x: nat) => if to <= x < to + n then mem(x - to + from) else mem(x)
  }

  /** Cut, and free of what was cut off from the heap k that memory then shows. */
  ghost predicate ShrunkMemory(h: Heap, c: Chunk, nb: nat, k: Heap, mem: Bytes, mem1: Bytes, mem2: Bytes)
    requires IsLive(h.g, c) && nb <= c.size
  {
    && Leaves(h, CutLive(h, c.addr, nb), [], mem, mem1)
    && SameHeap(CutLive(h, c.addr, nb), k)
    && Leaves(k, Given(k, c.addr + nb), FreeSteps(k, c.addr + nb), mem1, mem2)
  }

  /** malloc, copy, and free of the old block from the heap k that memory then shows. */
  ghost predicate MovedMemory(h: Heap, c: Chunk, bytes: nat, k: Heap, mem: Bytes, mem1: Bytes, mem2: Bytes)
    requires Inv(h) && ValidBins(h.bins) && h.dvsize < WORD && Malloc(h, bytes).Done?
  {
    var o := Malloc(h, bytes);
    && Leaves(h, o.h, MallocSteps(h, bytes), mem, mem1)
    && SameHeap(o.h, k)
    && Leaves(k, Given(k, c.addr), FreeSteps(k, c.addr), Copied(mem1, c.addr + 8, o.got.addr + 8, Least(Usable(c), bytes)), mem2)
  }

  lemma GivenQuiet(h: Heap, c: Chunk, d: Chunk)
    requires Ready(h) && IsLive(h.g, c) && IsLive(h.g, d) && d.addr != c.addr
    ensures Traced(h, Given(h, c.addr), FreeSteps(h, c.addr)) && Quiet(h, Given(h, c.addr), FreeSteps(h, c.addr), d)
  {
    hide Ready, Free, Traced, Quiet, FreeSteps;
    FreeQuiet(h, c.addr, d);
  }

  /** free, from the heap k that memory shows in place of h, spares the bytes of every other block. */
  lemma FreedBytes(h: Heap, k: Heap, c: Chunk, mem: Bytes, mem': Bytes, d: Chunk, x: nat)
    requires Ready(h) && SameHeap(h, k) && IsLive(h.g, c) && IsLive(h.g, d) && d.addr != c.addr
    requires Leaves(k, Given(k, c.addr), FreeSteps(k, c.addr), mem, mem') && InPayload(d, x)
    ensures mem'(x) == mem(x)
  {
    hide Ready, Traced, Quiet, Leaves, SameHeap, Given, FreeSteps, IsLive;
    StaleReady(h, k);
    GivenQuiet(k, c, d);
    QuietBytes(k, Given(k, c.addr), FreeSteps(k, c.addr), mem, mem', d, x);
  }

  /** malloc spares the bytes of every block. */
  lemma ServedBytes(h: Heap, bytes: nat, mem: Bytes, mem': Bytes, d: Chunk, x: nat)
    requires Inv(h) && !Overflows(h, Needed(bytes)) && ValidBins(h.bins) && h.dvsize < WORD && Malloc(h, bytes).Done?
    requires Leaves(h, Malloc(h, bytes).h, MallocSteps(h, bytes), mem, mem') && IsLive(h.g, d) && InPayload(d, x)
    ensures mem'(x) == mem(x)
  {
    hide Inv, Malloc, Overflows, Traced, Quiet, Leaves, MallocSteps, IsLive;
    MallocQuiet(h, bytes, d);
    QuietBytes(h, Malloc(h, bytes).h, MallocSteps(h, bytes), mem, mem', d, x);
  }

  lemma CutBytes(h: Heap, c: Chunk, nb: nat, mem: Bytes, mem': Bytes, d: Chunk, x: nat)
    requires Ready(h) && IsLive(h.g, c) && 16 <= nb && nb % 8 == 0 && nb + 16 <= c.size
    requires (IsLive(h.g, d) && d.addr != c.addr) || d == Chunk(c.addr, nb)
    requires Leaves(h, CutLive(h, c.addr, nb), [], mem, mem') && InPayload(d, x)
    ensures mem'(x) == mem(x)
  {
    hide Ready, Traced, Quiet, Leaves, CutLive;
    CutQuiet(h, c, nb, d);
    QuietBytes(h, CutLive(h, c.addr, nb), [], mem, mem', d, x);
  }

  /** A shrunk block keeps its bytes, and so do all others. */
  lemma ShrinkBytes(h: Heap, c: Chunk, nb: nat, k: Heap, mem: Bytes, mem1: Bytes, mem2: Bytes, d: Chunk, x: nat)
    requires Ready(h) && IsLive(h.g, c) && 16 <= nb && nb % 8 == 0 && nb + 16 <= c.size
    requires ShrunkMemory(h, c, nb, k, mem, mem1, mem2)
    requires (IsLive(h.g, d) && d.addr != c.addr) || d == Chunk(c.addr, nb)
    requires InPayload(d, x)
    ensures mem2(x) == mem(x)
  {
    hide Ready, Leaves, SameHeap, CutLive, Given, FreeSteps;
    CutBytes(h, c, nb, mem, mem1, d, x);
    CutLiveReady(h, c, nb);
    LiveApart(h, c, c.addr + nb);
    FreedBytes(CutLive(h, c.addr, nb), k, Rest(c, nb), mem1, mem2, d, x);
  }

  /** After the malloc of a move: the blocks in use are still there, apart from the new one. */
  lemma MoveFirst(h: Heap, c: Chunk, bytes: nat, d: Chunk)
    requires Ready(h) && IsLive(h.g, c) && bytes < MAX_REQUEST && !Overflows(h, Needed(bytes))
    requires Malloc(h, bytes).Done? && Malloc(h, bytes).got != NULL && IsLive(h.g, d)
    ensures var o := Malloc(h, bytes);
            && Ready(o.h) && IsLive(o.h.g, c) && IsLive(o.h.g, d) && IsLive(o.h.g, o.got) && o.got.addr != c.addr
            && (d.addr + d.size <= o.got.addr || o.got.addr + o.got.size <= d.addr)
            && Least(Usable(c), bytes) <= o.got.size - 4
  {
    hide Ready, Malloc, IsLive, Overflows;
    MallocGood(h, bytes);
    MovedApart(h, Malloc(h, bytes).h, d, Malloc(h, bytes).got);
    MovedApart(h, Malloc(h, bytes).h, c, Malloc(h, bytes).got);
  }

  /** The bytes of a block that stays in use, after a move of c. */
  lemma MoveOthers(h: Heap, c: Chunk, bytes: nat, k: Heap, mem: Bytes, mem1: Bytes, mem2: Bytes, d: Chunk, x: nat)
    requires Ready(h) && IsLive(h.g, c) && bytes < MAX_REQUEST && !Overflows(h, Needed(bytes))
    requires ValidBins(h.bins) && h.dvsize < WORD && Malloc(h, bytes).Done? && Malloc(h, bytes).got != NULL
    requires MovedMemory(h, c, bytes, k, mem, mem1, mem2)
    requires IsLive(h.g, d) && d.addr != c.addr && InPayload(d, x)
    ensures mem2(x) == mem(x)
  {
    hide Ready, Malloc, Leaves, SameHeap, Given, FreeSteps, MallocSteps, IsLive, Overflows, ValidBins;
    var o := Malloc(h, bytes);
    ServedBytes(h, bytes, mem, mem1, d, x);
    MoveFirst(h, c, bytes, d);
    FreedBytes(o.h, k, c, Copied(mem1, c.addr + 8, o.got.addr + 8, Least(Usable(c), bytes)), mem2, d, x);
  }

  /** The copied bytes of a moved block. */
  lemma MoveBytes(h: Heap, c: Chunk, bytes: nat, k: Heap, mem: Bytes, mem1: Bytes, mem2: Bytes, i: nat)
    requires Ready(h) && IsLive(h.g, c) && bytes < MAX_REQUEST && !Overflows(h, Needed(bytes))
    requires ValidBins(h.bins) && h.dvsize < WORD && Malloc(h, bytes).Done? && Malloc(h, bytes).got != NULL
    requires MovedMemory(h, c, bytes, k, mem, mem1, mem2)
    requires i < Least(Usable(c), bytes)
    ensures mem2(Malloc(h, bytes).got.addr + 8 + i) == mem(c.addr + 8 + i)
  {
    hide Ready, Malloc, Leaves, SameHeap, Given, FreeSteps, MallocSteps, IsLive, Overflows, ValidBins;
    var o := Malloc(h, bytes);
    ServedBytes(h, bytes, mem, mem1, c, c.addr + 8 + i);
    MoveFirst(h, c, bytes, c);
    FreedBytes(o.h, k, c, Copied(mem1, c.addr + 8, o.got.addr + 8, Least(Usable(c), bytes)), mem2, o.got, o.got.addr + 8 + i);
  }

  /** Memory through a realloc that returns a block, case by case. */
  ghost predicate ResizedMemory(h: Heap, c: Chunk, bytes: nat, k: Heap, mem: Bytes, mem1: Bytes, mem2: Bytes)
    requires Ready(h) && IsLive(h.g, c)
  {
    FreshIsEmpty(h);
    var nb := RequestToSize(bytes);
    if c.size >= nb then
      if c.size - nb >= 16 then ShrunkMemory(h, c, nb, k, mem, mem1, mem2)
      else forall x: nat {:trigger mem2(x)} :: mem2(x) == mem(x)
    else if CanGrow(h, c, nb) then Leaves(h, GrowInPlace(h, c, nb), [], mem, mem2)
    else Malloc(h, bytes).Done? && MovedMemory(h, c, bytes, k, mem, mem1, mem2)
  }

  /** realloc keeps the first min(old usable, new) bytes of the block, wherever it ends up. */
  lemma ResizeKeepsBytes(h: Heap, c: Chunk, bytes: nat, k: Heap, mem: Bytes, mem1: Bytes, mem2: Bytes, i: nat)
    requires Ready(h) && IsLive(h.g, c) && !(Moves(h, c, bytes) && Overflows(h, Needed(bytes)))
    requires Resize(h, c, bytes).Returned? && Resize(h, c, bytes).got != NULL
    requires ResizedMemory(h, c, bytes, k, mem, mem1, mem2) && i < Least(Usable(c), bytes)
    ensures mem2(Resize(h, c, bytes).got.addr + 8 + i) == mem(c.addr + 8 + i)
  {
    hide Ready, Malloc, ShrunkMemory, MovedMemory, Leaves, Given, CutLive, GrowInPlace, Overflows, Quiet, Traced;
    var nb := RequestToSize(bytes);
    LiveSize(h, c);
    FreshIsEmpty(h);
    if c.size >= nb {
      if c.size - nb >= 16 {
        ShrinkBytes(h, c, nb, k, mem, mem1, mem2, Chunk(c.addr, nb), c.addr + 8 + i);
      }
    } else if CanGrow(h, c, nb) {
      GrowQuiet(h, c, nb, c);
      QuietBytes(h, GrowInPlace(h, c, nb), [], mem, mem2, c, c.addr + 8 + i);
    } else {
      MoveBytes(h, c, bytes, k, mem, mem1, mem2, i);
    }
  }

  /** realloc leaves every byte of every other block alone. */
  lemma ResizeSparesOthers(h: Heap, c: Chunk, bytes: nat, k: Heap, mem: Bytes, mem1: Bytes, mem2: Bytes, d: Chunk, x: nat)
    requires Ready(h) && IsLive(h.g, c) && !(Moves(h, c, bytes) && Overflows(h, Needed(bytes)))
    requires Resize(h, c, bytes).Returned? && Resize(h, c, bytes).got != NULL
    requires ResizedMemory(h, c, bytes, k, mem, mem1, mem2)
    requires IsLive(h.g, d) && d.addr != c.addr && InPayload(d, x)
    ensures mem2(x) == mem(x)
  {
    hide Ready, Malloc, ShrunkMemory, MovedMemory, Leaves, Given, CutLive, GrowInPlace, Overflows, Quiet, Traced;
    var nb := RequestToSize(bytes);
    LiveSize(h, c);
    FreshIsEmpty(h);
    if c.size >= nb {
      if c.size - nb >= 16 {
        ShrinkBytes(h, c, nb, k, mem, mem1, mem2, d, x);
      }
    } else if CanGrow(h, c, nb) {
      GrowQuiet(h, c, nb, d);
      QuietBytes(h, GrowInPlace(h, c, nb), [], mem, mem2, d, x);
    } else {
      MoveOthers(h, c, bytes, k, mem, mem1, mem2, d, x);
    }
  }

  // ---- memalign ----------------------------------------------------------------------------------------

  /** Whatever memalign cuts off the new block and gives back, no byte of any other block is written. */
  lemma AlignQuiet(h: Heap, c: Chunk, lead: nat, nb: nat, d: Chunk)
    requires Ready(h) && IsLive(h.g, c) && lead % 8 == 0 && (lead == 0 || 16 <= lead)
    requires 16 <= nb && nb % 8 == 0 && lead + nb + 8 <= c.size && c.size % 8 == 0
    requires IsLive(h.g, d) && d.addr != c.addr
    ensures var h1 := CutLead(h, c, lead); var p := AlignedChunk(c, lead);
            && Traced(h, h1, []) && Quiet(h, h1, [], d) && SizeAt(h1.g, p.addr) == p.size
            && var h2 := CutTrailer(h1, p, nb);
            && Traced(h1, h2, []) && Quiet(h1, h2, [], d)
            && (lead > 0 ==> Traced(h2, Given(h2, c.addr), FreeSteps(h2, c.addr)) && Quiet(h2, Given(h2, c.addr), FreeSteps(h2, c.addr), d))
            && var h3 := if lead == 0 then h2 else Given(h2, c.addr);
            && (p.size > nb + 16 ==> Traced(h3, Given(h3, p.addr + nb), FreeSteps(h3, p.addr + nb)) && Quiet(h3, Given(h3, p.addr + nb), FreeSteps(h3, p.addr + nb), d))
  {
    hide Ready, Traced, Quiet, Given, FreeSteps, CutLive;
    var h1, p := CutLead(h, c, lead), AlignedChunk(c, lead);
    CutLeadReady(h, c, lead);
    CutPieces(h, c, lead, nb);
    LiveApart(h, c, p.addr);
    if lead > 0 {
      CutQuiet(h, c, lead, d);
    } else {
      StillQuiet(h, d);
    }
    var h2 := CutTrailer(h1, p, nb);
    if p.size > nb + 16 {
      LiveApart(h, c, p.addr + nb);
      CutQuiet(h1, p, nb, d);
    } else {
      StillQuiet(h1, d);
    }
    var h3 := if lead == 0 then h2 else Given(h2, c.addr);
    if lead > 0 {
      GivenQuiet(h2, Chunk(c.addr, lead), d);
      GivenGood(h2, Chunk(c.addr, lead));
    }
    if p.size > nb + 16 {
      GivenQuiet(h3, Chunk(p.addr + nb, p.size - nb), d);
    }
  }

  lemma StillQuiet(h: Heap, d: Chunk)
    requires Ready(h) && IsLive(h.g, d)
    ensures Traced(h, h, []) && Quiet(h, h, [], d)
  {
    NoSteps(h, h);
    Below(h.g, d);
  }
}
