/**
 The range allocator behind address spaces and kernel mappings: an area is cut into
 used and free blocks, kept in two lists sorted by start address.  Sums of addresses and sizes
 are taken modulo wrap: 2^32 for bytes, or 2^20 where addresses and sizes are counted in pages.
 */
module Sma {
  import opened Words

  datatype Block = Block(start: nat, size: nat) {
    function End(): nat { start + size }
    predicate Has(x: nat) { start <= x < start + size }
  }

  datatype Option<T> = None | Some(value: T)

  datatype Area = Area(start: nat, size: nat, used: seq<Block>, free: seq<Block>, wrap: Modulus)

  /** In how many blocks of the list an address lies. */
  function CountIn(l: seq<Block>, x: nat): nat {
    if l == [] then 0 else (if l[0].Has(x) then 1 else 0) + CountIn(l[1..], x)
  }

  ghost predicate Sorted(l: seq<Block>) {
    forall i, j :: 0 <= i < j < |l| ==> l[i].start < l[j].start
  }

  ghost predicate Positive(l: seq<Block>) {
    forall i :: 0 <= i < |l| ==> l[i].size > 0
  }

  /** Every address of the area lies in exactly one block, and no block reaches outside. */
  ghost predicate Covered(a: Area) {
    forall x: nat {:trigger CountIn(a.used, x)} {:trigger CountIn(a.free, x)} ::
      CountIn(a.used, x) + CountIn(a.free, x) == (if a.start <= x < a.start + a.size then 1 else 0)
  }

  ghost predicate Tiled(a: Area) {
    && Sorted(a.used) && Sorted(a.free) && Positive(a.used) && Positive(a.free)
    && a.start + a.size < a.wrap && Covered(a)
  }

  // ---- counting ---------------------------------------------------------------

  function Here(b: Block, x: nat): nat {
    if b.Has(x) then 1 else 0
  }

  lemma {:induction false} CountConcat(l: seq<Block>, m: seq<Block>, x: nat)
    ensures CountIn(l + m, x) == CountIn(l, x) + CountIn(m, x)
  {
    if l == [] {
      assert l + m == m;
    } else {
      assert (l + m)[1..] == l[1..] + m;
      CountConcat(l[1..], m, x);
    }
  }

  lemma CountSplit(l: seq<Block>, i: nat, x: nat)
    requires i < |l|
    ensures CountIn(l, x) == CountIn(l[..i], x) + Here(l[i], x) + CountIn(l[i + 1..], x)
  {
    assert l == l[..i] + ([l[i]] + l[i + 1..]);
    CountConcat(l[..i], [l[i]] + l[i + 1..], x);
  }

  lemma CountUpdate(l: seq<Block>, i: nat, b: Block, x: nat)
    requires i < |l|
    ensures CountIn(l[i := b], x) + Here(l[i], x) == CountIn(l, x) + Here(b, x)
  {
    CountSplit(l, i, x);
    CountSplit(l[i := b], i, x);
    assert l[i := b][..i] == l[..i] && l[i := b][i + 1..] == l[i + 1..];
  }

  lemma CountRemove(l: seq<Block>, i: nat, x: nat)
    requires i < |l|
    ensures CountIn(Without(l, i), x) + Here(l[i], x) == CountIn(l, x)
  {
    CountSplit(l, i, x);
    CountConcat(l[..i], l[i + 1..], x);
  }

  lemma CountHas(l: seq<Block>, i: nat, x: nat)
    requires i < |l| && l[i].Has(x)
    ensures CountIn(l, x) >= 1
  {
    CountSplit(l, i, x);
  }

  lemma CountTwice(l: seq<Block>, i: nat, j: nat, x: nat)
    requires i < j < |l| && l[i].Has(x) && l[j].Has(x)
    ensures CountIn(l, x) >= 2
  {
    CountSplit(l, i, x);
    assert l[i + 1..][j - i - 1] == l[j];
    CountHas(l[i + 1..], j - i - 1, x);
  }

  /** Blocks of one list do not overlap: each ends before the next starts. */
  lemma BlocksApart(a: Area, l: seq<Block>, i: nat, j: nat)
    requires Tiled(a) && (l == a.used || l == a.free) && i < j < |l|
    ensures l[i].End() <= l[j].start
  {
    if l[i].Has(l[j].start) {
      CountTwice(l, i, j, l[j].start);
    }
  }

  lemma BlockInside(a: Area, l: seq<Block>, i: nat)
    requires Tiled(a) && (l == a.used || l == a.free) && i < |l|
    ensures a.start <= l[i].start && l[i].End() <= a.start + a.size
  {
    CountHas(l, i, l[i].start);
    CountHas(l, i, l[i].End() - 1);
  }

  // ---- the list operations --------------------------------------------------------

  function Without(l: seq<Block>, i: nat): seq<Block>
    requires i < |l|
  {
    l[..i] + l[i + 1..]
  }

  /** Where a block goes: before the first block that starts later. */
  function Place(l: seq<Block>, b: Block): (i: nat)
    ensures i <= |l|
    ensures forall j :: 0 <= j < i ==> l[j].start <= b.start
    ensures i < |l| ==> b.start < l[i].start
  {
    if l == [] || l[0].start > b.start then 0 else 1 + Place(l[1..], b)
  }

  function Added(l: seq<Block>, b: Block): seq<Block> {
    l[..Place(l, b)] + [b] + l[Place(l, b)..]
  }

  lemma AddedCount(l: seq<Block>, b: Block, x: nat)
    ensures CountIn(Added(l, b), x) == CountIn(l, x) + Here(b, x)
  {
    var i := Place(l, b);
    assert Added(l, b) == l[..i] + ([b] + l[i..]);
    CountConcat(l[..i], [b] + l[i..], x);
    CountConcat([b], l[i..], x);
    CountConcat(l[..i], l[i..], x);
    assert l == l[..i] + l[i..];
    assert CountIn([b], x) == Here(b, x);
  }

  lemma AddedSorted(l: seq<Block>, b: Block)
    requires Sorted(l) && Positive(l) && b.size > 0 && forall i :: 0 <= i < |l| ==> l[i].start != b.start
    ensures Sorted(Added(l, b)) && Positive(Added(l, b))
  {
  }

  /** sma_list_add */
  method ListAdd(l: seq<Block>, b: Block) returns (r: seq<Block>)
    ensures r == Added(l, b)
  {
    var i := 0;
    while i < |l| && l[i].start <= b.start
      invariant 0 <= i <= |l| && Place(l, b) == i + Place(l[i..], b)
    {
      i := i + 1;
    }
    r := l[..i] + [b] + l[i..];
  }

  /** The first block that contains an address, or the length of the list. */
  function FindAt(l: seq<Block>, x: nat): (i: nat)
    ensures i <= |l|
    ensures i < |l| ==> l[i].Has(x)
    ensures forall j :: 0 <= j < i ==> !l[j].Has(x)
  {
    if l == [] || l[0].Has(x) then 0 else 1 + FindAt(l[1..], x)
  }

  function FirstFit(l: seq<Block>, size: nat): (i: nat)
    ensures i <= |l|
    ensures i < |l| ==> l[i].size >= size
    ensures forall j :: 0 <= j < i ==> l[j].size < size
  {
    if l == [] || l[0].size >= size then 0 else 1 + FirstFit(l[1..], size)
  }

  method Find(l: seq<Block>, x: nat) returns (i: nat)
    ensures i == FindAt(l, x)
  {
    i := 0;
    while i < |l| && !l[i].Has(x)
      invariant i <= |l| && FindAt(l, x) == i + FindAt(l[i..], x)
    {
      i := i + 1;
    }
  }

  method FindFit(l: seq<Block>, size: nat) returns (i: nat)
    ensures i == FirstFit(l, size)
  {
    i := 0;
    while i < |l| && l[i].size < size
      invariant i <= |l| && FirstFit(l, size) == i + FirstFit(l[i..], size)
    {
      i := i + 1;
    }
  }

  // ---- sma_alloc -------------------------------------------------------------------------

  /** The free block at the wanted address reaches far enough; the end of the range is computed modulo the word. */
  predicate FitsAt(a: Area, addr: nat, size: nat) {
    var i := FindAt(a.free, addr);
    addr != 0 && i < |a.free| && a.free[i].End() >= WrapAt(a.wrap, addr + size)
  }

  /** The free block that will be cut; the length of the list if there is none. */
  function Chosen(a: Area, addr: nat, size: nat, fixed: bool): nat {
    if FitsAt(a, addr, size) then FindAt(a.free, addr)
    else if fixed then |a.free|
    else FirstFit(a.free, size)
  }

  /** Where the new block starts in the chosen block: at the wanted address if that lies inside it. */
  function StartIn(b: Block, addr: nat): nat {
    if b.Has(addr) && addr != 0 then addr else b.start
  }

  /** The free block b after [s, s + size) was cut off at its front. */
  function FrontCut(b: Block, s: nat, size: nat, m: Modulus): Block {
    Block(WrapAt(m, s + size), WrapAt(m, b.size - size))
  }

  /** What is left behind [s, s + size) in the free block b. */
  function Tail(b: Block, s: nat, size: nat, m: Modulus): Block {
    Block(WrapAt(m, s + size), WrapAt(m, b.End() - WrapAt(m, s + size)))
  }

  function WithTail(l: seq<Block>, b: Block, s: nat, size: nat, m: Modulus): (r: seq<Block>)
    ensures |r| >= |l|
  {
    if b.End() != WrapAt(m, s + size) then Added(l, Tail(b, s, size, m)) else l
  }

  /** The free list after [s, s + size) was cut out of block i. */
  function FreeCut(l: seq<Block>, i: nat, s: nat, size: nat, m: Modulus): (r: seq<Block>)
    requires i < |l| && l[i].start <= s
  {
    var b := l[i];
    if s != b.start then WithTail(l[i := Block(b.start, s - b.start)], b, s, size, m)
    else if b.size == size then Without(l, i)
    else l[i := FrontCut(b, s, size, m)]
  }

  function CutOut(a: Area, i: nat, s: nat, size: nat): (r: Area)
    requires i < |a.free| && a.free[i].start <= s
  {
    a.(used := Added(a.used, Block(s, size)), free := FreeCut(a.free, i, s, size, a.wrap))
  }

  function Alloc(a: Area, addr: nat, size: nat, fixed: bool): (r: (Area, Option<Block>))
  {
    var i := Chosen(a, addr, size, fixed);
    if i >= |a.free| then (a, None)
    else
      var s := StartIn(a.free[i], addr);
      (CutOut(a, i, s, size), Some(Block(s, size)))
  }

  /** The cut lies inside the free block. */
  ghost predicate InBlock(a: Area, i: nat, s: nat, size: nat) {
    i < |a.free| && a.free[i].start <= s && s + size <= a.free[i].End() && 0 < size
  }

  lemma CutStarts(a: Area, i: nat, s: nat, size: nat)
    requires Tiled(a) && InBlock(a, i, s, size)
    ensures forall j :: 0 <= j < |a.used| ==> a.used[j].start != s
    ensures s + size < a.free[i].End() ==> forall j :: 0 <= j < |a.free| ==> a.free[j].start != s + size
    ensures s + size < a.wrap
  {
    BlockInside(a, a.free, i);
    CountHas(a.free, i, s);
    forall j | 0 <= j < |a.used| ensures a.used[j].start != s {
      if a.used[j].start == s {
        CountHas(a.used, j, s);
      }
    }
    if s + size < a.free[i].End() {
      forall j | 0 <= j < |a.free| ensures a.free[j].start != s + size {
        if j < i {
          BlocksApart(a, a.free, j, i);
        } else if i < j {
          BlocksApart(a, a.free, i, j);
        }
      }
    }
  }

  lemma CutCovered(a: Area, i: nat, s: nat, size: nat, x: nat)
    requires Tiled(a) && InBlock(a, i, s, size)
    ensures var r := CutOut(a, i, s, size);
            && CountIn(r.used, x) == CountIn(a.used, x) + Here(Block(s, size), x)
            && CountIn(r.free, x) + Here(Block(s, size), x) == CountIn(a.free, x)
  {
    CutStarts(a, i, s, size);
    BlockInside(a, a.free, i);
    AddedCount(a.used, Block(s, size), x);
    FreeCutCount(a.free, i, s, size, a.wrap, x);
  }

  lemma FreeCutCount(l: seq<Block>, i: nat, s: nat, size: nat, m: Modulus, x: nat)
    requires i < |l| && l[i].start <= s && s + size <= l[i].End() < m && 0 < size
    ensures CountIn(FreeCut(l, i, s, size, m), x) + Here(Block(s, size), x) == CountIn(l, x)
  {
    hide CountIn, WrapAt, Added, Without;
    var b := l[i];
    if s != b.start {
      MiddleCount(l, i, s, size, m, x);
    } else if b.size == size {
      CountRemove(l, i, x);
    } else {
      CountUpdate(l, i, FrontCut(b, s, size, m), x);
    }
  }

  lemma MiddleCount(l: seq<Block>, i: nat, s: nat, size: nat, m: Modulus, x: nat)
    requires i < |l| && l[i].start < s && s + size <= l[i].End() < m && 0 < size
    ensures var r := WithTail(l[i := Block(l[i].start, s - l[i].start)], l[i], s, size, m);
            CountIn(r, x) + Here(Block(s, size), x) == CountIn(l, x)
  {
    hide CountIn, WrapAt, Added, Sorted;
    var b := l[i];
    var front := l[i := Block(b.start, s - b.start)];
    CountUpdate(l, i, Block(b.start, s - b.start), x);
    AddedCount(front, Tail(b, s, size, m), x);
  }

  lemma CutSortedFree(a: Area, i: nat, s: nat, size: nat)
    requires Tiled(a) && InBlock(a, i, s, size)
    ensures Sorted(FreeCut(a.free, i, s, size, a.wrap)) && Positive(FreeCut(a.free, i, s, size, a.wrap))
  {
    hide CountIn, WrapAt, Added, Covered;
    CutStarts(a, i, s, size);
    BlockInside(a, a.free, i);
    var b := a.free[i];
    if s != b.start {
      if b.End() != s + size {
        AddedSorted(a.free[i := Block(b.start, s - b.start)], Tail(b, s, size, a.wrap));
      }
    } else if b.size != size {
      FrontSorted(a, i, size);
    }
  }

  lemma FrontSorted(a: Area, i: nat, size: nat)
    requires Tiled(a) && i < |a.free| && 0 < size < a.free[i].size && a.free[i].End() < a.wrap
    ensures var r := a.free[i := FrontCut(a.free[i], a.free[i].start, size, a.wrap)]; Sorted(r) && Positive(r)
  {
    hide CountIn, WrapAt, Covered;
    var b := a.free[i];
    forall j | i < j < |a.free| ensures b.End() <= a.free[j].start {
      BlocksApart(a, a.free, i, j);
    }
  }

  lemma CutTiled(a: Area, i: nat, s: nat, size: nat)
    requires Tiled(a) && InBlock(a, i, s, size)
    ensures Tiled(CutOut(a, i, s, size))
  {
    CutStarts(a, i, s, size);
    AddedSorted(a.used, Block(s, size));
    CutSortedFree(a, i, s, size);
    var r := CutOut(a, i, s, size);
    forall x: nat
      ensures CountIn(r.used, x) + CountIn(r.free, x) == (if a.start <= x < a.start + a.size then 1 else 0)
    {
      CutCovered(a, i, s, size, x);
    }
  }

  /** The hint is honoured only where it fits, or not at all. */
  predicate HintOk(a: Area, addr: nat, size: nat, fixed: bool) {
    var i := Chosen(a, addr, size, fixed);
    i < |a.free| && a.free[i].Has(addr) && addr != 0 ==> addr + size <= a.free[i].End()
  }

  /** With address 0, or a fixed address whose range does not wrap, every hint is sound. */
  lemma HintsOk(a: Area, addr: nat, size: nat, fixed: bool)
    requires addr == 0 || (fixed && addr + size < a.wrap)
    ensures HintOk(a, addr, size, fixed)
  {
  }

  /** sma_alloc keeps the tiling exactly when it does not follow a hint whose block is too short. */
  lemma AllocTiled(a: Area, addr: nat, size: nat, fixed: bool)
    requires Tiled(a) && size > 0
    ensures Tiled(Alloc(a, addr, size, fixed).0) <==> HintOk(a, addr, size, fixed)
  {
    var i := Chosen(a, addr, size, fixed);
    if i < |a.free| {
      var s := StartIn(a.free[i], addr);
      if HintOk(a, addr, size, fixed) {
        ChosenFits(a, addr, size, fixed);
        CutTiled(a, i, s, size);
      } else {
        Overruns(a, i, s, size);
      }
    }
  }

  lemma ChosenFits(a: Area, addr: nat, size: nat, fixed: bool)
    requires HintOk(a, addr, size, fixed) && size > 0 && Chosen(a, addr, size, fixed) < |a.free|
    ensures var i := Chosen(a, addr, size, fixed); InBlock(a, i, StartIn(a.free[i], addr), size)
  {
  }

  lemma Overruns(a: Area, i: nat, s: nat, size: nat)
    requires Tiled(a) && i < |a.free| && a.free[i].Has(s) && a.free[i].End() < s + size
    ensures !Tiled(CutOut(a, i, s, size))
  {
    hide CountIn, WrapAt, FreeCut, Added;
    var x := a.free[i].End();
    BlockInside(a, a.free, i);
    AddedCount(a.used, Block(s, size), x);
    if x < a.start + a.size && CountIn(a.used, x) == 0 {
      StillFree(a.free, i, s, size, a.wrap, x);
    }
  }

  /** A free block other than the one that is cut keeps its addresses. */
  lemma StillFree(l: seq<Block>, i: nat, s: nat, size: nat, m: Modulus, x: nat)
    requires i < |l| && l[i].Has(s) && l[i].End() < s + size && !l[i].Has(x) && CountIn(l, x) > 0
    ensures CountIn(FreeCut(l, i, s, size, m), x) >= 1
  {
    hide CountIn, WrapAt, Added;
    var b := l[i];
    if s == b.start {
      CountUpdate(l, i, FrontCut(b, s, size, m), x);
    } else {
      var front := l[i := Block(b.start, s - b.start)];
      CountUpdate(l, i, Block(b.start, s - b.start), x);
      AddedCount(front, Tail(b, s, size, m), x);
    }
  }

  /** A fixed request is granted, at its address, exactly when one free block holds the whole range. */
  lemma FixedAlloc(a: Area, addr: nat, size: nat)
    requires Tiled(a) && 0 < addr && addr + size < a.wrap && 0 < size
    ensures Alloc(a, addr, size, true).1 ==
            if exists i :: InBlock(a, i, addr, size) then Some(Block(addr, size)) else None
  {
    var k := FindAt(a.free, addr);
    if i :| InBlock(a, i, addr, size) {
      OneBlock(a, i, k, addr);
    } else if FitsAt(a, addr, size) {
      assert InBlock(a, k, addr, size);
    }
  }

  lemma OneBlock(a: Area, i: nat, k: nat, x: nat)
    requires Tiled(a) && i < |a.free| && a.free[i].Has(x) && k == FindAt(a.free, x)
    ensures k == i
  {
    if k < i {
      CountTwice(a.free, k, i, x);
    }
  }

  // ---- where a request goes ------------------------------------------------------------------

  /** A free block holds the wanted address and reaches far enough. */
  ghost predicate HintServed(a: Area, addr: nat, size: nat) {
    addr != 0 && exists i :: 0 <= i < |a.free| && a.free[i].Has(addr) && a.free[i].End() >= WrapAt(a.wrap, addr + size)
  }

  ghost predicate LargeEnough(a: Area, i: nat, size: nat) {
    i < |a.free| && a.free[i].size >= size
  }

  /** Of the free blocks that are large enough, block i starts first. */
  ghost predicate LeastFit(a: Area, i: nat, size: nat) {
    LargeEnough(a, i, size) && forall j: nat :: LargeEnough(a, j, size) ==> a.free[i].start <= a.free[j].start
  }

  /** The block granted in the free block i: at its start, unless the wanted address lies in it. */
  predicate GrantedIn(a: Area, i: nat, addr: nat, size: nat, b: Block) {
    i < |a.free| && b == Block(if addr != 0 && a.free[i].Has(addr) then addr else a.free[i].start, size)
  }

  /**
   A request whose wanted address can be served gets it.  Any other is refused if it is fixed, and else
   granted exactly when some free block is large enough, and then in the one with the least start.
   */
  lemma AllocPlace(a: Area, addr: nat, size: nat, fixed: bool)
    requires Tiled(a) && 0 < size
    ensures var r := Alloc(a, addr, size, fixed).1;
            if HintServed(a, addr, size) then r == Some(Block(addr, size))
            else if fixed then r == None
            else
              && (r.Some? <==> exists i: nat :: LargeEnough(a, i, size))
              && (r.Some? ==> exists i: nat :: LeastFit(a, i, size) && GrantedIn(a, i, addr, size, r.value))
    ensures Alloc(a, addr, size, fixed).1.None? ==> Alloc(a, addr, size, fixed).0 == a
  {
    hide WrapAt, CutOut, CountIn, Covered;
    if HintServed(a, addr, size) {
      var i :| 0 <= i < |a.free| && a.free[i].Has(addr) && a.free[i].End() >= WrapAt(a.wrap, addr + size);
      OneBlock(a, i, FindAt(a.free, addr), addr);
    } else if !fixed {
      var i := FirstFit(a.free, size);
      if i < |a.free| {
        assert LargeEnough(a, i, size);
        forall j: nat | LargeEnough(a, j, size) ensures a.free[i].start <= a.free[j].start {
          assert i <= j;
        }
        assert LeastFit(a, i, size) && GrantedIn(a, i, addr, size, Alloc(a, addr, size, fixed).1.value);
      }
    }
  }

  // ---- a fresh area filled in ascending order ---------------------------------------------

  function Created(start: nat, size: nat, wrap: Modulus): Area {
    Area(start, size, [], [Block(start, size)], wrap)
  }

  lemma CreatedTiled(start: nat, size: nat, wrap: Modulus)
    requires 0 < size && start + size < wrap
    ensures Tiled(Created(start, size, wrap)) && OpenFrom(Created(start, size, wrap), start)
  {
    var a := Created(start, size, wrap);
    forall x: nat ensures CountIn(a.used, x) + CountIn(a.free, x) == (if start <= x < start + size then 1 else 0) {
      assert a.free[1..] == [];
    }
  }

  /** From e on, the area is one free block. */
  ghost predicate OpenFrom(a: Area, e: nat) {
    a.start + a.size <= e ||
    (a.free != [] && a.free[|a.free| - 1].start <= e && a.free[|a.free| - 1].End() == a.start + a.size)
  }

  /** A fixed request behind everything used so far is granted, and leaves the rest in one block. */
  lemma AppendAlloc(a: Area, e: nat, b: Block)
    requires Tiled(a) && OpenFrom(a, e) && e <= b.start && 0 < b.start && 0 < b.size && b.End() <= a.start + a.size
    requires forall i :: 0 <= i < |a.used| ==> a.used[i].start < b.start
    ensures var r := Alloc(a, b.start, b.size, true);
            && r.1 == Some(b) && Tiled(r.0) && OpenFrom(r.0, b.End())
            && r.0.used == a.used + [b] && r.0.start == a.start && r.0.size == a.size && r.0.wrap == a.wrap
  {
    hide CountIn, WrapAt, Covered;
    var i := |a.free| - 1;
    assert InBlock(a, i, b.start, b.size);
    OneBlock(a, i, FindAt(a.free, b.start), b.start);
    CutTiled(a, i, b.start, b.size);
    assert Place(a.used, b) == |a.used|;
    AppendOpen(a, i, b);
  }

  lemma AppendOpen(a: Area, i: nat, b: Block)
    requires Tiled(a) && i + 1 == |a.free| && InBlock(a, i, b.start, b.size) && a.free[i].End() == a.start + a.size
    ensures OpenFrom(CutOut(a, i, b.start, b.size), b.End())
  {
    hide CountIn, WrapAt, Covered;
    var l, t := a.free[i := Block(a.free[i].start, b.start - a.free[i].start)], Tail(a.free[i], b.start, b.size, a.wrap);
    assert a.free[i].start < b.start && b.End() < a.free[i].End() ==> Place(l, t) == |l|;
  }

  // ---- sma_free of a whole block, sma_getblock, sma_get_next_used -----------------------------

  /** A used block goes back to the free list; free neighbours are not joined. */
  function Freed(a: Area, i: nat): (r: Area)
    requires i < |a.used|
  {
    a.(used := Without(a.used, i), free := Added(a.free, a.used[i]))
  }

  lemma FreedTiled(a: Area, i: nat)
    requires Tiled(a) && i < |a.used|
    ensures Tiled(Freed(a, i))
  {
    var b := a.used[i];
    CountHas(a.used, i, b.start);
    forall j | 0 <= j < |a.free| ensures a.free[j].start != b.start {
      if a.free[j].start == b.start {
        CountHas(a.free, j, b.start);
      }
    }
    AddedSorted(a.free, b);
    var r := Freed(a, i);
    forall x: nat
      ensures CountIn(r.used, x) + CountIn(r.free, x) == (if a.start <= x < a.start + a.size then 1 else 0)
    {
      CountRemove(a.used, i, x);
      AddedCount(a.free, b, x);
    }
  }

  /** Allocating a range and freeing that block leaves every address as free or used as it was. */
  lemma AllocFreeRoundTrip(a: Area, addr: nat, size: nat, fixed: bool, x: nat)
    requires Tiled(a) && 0 < size && HintOk(a, addr, size, fixed) && Alloc(a, addr, size, fixed).1.Some?
    ensures var r := Alloc(a, addr, size, fixed); var i := FindAt(r.0.used, r.1.value.start);
            i < |r.0.used| && CountIn(Freed(r.0, i).free, x) == CountIn(a.free, x)
  {
    hide CountIn, WrapAt, CutOut;
    var r := Alloc(a, addr, size, fixed);
    var i := Chosen(a, addr, size, fixed);
    ChosenFits(a, addr, size, fixed);
    CutCovered(a, i, r.1.value.start, size, x);
    AllocTiled(a, addr, size, fixed);
    var k := AllocatedIsUsed(a, i, r.1.value.start, size);
    AddedCount(r.0.free, r.0.used[k], x);
  }

  lemma AllocatedIsUsed(a: Area, i: nat, s: nat, size: nat) returns (k: nat)
    requires Tiled(a) && InBlock(a, i, s, size)
    ensures var r := CutOut(a, i, s, size);
            k < |r.used| && k == FindAt(r.used, s) && r.used[k] == Block(s, size)
  {
    hide CountIn, WrapAt, FreeCut;
    var r := CutOut(a, i, s, size);
    CutTiled(a, i, s, size);
    k := Place(a.used, Block(s, size));
    assert r.used[k] == Block(s, size);
    var j := FindAt(r.used, s);
    if j < k {
      CountTwice(r.used, j, k, s);
    }
  }

  class AreaLists {
    const start: nat
    const size: nat
    const wrap: Modulus
    var used: seq<Block>
    var free: seq<Block>

    function Value(): Area
      reads this
    {
      Area(start, size, used, free, wrap)
    }

    /** sma_area_create */
    constructor (start: nat, size: nat, wrap: Modulus)
      ensures Value() == Created(start, size, wrap)
    {
      this.start, this.size, this.wrap := start, size, wrap;
      used, free := [], [Block(start, size)];
    }

    /** sma_alloc */
    method Allocate(addr: nat, size: nat, fixed: bool) returns (r: Option<Block>)
      modifies this
      ensures (Value(), r) == Alloc(old(Value()), addr, size, fixed)
    {
      hide WrapAt, Added, FreeCut;
      var i := |free|;
      if addr != 0 {
        i := Find(free, addr);
        if i < |free| && free[i].End() < WrapAt(wrap, addr + size) {
          i := |free|;
        }
      }
      if i == |free| {
        if fixed {
          return None;
        }
        i := FindFit(free, size);
      }
      if i == |free| {
        return None;
      }
      var b := free[i];
      var s := if b.Has(addr) && addr != 0 then addr else b.start;
      used := ListAdd(used, Block(s, size));
      CutFree(i, s, size);
      r := Some(Block(s, size));
    }

    /** The chosen free block loses [s, s + size). */
    method CutFree(i: nat, s: nat, size: nat)
      requires i < |free| && free[i].start <= s
      modifies this`free
      ensures free == FreeCut(old(free), i, s, size, wrap)
    {
      hide WrapAt, Added;
      var b := free[i];
      if s != b.start {
        free := free[i := Block(b.start, s - b.start)];
        if b.End() != WrapAt(wrap, s + size) {
          free := ListAdd(free, Tail(b, s, size, wrap));
        }
      } else if b.size == size {
        free := free[..i] + free[i + 1..];
      } else {
        free := free[i := Block(WrapAt(wrap, b.start + size), WrapAt(wrap, b.size - size))];
      }
    }

    /** sma_free of exactly one used block. */
    method Release(addr: nat, size: nat) returns (found: bool)
      modifies this
      ensures var a := old(Value()); var i := FindAt(a.used, addr);
              && found == (i < |a.used| && a.used[i] == Block(addr, size))
              && Value() == if found then Freed(a, i) else a
    {
      var i := Find(used, addr);
      found := i < |used| && used[i].start == addr && used[i].size == size;
      if found {
        var b := used[i];
        used := used[..i] + used[i + 1..];
        free := ListAdd(free, b);
      }
    }

    /** sma_getblock: the only block that holds the address, and whether it is in use. */
    method GetBlock(addr: nat) returns (r: Option<Block>, inUse: bool)
      requires Tiled(Value())
      ensures r == None <==> !(start <= addr < start + size)
      ensures r.Some? ==> r.value.Has(addr) && r.value in (if inUse then used else free)
      ensures r.Some? ==> forall b :: (b in used || b in free) && b.Has(addr) ==> b == r.value
      ensures r.Some? ==> (inUse <==> CountIn(used, addr) == 1)
    {
      var i := Find(used, addr);
      if i < |used| {
        OwnerUnique(Value(), addr, used[i]);
        CountHas(used, i, addr);
        return Some(used[i]), true;
      }
      NotFound(used, addr);
      i := Find(free, addr);
      if i < |free| {
        OwnerUnique(Value(), addr, free[i]);
        CountHas(free, i, addr);
        return Some(free[i]), false;
      }
      NotFound(free, addr);
      return None, false;
    }

    /** sma_get_next_used: the used block with the least start, or with the least one behind the block in position k - 1. */
    method NextUsed(k: nat) returns (r: Option<Block>)
      requires Tiled(Value()) && k <= |used|
      ensures r.Some? ==> r.value in used && (k > 0 ==> used[k - 1].start < r.value.start)
      ensures r.Some? ==> forall b :: b in used && (k > 0 ==> used[k - 1].start < b.start) ==> r.value.start <= b.start
      ensures r.None? ==> forall b :: b in used ==> k > 0 && b.start <= used[k - 1].start
    {
      r := None;
      if k < |used| {
        r := Some(used[k]);
      }
    }
  }

  lemma {:induction false} NotFound(l: seq<Block>, x: nat)
    requires FindAt(l, x) == |l|
    ensures CountIn(l, x) == 0
  {
    if l != [] {
      NotFound(l[1..], x);
    }
  }

  lemma OwnerUnique(a: Area, x: nat, b: Block)
    requires Tiled(a) && b.Has(x) && (b in a.used || b in a.free)
    ensures a.start <= x < a.start + a.size
    ensures forall c :: (c in a.used || c in a.free) && c.Has(x) ==> c == b
  {
    forall c | (c in a.used || c in a.free) && c.Has(x) ensures c == b {
      OwnersAgree(a, x, b, c);
    }
    OwnersAgree(a, x, b, b);
  }

  lemma OwnersAgree(a: Area, x: nat, b: Block, c: Block)
    requires Tiled(a) && b.Has(x) && c.Has(x) && (b in a.used || b in a.free) && (c in a.used || c in a.free)
    ensures b == c && a.start <= x < a.start + a.size
  {
    if b in a.used {
      var i :| 0 <= i < |a.used| && a.used[i] == b;
      CountHas(a.used, i, x);
      OneList(a.used, a.free, c, i, x);
    } else {
      var i :| 0 <= i < |a.free| && a.free[i] == b;
      CountHas(a.free, i, x);
      OneList(a.free, a.used, c, i, x);
    }
  }

  /** An address counted once in l and not in m has a single owner. */
  lemma OneList(l: seq<Block>, m: seq<Block>, c: Block, i: nat, x: nat)
    requires CountIn(l, x) + CountIn(m, x) <= 1 && i < |l| && l[i].Has(x) && c.Has(x) && (c in l || c in m)
    ensures c == l[i]
  {
    CountHas(l, i, x);
    if c in l {
      var j :| 0 <= j < |l| && l[j] == c;
      if i < j {
        CountTwice(l, i, j, x);
      } else if j < i {
        CountTwice(l, j, i, x);
      }
    } else {
      var j :| 0 <= j < |m| && m[j] == c;
      CountHas(m, j, x);
    }
  }
}
