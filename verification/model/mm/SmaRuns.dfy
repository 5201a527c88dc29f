/** Runs of sma_alloc and sma_free, and the same requests counted in bytes and in pages. */
module SmaRuns {
  import opened Words
  import opened Sma

  // ---- alternating calls ---------------------------------------------------------------------

  datatype Call = Take(addr: nat, size: nat, fixed: bool) | Give(b: Block)

  /** A hint is followed only where it fits, and what is given back is a block in use. */
  ghost predicate Proper(a: Area, q: Call) {
    match q
    case Take(addr, size, fixed) => 0 < size && HintOk(a, addr, size, fixed)
    case Give(b) => b in a.used
  }

  function Do(a: Area, q: Call): (r: Area) {
    match q
    case Take(addr, size, fixed) => Alloc(a, addr, size, fixed).0
    case Give(b) =>
      var i := FindAt(a.used, b.start);
      if i < |a.used| && a.used[i] == b then Freed(a, i) else a
  }

  /** The blocks the callers hold after the call. */
  function Books(held: set<Block>, a: Area, q: Call): set<Block> {
    match q
    case Take(addr, size, fixed) =>
      var got := Alloc(a, addr, size, fixed).1;
      if got.None? then held else held + {got.value}
    case Give(b) => held - {b}
  }

  ghost predicate Ledger(a: Area, held: set<Block>) {
    forall b {:trigger b in a.used} :: b in a.used <==> b in held
  }

  lemma InAdded(l: seq<Block>, b: Block)
    ensures forall c :: c in Added(l, b) <==> c in l || c == b
  {
    var i := Place(l, b);
    assert l == l[..i] + l[i..];
  }

  lemma InWithout(l: seq<Block>, i: nat)
    requires Sorted(l) && i < |l|
    ensures forall c :: c in Without(l, i) <==> c in l && c != l[i]
  {
    assert l == l[..i] + [l[i]] + l[i + 1..];
  }

  lemma UsedFound(a: Area, b: Block)
    requires Tiled(a) && b in a.used
    ensures var i := FindAt(a.used, b.start); i < |a.used| && a.used[i] == b
  {
    var k :| 0 <= k < |a.used| && a.used[k] == b;
    var i := FindAt(a.used, b.start);
    if i < k {
      CountTwice(a.used, i, k, b.start);
    }
  }

  lemma DoTiled(a: Area, held: set<Block>, q: Call)
    requires Tiled(a) && Ledger(a, held) && Proper(a, q)
    ensures Tiled(Do(a, q)) && Ledger(Do(a, q), Books(held, a, q))
  {
    hide Tiled, FreeCut, HintOk, Chosen;
    match q
    case Take(addr, size, fixed) =>
      AllocTiled(a, addr, size, fixed);
      if Alloc(a, addr, size, fixed).1.Some? {
        InAdded(a.used, Alloc(a, addr, size, fixed).1.value);
      }
    case Give(b) =>
      UsedFound(a, b);
      FreedTiled(a, FindAt(a.used, b.start));
      InWithout(a.used, FindAt(a.used, b.start)) by { assert Sorted(a.used) by { Parts(a); } }
  }

  lemma Parts(a: Area)
    requires Tiled(a)
    ensures Sorted(a.used)
  {
  }

  ghost predicate Possible(a: Area, run: seq<Call>)
    decreases |run|
  {
    run == [] || (Proper(a, run[0]) && Possible(Do(a, run[0]), run[1..]))
  }

  function After(a: Area, run: seq<Call>): Area
    decreases |run|
  {
    if run == [] then a else After(Do(a, run[0]), run[1..])
  }

  function HeldAfter(a: Area, held: set<Block>, run: seq<Call>): set<Block>
    decreases |run|
  {
    if run == [] then held else HeldAfter(Do(a, run[0]), Books(held, a, run[0]), run[1..])
  }

  /** After any run the area is tiled, and the used blocks are those granted and not given back. */
  lemma {:induction false} RunTiled(a: Area, held: set<Block>, run: seq<Call>)
    requires Tiled(a) && Ledger(a, held) && Possible(a, run)
    ensures Tiled(After(a, run)) && Ledger(After(a, run), HeldAfter(a, held, run))
    decreases |run|
  {
    hide Tiled, Ledger, Proper, Do, Books;
    if run != [] {
      DoTiled(a, held, run[0]);
      RunTiled(Do(a, run[0]), Books(held, a, run[0]), run[1..]);
    }
  }

  /** From a fresh area on, no two blocks that callers hold share an address. */
  lemma HeldApart(start: nat, size: nat, wrap: Modulus, run: seq<Call>, b: Block, c: Block, x: nat)
    requires 0 < size && start + size < wrap && Possible(Created(start, size, wrap), run)
    requires b in HeldAfter(Created(start, size, wrap), {}, run) && c in HeldAfter(Created(start, size, wrap), {}, run)
    requires b.Has(x) && c.Has(x)
    ensures b == c
  {
    hide Tiled, Possible, After, HeldAfter;
    var a := Created(start, size, wrap);
    CreatedTiled(start, size, wrap);
    RunTiled(a, {}, run);
    OwnerUnique(After(a, run), x, b);
  }

  // ---- free blocks are not joined -------------------------------------------------------------

  lemma TakeFirst(start: nat, wrap: Modulus)
    requires start + 2 < wrap
    ensures Do(Created(start, 2, wrap), Take(0, 1, false)) ==
            Area(start, 2, [Block(start, 1)], [Block(start + 1, 1)], wrap)
    ensures Alloc(Created(start, 2, wrap), 0, 2, false).1 == Some(Block(start, 2))
  {
  }

  lemma TakeSecond(start: nat, wrap: Modulus)
    requires start + 2 < wrap
    ensures Do(Area(start, 2, [Block(start, 1)], [Block(start + 1, 1)], wrap), Take(0, 1, false)) ==
            Area(start, 2, [Block(start, 1), Block(start + 1, 1)], [], wrap)
  {
    assert Place([Block(start, 1)], Block(start + 1, 1)) == 1;
  }

  lemma GiveFirst(start: nat, wrap: Modulus)
    requires start + 2 < wrap
    ensures Do(Area(start, 2, [Block(start, 1), Block(start + 1, 1)], [], wrap), Give(Block(start, 1))) ==
            Area(start, 2, [Block(start + 1, 1)], [Block(start, 1)], wrap)
  {
    assert FindAt([Block(start, 1), Block(start + 1, 1)], start) == 0;
  }

  lemma GiveSecond(start: nat, wrap: Modulus)
    requires start + 2 < wrap
    ensures var a := Area(start, 2, [], [Block(start, 1), Block(start + 1, 1)], wrap);
            && Do(Area(start, 2, [Block(start + 1, 1)], [Block(start, 1)], wrap), Give(Block(start + 1, 1))) == a
            && Alloc(a, 0, 2, false).1 == None
  {
    assert FindAt([Block(start + 1, 1)], start + 1) == 0;
    assert Place([Block(start, 1)], Block(start + 1, 1)) == 1;
  }

  /**
   Two pages taken one by one and given back: the whole area is free again, in two blocks, and the
   request for two pages that it would have granted before is refused.
   */
  lemma Fragments(start: nat, wrap: Modulus)
    requires start + 2 < wrap
    ensures var a := Created(start, 2, wrap);
            var run := [Take(0, 1, false), Take(0, 1, false), Give(Block(start, 1)), Give(Block(start + 1, 1))];
            && Possible(a, run)
            && After(a, run) == a.(free := [Block(start, 1), Block(start + 1, 1)])
            && Alloc(a, 0, 2, false).1 == Some(Block(start, 2)) && Alloc(After(a, run), 0, 2, false).1 == None
  {
    hide Do, Alloc;
    var p, q := Block(start, 1), Block(start + 1, 1);
    var one := Take(0, 1, false);
    var a := Created(start, 2, wrap);
    TakeFirst(start, wrap);
    TakeSecond(start, wrap);
    GiveFirst(start, wrap);
    GiveSecond(start, wrap);
    OneFirst(Area(start, 2, [q], [p], wrap), Give(q), []);
    OneFirst(Area(start, 2, [p, q], [], wrap), Give(p), [Give(q)]);
    OneFirst(Area(start, 2, [p], [q], wrap), one, [Give(p), Give(q)]);
    OneFirst(a, one, [one, Give(p), Give(q)]);
  }

  lemma OneFirst(a: Area, q: Call, rest: seq<Call>)
    requires Proper(a, q) && Possible(Do(a, q), rest)
    ensures Possible(a, [q] + rest) && After(a, [q] + rest) == After(Do(a, q), rest)
  {
    hide Do, Proper;
    assert ([q] + rest)[1..] == rest;
  }

  // ---- pages and bytes ---------------------------------------------------------------------------

  const PAGE := 4096

  function UpBlock(b: Block): Block {
    Block(PAGE * b.start, PAGE * b.size)
  }

  function UpAll(l: seq<Block>): (r: seq<Block>)
    ensures |r| == |l| && forall i :: 0 <= i < |l| ==> r[i] == UpBlock(l[i])
  {
    seq(|l|, i requires 0 <= i < |l| => UpBlock(l[i]))
  }

  /** An area counted in pages, counted in bytes. */
  function UpArea(a: Area): Area {
    Area(PAGE * a.start, PAGE * a.size, UpAll(a.used), UpAll(a.free), PAGE * a.wrap)
  }

  function UpGot(r: Option<Block>): Option<Block> {
    if r.None? then None else Some(UpBlock(r.value))
  }

  lemma Multiple(k: int, m: nat)
    ensures k >= 1 ==> k * m >= m
    ensures k <= -1 ==> k * m <= 0 - m
  {
  }

  lemma Differ(d: int, q: int, m: nat, e: nat, r: nat)
    requires d * m + e == q * m + r && e < m && r < m
    ensures e == r
  {
    var k := d - q;
    assert k * m == d * m - q * m;
    Multiple(k, m);
  }

  lemma RemainderIs(x: int, m: Modulus, q: int, r: nat)
    requires x == q * m + r && r < m
    ensures x % m == r
  {
    var d, e := x / m, x % m;
    Differ(d, q, m, e, r);
  }

  lemma WrapUp(m: Modulus, x: int)
    ensures WrapAt(PAGE * m, PAGE * x) == PAGE * WrapAt(m, x)
  {
    var q := x / m;
    assert x == q * m + x % m;
    assert PAGE * x == q * (PAGE * m) + PAGE * (x % m);
    RemainderIs(PAGE * x, PAGE * m, q, PAGE * (x % m));
  }

  lemma FindUp(l: seq<Block>, x: nat)
    ensures FindAt(UpAll(l), PAGE * x) == FindAt(l, x)
  {
    hide FindAt;
    var i, j := FindAt(UpAll(l), PAGE * x), FindAt(l, x);
    assert i < |l| ==> UpAll(l)[i] == UpBlock(l[i]);
    assert j < |l| ==> UpAll(l)[j] == UpBlock(l[j]);
  }

  lemma FitUp(l: seq<Block>, size: nat)
    ensures FirstFit(UpAll(l), PAGE * size) == FirstFit(l, size)
  {
    hide FirstFit;
    var i, j := FirstFit(UpAll(l), PAGE * size), FirstFit(l, size);
    assert i < |l| ==> UpAll(l)[i] == UpBlock(l[i]);
    assert j < |l| ==> UpAll(l)[j] == UpBlock(l[j]);
  }

  lemma AddedUp(l: seq<Block>, b: Block)
    ensures Added(UpAll(l), UpBlock(b)) == UpAll(Added(l, b))
  {
    var i, j := Place(UpAll(l), UpBlock(b)), Place(l, b);
    assert i < |l| ==> UpAll(l)[i] == UpBlock(l[i]);
    assert j < |l| ==> UpAll(l)[j] == UpBlock(l[j]);
    assert i == j;
  }

  lemma FreeCutUp(l: seq<Block>, i: nat, s: nat, size: nat, m: Modulus)
    requires i < |l| && l[i].start <= s
    ensures FreeCut(UpAll(l), i, PAGE * s, PAGE * size, PAGE * m) == UpAll(FreeCut(l, i, s, size, m))
  {
    hide Added, WrapAt;
    var b := l[i];
    WrapUp(m, s + size);
    WrapUp(m, b.size - size);
    WrapUp(m, b.End() - WrapAt(m, s + size));
    if s != b.start {
      var front := l[i := Block(b.start, s - b.start)];
      AddedUp(front, Tail(b, s, size, m));
      assert UpAll(l)[i := UpBlock(Block(b.start, s - b.start))] == UpAll(front);
    } else if b.size == size {
      assert Without(UpAll(l), i) == UpAll(Without(l, i));
    } else {
      assert UpAll(l)[i := UpBlock(FrontCut(b, s, size, m))] == UpAll(l[i := FrontCut(b, s, size, m)]);
    }
  }

  /** Counting in pages is exact: sma_alloc does the same to page-aligned bytes as to pages. */
  lemma AllocUp(a: Area, addr: nat, size: nat, fixed: bool)
    ensures Alloc(UpArea(a), PAGE * addr, PAGE * size, fixed) ==
            (UpArea(Alloc(a, addr, size, fixed).0), UpGot(Alloc(a, addr, size, fixed).1))
  {
    hide Added, WrapAt, FreeCut, FindAt, FirstFit;
    FindUp(a.free, addr);
    FitUp(a.free, size);
    WrapUp(a.wrap, addr + size);
    var i := Chosen(a, addr, size, fixed);
    assert Chosen(UpArea(a), PAGE * addr, PAGE * size, fixed) == i;
    if i < |a.free| {
      var s := StartIn(a.free[i], addr);
      assert StartIn(UpBlock(a.free[i]), PAGE * addr) == PAGE * s;
      FreeCutUp(a.free, i, s, size, a.wrap);
      AddedUp(a.used, Block(s, size));
    }
  }
}
