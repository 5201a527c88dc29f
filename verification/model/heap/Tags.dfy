/**
 Boundary tags: the head and prev_foot words that delimit chunks.

 head and foot are the words the allocator writes, by chunk address; entries at
 addresses where no chunk starts are stale and may hold anything.  starts is the set
 of addresses at which a chunk starts below top; WalkIsStarts shows that it is what a
 traversal from base along the sizes in the heads visits.
 */
module Tags {
  import opened TreeBins

  const MIN_CHUNK := 16

  datatype Head = Head(size: nat, pinuse: bool, cinuse: bool)

  datatype Tags = Tags(head: map<nat, Head>, foot: map<nat, nat>, starts: set<nat>,
                       base: nat, top: nat, topsize: nat)

  function HeadAt(g: Tags, a: nat): Head {
    if a in g.head then g.head[a] else Head(0, false, false)
  }

  function FootAt(g: Tags, a: nat): nat {
    if a in g.foot then g.foot[a] else 0
  }

  function SizeAt(g: Tags, a: nat): nat {
    HeadAt(g, a).size
  }

  function NextAt(g: Tags, a: nat): nat {
    a + SizeAt(g, a)
  }

  // Each condition is stated at one address and then required at every chunk.

  /** The chunk is aligned, of at least the minimum size, and lies between base and top. */
  ghost predicate BoundAt(g: Tags, a: nat) {
    && g.base <= a && a % 8 == 0
    && MIN_CHUNK <= SizeAt(g, a) && SizeAt(g, a) % 8 == 0 && NextAt(g, a) <= g.top
  }

  /** The chunk is followed by a chunk or by top. */
  ghost predicate ChainAt(g: Tags, a: nat) {
    NextAt(g, a) == g.top || NextAt(g, a) in g.starts
  }

  /** The next pinuse bit tells whether this chunk is in use. */
  ghost predicate PinAt(g: Tags, a: nat) {
    HeadAt(g, NextAt(g, a)).pinuse == HeadAt(g, a).cinuse
  }

  /** A free chunk's size is repeated at its end, and the chunk before it is in use. */
  ghost predicate FreeAt(g: Tags, a: nat) {
    !HeadAt(g, a).cinuse ==> FootAt(g, NextAt(g, a)) == SizeAt(g, a) && HeadAt(g, a).pinuse
  }

  /** A cleared pinuse bit means that prev_foot leads to the free chunk before. */
  ghost predicate BackAt(g: Tags, a: nat) {
    !HeadAt(g, a).pinuse ==>
      var f := FootAt(g, a);
      f <= a && a - f in g.starts && SizeAt(g, a - f) == f && !HeadAt(g, a - f).cinuse
  }

  ghost predicate Apart(g: Tags, a: nat, b: nat) {
    a < b ==> NextAt(g, a) <= b
  }

  ghost predicate Bounded(g: Tags) {
    && 0 < g.base <= g.top && g.base % 8 == 0 && g.top % 8 == 0
    && forall a {:trigger BoundAt(g, a)} :: a in g.starts ==> BoundAt(g, a)
  }

  ghost predicate Disjoint(g: Tags) {
    forall a, b {:trigger Apart(g, a, b)} :: a in g.starts && b in g.starts ==> Apart(g, a, b)
  }

  ghost predicate Chained(g: Tags) {
    && (g.base == g.top || g.base in g.starts)
    && forall a {:trigger ChainAt(g, a)} :: a in g.starts ==> ChainAt(g, a)
  }

  ghost predicate PinuseOk(g: Tags) {
    && HeadAt(g, g.base).pinuse
    && forall a {:trigger PinAt(g, a)} :: a in g.starts ==> PinAt(g, a)
  }

  ghost predicate FreeOk(g: Tags) {
    forall a {:trigger FreeAt(g, a)} :: a in g.starts ==> FreeAt(g, a)
  }

  ghost predicate BackOk(g: Tags) {
    forall a {:trigger BackAt(g, a)} :: a in g.starts ==> BackAt(g, a)
  }

  ghost predicate TopOk(g: Tags) {
    HeadAt(g, g.top) == Head(g.topsize, true, false)
  }

  /** do_check_malloc_state's conditions on the chunks. */
  ghost predicate Tagged(g: Tags) {
    Bounded(g) && Disjoint(g) && Chained(g) && PinuseOk(g) && FreeOk(g) && BackOk(g) && TopOk(g)
  }

  predicate IsFree(g: Tags, c: Chunk) {
    c.addr in g.starts && SizeAt(g, c.addr) == c.size && !HeadAt(g, c.addr).cinuse
  }

  predicate IsLive(g: Tags, c: Chunk) {
    c.addr in g.starts && SizeAt(g, c.addr) == c.size && HeadAt(g, c.addr).cinuse
  }

  // ---- merging a run of chunks into one ------------------------------------------

  /** The chunks from q up to e become one chunk; a free one leaves its size at e and clears e's pinuse bit. */
  function Merge(g: Tags, q: nat, e: nat, used: bool): (r: Tags)
    requires q < e
  {
    var s := e - q;
    var h := g.head[q := Head(s, HeadAt(g, q).pinuse, used)];
    var h' := h[e := HeadAt(g, e).(pinuse := used)];
    var f := if used then g.foot else g.foot[e := s];
    g.(head := h', foot := f, starts := set a | a in g.starts && (a <= q || e <= a))
  }

  ghost predicate Mergeable(g: Tags, q: nat, e: nat, used: bool) {
    && q < e && q in g.starts && (e in g.starts || e == g.top)
    && (!used ==> HeadAt(g, q).pinuse && e in g.starts && HeadAt(g, e).cinuse)
  }

  lemma MergeWords(g: Tags, q: nat, e: nat, used: bool, b: nat)
    requires q < e
    ensures var r := Merge(g, q, e, used);
            && HeadAt(r, q) == Head(e - q, HeadAt(g, q).pinuse, used)
            && HeadAt(r, e) == HeadAt(g, e).(pinuse := used)
            && (b != q && b != e ==> HeadAt(r, b) == HeadAt(g, b))
            && (b != q ==> NextAt(r, b) == NextAt(g, b) && HeadAt(r, b).cinuse == HeadAt(g, b).cinuse)
            && (b != e ==> HeadAt(r, b).pinuse == HeadAt(g, b).pinuse)
            && FootAt(r, b) == (if !used && b == e then e - q else FootAt(g, b))
  {
  }

  /** A chunk outside q .. e ends at q or before, or starts at e or after. */
  lemma MergeApart(g: Tags, q: nat, e: nat, used: bool, b: nat)
    requires Tagged(g) && Mergeable(g, q, e, used) && b in g.starts
    ensures b < q ==> NextAt(g, b) <= q
    ensures q < b < e ==> NextAt(g, b) <= e
    ensures NextAt(g, q) <= e <= g.top && e % 8 == 0 && q % 8 == 0 && g.base <= q && b < NextAt(g, b) <= g.top
  {
    assert Apart(g, b, q);
    assert BoundAt(g, b) && BoundAt(g, q);
    if e in g.starts {
      assert Apart(g, b, e) && Apart(g, q, e) && BoundAt(g, e);
    }
  }

  lemma MergeTiles(g: Tags, q: nat, e: nat, used: bool)
    requires Tagged(g) && Mergeable(g, q, e, used)
    ensures var r := Merge(g, q, e, used); Bounded(r) && Disjoint(r) && Chained(r)
  {
    var r := Merge(g, q, e, used);
    MergeApart(g, q, e, used, q);
    assert BoundAt(g, q);
    MergeWords(g, q, e, used, q);
    forall a | a in r.starts ensures BoundAt(r, a) {
      assert BoundAt(g, a);
      MergeWords(g, q, e, used, a);
    }
    forall a, b | a in r.starts && b in r.starts ensures Apart(r, a, b) {
      assert Apart(g, a, b);
      MergeWords(g, q, e, used, a);
    }
    forall a | a in r.starts ensures ChainAt(r, a) {
      assert ChainAt(g, a);
      MergeWords(g, q, e, used, a);
      MergeApart(g, q, e, used, a);
    }
  }

  lemma MergePins(g: Tags, q: nat, e: nat, used: bool)
    requires Tagged(g) && Mergeable(g, q, e, used)
    ensures var r := Merge(g, q, e, used); PinuseOk(r) && TopOk(r)
  {
    var r := Merge(g, q, e, used);
    MergeApart(g, q, e, used, q);
    MergeWords(g, q, e, used, g.top);
    MergeWords(g, q, e, used, g.base);
    forall a | a in r.starts ensures PinAt(r, a) {
      assert PinAt(g, a);
      MergeWords(g, q, e, used, a);
      MergeWords(g, q, e, used, NextAt(g, a));
      MergeApart(g, q, e, used, a);
    }
  }

  lemma MergeFrees(g: Tags, q: nat, e: nat, used: bool)
    requires Tagged(g) && Mergeable(g, q, e, used)
    ensures FreeOk(Merge(g, q, e, used))
  {
    var r := Merge(g, q, e, used);
    MergeApart(g, q, e, used, q);
    forall a | a in r.starts ensures FreeAt(r, a) {
      assert FreeAt(g, a);
      MergeWords(g, q, e, used, a);
      MergeWords(g, q, e, used, NextAt(g, a));
      MergeApart(g, q, e, used, a);
      if a == e {
        assert BoundAt(g, a);
      }
    }
  }

  lemma MergeBacks(g: Tags, q: nat, e: nat, used: bool)
    requires Tagged(g) && Mergeable(g, q, e, used)
    ensures BackOk(Merge(g, q, e, used))
  {
    var r := Merge(g, q, e, used);
    MergeWords(g, q, e, used, e);
    forall a | a in r.starts ensures BackAt(r, a) {
      MergeWords(g, q, e, used, a);
      if a != e && !HeadAt(r, a).pinuse {
        assert BackAt(g, a);
        var x := a - FootAt(g, a);
        MergeWords(g, q, e, used, x);
        MergeApart(g, q, e, used, x);
      }
    }
  }

  lemma MergeTagged(g: Tags, q: nat, e: nat, used: bool)
    requires Tagged(g) && Mergeable(g, q, e, used)
    ensures Tagged(Merge(g, q, e, used))
  {
    MergeTiles(g, q, e, used);
    MergePins(g, q, e, used);
    MergeFrees(g, q, e, used);
    MergeBacks(g, q, e, used);
  }

  /** Outside q .. e nothing changes; inside there is the one merged chunk. */
  lemma MergeChunks(g: Tags, q: nat, e: nat, used: bool, c: Chunk)
    requires Tagged(g) && Mergeable(g, q, e, used)
    ensures var r := Merge(g, q, e, used);
            && (IsFree(r, c) <==> (IsFree(g, c) && !(q <= c.addr < e)) || (!used && c == Chunk(q, e - q)))
            && (IsLive(r, c) <==> (IsLive(g, c) && !(q <= c.addr < e)) || (used && c == Chunk(q, e - q)))
  {
    MergeWords(g, q, e, used, c.addr);
  }

  // ---- cutting a chunk in use in two -------------------------------------------------

  /** The chunk in use at a keeps nb bytes; the rest becomes a chunk of its own. */
  function Cut(g: Tags, a: nat, nb: nat, used: bool): (r: Tags)
    requires nb <= SizeAt(g, a)
  {
    var e := NextAt(g, a);
    var m := a + nb;
    var h := g.head[a := Head(nb, HeadAt(g, a).pinuse, true)];
    var h' := h[m := Head(e - m, true, used)];
    var h'' := h'[e := HeadAt(g, e).(pinuse := used)];
    var f := if used then g.foot else g.foot[e := e - m];
    g.(head := h'', foot := f, starts := g.starts + {m})
  }

  ghost predicate Cuttable(g: Tags, a: nat, nb: nat, used: bool) {
    && a in g.starts && HeadAt(g, a).cinuse
    && MIN_CHUNK <= nb && nb % 8 == 0 && nb + MIN_CHUNK <= SizeAt(g, a)
    && (!used ==> NextAt(g, a) in g.starts && HeadAt(g, NextAt(g, a)).cinuse)
  }

  lemma CutWords(g: Tags, a: nat, nb: nat, used: bool, b: nat)
    requires MIN_CHUNK <= nb && nb + MIN_CHUNK <= SizeAt(g, a)
    ensures var r := Cut(g, a, nb, used); var e := NextAt(g, a); var m := a + nb;
            && HeadAt(r, a) == Head(nb, HeadAt(g, a).pinuse, true)
            && HeadAt(r, m) == Head(e - m, true, used)
            && HeadAt(r, e) == HeadAt(g, e).(pinuse := used)
            && (b != a && b != m && b != e ==> HeadAt(r, b) == HeadAt(g, b))
            && (b != a && b != m ==> NextAt(r, b) == NextAt(g, b) && HeadAt(r, b).cinuse == HeadAt(g, b).cinuse)
            && FootAt(r, b) == (if !used && b == e then e - m else FootAt(g, b))
  {
  }

  lemma CutApart(g: Tags, a: nat, nb: nat, used: bool, b: nat)
    requires Tagged(g) && Cuttable(g, a, nb, used) && b in g.starts
    ensures b < a ==> NextAt(g, b) <= a
    ensures b <= a || NextAt(g, a) <= b
    ensures b < NextAt(g, b) <= g.top && b % 8 == 0 && NextAt(g, b) % 8 == 0 && g.base <= b
  {
    assert Apart(g, b, a) && Apart(g, a, b);
    assert BoundAt(g, b);
  }

  lemma CutDisjoint(g: Tags, a: nat, nb: nat, used: bool, b: nat, c: nat)
    requires Tagged(g) && Cuttable(g, a, nb, used)
    requires b in Cut(g, a, nb, used).starts && c in Cut(g, a, nb, used).starts
    ensures Apart(Cut(g, a, nb, used), b, c)
  {
    CutWords(g, a, nb, used, b);
    if b in g.starts {
      CutApart(g, a, nb, used, b);
    }
    if c in g.starts {
      CutApart(g, a, nb, used, c);
    }
    if b in g.starts && c in g.starts {
      assert Apart(g, b, c);
    }
  }

  lemma CutBounds(g: Tags, a: nat, nb: nat, used: bool, b: nat)
    requires Tagged(g) && Cuttable(g, a, nb, used) && b in Cut(g, a, nb, used).starts
    ensures BoundAt(Cut(g, a, nb, used), b)
  {
    CutWords(g, a, nb, used, b);
    assert BoundAt(g, a);
    if b in g.starts {
      assert BoundAt(g, b);
    }
  }

  lemma CutTiles(g: Tags, a: nat, nb: nat, used: bool)
    requires Tagged(g) && Cuttable(g, a, nb, used)
    ensures var r := Cut(g, a, nb, used); Bounded(r) && Disjoint(r) && Chained(r)
  {
    var r := Cut(g, a, nb, used);
    CutApart(g, a, nb, used, a);
    assert BoundAt(g, a) && ChainAt(g, a);
    CutWords(g, a, nb, used, a);
    forall b | b in r.starts ensures BoundAt(r, b) {
      CutBounds(g, a, nb, used, b);
    }
    forall b, c | b in r.starts && c in r.starts ensures Apart(r, b, c) {
      CutDisjoint(g, a, nb, used, b, c);
    }
    forall b | b in r.starts ensures ChainAt(r, b) {
      CutWords(g, a, nb, used, b);
      if b in g.starts {
        assert ChainAt(g, b);
      }
    }
  }

  lemma CutFlags(g: Tags, a: nat, nb: nat, used: bool)
    requires Tagged(g) && Cuttable(g, a, nb, used)
    ensures var r := Cut(g, a, nb, used); PinuseOk(r) && FreeOk(r) && TopOk(r)
  {
    var r := Cut(g, a, nb, used);
    CutApart(g, a, nb, used, a);
    CutWords(g, a, nb, used, g.base);
    CutWords(g, a, nb, used, g.top);
    assert PinAt(g, a) && ChainAt(g, a);
    forall b | b in r.starts ensures PinAt(r, b) {
      CutWords(g, a, nb, used, b);
      CutWords(g, a, nb, used, NextAt(r, b));
      if b in g.starts {
        assert PinAt(g, b);
        CutApart(g, a, nb, used, b);
      }
    }
    forall b | b in r.starts ensures FreeAt(r, b) {
      CutWords(g, a, nb, used, b);
      CutWords(g, a, nb, used, NextAt(r, b));
      if b in g.starts {
        assert FreeAt(g, b);
        CutApart(g, a, nb, used, b);
      }
    }
  }

  lemma CutBacks(g: Tags, a: nat, nb: nat, used: bool)
    requires Tagged(g) && Cuttable(g, a, nb, used)
    ensures BackOk(Cut(g, a, nb, used))
  {
    var r := Cut(g, a, nb, used);
    var e := NextAt(g, a);
    CutWords(g, a, nb, used, a);
    forall b | b in r.starts ensures BackAt(r, b) {
      CutWords(g, a, nb, used, b);
      if b != e && !HeadAt(r, b).pinuse {
        assert BackAt(g, b);
        var x := b - FootAt(g, b);
        CutWords(g, a, nb, used, x);
        CutApart(g, a, nb, used, x);
      }
    }
  }

  lemma CutTagged(g: Tags, a: nat, nb: nat, used: bool)
    requires Tagged(g) && Cuttable(g, a, nb, used)
    ensures Tagged(Cut(g, a, nb, used))
  {
    CutTiles(g, a, nb, used);
    CutFlags(g, a, nb, used);
    CutBacks(g, a, nb, used);
  }

  lemma CutChunks(g: Tags, a: nat, nb: nat, used: bool, c: Chunk)
    requires Tagged(g) && Cuttable(g, a, nb, used)
    ensures var r := Cut(g, a, nb, used); var rest := Chunk(a + nb, SizeAt(g, a) - nb);
            && (IsFree(r, c) <==> IsFree(g, c) || (!used && c == rest))
            && (IsLive(r, c) <==> (IsLive(g, c) && c.addr != a) || c == Chunk(a, nb) || (used && c == rest))
  {
    CutWords(g, a, nb, used, c.addr);
    if c.addr in g.starts {
      CutApart(g, a, nb, used, c.addr);
    }
  }

  // ---- the top chunk --------------------------------------------------------------------

  /** nb bytes are split off the low end of top for a chunk in use. */
  function TakeTop(g: Tags, nb: nat): (r: Tags)
    requires nb <= g.topsize
  {
    var p := g.top;
    var m := p + nb;
    g.(head := g.head[m := Head(g.topsize - nb, true, false)][p := Head(nb, true, true)],
       starts := g.starts + {p}, top := m, topsize := g.topsize - nb)
  }

  lemma TakeTopWords(g: Tags, nb: nat, b: nat)
    requires Tagged(g) && MIN_CHUNK <= nb <= g.topsize && b in g.starts
    ensures b < g.top && NextAt(g, b) <= g.top
    ensures HeadAt(TakeTop(g, nb), b) == HeadAt(g, b)
  {
    assert BoundAt(g, b);
  }

  lemma TakeTopApart(g: Tags, nb: nat, b: nat, c: nat)
    requires Tagged(g) && MIN_CHUNK <= nb <= g.topsize && b in TakeTop(g, nb).starts && c in TakeTop(g, nb).starts
    ensures Apart(TakeTop(g, nb), b, c)
  {
    if b != g.top {
      TakeTopWords(g, nb, b);
    }
    if c != g.top {
      TakeTopWords(g, nb, c);
    }
    if b != g.top && c != g.top {
      assert Apart(g, b, c);
    }
  }

  lemma TakeTopBounds(g: Tags, nb: nat, b: nat)
    requires Tagged(g) && MIN_CHUNK <= nb <= g.topsize && nb % 8 == 0 && b in TakeTop(g, nb).starts
    ensures BoundAt(TakeTop(g, nb), b)
  {
    if b != g.top {
      assert BoundAt(g, b);
      TakeTopWords(g, nb, b);
    }
  }

  lemma TakeTopChain(g: Tags, nb: nat, b: nat)
    requires Tagged(g) && MIN_CHUNK <= nb <= g.topsize && b in TakeTop(g, nb).starts
    ensures ChainAt(TakeTop(g, nb), b)
  {
    if b != g.top {
      assert ChainAt(g, b);
      TakeTopWords(g, nb, b);
    }
  }

  lemma TakeTopTiles(g: Tags, nb: nat)
    requires Tagged(g) && MIN_CHUNK <= nb <= g.topsize && nb % 8 == 0
    ensures Bounded(TakeTop(g, nb))
  {
    var r := TakeTop(g, nb);
    EightsAdd(g.top, nb);
    forall b | b in r.starts ensures BoundAt(r, b) {
      TakeTopBounds(g, nb, b);
    }
  }

  lemma EightsAdd(a: nat, b: nat)
    requires a % 8 == 0 && b % 8 == 0
    ensures (a + b) % 8 == 0
  {
  }

  lemma TakeTopLinks(g: Tags, nb: nat)
    requires Tagged(g) && MIN_CHUNK <= nb <= g.topsize
    ensures var r := TakeTop(g, nb); Disjoint(r) && Chained(r)
  {
    var r := TakeTop(g, nb);
    forall b | b in r.starts ensures ChainAt(r, b) {
      TakeTopChain(g, nb, b);
    }
    forall b, c | b in r.starts && c in r.starts ensures Apart(r, b, c) {
      TakeTopApart(g, nb, b, c);
    }
  }

  lemma TakeTopTagged(g: Tags, nb: nat)
    requires Tagged(g) && MIN_CHUNK <= nb <= g.topsize && nb % 8 == 0
    ensures Tagged(TakeTop(g, nb))
  {
    TakeTopTiles(g, nb);
    TakeTopLinks(g, nb);
    TakeTopFlags(g, nb);
  }

  lemma TakeTopFlags(g: Tags, nb: nat)
    requires Tagged(g) && MIN_CHUNK <= nb <= g.topsize && nb % 8 == 0
    ensures var r := TakeTop(g, nb); PinuseOk(r) && FreeOk(r) && BackOk(r) && TopOk(r)
  {
    var r := TakeTop(g, nb);
    forall b | b in r.starts ensures PinAt(r, b) {
      assert b in g.starts ==> BoundAt(g, b) && PinAt(g, b);
    }
    forall b | b in r.starts ensures FreeAt(r, b) {
      assert b in g.starts ==> BoundAt(g, b) && FreeAt(g, b);
    }
    forall b | b in r.starts ensures BackAt(r, b) {
      if b in g.starts {
        assert BoundAt(g, b) && BackAt(g, b);
        if !HeadAt(g, b).pinuse {
          assert BoundAt(g, b - FootAt(g, b));
        }
      }
    }
  }

  lemma TakeTopChunks(g: Tags, nb: nat, c: Chunk)
    requires Tagged(g) && MIN_CHUNK <= nb <= g.topsize && nb % 8 == 0
    ensures var r := TakeTop(g, nb);
            && (IsFree(r, c) <==> IsFree(g, c))
            && (IsLive(r, c) <==> IsLive(g, c) || c == Chunk(g.top, nb))
  {
    if c.addr in g.starts {
      assert BoundAt(g, c.addr);
    }
  }

  /** The chunk in use at p, right before top, grows to nb bytes at the cost of top. */
  function GrowUsed(g: Tags, p: nat, nb: nat): (r: Tags)
    requires SizeAt(g, p) <= nb <= SizeAt(g, p) + g.topsize
  {
    var n := SizeAt(g, p) + g.topsize - nb;
    g.(head := g.head[p := Head(nb, HeadAt(g, p).pinuse, true)][p + nb := Head(n, true, false)],
       top := p + nb, topsize := n)
  }

  ghost predicate Growable(g: Tags, p: nat, nb: nat) {
    && p in g.starts && HeadAt(g, p).cinuse && NextAt(g, p) == g.top
    && SizeAt(g, p) < nb <= SizeAt(g, p) + g.topsize && nb % 8 == 0
  }

  lemma GrowWords(g: Tags, p: nat, nb: nat, b: nat)
    requires Tagged(g) && Growable(g, p, nb) && b in g.starts
    ensures var r := GrowUsed(g, p, nb);
            && b <= p && (b < p ==> NextAt(g, b) <= p) && g.base <= p && p % 8 == 0 && MIN_CHUNK <= SizeAt(g, p)
            && HeadAt(r, b) == (if b == p then Head(nb, HeadAt(g, p).pinuse, true) else HeadAt(g, b))
            && NextAt(r, b) == (if b == p then r.top else NextAt(g, b))
  {
    assert BoundAt(g, b) && BoundAt(g, p) && Apart(g, b, p) && Apart(g, p, b);
  }

  lemma GrowBounds(g: Tags, p: nat, nb: nat, b: nat)
    requires Tagged(g) && Growable(g, p, nb) && b in g.starts
    ensures BoundAt(GrowUsed(g, p, nb), b)
  {
    hide Tagged;
    assert BoundAt(g, b) by { Bounds(g, b); }
    GrowWords(g, p, nb, b);
  }

  lemma Bounds(g: Tags, b: nat)
    requires Tagged(g) && b in g.starts
    ensures BoundAt(g, b)
  {
  }

  lemma GrowTiles(g: Tags, p: nat, nb: nat)
    requires Tagged(g) && Growable(g, p, nb)
    ensures var r := GrowUsed(g, p, nb); Bounded(r) && Disjoint(r) && Chained(r)
  {
    var r := GrowUsed(g, p, nb);
    GrowWords(g, p, nb, p);
    EightsAdd(p, nb);
    forall b | b in r.starts ensures BoundAt(r, b) {
      GrowBounds(g, p, nb, b);
    }
    forall b, c | b in r.starts && c in r.starts ensures Apart(r, b, c) {
      assert Apart(g, b, c);
      GrowWords(g, p, nb, b);
      GrowWords(g, p, nb, c);
    }
    forall b | b in r.starts ensures ChainAt(r, b) {
      assert ChainAt(g, b);
      GrowWords(g, p, nb, b);
    }
  }

  lemma GrowFlags(g: Tags, p: nat, nb: nat)
    requires Tagged(g) && Growable(g, p, nb)
    ensures var r := GrowUsed(g, p, nb); PinuseOk(r) && FreeOk(r) && BackOk(r) && TopOk(r)
  {
    var r := GrowUsed(g, p, nb);
    GrowWords(g, p, nb, p);
    assert g.base in g.starts;
    GrowWords(g, p, nb, g.base);
    forall b | b in r.starts ensures PinAt(r, b) && FreeAt(r, b) {
      assert PinAt(g, b) && FreeAt(g, b) && ChainAt(g, b) && BoundAt(g, b);
      GrowWords(g, p, nb, b);
      if b != p && NextAt(g, b) in g.starts {
        GrowWords(g, p, nb, NextAt(g, b));
      }
    }
    forall b | b in r.starts ensures BackAt(r, b) {
      assert BackAt(g, b);
      GrowWords(g, p, nb, b);
      if !HeadAt(g, b).pinuse {
        GrowWords(g, p, nb, b - FootAt(g, b));
      }
    }
  }

  lemma GrowTagged(g: Tags, p: nat, nb: nat)
    requires Tagged(g) && Growable(g, p, nb)
    ensures Tagged(GrowUsed(g, p, nb))
  {
    GrowTiles(g, p, nb);
    GrowFlags(g, p, nb);
  }

  lemma GrowChunks(g: Tags, p: nat, nb: nat, c: Chunk)
    requires Tagged(g) && Growable(g, p, nb)
    ensures var r := GrowUsed(g, p, nb);
            && (IsFree(r, c) <==> IsFree(g, c))
            && (IsLive(r, c) <==> (IsLive(g, c) && c.addr != p) || c == Chunk(p, nb))
  {
    if c.addr in g.starts {
      GrowWords(g, p, nb, c.addr);
    }
  }

  /** Everything from q on becomes part of top. */
  function GiveTop(g: Tags, q: nat): (r: Tags)
    requires q <= g.top
  {
    var n := g.topsize + (g.top - q);
    g.(head := g.head[q := Head(n, true, false)], starts := (set a | a in g.starts && a < q),
       top := q, topsize := n)
  }

  lemma GiveTopTiles(g: Tags, q: nat)
    requires Tagged(g) && q in g.starts && q <= g.top && HeadAt(g, q).pinuse
    ensures var r := GiveTop(g, q); Bounded(r) && Disjoint(r) && Chained(r)
  {
    var r := GiveTop(g, q);
    assert BoundAt(g, q);
    forall b | b in r.starts ensures BoundAt(r, b) {
      assert BoundAt(g, b) && Apart(g, b, q);
    }
    forall b, c | b in r.starts && c in r.starts ensures Apart(r, b, c) {
      assert Apart(g, b, c);
    }
    forall b | b in r.starts ensures ChainAt(r, b) {
      assert ChainAt(g, b) && Apart(g, b, q);
    }
    if g.base != q {
      assert g.base in g.starts;
    }
  }

  lemma GiveTopFlags(g: Tags, q: nat)
    requires Tagged(g) && q in g.starts && q <= g.top && HeadAt(g, q).pinuse
    ensures var r := GiveTop(g, q); PinuseOk(r) && FreeOk(r) && BackOk(r) && TopOk(r)
  {
    var r := GiveTop(g, q);
    forall b | b in r.starts ensures PinAt(r, b) {
      assert PinAt(g, b) && Apart(g, b, q) && BoundAt(g, b);
    }
    forall b | b in r.starts ensures FreeAt(r, b) {
      assert FreeAt(g, b) && Apart(g, b, q) && BoundAt(g, b);
    }
    forall b | b in r.starts ensures BackAt(r, b) {
      assert BackAt(g, b);
    }
  }

  lemma GiveTopTagged(g: Tags, q: nat)
    requires Tagged(g) && q in g.starts && q <= g.top && HeadAt(g, q).pinuse
    ensures Tagged(GiveTop(g, q))
  {
    GiveTopTiles(g, q);
    GiveTopFlags(g, q);
  }

  lemma GiveTopChunks(g: Tags, q: nat, c: Chunk)
    requires Tagged(g) && q in g.starts && q <= g.top
    ensures var r := GiveTop(g, q);
            && (IsFree(r, c) <==> IsFree(g, c) && c.addr < q)
            && (IsLive(r, c) <==> IsLive(g, c) && c.addr < q)
  {
  }

  /** init_top with a new size: top grows after MORECORE, or shrinks after a trim. */
  function ResizeTop(g: Tags, n: nat): (r: Tags) {
    g.(head := g.head[g.top := Head(n, true, false)], topsize := n)
  }

  lemma ResizeTopTiles(g: Tags, n: nat)
    requires Tagged(g)
    ensures var r := ResizeTop(g, n); Bounded(r) && Disjoint(r) && Chained(r)
    ensures forall b :: b in g.starts ==> b != g.top
  {
    var r := ResizeTop(g, n);
    forall b | b in r.starts ensures b != g.top && BoundAt(r, b) && ChainAt(r, b) {
      assert BoundAt(g, b) && ChainAt(g, b);
    }
    forall b, c | b in r.starts && c in r.starts ensures Apart(r, b, c) {
      assert Apart(g, b, c);
    }
  }

  lemma ResizeTopTagged(g: Tags, n: nat)
    requires Tagged(g)
    ensures Tagged(ResizeTop(g, n))
    ensures forall c :: IsFree(ResizeTop(g, n), c) <==> IsFree(g, c)
    ensures forall c :: IsLive(ResizeTop(g, n), c) <==> IsLive(g, c)
  {
    var r := ResizeTop(g, n);
    ResizeTopTiles(g, n);
    forall b | b in r.starts ensures PinAt(r, b) && FreeAt(r, b) {
      assert PinAt(g, b) && FreeAt(g, b);
    }
    forall b | b in r.starts ensures BackAt(r, b) {
      assert BackAt(g, b);
    }
  }

  // ---- traversal ------------------------------------------------------------------------

  /** traverse_and_check: chunk addresses from a on, following the sizes in the heads. */
  ghost function Walk(g: Tags, a: nat): (r: seq<nat>)
    decreases g.top - a
  {
    if a >= g.top || SizeAt(g, a) == 0 then [] else [a] + Walk(g, NextAt(g, a))
  }

  /** The chunk sizes on the way from a sum up to the whole distance to top. */
  function WalkBytes(g: Tags, a: nat): nat
    decreases g.top - a
  {
    if a >= g.top || SizeAt(g, a) == 0 then 0 else SizeAt(g, a) + WalkBytes(g, NextAt(g, a))
  }

  lemma {:induction false} WalkFrom(g: Tags, a: nat)
    requires Tagged(g) && (a in g.starts || a == g.top)
    ensures forall b :: b in Walk(g, a) <==> b in g.starts && a <= b
    ensures a + WalkBytes(g, a) == g.top
    decreases g.top - a
  {
    if a != g.top {
      assert BoundAt(g, a) && ChainAt(g, a);
      var n := NextAt(g, a);
      WalkFrom(g, n);
      forall b ensures b in Walk(g, a) <==> b in g.starts && a <= b {
        if b in g.starts && a <= b {
          assert Apart(g, a, b);
        }
      }
    } else {
      forall b | b in g.starts ensures b < a {
        assert BoundAt(g, b);
      }
    }
  }

  /** A traversal from base visits every chunk, and the chunks fill base .. top exactly. */
  lemma WalkIsStarts(g: Tags)
    requires Tagged(g)
    ensures forall b :: b in Walk(g, g.base) <==> b in g.starts
    ensures g.base + WalkBytes(g, g.base) == g.top
  {
    WalkFrom(g, g.base);
    forall b | b in g.starts ensures g.base <= b {
      assert BoundAt(g, b);
    }
  }

  /** Two neighbouring chunks are never both free, and no free chunk borders top. */
  lemma NoAdjacentFree(g: Tags, a: nat)
    requires Tagged(g) && a in g.starts && !HeadAt(g, a).cinuse
    ensures NextAt(g, a) in g.starts && HeadAt(g, NextAt(g, a)).cinuse
  {
    assert ChainAt(g, a) && PinAt(g, a);
    assert NextAt(g, a) in g.starts ==> FreeAt(g, NextAt(g, a));
  }
}
