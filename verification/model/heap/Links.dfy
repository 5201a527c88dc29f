/**
 The list and tree links, which lie inside the free chunks they connect: the chunks whose links
 insert_chunk and unlink_chunk write are in the bins before the call, but for the chunk inserted.
 */
module Links {
  import opened Words
  import opened TreeBins
  import opened BinIndex
  import opened Bins
  import opened DlMalloc

  // ---- one tree -----------------------------------------------------------------------------

  /** The chunk itself, the node it is hung from or, in a ring, the chunks on its two sides. */
  function InsertTouches(t: Tree, x: Chunk, lo: nat, w: nat): (r: set<Chunk>)
    requires Halves(w) && Trie(t, lo, w) && lo <= x.size < lo + w
    decreases t
  {
    match t
    case Empty => {x}
    case Node(ring, l, r) =>
      if ring[0].size == x.size then {x, ring[0], ring[1 % |ring|]}
      else if x.size < lo + w / 2 then if l.Empty? then {x, ring[0]} else InsertTouches(l, x, lo, w / 2)
      else if r.Empty? then {x, ring[0]} else InsertTouches(r, x, lo + w / 2, w / 2)
  }

  function Roots(l: Tree, r: Tree): set<Chunk> {
    (if l.Node? && l.ring != [] then {l.ring[0]} else {}) + (if r.Node? && r.ring != [] then {r.ring[0]} else {})
  }

  /** The leaf that replaces an inner node, and the node that points to it. */
  function LeafTouches(t: Tree, holder: Chunk, lo: nat, w: nat): set<Chunk>
    requires t.Node? && Trie(t, lo, w)
    decreases t
  {
    if t.right.Node? then LeafTouches(t.right, t.ring[0], lo + w / 2, w / 2)
    else if t.left.Node? then LeafTouches(t.left, t.ring[0], lo, w / 2)
    else {t.ring[0], holder}
  }

  /** At the chunk's own node: its ring neighbours, or the leaf that moves up; and the children, when it was linked into the tree. */
  function NodeTouches(t: Tree, x: Chunk, lo: nat, w: nat): set<Chunk>
    requires t.Node? && Trie(t, lo, w) && x in t.ring
  {
    var n, i := |t.ring|, IndexOf(t.ring, x);
    if n > 1 then {t.ring[(i + 1) % n], t.ring[(i + n - 1) % n]} + if i == 0 then Roots(t.left, t.right) else {}
    else if t.right.Node? then LeafTouches(t.right, x, lo + w / 2, w / 2) + Roots(t.left, t.right)
    else if t.left.Node? then LeafTouches(t.left, x, lo, w / 2) + Roots(t.left, t.right)
    else {}
  }

  /** As NodeTouches, and the parent of a chunk that is linked into the tree. */
  function UnlinkTouches(t: Tree, x: Chunk, lo: nat, w: nat): (r: set<Chunk>)
    requires Trie(t, lo, w) && Count(t, x) > 0
    decreases t
  {
    if x in t.ring then NodeTouches(t, x, lo, w)
    else if Count(t.left, x) > 0 then
      UnlinkTouches(t.left, x, lo, w / 2) + if t.left.ring[0] == x then {t.ring[0]} else {}
    else
      UnlinkTouches(t.right, x, lo + w / 2, w / 2) + if t.right.ring[0] == x then {t.ring[0]} else {}
  }

  lemma {:induction false} InsertTouched(t: Tree, x: Chunk, lo: nat, w: nat, d: Chunk)
    requires Halves(w) && Trie(t, lo, w) && lo <= x.size < lo + w && d in InsertTouches(t, x, lo, w)
    ensures d == x || Count(t, d) > 0
    decreases t
  {
    if t.Node? && t.ring[0].size != x.size {
      if x.size < lo + w / 2 {
        if t.left.Node? {
          InsertTouched(t.left, x, lo, w / 2, d);
        }
      } else if t.right.Node? {
        InsertTouched(t.right, x, lo + w / 2, w / 2, d);
      }
    }
  }

  lemma {:induction false} LeafTouched(t: Tree, holder: Chunk, lo: nat, w: nat, d: Chunk)
    requires t.Node? && Trie(t, lo, w) && d in LeafTouches(t, holder, lo, w)
    ensures d == holder || Count(t, d) > 0
    decreases t
  {
    if t.right.Node? {
      LeafTouched(t.right, t.ring[0], lo + w / 2, w / 2, d);
    } else if t.left.Node? {
      LeafTouched(t.left, t.ring[0], lo, w / 2, d);
    }
  }

  lemma NodeTouched(t: Tree, x: Chunk, lo: nat, w: nat, d: Chunk)
    requires t.Node? && Trie(t, lo, w) && x in t.ring && d in NodeTouches(t, x, lo, w)
    ensures Count(t, d) > 0
  {
    if |t.ring| == 1 {
      if t.right.Node? && d in LeafTouches(t.right, x, lo + w / 2, w / 2) {
        LeafTouched(t.right, x, lo + w / 2, w / 2, d);
      } else if t.right.Empty? && t.left.Node? && d in LeafTouches(t.left, x, lo, w / 2) {
        LeafTouched(t.left, x, lo, w / 2, d);
      }
    }
  }

  lemma {:induction false} UnlinkTouched(t: Tree, x: Chunk, lo: nat, w: nat, d: Chunk)
    requires Trie(t, lo, w) && Count(t, x) > 0 && d in UnlinkTouches(t, x, lo, w)
    ensures Count(t, d) > 0
    decreases t
  {
    hide NodeTouches;
    if x in t.ring {
      NodeTouched(t, x, lo, w, d);
    } else if Count(t.left, x) > 0 {
      if d in UnlinkTouches(t.left, x, lo, w / 2) {
        UnlinkTouched(t.left, x, lo, w / 2, d);
      }
    } else if d in UnlinkTouches(t.right, x, lo + w / 2, w / 2) {
      UnlinkTouched(t.right, x, lo + w / 2, w / 2, d);
    }
  }

  // ---- all bins ---------------------------------------------------------------------------------

  /** insert_chunk */
  function LinkTouches(b: Bins, c: Chunk): (r: set<Chunk>)
    requires ValidBins(b) && c.size < WORD
  {
    if IsSmall(c.size) then
      var ring := b.small[SmallIndex(c.size)];
      if ring == [] then {c} else {c, ring[0]}
    else
      var i := TreeIndex(c.size);
      InRootRange(c.size);
      RootRange(i);
      assert TreeOk(b.tree[i], b.treemap[i], i);
      InsertTouches(b.tree[i], c, RootLo(i), RootWidth(i))
  }

  /** unlink_chunk; the header of a small bin is not a chunk. */
  function CutTouches(b: Bins, c: Chunk): (r: set<Chunk>)
    requires ValidBins(b) && Held(b, c) > 0
  {
    if IsSmall(c.size) then
      var ring := b.small[SmallIndex(c.size)];
      var i := IndexOf(ring, c);
      (if i > 0 then {ring[i - 1]} else {}) + (if i + 1 < |ring| then {ring[i + 1]} else {})
    else
      var i := TreeIndex(c.size);
      assert TreeOk(b.tree[i], b.treemap[i], i);
      UnlinkTouches(b.tree[i], c, RootLo(i), RootWidth(i))
  }

  lemma InBin(b: Bins, i: nat, d: Chunk)
    requires ValidBins(b) && i < NBINS && (d in b.small[i] || Count(b.tree[i], d) > 0)
    ensures Held(b, d) > 0
  {
    OnlyOwnBin(b, i, d);
  }

  lemma LinkTouched(b: Bins, c: Chunk, d: Chunk)
    requires ValidBins(b) && c.size < WORD && d in LinkTouches(b, c)
    ensures d == c || Held(b, d) > 0
  {
    hide InsertTouches, RootLo, RootWidth, Held;
    if IsSmall(c.size) {
      if d != c {
        InBin(b, SmallIndex(c.size), d);
      }
    } else {
      var i := TreeIndex(c.size);
      InRootRange(c.size);
      RootRange(i);
      assert TreeOk(b.tree[i], b.treemap[i], i);
      InsertTouched(b.tree[i], c, RootLo(i), RootWidth(i), d);
      if d != c {
        InBin(b, i, d);
      }
    }
  }

  lemma CutTouched(b: Bins, c: Chunk, d: Chunk)
    requires ValidBins(b) && Held(b, c) > 0 && d in CutTouches(b, c)
    ensures Held(b, d) > 0
  {
    hide UnlinkTouches, RootLo, RootWidth;
    if IsSmall(c.size) {
      InBin(b, SmallIndex(c.size), d);
    } else {
      var i := TreeIndex(c.size);
      assert TreeOk(b.tree[i], b.treemap[i], i);
      UnlinkTouched(b.tree[i], c, RootLo(i), RootWidth(i), d);
      InBin(b, i, d);
    }
  }

  // ---- several steps -------------------------------------------------------------------------------

  /** A chunk put into its bin, or taken out. */
  datatype BinStep = Linked(c: Chunk) | Unlinked(c: Chunk)

  ghost predicate Runs(b: Bins, steps: seq<BinStep>)
    decreases |steps|
  {
    && ValidBins(b)
    && (steps == [] ||
        match steps[0]
        case Linked(c) => c.size < WORD && c.size % 8 == 0 && Runs(Binned(b, c), steps[1..])
        case Unlinked(c) => Held(b, c) > 0 && Runs(Unbinned(b, c), steps[1..]))
  }

  ghost function Run(b: Bins, steps: seq<BinStep>): Bins
    requires Runs(b, steps)
    decreases |steps|
  {
    if steps == [] then b
    else
      match steps[0]
      case Linked(c) => Run(Binned(b, c), steps[1..])
      case Unlinked(c) => Run(Unbinned(b, c), steps[1..])
  }

  /** The chunks whose links some step writes. */
  ghost function Touched(b: Bins, steps: seq<BinStep>): set<Chunk>
    requires Runs(b, steps)
    decreases |steps|
  {
    if steps == [] then {}
    else
      match steps[0]
      case Linked(c) => LinkTouches(b, c) + Touched(Binned(b, c), steps[1..])
      case Unlinked(c) => CutTouches(b, c) + Touched(Unbinned(b, c), steps[1..])
  }

  /** Where all binned chunks and all chunks to be binned are, there are all chunks whose links are written. */
  lemma {:induction false} TouchedWithin(b: Bins, steps: seq<BinStep>, within: iset<Chunk>)
    requires Runs(b, steps)
    requires forall c :: Held(b, c) > 0 ==> c in within
    requires forall c :: Linked(c) in steps ==> c in within
    ensures forall c :: c in Touched(b, steps) ==> c in within
    decreases |steps|
  {
    hide LinkTouches, CutTouches, Held;
    if steps != [] {
      assert steps[0] in steps && forall c :: Linked(c) in steps[1..] ==> Linked(c) in steps;
      match steps[0]
      case Linked(c) =>
        forall d | d in LinkTouches(b, c) ensures d in within {
          LinkTouched(b, c, d);
        }
        forall d | Held(Binned(b, c), d) > 0 ensures d in within {
          assert Held(Binned(b, c), d) == Held(b, d) + One(c, d);
        }
        TouchedWithin(Binned(b, c), steps[1..], within);
      case Unlinked(c) =>
        forall d | d in CutTouches(b, c) ensures d in within {
          CutTouched(b, c, d);
        }
        forall d | Held(Unbinned(b, c), d) > 0 ensures d in within {
          assert Held(b, d) == Held(Unbinned(b, c), d) + One(c, d);
        }
        TouchedWithin(Unbinned(b, c), steps[1..], within);
    }
  }
}
