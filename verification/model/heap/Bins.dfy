/**
 The bins of free chunks: 32 rings of equal small chunks, 32 tries of large ones,
 and a map of the non-empty bins for each kind.
 */
module Bins {
  import opened Words
  import opened TreeBins
  import opened BinIndex

  /** small[i] lists a ring from the header's fd onwards. */
  datatype Bins = Bins(small: seq<seq<Chunk>>, smallmap: seq<bool>, tree: seq<Tree>, treemap: seq<bool>)

  predicate Shaped(b: Bins) {
    |b.small| == NBINS && |b.smallmap| == NBINS && |b.tree| == NBINS && |b.treemap| == NBINS
  }

  ghost predicate SmallOk(ring: seq<Chunk>, marked: bool, i: nat) {
    && (forall c :: c in ring ==> c.size == 8 * i)
    && (marked <==> ring != [])
  }

  /** Every size in the tree belongs to bin i. */
  ghost predicate OwnSizes(t: Tree, i: nat) {
    match t
    case Empty => true
    case Node(ring, l, r) =>
      && ring != [] && MIN_LARGE <= ring[0].size < WORD && TreeIndex(ring[0].size) == i
      && OwnSizes(l, i) && OwnSizes(r, i)
  }

  ghost predicate TreeOk(t: Tree, marked: bool, i: nat) {
    && i < NBINS
    && Trie(t, RootLo(i), RootWidth(i)) && UniqueSizes(t) && OwnSizes(t, i)
    && (marked <==> t.Node?)
  }

  /** do_check_malloc_state's conditions on the bins. */
  ghost predicate ValidBins(b: Bins) {
    && Shaped(b)
    && (forall i :: 0 <= i < NBINS ==> SmallOk(b.small[i], b.smallmap[i], i))
    && (forall i :: 0 <= i < NBINS ==> TreeOk(b.tree[i], b.treemap[i], i))
  }

  /** How often a chunk occurs in the bin its size belongs to. */
  function Held(b: Bins, c: Chunk): (n: nat)
    requires Shaped(b)
  {
    if IsSmall(c.size) then Times(b.small[SmallIndex(c.size)], c)
    else if c.size < WORD && TreeIndex(c.size) < NBINS then Count(b.tree[TreeIndex(c.size)], c)
    else 0
  }

  lemma {:induction false} OwnSizesHas(t: Tree, i: nat, s: nat)
    requires OwnSizes(t, i) && HasSize(t, s)
    ensures MIN_LARGE <= s < WORD && TreeIndex(s) == i
    decreases t
  {
    if t.ring[0].size == s {
    } else if HasSize(t.left, s) {
      OwnSizesHas(t.left, i, s);
    } else {
      OwnSizesHas(t.right, i, s);
    }
  }

  lemma {:induction false} CountHasSize(t: Tree, lo: nat, w: nat, c: Chunk)
    requires Trie(t, lo, w) && Count(t, c) > 0
    ensures HasSize(t, c.size)
    decreases t
  {
    if c in t.ring {
    } else if Count(t.left, c) > 0 {
      CountHasSize(t.left, lo, w / 2, c);
    } else {
      CountHasSize(t.right, lo + w / 2, w / 2, c);
    }
  }

  /** No bin holds a chunk of another bin's size, so each chunk is in at most one bin. */
  lemma OnlyOwnBin(b: Bins, i: nat, c: Chunk)
    requires ValidBins(b) && i < NBINS
    ensures c in b.small[i] ==> IsSmall(c.size) && SmallIndex(c.size) == i
    ensures Count(b.tree[i], c) > 0 ==> !IsSmall(c.size) && c.size < WORD && TreeIndex(c.size) == i
  {
    assert SmallOk(b.small[i], b.smallmap[i], i);
    assert TreeOk(b.tree[i], b.treemap[i], i);
    if Count(b.tree[i], c) > 0 {
      CountHasSize(b.tree[i], RootLo(i), RootWidth(i), c);
      OwnSizesHas(b.tree[i], i, c.size);
    }
  }

  function EmptyBins(): (b: Bins)
    ensures ValidBins(b)
    ensures forall c :: Held(b, c) == 0
  {
    Bins(seq(NBINS, _ => []), seq(NBINS, _ => false), seq(NBINS, _ => Empty), seq(NBINS, _ => false))
  }

  // ---- insert_chunk and unlink_chunk ------------------------------------------

  function InsertSmall(b: Bins, c: Chunk): (r: Bins)
    requires Shaped(b) && IsSmall(c.size)
  {
    var i := SmallIndex(c.size);
    b.(small := b.small[i := [c] + b.small[i]], smallmap := b.smallmap[i := true])
  }

  function InsertLarge(b: Bins, c: Chunk): (r: Bins)
    requires ValidBins(b) && MIN_LARGE <= c.size < WORD
  {
    var i := TreeIndex(c.size);
    InRootRange(c.size);
    RootRange(i);
    assert TreeOk(b.tree[i], b.treemap[i], i);
    var t := Insert(b.tree[i], c, RootLo(i), RootWidth(i));
    b.(tree := b.tree[i := t], treemap := b.treemap[i := true])
  }

  function InsertChunk(b: Bins, c: Chunk): (r: Bins)
    requires ValidBins(b) && c.size < WORD
  {
    if IsSmall(c.size) then InsertSmall(b, c) else InsertLarge(b, c)
  }

  function RemoveFrom(ring: seq<Chunk>, c: Chunk): (r: seq<Chunk>)
    requires c in ring
  {
    var i := IndexOf(ring, c);
    ring[..i] + ring[i + 1..]
  }

  function UnlinkSmall(b: Bins, c: Chunk): (r: Bins)
    requires Shaped(b) && IsSmall(c.size) && Held(b, c) > 0
  {
    var i := SmallIndex(c.size);
    var ring := RemoveFrom(b.small[i], c);
    b.(small := b.small[i := ring], smallmap := b.smallmap[i := ring != []])
  }

  function UnlinkLarge(b: Bins, c: Chunk): (r: Bins)
    requires ValidBins(b) && !IsSmall(c.size) && Held(b, c) > 0
  {
    var i := TreeIndex(c.size);
    assert TreeOk(b.tree[i], b.treemap[i], i);
    var t := Unlink(b.tree[i], c, RootLo(i), RootWidth(i));
    b.(tree := b.tree[i := t], treemap := b.treemap[i := t.Node?])
  }

  function UnlinkChunk(b: Bins, c: Chunk): (r: Bins)
    requires ValidBins(b) && Held(b, c) > 0
  {
    if IsSmall(c.size) then UnlinkSmall(b, c) else UnlinkLarge(b, c)
  }

  lemma SmallInserted(b: Bins, c: Chunk)
    requires ValidBins(b) && IsSmall(c.size) && c.size % 8 == 0
    ensures ValidBins(InsertSmall(b, c))
    ensures forall d :: Held(InsertSmall(b, c), d) == Held(b, d) + One(c, d)
  {
    var i := SmallIndex(c.size);
    var b' := InsertSmall(b, c);
    forall j | 0 <= j < NBINS ensures SmallOk(b'.small[j], b'.smallmap[j], j) {
      assert SmallOk(b.small[j], b.smallmap[j], j);
    }
    forall j | 0 <= j < NBINS ensures TreeOk(b'.tree[j], b'.treemap[j], j) {
      assert TreeOk(b.tree[j], b.treemap[j], j);
    }
    forall d ensures Held(b', d) == Held(b, d) + One(c, d) {
      TimesConcat([c], b.small[i], d);
      assert [c][1..] == [];
    }
  }

  lemma {:induction false} InsertOwn(t: Tree, c: Chunk, lo: nat, w: nat, i: nat)
    requires Halves(w) && Trie(t, lo, w) && lo <= c.size < lo + w && OwnSizes(t, i)
    requires MIN_LARGE <= c.size < WORD && TreeIndex(c.size) == i
    ensures OwnSizes(Insert(t, c, lo, w), i) && Insert(t, c, lo, w).Node?
    decreases t
  {
    if t.Node? && t.ring[0].size != c.size {
      if c.size < lo + w / 2 {
        InsertOwn(t.left, c, lo, w / 2, i);
      } else {
        InsertOwn(t.right, c, lo + w / 2, w / 2, i);
      }
    }
  }

  lemma TreeInserted(t: Tree, marked: bool, c: Chunk, i: nat)
    requires TreeOk(t, marked, i) && MIN_LARGE <= c.size < WORD && TreeIndex(c.size) == i
    ensures RootLo(i) <= c.size < RootLo(i) + RootWidth(i) && Halves(RootWidth(i))
    ensures TreeOk(Insert(t, c, RootLo(i), RootWidth(i)), true, i)
  {
    InRootRange(c.size);
    RootRange(i);
    InsertTrie(t, c, RootLo(i), RootWidth(i));
    InsertUnique(t, c, RootLo(i), RootWidth(i));
    InsertOwn(t, c, RootLo(i), RootWidth(i), i);
  }

  lemma LargeInserted(b: Bins, c: Chunk)
    requires ValidBins(b) && MIN_LARGE <= c.size < WORD
    ensures ValidBins(InsertLarge(b, c))
    ensures forall d :: Held(InsertLarge(b, c), d) == Held(b, d) + One(c, d)
  {
    hide Insert, Count, Trie, UniqueSizes, RootLo, RootWidth;
    var i := TreeIndex(c.size);
    InRootRange(c.size);
    var b' := InsertLarge(b, c);
    assert TreeOk(b.tree[i], b.treemap[i], i);
    TreeInserted(b.tree[i], b.treemap[i], c, i);
    forall j | 0 <= j < NBINS ensures SmallOk(b'.small[j], b'.smallmap[j], j) {
      assert SmallOk(b.small[j], b.smallmap[j], j);
    }
    forall j | 0 <= j < NBINS ensures TreeOk(b'.tree[j], b'.treemap[j], j) {
      assert TreeOk(b.tree[j], b.treemap[j], j);
    }
    forall d ensures Held(b', d) == Held(b, d) + One(c, d) {
      InsertCount(b.tree[i], c, RootLo(i), RootWidth(i), d);
    }
  }

  /** Inserting a free chunk keeps the bins valid and adds that chunk, once, to its own bin. */
  lemma ChunkInserted(b: Bins, c: Chunk)
    requires ValidBins(b) && c.size < WORD && c.size % 8 == 0
    ensures ValidBins(InsertChunk(b, c))
    ensures forall d :: Held(InsertChunk(b, c), d) == Held(b, d) + One(c, d)
  {
    if IsSmall(c.size) {
      SmallInserted(b, c);
    } else {
      LargeInserted(b, c);
    }
  }

  lemma RemovedFrom(ring: seq<Chunk>, c: Chunk, d: Chunk)
    requires c in ring
    ensures Times(ring, d) == Times(RemoveFrom(ring, c), d) + One(c, d)
  {
    var i := IndexOf(ring, c);
    var front, back := ring[..i], ring[i + 1..];
    assert ring == (front + [c]) + back;
    TimesConcat(front + [c], back, d);
    TimesConcat(front, [c], d);
    TimesConcat(front, back, d);
    assert [c][1..] == [];
  }

  lemma RemovedSubset(ring: seq<Chunk>, c: Chunk)
    requires c in ring
    ensures forall d :: d in RemoveFrom(ring, c) ==> d in ring
  {
  }

  lemma SmallUnlinked(b: Bins, c: Chunk)
    requires ValidBins(b) && IsSmall(c.size) && Held(b, c) > 0
    ensures ValidBins(UnlinkSmall(b, c))
    ensures forall d :: Held(b, d) == Held(UnlinkSmall(b, c), d) + One(c, d)
  {
    var i := SmallIndex(c.size);
    var b' := UnlinkSmall(b, c);
    RemovedSubset(b.small[i], c);
    forall j | 0 <= j < NBINS ensures SmallOk(b'.small[j], b'.smallmap[j], j) {
      assert SmallOk(b.small[j], b.smallmap[j], j);
    }
    forall j | 0 <= j < NBINS ensures TreeOk(b'.tree[j], b'.treemap[j], j) {
      assert TreeOk(b.tree[j], b.treemap[j], j);
    }
    forall d ensures Held(b, d) == Held(b', d) + One(c, d) {
      RemovedFrom(b.small[i], c, d);
    }
  }

  lemma {:induction false} LeafOwn(t: Tree, lo: nat, w: nat, i: nat)
    requires t.Node? && Trie(t, lo, w) && OwnSizes(t, i)
    ensures OwnSizes(WithoutLeaf(t), i)
    ensures var leaf := RightmostLeaf(t);
            leaf != [] && MIN_LARGE <= leaf[0].size < WORD && TreeIndex(leaf[0].size) == i
    decreases t
  {
    if t.right.Node? {
      LeafOwn(t.right, lo + w / 2, w / 2, i);
    } else if t.left.Node? {
      LeafOwn(t.left, lo, w / 2, i);
    }
  }

  lemma {:induction false} UnlinkOwn(t: Tree, c: Chunk, lo: nat, w: nat, i: nat)
    requires Trie(t, lo, w) && Count(t, c) > 0 && OwnSizes(t, i)
    ensures OwnSizes(Unlink(t, c, lo, w), i)
    decreases t
  {
    if c in t.ring {
      if |t.ring| > 1 {
        RingRemovedSize(t.ring, c);
      } else if t.right.Node? {
        LeafOwn(t.right, lo + w / 2, w / 2, i);
      } else if t.left.Node? {
        LeafOwn(t.left, lo, w / 2, i);
      }
    } else if Count(t.left, c) > 0 {
      UnlinkOwn(t.left, c, lo, w / 2, i);
    } else {
      UnlinkOwn(t.right, c, lo + w / 2, w / 2, i);
    }
  }

  lemma TreeUnlinked(t: Tree, marked: bool, c: Chunk, i: nat)
    requires TreeOk(t, marked, i) && Count(t, c) > 0
    ensures var u := Unlink(t, c, RootLo(i), RootWidth(i)); TreeOk(u, u.Node?, i)
  {
    UnlinkTrie(t, c, RootLo(i), RootWidth(i));
    UnlinkUnique(t, c, RootLo(i), RootWidth(i));
    UnlinkOwn(t, c, RootLo(i), RootWidth(i), i);
  }

  lemma LargeUnlinked(b: Bins, c: Chunk)
    requires ValidBins(b) && !IsSmall(c.size) && Held(b, c) > 0
    ensures ValidBins(UnlinkLarge(b, c))
    ensures forall d :: Held(b, d) == Held(UnlinkLarge(b, c), d) + One(c, d)
  {
    var i := TreeIndex(c.size);
    var b' := UnlinkLarge(b, c);
    assert TreeOk(b.tree[i], b.treemap[i], i);
    TreeUnlinked(b.tree[i], b.treemap[i], c, i);
    forall j | 0 <= j < NBINS ensures SmallOk(b'.small[j], b'.smallmap[j], j) {
      assert SmallOk(b.small[j], b.smallmap[j], j);
    }
    forall j | 0 <= j < NBINS ensures TreeOk(b'.tree[j], b'.treemap[j], j) {
      assert TreeOk(b.tree[j], b.treemap[j], j);
    }
    forall d ensures Held(b, d) == Held(b', d) + One(c, d) {
      UnlinkCount(b.tree[i], c, RootLo(i), RootWidth(i), d);
    }
  }

  /** Unlinking a binned chunk keeps the bins valid and takes away that chunk, once, and no other. */
  lemma ChunkUnlinked(b: Bins, c: Chunk)
    requires ValidBins(b) && Held(b, c) > 0
    ensures ValidBins(UnlinkChunk(b, c))
    ensures forall d :: Held(b, d) == Held(UnlinkChunk(b, c), d) + One(c, d)
  {
    if IsSmall(c.size) {
      SmallUnlinked(b, c);
    } else {
      LargeUnlinked(b, c);
    }
  }

  // ---- searching -----------------------------------------------------------------

  /** The first marked bin from i on; 32 when there is none. */
  function NextMarked(map_: seq<bool>, i: nat): (r: nat)
    requires |map_| == NBINS && i <= NBINS
    ensures i <= r <= NBINS
    ensures r < NBINS ==> map_[r]
    ensures forall j :: i <= j < r ==> !map_[j]
    decreases NBINS - i
  {
    if i == NBINS || map_[i] then i else NextMarked(map_, i + 1)
  }

  lemma NextFrom(map_: seq<bool>, i: nat)
    requires |map_| == NBINS && i < NBINS && !map_[i]
    ensures NextMarked(map_, i) == NextMarked(map_, i + 1)
  {
  }

  ghost predicate LargeHeld(b: Bins, c: Chunk)
    requires Shaped(b)
  {
    !IsSmall(c.size) && Held(b, c) > 0
  }

  /** v is a smallest tree chunk among those of at least nb bytes. */
  ghost predicate BestFit(b: Bins, v: Chunk, nb: nat)
    requires Shaped(b)
  {
    LargeHeld(b, v) && nb <= v.size && forall c :: LargeHeld(b, c) && nb <= c.size ==> v.size <= c.size
  }
}
