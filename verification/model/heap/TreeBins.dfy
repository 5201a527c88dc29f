/**
 The bitwise tries that hold large free chunks.

 A tree is keyed on chunk size.  A node stands for a ring of free chunks of one
 size, of which only the first is linked into the tree.  The position of a node
 is governed by its size: below a node that covers the sizes lo .. lo + w,
 the left child covers the lower half and the right child the upper half.  The
 node itself may hold any size of the range it covers.
 */
module TreeBins {
  import opened Words

  datatype Chunk = Chunk(addr: nat, size: nat)

  datatype Tree = Empty | Node(ring: seq<Chunk>, left: Tree, right: Tree)

  /** How often c occurs in a ring. */
  function Times(ring: seq<Chunk>, c: Chunk): (n: nat)
    ensures n > 0 <==> c in ring
  {
    if ring == [] then 0 else (if ring[0] == c then 1 else 0) + Times(ring[1..], c)
  }

  /** How often c occurs in the tree. */
  function Count(t: Tree, c: Chunk): (n: nat) {
    match t
    case Empty => 0
    case Node(ring, l, r) => Times(ring, c) + Count(l, c) + Count(r, c)
  }

  lemma {:induction false} TimesConcat(a: seq<Chunk>, b: seq<Chunk>, c: Chunk)
    ensures Times(a + b, c) == Times(a, c) + Times(b, c)
  {
    if a == [] {
      assert a + b == b;
    } else {
      assert (a + b)[1..] == a[1..] + b;
      TimesConcat(a[1..], b, c);
    }
  }

  function One(x: Chunk, c: Chunk): nat {
    if x == c then 1 else 0
  }

  ghost predicate RingOf(ring: seq<Chunk>, size: nat) {
    ring != [] && forall c :: c in ring ==> c.size == size
  }

  /** A power of two. */
  ghost predicate Halves(w: nat) {
    w == 1 || (w > 1 && w % 2 == 0 && Halves(w / 2))
  }

  /** Every size in the tree is at least lo and below lo + w, and the tree halves that range level by level. */
  ghost predicate Trie(t: Tree, lo: nat, w: nat) {
    match t
    case Empty => true
    case Node(ring, l, r) =>
      && ring != []
      && RingOf(ring, ring[0].size)
      && lo <= ring[0].size < lo + w
      && (w <= 1 ==> l.Empty? && r.Empty?)
      && (w > 1 ==> Trie(l, lo, w / 2) && Trie(r, lo + w / 2, w / 2))
  }

  ghost predicate HasSize(t: Tree, s: nat) {
    match t
    case Empty => false
    case Node(ring, l, r) => (ring != [] && ring[0].size == s) || HasSize(l, s) || HasSize(r, s)
  }

  /** No two nodes hold the same size. */
  ghost predicate UniqueSizes(t: Tree) {
    match t
    case Empty => true
    case Node(ring, l, r) =>
      && ring != []
      && !HasSize(l, ring[0].size) && !HasSize(r, ring[0].size)
      && UniqueSizes(l) && UniqueSizes(r)
  }

  /** The number of nodes on a longest path down. */
  function Height(t: Tree): nat {
    if t.Empty? then 0
    else 1 + if Height(t.left) < Height(t.right) then Height(t.right) else Height(t.left)
  }

  lemma ChildHeight(t: Tree)
    requires t.Node?
    ensures Height(t.left) < Height(t) && Height(t.right) < Height(t)
  {
  }

  /** A path has a node for each bit that tells sizes of the range apart, and one more. */
  lemma {:induction false} HeightBound(t: Tree, lo: nat, n: nat)
    requires Trie(t, lo, Pow2(n))
    ensures Height(t) <= n + 1
    decreases n
  {
    if t.Node? && n > 0 {
      assert Pow2(n) / 2 == Pow2(n - 1);
      HeightBound(t.left, lo, n - 1);
      HeightBound(t.right, lo + Pow2(n - 1), n - 1);
    }
  }

  lemma {:induction false} TrieRange(t: Tree, lo: nat, w: nat, c: Chunk)
    requires Trie(t, lo, w) && Count(t, c) > 0
    ensures lo <= c.size < lo + w
    decreases t
  {
    if c in t.ring {
    } else if Count(t.left, c) > 0 {
      TrieRange(t.left, lo, w / 2, c);
    } else {
      TrieRange(t.right, lo + w / 2, w / 2, c);
    }
  }

  /** do_check_tree's ordering: every size on the left is below every size on the right. */
  lemma LeftBelowRight(t: Tree, lo: nat, w: nat)
    requires Trie(t, lo, w) && t.Node?
    ensures forall c, d :: Count(t.left, c) > 0 && Count(t.right, d) > 0 ==> c.size < d.size
  {
    forall c, d | Count(t.left, c) > 0 && Count(t.right, d) > 0
      ensures c.size < d.size
    {
      TrieRange(t.left, lo, w / 2, c);
      TrieRange(t.right, lo + w / 2, w / 2, d);
    }
  }

  // ---- the shift register ------------------------------------------------

  /** `S << leftshift`, where the shift multiplies by m. */
  function ShiftIn(s: nat, m: nat): (k: nat) {
    (s * m) % WORD
  }

  function TopBit(k: nat): (b: nat) {
    k / 0x8000_0000
  }

  function ShiftLeft(k: nat): (r: nat) {
    (2 * k) % WORD
  }

  /** The register holds exactly the bits of s that the remaining levels still distinguish. */
  ghost predicate Register(k: nat, s: nat, lo: nat, w: nat, m: nat) {
    w * m == WORD && lo <= s < lo + w && k == (s - lo) * m
  }

  lemma RegisterInit(s: nat, q: nat, w: nat, m: nat)
    requires w * m == WORD && q * w <= s < q * w + w
    ensures Register(ShiftIn(s, m), s, q * w, w, m)
  {
    var lo := q * w;
    assert lo * m == q * WORD by { MulAssoc(q, w, m); }
    assert s * m == (s - lo) * m + lo * m;
    MulBelow(s - lo, w, m);
    ModUnique((s - lo) * m, q);
  }

  lemma MulAssoc(a: nat, b: nat, c: nat)
    ensures a * b * c == a * (b * c)
  {
  }

  lemma MulBelow(a: nat, b: nat, p: nat)
    requires a < b && p > 0
    ensures 0 <= a * p < b * p
  {
  }

  lemma ModUnique(a: nat, q: nat)
    requires a < WORD
    ensures (a + q * WORD) % WORD == a
  {
  }

  /** The top bit says which half s is in, and shifting re-establishes the register one level down. */
  lemma RegisterStep(k: nat, s: nat, lo: nat, w: nat, m: nat)
    requires Register(k, s, lo, w, m) && Halves(w) && w > 1
    ensures TopBit(k) == (if s < lo + w / 2 then 0 else 1)
    ensures s < lo + w / 2 ==> Register(ShiftLeft(k), s, lo, w / 2, 2 * m)
    ensures s >= lo + w / 2 ==> Register(ShiftLeft(k), s, lo + w / 2, w / 2, 2 * m)
  {
    var h := w / 2;
    HalfTimes(h, m);
    if s < lo + h {
      MulBelow(s - lo, h, m);
      Twice(s - lo, m);
    } else {
      var e := s - lo - h;
      assert (s - lo) * m == e * m + h * m by { Distribute(e, h, m); }
      MulBelow(e, h, m);
      Twice(e, m);
    }
  }

  /** From level to level the top bit of the register picks the half that s lies in. */
  ghost predicate BitPath(k: nat, s: nat, lo: nat, w: nat)
    decreases w
  {
    && lo <= s < lo + w
    && (w > 1 ==>
          if s < lo + w / 2 then TopBit(k) == 0 && BitPath(ShiftLeft(k), s, lo, w / 2)
          else TopBit(k) == 1 && BitPath(ShiftLeft(k), s, lo + w / 2, w - w / 2))
  }

  lemma {:induction false} RegisterPath(k: nat, s: nat, lo: nat, w: nat, m: nat)
    requires Register(k, s, lo, w, m) && Halves(w)
    ensures BitPath(k, s, lo, w)
    decreases w
  {
    if w > 1 {
      RegisterStep(k, s, lo, w, m);
      if s < lo + w / 2 {
        RegisterPath(ShiftLeft(k), s, lo, w / 2, 2 * m);
      } else {
        RegisterPath(ShiftLeft(k), s, lo + w / 2, w / 2, 2 * m);
      }
    }
  }

  lemma HalfTimes(h: nat, m: nat)
    requires (2 * h) * m == WORD
    ensures h * m == 0x8000_0000 && h * (2 * m) == WORD
  {
    assert (2 * h) * m == 2 * (h * m);
    Twice(h, m);
  }

  lemma Twice(e: nat, m: nat)
    ensures e * (2 * m) == 2 * (e * m)
  {
  }

  lemma Distribute(a: nat, b: nat, m: nat)
    ensures (a + b) * m == a * m + b * m
  {
  }

  // ---- insert_large_chunk ------------------------------------------------

  /**
   insert_large_chunk below one treebin: follow the bits of the size until an empty
   child or a node of the same size.  In the latter case the chunk joins the ring
   right after the node that is linked into the tree.
   */
  function Insert(t: Tree, x: Chunk, lo: nat, w: nat): (r: Tree)
    requires Halves(w) && Trie(t, lo, w) && lo <= x.size < lo + w
    decreases t
  {
    match t
    case Empty => Node([x], Empty, Empty)
    case Node(ring, l, r) =>
      if ring[0].size == x.size then Node([ring[0], x] + ring[1..], l, r)
      else if x.size < lo + w / 2 then Node(ring, Insert(l, x, lo, w / 2), r)
      else Node(ring, l, Insert(r, x, lo + w / 2, w / 2))
  }

  lemma {:induction false} InsertTrie(t: Tree, x: Chunk, lo: nat, w: nat)
    requires Halves(w) && Trie(t, lo, w) && lo <= x.size < lo + w
    ensures Trie(Insert(t, x, lo, w), lo, w)
    decreases t
  {
    match t
    case Empty =>
    case Node(ring, l, r) =>
      if ring[0].size == x.size {
      } else if x.size < lo + w / 2 {
        InsertTrie(l, x, lo, w / 2);
      } else {
        InsertTrie(r, x, lo + w / 2, w / 2);
      }
  }

  lemma RingInserted(ring: seq<Chunk>, x: Chunk, c: Chunk)
    requires ring != []
    ensures Times([ring[0], x] + ring[1..], c) == Times(ring, c) + One(x, c)
  {
    TimesConcat([ring[0], x], ring[1..], c);
    assert [ring[0], x][1..] == [x];
    assert [x][1..] == [];
  }

  /** Inserting adds exactly one occurrence of the chunk and nothing else. */
  lemma {:induction false} InsertCount(t: Tree, x: Chunk, lo: nat, w: nat, c: Chunk)
    requires Halves(w) && Trie(t, lo, w) && lo <= x.size < lo + w
    ensures Count(Insert(t, x, lo, w), c) == Count(t, c) + One(x, c)
    decreases t
  {
    match t
    case Empty =>
      assert [x][1..] == [];
    case Node(ring, l, r) =>
      if ring[0].size == x.size {
        RingInserted(ring, x, c);
      } else if x.size < lo + w / 2 {
        InsertCount(l, x, lo, w / 2, c);
      } else {
        InsertCount(r, x, lo + w / 2, w / 2, c);
      }
  }

  lemma {:induction false} HasSizeRange(t: Tree, s: nat, lo: nat, w: nat)
    requires Trie(t, lo, w) && HasSize(t, s)
    ensures lo <= s < lo + w
    decreases t
  {
    if t.ring[0].size == s {
    } else if HasSize(t.left, s) {
      HasSizeRange(t.left, s, lo, w / 2);
    } else {
      HasSizeRange(t.right, s, lo + w / 2, w / 2);
    }
  }

  lemma {:induction false} InsertHasSize(t: Tree, x: Chunk, lo: nat, w: nat, s: nat)
    requires Halves(w) && Trie(t, lo, w) && lo <= x.size < lo + w
    ensures HasSize(Insert(t, x, lo, w), s) <==> HasSize(t, s) || s == x.size
    decreases t
  {
    match t
    case Empty =>
    case Node(ring, l, r) =>
      if ring[0].size == x.size {
      } else if x.size < lo + w / 2 {
        InsertHasSize(l, x, lo, w / 2, s);
      } else {
        InsertHasSize(r, x, lo + w / 2, w / 2, s);
      }
  }

  lemma {:induction false} InsertUnique(t: Tree, x: Chunk, lo: nat, w: nat)
    requires Halves(w) && Trie(t, lo, w) && lo <= x.size < lo + w && UniqueSizes(t)
    ensures UniqueSizes(Insert(t, x, lo, w))
    decreases t
  {
    match t
    case Empty =>
    case Node(ring, l, r) =>
      if ring[0].size == x.size {
      } else if x.size < lo + w / 2 {
        InsertUnique(l, x, lo, w / 2);
        InsertHasSize(l, x, lo, w / 2, ring[0].size);
      } else {
        InsertUnique(r, x, lo + w / 2, w / 2);
        InsertHasSize(r, x, lo + w / 2, w / 2, ring[0].size);
      }
  }

  // ---- unlink_large_chunk ------------------------------------------------

  /** The leaf reached by going right when possible and left otherwise. */
  function RightmostLeaf(t: Tree): (ring: seq<Chunk>)
    requires t.Node?
  {
    if t.right.Node? then RightmostLeaf(t.right)
    else if t.left.Node? then RightmostLeaf(t.left)
    else t.ring
  }

  function WithoutLeaf(t: Tree): (r: Tree)
    requires t.Node?
  {
    if t.right.Node? then Node(t.ring, t.left, WithoutLeaf(t.right))
    else if t.left.Node? then Node(t.ring, WithoutLeaf(t.left), t.right)
    else Empty
  }

  lemma {:induction false} LeafRemoved(t: Tree, lo: nat, w: nat)
    requires t.Node? && Trie(t, lo, w)
    ensures Trie(WithoutLeaf(t), lo, w)
    ensures RightmostLeaf(t) != [] && RingOf(RightmostLeaf(t), RightmostLeaf(t)[0].size)
    ensures lo <= RightmostLeaf(t)[0].size < lo + w
    decreases t
  {
    if t.right.Node? {
      LeafRemoved(t.right, lo + w / 2, w / 2);
    } else if t.left.Node? {
      LeafRemoved(t.left, lo, w / 2);
    }
  }

  lemma {:induction false} LeafCount(t: Tree, c: Chunk)
    requires t.Node?
    ensures Count(t, c) == Count(WithoutLeaf(t), c) + Times(RightmostLeaf(t), c)
    decreases t
  {
    if t.right.Node? {
      LeafCount(t.right, c);
    } else if t.left.Node? {
      LeafCount(t.left, c);
    }
  }

  /** A node whose ring is gone: its place is taken by the rightmost leaf below it, if there is one. */
  function Replace(l: Tree, r: Tree): (t: Tree) {
    if r.Node? then Node(RightmostLeaf(r), l, WithoutLeaf(r))
    else if l.Node? then Node(RightmostLeaf(l), WithoutLeaf(l), r)
    else Empty
  }

  function IndexOf(ring: seq<Chunk>, x: Chunk): (i: nat)
    requires x in ring
    ensures i < |ring| && ring[i] == x
    ensures forall j :: 0 <= j < i ==> ring[j] != x
  {
    if ring[0] == x then 0 else 1 + IndexOf(ring[1..], x)
  }

  /**
   Taking one chunk out of a ring of at least two.  When it is the one linked into the
   tree its bk neighbour, the last of the ring, takes over.
   */
  function RingRemove(ring: seq<Chunk>, x: Chunk): (r: seq<Chunk>)
    requires x in ring && |ring| > 1
    ensures r != []
  {
    var i := IndexOf(ring, x);
    if i == 0 then [ring[|ring| - 1]] + ring[1..|ring| - 1]
    else ring[..i] + ring[i + 1..]
  }

  lemma TimesOne(x: Chunk, c: Chunk)
    ensures Times([x], c) == One(x, c)
  {
    assert [x][1..] == [];
  }

  lemma RingRemoved(ring: seq<Chunk>, x: Chunk, c: Chunk)
    requires x in ring && |ring| > 1
    ensures Times(ring, c) == Times(RingRemove(ring, x), c) + One(x, c)
  {
    hide Times, One;
    var i := IndexOf(ring, x);
    var n := |ring|;
    TimesOne(x, c);
    if i == 0 {
      var mid, last := ring[1..n - 1], [ring[n - 1]];
      assert ring == ([x] + mid) + last;
      TimesConcat([x] + mid, last, c);
      TimesConcat([x], mid, c);
      TimesConcat(last, mid, c);
    } else {
      var front, back := ring[..i], ring[i + 1..];
      assert ring == (front + [x]) + back;
      TimesConcat(front + [x], back, c);
      TimesConcat(front, [x], c);
      TimesConcat(front, back, c);
    }
  }

  function Unlink(t: Tree, x: Chunk, lo: nat, w: nat): (r: Tree)
    requires Trie(t, lo, w) && Count(t, x) > 0
    decreases t
  {
    if x in t.ring then
      if |t.ring| > 1 then Node(RingRemove(t.ring, x), t.left, t.right)
      else Replace(t.left, t.right)
    else if Count(t.left, x) > 0 then Node(t.ring, Unlink(t.left, x, lo, w / 2), t.right)
    else Node(t.ring, t.left, Unlink(t.right, x, lo + w / 2, w / 2))
  }

  lemma ReplaceTrie(l: Tree, r: Tree, lo: nat, w: nat)
    requires w <= 1 ==> l.Empty? && r.Empty?
    requires w > 1 ==> Trie(l, lo, w / 2) && Trie(r, lo + w / 2, w / 2)
    ensures Trie(Replace(l, r), lo, w)
  {
    if r.Node? {
      LeafRemoved(r, lo + w / 2, w / 2);
    } else if l.Node? {
      LeafRemoved(l, lo, w / 2);
    }
  }

  lemma ReplaceCount(l: Tree, r: Tree, c: Chunk)
    ensures Count(Replace(l, r), c) == Count(l, c) + Count(r, c)
  {
    if r.Node? {
      LeafCount(r, c);
    } else if l.Node? {
      LeafCount(l, c);
    }
  }

  lemma RingRemovedSize(ring: seq<Chunk>, x: Chunk)
    requires x in ring && |ring| > 1 && RingOf(ring, ring[0].size)
    ensures RingOf(RingRemove(ring, x), ring[0].size)
  {
    var r := RingRemove(ring, x);
    forall j | 0 <= j < |r| ensures r[j] in ring {
    }
  }

  lemma {:induction false} UnlinkTrie(t: Tree, x: Chunk, lo: nat, w: nat)
    requires Trie(t, lo, w) && Count(t, x) > 0
    ensures Trie(Unlink(t, x, lo, w), lo, w)
    decreases t
  {
    if x in t.ring {
      if |t.ring| > 1 {
        RingRemovedSize(t.ring, x);
      } else {
        ReplaceTrie(t.left, t.right, lo, w);
      }
    } else if Count(t.left, x) > 0 {
      UnlinkTrie(t.left, x, lo, w / 2);
    } else {
      UnlinkTrie(t.right, x, lo + w / 2, w / 2);
    }
  }

  /** Unlinking takes away exactly one occurrence of the chunk and nothing else. */
  lemma {:induction false} UnlinkCount(t: Tree, x: Chunk, lo: nat, w: nat, c: Chunk)
    requires Trie(t, lo, w) && Count(t, x) > 0
    ensures Count(t, c) == Count(Unlink(t, x, lo, w), c) + One(x, c)
    decreases t
  {
    if x in t.ring {
      if |t.ring| > 1 {
        RingRemoved(t.ring, x, c);
      } else {
        assert t.ring == [x];
        assert [x][1..] == [];
        ReplaceCount(t.left, t.right, c);
      }
    } else if Count(t.left, x) > 0 {
      UnlinkCount(t.left, x, lo, w / 2, c);
    } else {
      UnlinkCount(t.right, x, lo + w / 2, w / 2, c);
    }
  }

  lemma {:induction false} LeafHasSize(t: Tree, lo: nat, w: nat, s: nat)
    requires t.Node? && Trie(t, lo, w) && RightmostLeaf(t) != []
    ensures HasSize(t, s) <==> HasSize(WithoutLeaf(t), s) || s == RightmostLeaf(t)[0].size
    decreases t
  {
    if t.right.Node? {
      LeafHasSize(t.right, lo + w / 2, w / 2, s);
    } else if t.left.Node? {
      LeafHasSize(t.left, lo, w / 2, s);
    }
  }

  lemma {:induction false} LeafUnique(t: Tree, lo: nat, w: nat)
    requires t.Node? && Trie(t, lo, w) && UniqueSizes(t) && RightmostLeaf(t) != []
    ensures UniqueSizes(WithoutLeaf(t))
    ensures !HasSize(WithoutLeaf(t), RightmostLeaf(t)[0].size)
    decreases t
  {
    var leaf := RightmostLeaf(t)[0].size;
    if t.right.Node? {
      LeafUnique(t.right, lo + w / 2, w / 2);
      LeafHasSize(t.right, lo + w / 2, w / 2, leaf);
      LeafHasSize(t.right, lo + w / 2, w / 2, t.ring[0].size);
      if HasSize(t.left, leaf) {
        HasSizeRange(t.left, leaf, lo, w / 2);
        HasSizeRange(t.right, leaf, lo + w / 2, w / 2);
      }
    } else if t.left.Node? {
      LeafUnique(t.left, lo, w / 2);
      LeafHasSize(t.left, lo, w / 2, leaf);
      LeafHasSize(t.left, lo, w / 2, t.ring[0].size);
    }
  }

  lemma ReplaceUnique(l: Tree, r: Tree, lo: nat, w: nat)
    requires w > 1 ==> Trie(l, lo, w / 2) && Trie(r, lo + w / 2, w / 2)
    requires w <= 1 ==> l.Empty? && r.Empty?
    requires UniqueSizes(l) && UniqueSizes(r)
    ensures UniqueSizes(Replace(l, r))
  {
    if r.Node? {
      LeafRemoved(r, lo + w / 2, w / 2);
      LeafUnique(r, lo + w / 2, w / 2);
      var leaf := RightmostLeaf(r)[0].size;
      LeafHasSize(r, lo + w / 2, w / 2, leaf);
      if HasSize(l, leaf) {
        HasSizeRange(l, leaf, lo, w / 2);
      }
    } else if l.Node? {
      LeafRemoved(l, lo, w / 2);
      LeafUnique(l, lo, w / 2);
    }
  }

  /** How many chunks of size s the tree holds. */
  function NumOf(t: Tree, s: nat): nat {
    match t
    case Empty => 0
    case Node(ring, l, r) => (if ring != [] && ring[0].size == s then |ring| else 0) + NumOf(l, s) + NumOf(r, s)
  }

  lemma {:induction false} HasSizeIsNum(t: Tree, s: nat)
    ensures HasSize(t, s) <==> NumOf(t, s) > 0
    decreases t
  {
    if t.Node? {
      HasSizeIsNum(t.left, s);
      HasSizeIsNum(t.right, s);
    }
  }

  lemma {:induction false} LeafNum(t: Tree, lo: nat, w: nat, s: nat)
    requires t.Node? && Trie(t, lo, w)
    ensures RightmostLeaf(t) != []
    ensures NumOf(t, s) == NumOf(WithoutLeaf(t), s) + if RightmostLeaf(t)[0].size == s then |RightmostLeaf(t)| else 0
    decreases t
  {
    if t.right.Node? {
      LeafNum(t.right, lo + w / 2, w / 2, s);
    } else if t.left.Node? {
      LeafNum(t.left, lo, w / 2, s);
    }
  }

  lemma ReplaceNum(l: Tree, r: Tree, lo: nat, w: nat, s: nat)
    requires w <= 1 ==> l.Empty? && r.Empty?
    requires w > 1 ==> Trie(l, lo, w / 2) && Trie(r, lo + w / 2, w / 2)
    ensures NumOf(Replace(l, r), s) == NumOf(l, s) + NumOf(r, s)
  {
    if r.Node? {
      LeafNum(r, lo + w / 2, w / 2, s);
    } else if l.Node? {
      LeafNum(l, lo, w / 2, s);
    }
  }

  lemma {:induction false} UnlinkNum(t: Tree, x: Chunk, lo: nat, w: nat, s: nat)
    requires Trie(t, lo, w) && Count(t, x) > 0
    ensures NumOf(t, s) == NumOf(Unlink(t, x, lo, w), s) + if x.size == s then 1 else 0
    decreases t
  {
    hide Replace, RingRemove, Halves;
    if x in t.ring {
      assert x.size == t.ring[0].size;
      if |t.ring| > 1 {
        RingRemovedNum(t.ring, x);
      } else {
        ReplaceNum(t.left, t.right, lo, w, s);
      }
    } else if Count(t.left, x) > 0 {
      UnlinkNum(t.left, x, lo, w / 2, s);
    } else {
      UnlinkNum(t.right, x, lo + w / 2, w / 2, s);
    }
  }

  lemma RingRemovedNum(ring: seq<Chunk>, x: Chunk)
    requires x in ring && |ring| > 1 && RingOf(ring, ring[0].size)
    ensures var r := RingRemove(ring, x); |r| == |ring| - 1 && r[0].size == ring[0].size
  {
    RingRemovedSize(ring, x);
  }

  /** The sizes in the tree stay, but for the chunk's own when no other chunk has it. */
  lemma UnlinkHasSize(t: Tree, x: Chunk, lo: nat, w: nat, s: nat)
    requires Trie(t, lo, w) && Count(t, x) > 0
    ensures HasSize(Unlink(t, x, lo, w), s) <==> HasSize(t, s) && (s == x.size ==> NumOf(t, s) > 1)
  {
    UnlinkNum(t, x, lo, w, s);
    HasSizeIsNum(t, s);
    HasSizeIsNum(Unlink(t, x, lo, w), s);
  }

  lemma {:induction false} UnlinkUnique(t: Tree, x: Chunk, lo: nat, w: nat)
    requires Trie(t, lo, w) && Count(t, x) > 0 && UniqueSizes(t)
    ensures UniqueSizes(Unlink(t, x, lo, w))
    decreases t
  {
    hide Replace, RingRemove, NumOf;
    if x in t.ring {
      if |t.ring| > 1 {
        RingRemovedSize(t.ring, x);
      } else {
        ReplaceUnique(t.left, t.right, lo, w);
      }
    } else if Count(t.left, x) > 0 {
      UnlinkUnique(t.left, x, lo, w / 2);
      UnlinkHasSize(t.left, x, lo, w / 2, t.ring[0].size);
    } else {
      UnlinkUnique(t.right, x, lo + w / 2, w / 2);
      UnlinkHasSize(t.right, x, lo + w / 2, w / 2, t.ring[0].size);
    }
  }
}
