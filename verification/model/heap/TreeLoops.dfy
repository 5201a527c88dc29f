/** insert_chunk and unlink_chunk as they run, with their descent loops. */
module TreeLoops {
  import opened Words
  import opened TreeBins
  import opened BinIndex
  import opened Bins

  /** The subtree at the end of a path; true is child[1]. */
  function Below(t: Tree, path: seq<bool>): Tree {
    if path == [] then t
    else if t.Empty? then Empty
    else Below(if path[0] then t.right else t.left, path[1..])
  }

  /** The tree after a store through the child pointer at the end of a path. */
  function Put(t: Tree, path: seq<bool>, s: Tree): Tree {
    if path == [] then s
    else if t.Empty? then Empty
    else if path[0] then Node(t.ring, t.left, Put(t.right, path[1..], s))
    else Node(t.ring, Put(t.left, path[1..], s), t.right)
  }

  /** One step further down. */
  lemma {:induction false} PutChild(t: Tree, path: seq<bool>, d: bool, s: Tree)
    requires Below(t, path).Node?
    ensures var b := Below(t, path);
            && Put(t, path + [d], s) == Put(t, path, if d then Node(b.ring, b.left, s) else Node(b.ring, s, b.right))
            && Below(t, path + [d]) == if d then b.right else b.left
    decreases path
  {
    if path != [] {
      assert (path + [d])[1..] == path[1..] + [d];
      PutChild(if path[0] then t.right else t.left, path[1..], d, s);
    }
  }

  /** insert_large_chunk: the top bit of a register that is shifted left picks the child. */
  method InsertLoop(t0: Tree, x: Chunk, k0: nat, ghost lo: nat, ghost w: nat) returns (r: Tree, ghost rounds: nat)
    requires Halves(w) && Trie(t0, lo, w) && BitPath(k0, x.size, lo, w)
    ensures r == Insert(t0, x, lo, w)
    ensures rounds <= Height(t0)
  {
    rounds := 0;
    if t0.Empty? {
      r := Node([x], Empty, Empty);
      return;
    }
    var t, k, path := t0, k0, [];
    ghost var l, n := lo, w;
    while true
      invariant t.Node? && t == Below(t0, path) && Halves(n) && Trie(t, l, n) && BitPath(k, x.size, l, n)
      invariant Insert(t0, x, lo, w) == Put(t0, path, Insert(t, x, l, n))
      invariant rounds + Height(t) <= Height(t0)
      decreases t
    {
      rounds := rounds + 1;
      if t.ring[0].size == x.size {
        r := Put(t0, path, Node([t.ring[0], x] + t.ring[1..], t.left, t.right));
        return;
      }
      var right := TopBit(k) == 1;
      var c := if right then t.right else t.left;
      k := ShiftLeft(k);
      ghost var l1, n1 := if x.size < l + n / 2 then l else l + n / 2, n / 2;
      HalfWidth(n);
      PutChild(t0, path, right, Insert(c, x, l1, n1));
      path := path + [right];
      if c.Empty? {
        r := Put(t0, path, Node([x], Empty, Empty));
        return;
      }
      t, l, n := c, l1, n1;
    }
  }

  lemma HalfWidth(n: nat)
    requires Halves(n) && n > 1
    ensures n - n / 2 == n / 2 && Halves(n / 2)
  {
  }

  /** The loop of unlink_large_chunk that finds a leaf to take the place of an inner node, and cuts it off. */
  method LeafLoop(t0: Tree) returns (leaf: seq<Chunk>, rest: Tree, ghost rounds: nat)
    requires t0.Node?
    ensures leaf == RightmostLeaf(t0) && rest == WithoutLeaf(t0)
    ensures rounds < Height(t0)
  {
    var t, path := t0, [];
    rounds := 0;
    while t.right.Node? || t.left.Node?
      invariant t.Node? && t == Below(t0, path)
      invariant RightmostLeaf(t) == RightmostLeaf(t0) && WithoutLeaf(t0) == Put(t0, path, WithoutLeaf(t))
      invariant rounds + Height(t) <= Height(t0)
      decreases t
    {
      rounds := rounds + 1;
      var right := t.right.Node?;
      var c := if right then t.right else t.left;
      PutChild(t0, path, right, WithoutLeaf(c));
      path := path + [right];
      t := c;
    }
    leaf := t.ring;
    rest := Put(t0, path, Empty);
  }

  /** Where the chunk hangs in the tree, which its parent pointers tell. */
  function PathTo(t: Tree, x: Chunk): (path: seq<bool>)
    requires Count(t, x) > 0
    ensures Below(t, path).Node? && x in Below(t, path).ring
  {
    if x in t.ring then []
    else if Count(t.left, x) > 0 then [false] + PathTo(t.left, x)
    else [true] + PathTo(t.right, x)
  }

  /** Unlinking changes the tree only at and below the chunk's node. */
  lemma {:induction false} UnlinkBelow(t: Tree, x: Chunk, lo: nat, w: nat)
    requires Trie(t, lo, w) && Count(t, x) > 0
    ensures var path := PathTo(t, x); var n := Below(t, path);
            Unlink(t, x, lo, w) ==
              Put(t, path, if |n.ring| > 1 then Node(RingRemove(n.ring, x), n.left, n.right) else Replace(n.left, n.right))
    decreases t
  {
    if x in t.ring {
    } else if Count(t.left, x) > 0 {
      UnlinkBelow(t.left, x, lo, w / 2);
    } else {
      UnlinkBelow(t.right, x, lo + w / 2, w / 2);
    }
  }

  /** unlink_large_chunk: the bk neighbour, or else a leaf from below, takes the chunk's place. */
  method UnlinkNode(t: Tree, x: Chunk, ghost lo: nat, ghost w: nat) returns (r: Tree)
    requires Trie(t, lo, w) && Count(t, x) > 0
    ensures r == Unlink(t, x, lo, w)
  {
    UnlinkBelow(t, x, lo, w);
    var path := PathTo(t, x);
    var n := Below(t, path);
    var s := Empty;
    if |n.ring| > 1 {
      s := Node(RingRemove(n.ring, x), n.left, n.right);
    } else if n.right.Node? {
      var leaf, rest, _ := LeafLoop(n.right);
      s := Node(leaf, n.left, rest);
    } else if n.left.Node? {
      var leaf, rest, _ := LeafLoop(n.left);
      s := Node(leaf, rest, n.right);
    }
    r := Put(t, path, s);
  }

  /** Inserting a chunk into the tree of its own size class: a round for each bit of the register at most, and one more. */
  method InsertByBits(t: Tree, c: Chunk) returns (r: Tree, ghost rounds: nat)
    requires MIN_LARGE <= c.size < WORD && TreeIndex(c.size) < NBINS
    requires var i := TreeIndex(c.size); Halves(RootWidth(i)) && Trie(t, RootLo(i), RootWidth(i)) && RootLo(i) <= c.size < RootLo(i) + RootWidth(i)
    ensures r == Insert(t, c, RootLo(TreeIndex(c.size)), RootWidth(TreeIndex(c.size)))
    ensures rounds <= RootBits(TreeIndex(c.size)) + 1
  {
    var i := TreeIndex(c.size);
    ShiftedPath(c.size);
    RootWidthIs(i);
    HeightBound(t, RootLo(i), RootBits(i));
    r, rounds := InsertLoop(t, c, ShiftIn(c.size, LeftShift(i)), RootLo(i), RootWidth(i));
  }

  /** insert_chunk */
  method LinkChunk(b: Bins, c: Chunk) returns (r: Bins)
    requires ValidBins(b) && c.size < WORD
    ensures r == InsertChunk(b, c)
  {
    hide Insert, RootLo, RootWidth, TreeIndex;
    if IsSmall(c.size) {
      var i := SmallIndex(c.size);
      r := b.(small := b.small[i := [c] + b.small[i]], smallmap := b.smallmap[i := true]);
    } else {
      var i := TreeIndex(c.size);
      InRootRange(c.size);
      RootRange(i);
      assert TreeOk(b.tree[i], b.treemap[i], i);
      var t, _ := InsertByBits(b.tree[i], c);
      r := b.(tree := b.tree[i := t], treemap := b.treemap[i := true]);
    }
  }

  /** unlink_chunk */
  method UnlinkFromBin(b: Bins, c: Chunk) returns (r: Bins)
    requires ValidBins(b) && Held(b, c) > 0
    ensures r == UnlinkChunk(b, c)
  {
    hide Unlink, RootLo, RootWidth;
    if IsSmall(c.size) {
      var i := SmallIndex(c.size);
      var ring := RemoveFrom(b.small[i], c);
      r := b.(small := b.small[i := ring], smallmap := b.smallmap[i := ring != []]);
    } else {
      var i := TreeIndex(c.size);
      assert TreeOk(b.tree[i], b.treemap[i], i);
      var t := UnlinkNode(b.tree[i], c, RootLo(i), RootWidth(i));
      r := b.(tree := b.tree[i := t], treemap := b.treemap[i := t.Node?]);
    }
  }
}
