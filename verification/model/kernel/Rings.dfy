/**
 Intrusive circular lists: the links of all list nodes, and the rings they form.  A ring is
 written as the sequence of its nodes from any of them on; a list is the ring written from
 its head.
 */
module Rings {
  type Node = nat

  datatype Links = Links(next: map<Node, Node>, prev: map<Node, Node>)

  /** The position after i on a ring of n nodes. */
  function Succ(i: nat, n: nat): (j: nat)
    requires i < n
    ensures j < n
  {
    if i + 1 < n then i + 1 else 0
  }

  /** Node a is followed by node b. */
  predicate Linked(m: Links, a: Node, b: Node) {
    a in m.next && m.next[a] == b && b in m.prev && m.prev[b] == a
  }

  ghost predicate LinkAt(m: Links, r: seq<Node>, i: nat) {
    i < |r| ==> Linked(m, r[i], r[Succ(i, |r|)])
  }

  ghost predicate Ring(m: Links, r: seq<Node>) {
    && (forall i, j :: 0 <= i < j < |r| ==> r[i] != r[j])
    && (forall i: nat {:trigger LinkAt(m, r, i)} :: LinkAt(m, r, i))
  }

  ghost predicate Apart(r: seq<Node>, s: seq<Node>) {
    forall n :: n in r ==> n !in s
  }

  /** A ring may be written from any of its nodes. */
  lemma Rotate(m: Links, r: seq<Node>, k: nat)
    requires Ring(m, r) && k <= |r|
    ensures Ring(m, r[k..] + r[..k])
  {
    var s := r[k..] + r[..k];
    forall i: nat ensures LinkAt(m, s, i) {
      if i < |s| {
        var j := if i + k < |r| then i + k else i + k - |r|;
        assert s[i] == r[j] && LinkAt(m, r, j);
        assert s[Succ(i, |s|)] == r[Succ(j, |r|)];
      }
    }
  }

  /** The first two lines of list_add and list_remove: the neighbours of i are joined. */
  function Unlinked(m: Links, i: Node): Links
    requires i in m.prev && i in m.next
  {
    var m1 := m.(next := m.next[m.prev[i] := m.next[i]]);
    if i !in m1.next then m1 else m1.(prev := m1.prev[m1.next[i] := m.prev[i]])
  }

  /** list_add(l, i): i leaves its ring and comes right after l. */
  function Add(m: Links, l: Node, i: Node): Links
    requires i in m.prev && i in m.next && l in m.next
  {
    var m1 := Unlinked(m, i);
    var m2 := Links(m1.next, m1.prev[i := l]);
    var n := if l in m2.next then m2.next[l] else l;
    var m3 := m2.(next := m2.next[i := n]);
    var m4 := m3.(prev := m3.prev[n := i]);
    m4.(next := m4.next[l := i])
  }

  /** list_remove(i) */
  function Remove(m: Links, i: Node): Links
    requires i in m.prev && i in m.next
  {
    var m1 := Unlinked(m, i);
    Links(m1.next[i := i], m1.prev[i := i])
  }

  lemma RingNode(m: Links, i: Node, rest: seq<Node>)
    requires Ring(m, [i] + rest)
    ensures i in m.prev && i in m.next && i !in rest
    ensures m.next[i] == (if rest == [] then i else rest[0])
    ensures m.prev[i] == (if rest == [] then i else rest[|rest| - 1])
  {
    var r := [i] + rest;
    assert LinkAt(m, r, 0) && LinkAt(m, r, |r| - 1);
    forall k | 0 <= k < |rest| ensures rest[k] != i {
      assert r[k + 1] == rest[k];
    }
  }

  /** A ring whose nodes keep their links stays a ring. */
  lemma RingKept(m: Links, m': Links, r: seq<Node>)
    requires Ring(m, r)
    requires forall a, b :: a in r && b in r && Linked(m, a, b) ==> Linked(m', a, b)
    ensures Ring(m', r)
  {
    forall i: nat ensures LinkAt(m', r, i) {
      assert LinkAt(m, r, i);
    }
  }

  /** The links after i has been taken out of the ring [i] + rest. */
  lemma UnlinkedRing(m: Links, i: Node, rest: seq<Node>)
    requires Ring(m, [i] + rest)
    ensures i in m.prev && i in m.next && Ring(Unlinked(m, i), rest)
  {
    RingNode(m, i, rest);
    var r := [i] + rest;
    var m' := Unlinked(m, i);
    forall k, l | 0 <= k < l < |rest| ensures rest[k] != rest[l] {
      assert r[k + 1] == rest[k] && r[l + 1] == rest[l];
    }
    forall k: nat ensures LinkAt(m', rest, k) {
      if k < |rest| {
        UnlinkedLink(m, i, rest, k);
      }
    }
  }

  lemma UnlinkedLink(m: Links, i: Node, rest: seq<Node>, k: nat)
    requires Ring(m, [i] + rest) && k < |rest| && i in m.prev && i in m.next
    requires forall k, l :: 0 <= k < l < |rest| ==> rest[k] != rest[l]
    ensures LinkAt(Unlinked(m, i), rest, k)
  {
    RingNode(m, i, rest);
    var r := [i] + rest;
    assert LinkAt(m, r, k + 1) && r[k + 1] == rest[k];
    if k + 1 < |rest| {
      assert r[k + 2] == rest[k + 1];
    }
  }

  /** list_remove leaves the rest of the ring, and i on its own. */
  lemma RemoveRing(m: Links, i: Node, rest: seq<Node>, other: seq<Node>)
    requires Ring(m, [i] + rest) && Ring(m, other) && Apart(other, [i] + rest)
    ensures i in m.prev && i in m.next
    ensures Ring(Remove(m, i), rest) && Ring(Remove(m, i), [i]) && Ring(Remove(m, i), other)
  {
    RingNode(m, i, rest);
    UnlinkedRing(m, i, rest);
    RingKept(Unlinked(m, i), Remove(m, i), rest);
    OtherKept(m, i, rest, other);
    RingKept(Unlinked(m, i), Remove(m, i), other);
    assert Linked(Remove(m, i), i, i);
  }

  lemma OtherKept(m: Links, i: Node, rest: seq<Node>, other: seq<Node>)
    requires Ring(m, [i] + rest) && Ring(m, other) && Apart(other, [i] + rest)
    ensures i in m.prev && i in m.next && Ring(Unlinked(m, i), other) && i !in other
  {
    RingNode(m, i, rest);
    assert i in [i] + rest && m.next[i] in [i] + rest && m.prev[i] in [i] + rest;
    RingKept(m, Unlinked(m, i), other);
  }

  /** list_add moves i from its old ring to right behind l, leaves both rings well-formed and every third one alone. */
  lemma AddRing(m: Links, l: Node, tail: seq<Node>, i: Node, rest: seq<Node>, other: seq<Node>)
    requires Ring(m, [i] + rest) && Ring(m, [l] + tail) && Apart([l] + tail, [i] + rest)
    requires Ring(m, other) && Apart(other, [i] + rest) && Apart(other, [l] + tail)
    ensures i in m.prev && i in m.next && l in m.next
    ensures Ring(Add(m, l, i), [l, i] + tail) && Ring(Add(m, l, i), rest) && Ring(Add(m, l, i), other)
  {
    RingNode(m, i, rest);
    RingNode(m, l, tail);
    UnlinkedRing(m, i, rest);
    OtherKept(m, i, rest, [l] + tail);
    OtherKept(m, i, rest, other);
    var m1 := Unlinked(m, i);
    InsertRing(m1, l, tail, i);
    RingNode(m1, l, tail);
    assert forall n :: n in rest ==> n in [i] + rest;
    assert l in [l] + tail && m1.next[l] in [l] + tail;
    RingKept(m1, Add(m, l, i), rest);
    RingKept(m1, Add(m, l, i), other);
  }

  /** The links list_add writes behind l. */
  function Insert(m: Links, l: Node, i: Node): Links
    requires l in m.next
  {
    var n := m.next[l];
    Links(m.next[i := n][l := i], m.prev[i := l][n := i])
  }

  lemma InsertRing(m: Links, l: Node, tail: seq<Node>, i: Node)
    requires Ring(m, [l] + tail) && i !in [l] + tail && l in m.next
    ensures Ring(Insert(m, l, i), [l, i] + tail)
  {
    RingNode(m, l, tail);
    var r, s := [l] + tail, [l, i] + tail;
    forall a, b | 0 <= a < b < |s| ensures s[a] != s[b] {
      assert forall k :: 2 <= k < |s| ==> s[k] == r[k - 1];
      assert forall k :: 0 <= k < |r| ==> r[k] in r;
    }
    forall k: nat ensures LinkAt(Insert(m, l, i), s, k) {
      if k < |s| {
        InsertLink(m, l, tail, i, k);
      }
    }
  }

  lemma InsertLink(m: Links, l: Node, tail: seq<Node>, i: Node, k: nat)
    requires Ring(m, [l] + tail) && i !in [l] + tail && l in m.next && k < |tail| + 2
    ensures LinkAt(Insert(m, l, i), [l, i] + tail, k)
  {
    RingNode(m, l, tail);
    var r, s := [l] + tail, [l, i] + tail;
    assert r[0] in r;
    if k >= 2 {
      assert LinkAt(m, r, k - 1) && s[k] == r[k - 1] && r[k - 1] in r && r[k - 1] != r[0];
      assert k < |s| - 1 ==> s[k + 1] == r[k] && r[k] in r && r[k] != r[1];
    }
  }

  /** list_add(head, i): i becomes the first element. */
  lemma PushFront(m: Links, head: Node, list: seq<Node>, i: Node)
    requires Ring(m, [i]) && Ring(m, [head] + list) && i !in [head] + list
    ensures i in m.prev && i in m.next && head in m.next
    ensures Ring(Add(m, head, i), [head] + ([i] + list))
  {
    assert [i] + [] == [i] && [head] + ([i] + list) == [head, i] + list;
    AddRing(m, head, list, i, [], []);
  }

  /** list_add(head->prev, i): i becomes the last element. */
  lemma PushBack(m: Links, head: Node, list: seq<Node>, i: Node)
    requires Ring(m, [i]) && Ring(m, [head] + list) && i !in [head] + list
    ensures i in m.prev && i in m.next && head in m.prev && m.prev[head] in m.next
    ensures Ring(Add(m, m.prev[head], i), [head] + (list + [i]))
  {
    RingNode(m, head, list);
    assert [i] + [] == [i];
    if list == [] {
      AddRing(m, head, [], i, [], []);
      assert [head, i] + [] == [head] + (list + [i]);
    } else {
      var n := |list| - 1;
      var r, last := [head] + list, list[n];
      Rotate(m, r, n + 1);
      assert r[n + 1..] + r[..n + 1] == [last] + ([head] + list[..n]);
      AddRing(m, last, [head] + list[..n], i, [], []);
      var s := [last, i] + ([head] + list[..n]);
      Rotate(Add(m, last, i), s, 2);
      assert s[2..] + s[..2] == [head] + (list + [i]);
    }
  }

  /** list_remove of the first element of a list. */
  lemma PopFront(m: Links, head: Node, list: seq<Node>)
    requires list != [] && Ring(m, [head] + list)
    ensures list[0] in m.prev && list[0] in m.next
    ensures Ring(Remove(m, list[0]), [head] + list[1..]) && Ring(Remove(m, list[0]), [list[0]])
  {
    var r, i := [head] + list, list[0];
    Rotate(m, r, 1);
    assert r[1..] + r[..1] == [i] + (list[1..] + [head]);
    RemoveRing(m, i, list[1..] + [head], []);
    var s := list[1..] + [head];
    Rotate(Remove(m, i), s, |s| - 1);
    assert s[|s| - 1..] + s[..|s| - 1] == [head] + list[1..];
  }

  class LinkMemory {
    var next: map<Node, Node>
    var prev: map<Node, Node>

    function Value(): Links
      reads this
    {
      Links(next, prev)
    }

    /** list_add, pointer by pointer. */
    method ListAdd(l: Node, i: Node, ghost tail: seq<Node>, ghost rest: seq<Node>)
      requires Ring(Value(), [i] + rest) && Ring(Value(), [l] + tail) && Apart([l] + tail, [i] + rest)
      modifies this
      ensures Ring(Value(), [l, i] + tail) && Ring(Value(), rest)
      ensures forall other {:trigger Ring(Value(), other)} ::
                old(Ring(Value(), other)) && Apart(other, [i] + rest) && Apart(other, [l] + tail) ==> Ring(Value(), other)
    {
      ghost var m := Value();
      RingNode(m, i, rest);
      RingNode(m, l, tail);
      AddRing(m, l, tail, i, rest, []);
      next := next[prev[i] := next[i]];
      prev := prev[next[i] := prev[i]];
      prev := prev[i := l];
      next := next[i := next[l]];
      prev := prev[next[l] := i];
      next := next[l := i];
      assert Value() == Add(m, l, i);
      forall other | Ring(m, other) && Apart(other, [i] + rest) && Apart(other, [l] + tail) ensures Ring(Value(), other) {
        AddRing(m, l, tail, i, rest, other);
      }
    }

    /** list_remove, pointer by pointer. */
    method ListRemove(i: Node, ghost rest: seq<Node>)
      requires Ring(Value(), [i] + rest)
      modifies this
      ensures Ring(Value(), rest) && Ring(Value(), [i])
      ensures forall other {:trigger Ring(Value(), other)} ::
                old(Ring(Value(), other)) && Apart(other, [i] + rest) ==> Ring(Value(), other)
    {
      ghost var m := Value();
      RingNode(m, i, rest);
      RemoveRing(m, i, rest, []);
      next := next[prev[i] := next[i]];
      prev := prev[next[i] := prev[i]];
      next, prev := next[i := i], prev[i := i];
      assert Value() == Remove(m, i);
      forall other | Ring(m, other) && Apart(other, [i] + rest) ensures Ring(Value(), other) {
        RemoveRing(m, i, rest, other);
      }
    }
  }
}
