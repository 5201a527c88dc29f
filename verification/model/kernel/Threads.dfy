/** Sets of threads in a phase, and how their sizes change. */
module Threads {
  import opened Sets

  type Tid = nat

  /** The threads in a given phase. */
  ghost function In<P>(phase: map<Tid, P>, p: P): set<Tid> {
    set t | t in phase && phase[t] == p
  }

  ghost function Size<P>(phase: map<Tid, P>, p: P): nat {
    |In(phase, p)|
  }

  /** One thread changes phase. */
  lemma Moved<P>(phase: map<Tid, P>, t: Tid, to: P, p: P)
    requires t in phase
    ensures Size(phase[t := to], p) ==
            Size(phase, p) - (if phase[t] == p then 1 else 0) + (if to == p then 1 else 0)
  {
    var now := phase[t := to];
    if to == p {
      assert In(now, p) == In(phase, p) - {t} + {t};
      if phase[t] == p {
        assert In(now, p) == In(phase, p);
      } else {
        assert t !in In(phase, p) && In(now, p) == In(phase, p) + {t};
      }
    } else if phase[t] == p {
      assert t in In(phase, p) && In(now, p) == In(phase, p) - {t};
    } else {
      assert In(now, p) == In(phase, p);
    }
  }

  /** All threads of one phase go to another. */
  function MoveAll<P(==)>(phase: map<Tid, P>, from: P, to: P): map<Tid, P> {
    map t | t in phase :: if phase[t] == from then to else phase[t]
  }

  lemma MovedAll<P>(phase: map<Tid, P>, from: P, to: P, p: P)
    requires from != to
    ensures Size(MoveAll(phase, from, to), p) ==
            if p == from then 0 else if p == to then Size(phase, to) + Size(phase, from) else Size(phase, p)
  {
    var now := MoveAll(phase, from, to);
    if p == from {
      assert In(now, p) == {};
    } else if p == to {
      assert In(now, p) == In(phase, to) + In(phase, from);
      assert In(phase, to) !! In(phase, from);
    } else {
      assert In(now, p) == In(phase, p);
    }
  }

  lemma SomeIn<P>(phase: map<Tid, P>, p: P, t: Tid)
    requires t in phase && phase[t] == p
    ensures Size(phase, p) > 0
  {
    assert t in In(phase, p);
  }

  lemma OneIn<P>(phase: map<Tid, P>, p: P, t: Tid, u: Tid)
    requires t in phase && phase[t] == p && u in phase && phase[u] == p && Size(phase, p) <= 1
    ensures t == u
  {
    OnlyElement(In(phase, p), t, u);
  }

  /** A queue that lists the threads of a phase, each once. */
  ghost predicate Lists<P>(phase: map<Tid, P>, p: P, q: seq<Tid>) {
    && (forall t :: t in q <==> t in phase && phase[t] == p)
    && (forall i, j :: 0 <= i < j < |q| ==> q[i] != q[j])
  }

  ghost function Elements(q: seq<Tid>): set<Tid> {
    set t | t in q
  }

  lemma ListSize<P>(phase: map<Tid, P>, p: P, q: seq<Tid>)
    requires Lists(phase, p, q)
    ensures Size(phase, p) == |q|
  {
    assert In(phase, p) == Elements(q);
    Distinct(q);
  }

  lemma {:induction false} Distinct(q: seq<Tid>)
    requires forall i, j :: 0 <= i < j < |q| ==> q[i] != q[j]
    ensures |Elements(q)| == |q|
  {
    if q != [] {
      Distinct(q[1..]);
      assert q == [q[0]] + q[1..];
      assert Elements(q) == Elements(q[1..]) + {q[0]};
    }
  }
}
