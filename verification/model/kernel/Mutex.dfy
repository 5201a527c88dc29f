/** The sleeping mutex; a step is one section under its spinlock. */
module Mutex {
  import opened Threads

  datatype Phase = Outside | Asleep | Woken | Holding

  datatype State = State(locked: bool, wait: seq<Tid>, phase: map<Tid, Phase>)

  datatype Op = Lock | Resume | Unlock

  ghost predicate Initial(s: State) {
    !s.locked && s.wait == [] && forall t :: t in s.phase ==> s.phase[t] == Outside
  }

  /** Only the holder unlocks. */
  predicate Enabled(s: State, t: Tid, op: Op) {
    t in s.phase &&
    match op
    case Lock => s.phase[t] == Outside
    case Resume => s.phase[t] == Woken
    case Unlock => s.phase[t] == Holding
  }

  function Try(s: State, t: Tid): State {
    if s.locked then s.(wait := s.wait + [t], phase := s.phase[t := Asleep])
    else s.(locked := true, phase := s.phase[t := Holding])
  }

  function Wake(s: State): State {
    if s.wait == [] then s else s.(wait := s.wait[1..], phase := s.phase[s.wait[0] := Woken])
  }

  function Step(s: State, t: Tid, op: Op): State {
    match op
    case Lock => Try(s, t)
    case Resume => Try(s, t)
    case Unlock => Wake(s.(locked := false, phase := s.phase[t := Outside]))
  }

  ghost predicate Inv(s: State) {
    && Lists(s.phase, Asleep, s.wait)
    && Size(s.phase, Holding) == (if s.locked then 1 else 0)
    && (!s.locked && s.wait != [] ==> Size(s.phase, Woken) > 0)
  }

  lemma InitialInv(s: State)
    requires Initial(s)
    ensures Inv(s)
  {
    assert In(s.phase, Holding) == {};
  }

  lemma TryInv(s: State, t: Tid)
    requires Inv(s) && t in s.phase && s.phase[t] in {Outside, Woken}
    ensures Inv(Try(s, t))
  {
    hide Size;
    Moved(s.phase, t, Asleep, Holding);
    Moved(s.phase, t, Holding, Holding);
    var r := Try(s, t);
    assert Lists(r.phase, Asleep, r.wait);
  }

  lemma UnlockInv(s: State, t: Tid)
    requires Inv(s) && t in s.phase && s.phase[t] == Holding
    ensures Inv(Step(s, t, Unlock))
  {
    hide Size;
    SomeIn(s.phase, Holding, t);
    Moved(s.phase, t, Outside, Holding);
    if s.wait != [] {
      var u, now := s.wait[0], s.phase[t := Outside];
      assert u in s.wait && s.wait == [u] + s.wait[1..];
      Moved(now, u, Woken, Holding);
      SomeIn(now[u := Woken], Woken, u);
    }
    var r := Step(s, t, Unlock);
    assert Lists(r.phase, Asleep, r.wait);
  }

  lemma StepInv(s: State, t: Tid, op: Op)
    requires Inv(s) && Enabled(s, t, op)
    ensures Inv(Step(s, t, op))
  {
    hide Inv;
    if op == Unlock {
      UnlockInv(s, t);
    } else {
      TryInv(s, t);
    }
  }

  /** Two threads never hold the mutex together. */
  lemma MutualExclusion(s: State, t: Tid, u: Tid)
    requires Inv(s) && t in s.phase && s.phase[t] == Holding && u in s.phase && s.phase[u] == Holding
    ensures t == u && s.locked
  {
    SomeIn(s.phase, Holding, t);
    OneIn(s.phase, Holding, t, u);
  }

  predicate Holds(s: State, t: Tid) {
    t in s.phase && s.phase[t] == Holding
  }

  lemma LockedMeans(s: State)
    requires Inv(s)
    ensures s.locked <==> exists u :: Holds(s, u)
  {
    if s.locked {
      var u :| u in In(s.phase, Holding);
      assert Holds(s, u);
    } else {
      forall u | Holds(s, u) ensures false {
        SomeIn(s.phase, Holding, u);
      }
    }
  }

  /**
   Whoever comes, new or woken, gets the mutex if nobody holds it, and joins the back of the queue if somebody
   does.  An unlock wakes the oldest sleeper, which has to compete with newcomers.
   */
  lemma Admission(s: State, t: Tid, op: Op)
    requires Inv(s) && Enabled(s, t, op)
    ensures var r := Step(s, t, op);
            if op == Unlock then
              var left := s.phase[t := Outside];
              if s.wait == [] then r.phase == left && r.wait == []
              else r.phase == left[s.wait[0] := Woken] && r.wait == s.wait[1..]
            else if exists u :: Holds(s, u) then r.phase == s.phase[t := Asleep] && r.wait == s.wait + [t]
            else r.phase == s.phase[t := Holding] && r.wait == s.wait
  {
    hide Inv;
    LockedMeans(s);
  }

  /** A sleeper implies a holder or a woken thread: an unlocked mutex is not slept on unattended. */
  lemma NoLostWakeup(s: State, t: Tid) returns (u: Tid)
    requires Inv(s) && t in s.phase && s.phase[t] == Asleep
    ensures u in s.phase && s.phase[u] == if s.locked then Holding else Woken
  {
    assert t in s.wait;
    if s.locked {
      u :| u in In(s.phase, Holding);
    } else {
      u :| u in In(s.phase, Woken);
    }
  }

  datatype Event = Event(t: Tid, op: Op)

  ghost predicate Possible(s: State, run: seq<Event>)
    decreases |run|
  {
    run == [] || (Enabled(s, run[0].t, run[0].op) && Possible(Step(s, run[0].t, run[0].op), run[1..]))
  }

  ghost function After(s: State, run: seq<Event>): State
    decreases |run|
  {
    if run == [] then s else After(Step(s, run[0].t, run[0].op), run[1..])
  }

  lemma {:induction false} RunInv(s: State, run: seq<Event>)
    requires Inv(s) && Possible(s, run)
    ensures Inv(After(s, run))
    decreases |run|
  {
    hide Inv, Step, Enabled;
    if run != [] {
      StepInv(s, run[0].t, run[0].op);
      RunInv(Step(s, run[0].t, run[0].op), run[1..]);
    }
  }

  /** From a new mutex on: two threads never hold it together. */
  lemma FirstRun(s: State, run: seq<Event>, t: Tid, u: Tid)
    requires Initial(s) && Possible(s, run)
    ensures var r := After(s, run);
            && Inv(r)
            && (t in r.phase && u in r.phase && r.phase[t] == Holding && r.phase[u] == Holding ==> t == u)
  {
    hide Inv, Initial;
    InitialInv(s);
    RunInv(s, run);
    var r := After(s, run);
    if t in r.phase && u in r.phase && r.phase[t] == Holding && r.phase[u] == Holding {
      MutualExclusion(r, t, u);
    }
  }

  class Cell {
    var locked: bool
    var wait: seq<Tid>
    var phase: map<Tid, Phase>

    function Value(): State
      reads this
    {
      State(locked, wait, phase)
    }

    /** mutex_init */
    constructor (threads: set<Tid>)
      ensures Initial(Value())
    {
      locked, wait := false, [];
      phase := map t | t in threads :: Outside;
    }

    /** One round of mutex_lock, on entry or after a wakeup. */
    method LockRound(t: Tid)
      modifies this
      ensures Value() == Try(old(Value()), t)
    {
      if locked {
        phase := phase[t := Asleep];
        wait := wait + [t];
      } else {
        locked := true;
        phase := phase[t := Holding];
      }
    }

    /** mutex_unlock */
    method Open(t: Tid)
      modifies this
      ensures Value() == Step(old(Value()), t, Unlock)
    {
      locked := false;
      phase := phase[t := Outside];
      if wait != [] {
        phase := phase[wait[0] := Woken];
        wait := wait[1..];
      }
    }
  }
}
