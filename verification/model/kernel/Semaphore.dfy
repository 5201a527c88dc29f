/** The counting semaphore; a step is one section under its spinlock. */
module Semaphore {
  import opened Threads

  datatype Phase = Running | Asleep | Woken

  /** acquired and released count the operations that have completed. */
  datatype State = State(value: int, wait: seq<Tid>, phase: map<Tid, Phase>, acquired: nat, released: nat)

  datatype Op = Acquire | Resume | Release

  ghost predicate Initial(s: State) {
    s.wait == [] && s.acquired == 0 && s.released == 0 && forall t :: t in s.phase ==> s.phase[t] == Running
  }

  predicate Enabled(s: State, t: Tid, op: Op) {
    t in s.phase && s.phase[t] == if op == Resume then Woken else Running
  }

  function Wake(s: State): State {
    if s.wait == [] then s else s.(wait := s.wait[1..], phase := s.phase[s.wait[0] := Woken])
  }

  /** The loop of sem_acquire: sleep while the value is not positive. */
  function Try(s: State, t: Tid): State {
    if s.value <= 0 then s.(wait := s.wait + [t], phase := s.phase[t := Asleep])
    else s.(value := s.value - 1, phase := s.phase[t := Running], acquired := s.acquired + 1)
  }

  function Step(s: State, t: Tid, op: Op): State {
    match op
    case Acquire => Try(s, t)
    case Resume => Try(s, t)
    case Release =>
      var s1 := s.(value := s.value + 1, released := s.released + 1);
      if s1.value > 0 then Wake(s1) else s1
  }

  /** While a thread sleeps, at least as many woken threads are under way as the value allows to pass. */
  ghost predicate Inv(s: State, init: int) {
    && Lists(s.phase, Asleep, s.wait)
    && s.value == init + s.released - s.acquired
    && (s.value > 0 && s.wait != [] ==> Size(s.phase, Woken) >= s.value)
  }

  lemma InitialInv(s: State)
    requires Initial(s)
    ensures Inv(s, s.value)
  {
  }

  lemma TryInv(s: State, t: Tid, init: int)
    requires Inv(s, init) && t in s.phase && s.phase[t] != Asleep
    ensures Inv(Try(s, t), init)
  {
    hide Size;
    Moved(s.phase, t, Asleep, Woken);
    Moved(s.phase, t, Running, Woken);
    var r := Try(s, t);
    assert Lists(r.phase, Asleep, r.wait);
  }

  lemma ReleaseInv(s: State, t: Tid, init: int)
    requires Inv(s, init)
    ensures Inv(Step(s, t, Release), init)
  {
    hide Size;
    if s.wait != [] {
      var u := s.wait[0];
      assert u in s.wait && s.wait == [u] + s.wait[1..];
      Moved(s.phase, u, Woken, Woken);
      var r := Step(s, t, Release);
      assert Lists(r.phase, Asleep, r.wait);
    }
  }

  lemma StepInv(s: State, t: Tid, op: Op, init: int)
    requires Inv(s, init) && Enabled(s, t, op)
    ensures Inv(Step(s, t, op), init)
  {
    hide Inv;
    if op == Release {
      ReleaseInv(s, t, init);
    } else {
      TryInv(s, t, init);
    }
  }

  datatype Event = Event(t: Tid, op: Op)

  ghost predicate Possible(s: State, run: seq<Event>)
    decreases |run|
  {
    run == [] || (Enabled(s, run[0].t, run[0].op) && Possible(Step(s, run[0].t, run[0].op), run[1..]))
  }

  ghost function After(s: State, run: seq<Event>): State
    decreases |run|
  {
    if run == [] then s else After(Step(s, run[0].t, run[0].op), run[1..])
  }

  /**
   Over any run the value is what was put in less what was taken out, it never drops below
   where it started and zero, and no wakeup is lost.
   */
  lemma {:induction false} RunInv(s: State, run: seq<Event>, init: int)
    requires Inv(s, init) && Possible(s, run)
    ensures Inv(After(s, run), init)
    decreases |run|
  {
    hide Inv, Step;
    if run != [] {
      StepInv(s, run[0].t, run[0].op, init);
      RunInv(Step(s, run[0].t, run[0].op), run[1..], init);
    }
  }

  /** Acquisitions never outrun what the semaphore started with and was given. */
  lemma {:induction false} NeverOverdrawn(s: State, run: seq<Event>)
    requires Possible(s, run)
    ensures After(s, run).value >= if s.value < 0 then s.value else 0
    decreases |run|
  {
    if run != [] {
      NeverOverdrawn(Step(s, run[0].t, run[0].op), run[1..]);
    }
  }

  /** A sleeper at a raised semaphore means that a woken thread is about to take it. */
  lemma NoLostWakeup(s: State, init: int, t: Tid) returns (u: Tid)
    requires Inv(s, init) && s.value > 0 && t in s.phase && s.phase[t] == Asleep
    ensures u in s.phase && s.phase[u] == Woken
  {
    assert t in s.wait;
    u :| u in In(s.phase, Woken);
  }

  /** From a new semaphore on: its value is what it started with, plus the releases, less the acquisitions. */
  lemma FirstRun(s: State, run: seq<Event>)
    requires Initial(s) && Possible(s, run)
    ensures var r := After(s, run);
            Inv(r, s.value) && r.value == s.value + r.released - r.acquired && r.value >= if s.value < 0 then s.value else 0
  {
    InitialInv(s);
    RunInv(s, run, s.value);
    NeverOverdrawn(s, run);
  }

  /**
   Whoever comes, new or woken, gets through exactly if the acquisitions so far leave something, and joins the
   back of the queue if not.  A release wakes the oldest sleeper if the semaphore is positive then.
   */
  lemma Admission(s: State, init: int, t: Tid, op: Op)
    requires Inv(s, init) && Enabled(s, t, op)
    ensures var r := Step(s, t, op);
            if op == Release then
              if init + s.released + 1 <= s.acquired || s.wait == [] then r.phase == s.phase && r.wait == s.wait
              else r.phase == s.phase[s.wait[0] := Woken] && r.wait == s.wait[1..]
            else if s.acquired < init + s.released then
              r.phase == s.phase[t := Running] && r.wait == s.wait && r.acquired == s.acquired + 1
            else r.phase == s.phase[t := Asleep] && r.wait == s.wait + [t] && r.acquired == s.acquired
  {
  }

  class Sem {
    var value: int
    var wait: seq<Tid>
    var phase: map<Tid, Phase>
    var acquired: nat
    var released: nat

    function Value(): State
      reads this
    {
      State(value, wait, phase, acquired, released)
    }

    /** sem_init */
    constructor (val: int, threads: set<Tid>)
      ensures Initial(Value()) && value == val
    {
      value, wait, acquired, released := val, [], 0, 0;
      phase := map t | t in threads :: Running;
    }

    /** One round of sem_acquire, on entry or after a wakeup. */
    method AcquireRound(t: Tid)
      modifies this
      ensures Value() == Try(old(Value()), t)
    {
      if value <= 0 {
        phase := phase[t := Asleep];
        wait := wait + [t];
      } else {
        value := value - 1;
        phase := phase[t := Running];
        acquired := acquired + 1;
      }
    }

    /** sem_release */
    method Raise(t: Tid)
      modifies this
      ensures Value() == Step(old(Value()), t, Release)
    {
      value := value + 1;
      released := released + 1;
      if value > 0 && wait != [] {
        phase := phase[wait[0] := Woken];
        wait := wait[1..];
      }
    }
  }
}
