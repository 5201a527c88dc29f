/** One processor's scheduler and the wait queues: where every thread is after every step. */
module Scheduler {
  import opened Threads

  datatype TState = Running | Ready | Waiting | New | Blocked | Zombie

  const IDLE: Tid := 0

  /** The ready ring and the wait rings from front to back; the idle thread has number 0. */
  datatype State = State(current: Tid, ready: seq<Tid>, waits: map<nat, seq<Tid>>,
                         state: map<Tid, TState>, timeout: map<Tid, int>, prio: map<Tid, int>)

  function Queue(s: State, w: nat): seq<Tid> {
    if w in s.waits then s.waits[w] else []
  }

  function StateOf(s: State, t: Tid): TState {
    if t in s.state then s.state[t] else New
  }

  function Lookup(m: map<Tid, int>, t: Tid): int {
    if t in m then m[t] else 0
  }

  // ---- schedule and sched_wakeup --------------------------------------------------------

  /** The part of schedule that picks the next thread. */
  function Pick(s: State): State {
    var last := s.current;
    var ready := if last != IDLE && StateOf(s, last) == Ready then s.ready + [last] else s.ready;
    if ready == [] then
      s.(ready := [], current := IDLE, timeout := s.timeout[IDLE := 0], state := s.state[IDLE := Running])
    else
      var t := ready[0];
      s.(ready := ready[1..], current := t, timeout := s.timeout[t := Lookup(s.prio, t)], state := s.state[t := Running])
  }

  /** schedule, with preemption enabled. */
  function Schedule(s: State): State {
    var c := s.current;
    if StateOf(s, c) == Running then
      var s1 := s.(timeout := s.timeout[c := Lookup(s.timeout, c) - 1]);
      if Lookup(s.timeout, c) > 0 then s1 else Pick(s1.(state := s.state[c := Ready]))
    else Pick(s)
  }

  function Removed(q: seq<Tid>, t: Tid): (r: seq<Tid>)
    ensures forall u :: u in r ==> u in q && u != t
    ensures forall u :: u in q && u != t ==> u in r
  {
    if q == [] then [] else (if q[0] == t then [] else [q[0]]) + Removed(q[1..], t)
  }

  /** sched_wakeup: off whatever ring the thread is on, and to the front of the ready ring. */
  function WakeUp(s: State, t: Tid): State {
    s.(waits := map w | w in s.waits :: Removed(s.waits[w], t),
       state := s.state[t := Ready], ready := [t] + s.ready)
  }

  function WakeOne(s: State, w: nat): State {
    if Queue(s, w) == [] then s else WakeUp(s, Queue(s, w)[0])
  }

  /** wait_wakeup_all */
  function WakeAll(s: State, w: nat): State
    decreases |Queue(s, w)|
  {
    if Queue(s, w) == [] then s
    else
      Shrinks(Queue(s, w));
      WakeAll(WakeOne(s, w), w)
  }

  lemma Shrinks(q: seq<Tid>)
    requires q != []
    ensures |Removed(q, q[0])| < |q|
  {
    RemovedLength(q[1..], q[0]);
  }

  lemma {:induction false} RemovedLength(q: seq<Tid>, t: Tid)
    ensures |Removed(q, t)| <= |q|
    ensures t !in q ==> Removed(q, t) == q
  {
    if q != [] {
      RemovedLength(q[1..], t);
    }
  }

  /** The current thread leaves the processor in the given state. */
  function Leave(s: State, to: TState): State {
    Schedule(s.(state := s.state[s.current := to]))
  }

  /** wait_sleep, as one step: to the back of the wait ring, then schedule. */
  function Sleep(s: State, w: nat): State {
    Schedule(s.(waits := s.waits[w := Queue(s, w) + [s.current]], state := s.state[s.current := Waiting]))
  }

  function Spawn(s: State, t: Tid, prio: int): State {
    WakeUp(s.(state := s.state[t := New], timeout := s.timeout[t := prio], prio := s.prio[t := prio]), t)
  }

  datatype Op =
    | Tick
    | SleepOn(w: nat)
    | Wakeup(w: nat)
    | WakeupAll(w: nat)
    | WakeThread(t: Tid)
    | SpawnThread(t: Tid, prio: int)
    | Suspend(to: TState)

  /** The idle thread does not sleep or exit; a thread woken directly is waiting or blocked. */
  predicate Enabled(s: State, op: Op) {
    match op
    case Tick => true
    case SleepOn(_) => s.current != IDLE
    case Wakeup(_) => true
    case WakeupAll(_) => true
    case WakeThread(t) => t != IDLE && t in s.state && s.state[t] in {Waiting, Blocked}
    case SpawnThread(t, _) => t !in s.state && t != IDLE
    case Suspend(to) => s.current != IDLE && to in {Waiting, Blocked, Zombie}
  }

  function Step(s: State, op: Op): State {
    match op
    case Tick => Schedule(s)
    case SleepOn(w) => Sleep(s, w)
    case Wakeup(w) => WakeOne(s, w)
    case WakeupAll(w) => WakeAll(s, w)
    case WakeThread(t) => WakeUp(s, t)
    case SpawnThread(t, prio) => Spawn(s, t, prio)
    case Suspend(to) => Leave(s, to)
  }

  // ---- the invariant ------------------------------------------------------------------------

  ghost predicate NoDup(q: seq<Tid>) {
    forall i, j :: 0 <= i < j < |q| ==> q[i] != q[j]
  }

  /** Ready threads other than idle are on the ready ring, once, and nothing else is. */
  ghost predicate ReadyRing(s: State) {
    NoDup(s.ready) && forall t :: t in s.ready <==> t in s.state && t != IDLE && s.state[t] == Ready
  }

  /** A wait ring holds waiting threads, each once. */
  ghost predicate RingAt(s: State, w: nat) {
    NoDup(Queue(s, w)) && forall t :: t in Queue(s, w) ==> t != IDLE && t in s.state && s.state[t] == Waiting
  }

  ghost predicate RingsApart(s: State, v: nat, w: nat) {
    v != w ==> forall t :: t in Queue(s, v) ==> t !in Queue(s, w)
  }

  ghost predicate WaitRings(s: State) {
    && (forall w {:trigger RingAt(s, w)} :: RingAt(s, w))
    && (forall v, w {:trigger RingsApart(s, v, w)} :: RingsApart(s, v, w))
  }

  /** A thread other than the current one is not running, and neither queue holds the idle thread. */
  ghost predicate Placed(s: State) {
    ReadyRing(s) && WaitRings(s) && IDLE in s.state && s.current in s.state &&
    forall t :: t in s.state && s.state[t] == Running ==> t == s.current
  }

  ghost predicate Inv(s: State) {
    Placed(s) && s.state[s.current] == Running
  }

  /** sched_init */
  ghost predicate Initial(s: State) {
    s.current == IDLE && s.ready == [] && s.waits == map[] && s.state == map[IDLE := Running]
  }

  lemma InitialInv(s: State)
    requires Initial(s)
    ensures Inv(s)
  {
  }

  /** Between leaving the processor and picking the next thread: the leaver is Ready but not yet queued, or is elsewhere. */
  ghost predicate Leaving(s: State) {
    && NoDup(s.ready) && WaitRings(s) && IDLE in s.state && s.current in s.state
    && (forall t :: t in s.ready <==> t in s.state && t != IDLE && s.state[t] == Ready && t != s.current)
    && (forall t :: t in s.state ==> s.state[t] != Running)
  }

  lemma PickInv(s: State)
    requires Leaving(s)
    ensures Inv(Pick(s)) && Pick(s).state.Keys == s.state.Keys
  {
    hide WaitRings;
    var last := s.current;
    var ready := if last != IDLE && StateOf(s, last) == Ready then s.ready + [last] else s.ready;
    assert NoDup(ready) && forall t :: t in ready <==> t in s.state && t != IDLE && s.state[t] == Ready;
    if ready == [] {
      SameRings(s, Pick(s));
    } else {
      assert ready[0] in ready;
      PickFront(s, ready);
    }
  }

  lemma PickFront(s: State, ready: seq<Tid>)
    requires Leaving(s) && NoDup(ready) && ready != [] && ready[0] in s.state && s.state[ready[0]] == Ready && ready[0] != IDLE
    requires ready == if s.current != IDLE && StateOf(s, s.current) == Ready then s.ready + [s.current] else s.ready
    requires forall t :: t in ready <==> t in s.state && t != IDLE && s.state[t] == Ready
    ensures Inv(Pick(s)) && Pick(s).state.Keys == s.state.Keys
  {
    hide WaitRings, NoDup;
    Tail(ready);
    SameRings(s, Pick(s));
  }

  lemma Tail(q: seq<Tid>)
    requires NoDup(q) && q != []
    ensures NoDup(q[1..]) && forall t :: t in q[1..] <==> t in q && t != q[0]
  {
    assert q == [q[0]] + q[1..];
  }

  /** Waiting threads that stay waiting keep their rings. */
  lemma SameRings(s: State, r: State)
    requires WaitRings(s) && r.waits == s.waits
    requires forall t :: t in s.state && s.state[t] == Waiting && t != IDLE ==> t in r.state && r.state[t] == Waiting
    ensures WaitRings(r)
  {
    forall w ensures RingAt(r, w) { assert RingAt(s, w) && Queue(r, w) == Queue(s, w); }
    forall v, w ensures RingsApart(r, v, w) {
      assert RingsApart(s, v, w) && Queue(r, v) == Queue(s, v) && Queue(r, w) == Queue(s, w);
    }
  }

  lemma ScheduleInv(s: State)
    requires Inv(s)
    ensures Inv(Schedule(s)) && Schedule(s).state.Keys == s.state.Keys
  {
    hide WaitRings, Pick;
    var c := s.current;
    var s1 := s.(timeout := s.timeout[c := Lookup(s.timeout, c) - 1]);
    SameRings(s, s1);
    if Lookup(s.timeout, c) <= 0 {
      var s2 := s1.(state := s.state[c := Ready]);
      SameRings(s, s2);
      PickInv(s2);
    }
  }

  lemma LeaveInv(s: State, to: TState)
    requires Inv(s) && s.current != IDLE && to in {Waiting, Blocked, Zombie}
    ensures Inv(Leave(s, to)) && Leave(s, to).state.Keys == s.state.Keys
  {
    hide WaitRings, Pick;
    var s1 := s.(state := s.state[s.current := to]);
    SameRings(s, s1);
    PickInv(s1);
  }

  lemma SleepInv(s: State, w: nat)
    requires Inv(s) && s.current != IDLE
    ensures Inv(Sleep(s, w)) && Sleep(s, w).state.Keys == s.state.Keys
  {
    hide WaitRings, Pick;
    var s1 := s.(waits := s.waits[w := Queue(s, w) + [s.current]], state := s.state[s.current := Waiting]);
    JoinedRings(s, s1, w);
    PickInv(s1);
  }

  lemma JoinedRings(s: State, s1: State, w: nat)
    requires Inv(s) && s.current != IDLE && s1.state == s.state[s.current := Waiting]
    requires s1.waits == s.waits[w := Queue(s, w) + [s.current]]
    ensures WaitRings(s1)
  {
    forall v ensures RingAt(s1, v) { assert RingAt(s, v); }
    forall v, u ensures RingsApart(s1, v, u) { assert RingsApart(s, v, u) && RingAt(s, v) && RingAt(s, u); }
  }

  lemma WokenQueues(s: State, t: Tid)
    ensures forall w :: Queue(WakeUp(s, t), w) == Removed(Queue(s, w), t)
  {
  }

  lemma {:induction false} RemovedNoDup(q: seq<Tid>, t: Tid)
    requires NoDup(q)
    ensures NoDup(Removed(q, t))
  {
    if q != [] {
      assert q == [q[0]] + q[1..];
      RemovedNoDup(q[1..], t);
      assert q[0] !in Removed(q[1..], t);
    }
  }

  lemma WakeRings(s: State, t: Tid)
    requires WaitRings(s)
    ensures WaitRings(WakeUp(s, t))
  {
    hide Removed;
    WokenQueues(s, t);
    var r := WakeUp(s, t);
    forall w ensures RingAt(r, w) {
      assert RingAt(s, w);
      RemovedNoDup(Queue(s, w), t);
    }
    forall v, w ensures RingsApart(r, v, w) { assert RingsApart(s, v, w); }
  }

  /** A thread that is neither running nor ready can be woken, wherever it is. */
  lemma WakeUpInv(s: State, t: Tid)
    requires Inv(s) && t != IDLE && t in s.state && s.state[t] !in {Running, Ready}
    ensures Inv(WakeUp(s, t)) && WakeUp(s, t).state.Keys == s.state.Keys
  {
    hide WaitRings, Removed;
    WakeRings(s, t);
    var r := WakeUp(s, t);
    assert NoDup(r.ready);
    assert forall u :: u in r.ready <==> u == t || u in s.ready;
  }

  lemma WakeOneInv(s: State, w: nat)
    requires Inv(s)
    ensures Inv(WakeOne(s, w)) && WakeOne(s, w).state.Keys == s.state.Keys
  {
    if Queue(s, w) != [] {
      assert RingAt(s, w) && Queue(s, w)[0] in Queue(s, w);
      WakeUpInv(s, Queue(s, w)[0]);
    }
  }

  lemma {:induction false} WakeAllInv(s: State, w: nat)
    requires Inv(s)
    ensures Inv(WakeAll(s, w)) && WakeAll(s, w).state.Keys == s.state.Keys
    decreases |Queue(s, w)|
  {
    if Queue(s, w) != [] {
      WakeOneInv(s, w);
      Shrinks(Queue(s, w));
      WakeAllInv(WakeOne(s, w), w);
    }
  }

  lemma SpawnInv(s: State, t: Tid, prio: int)
    requires Inv(s) && t !in s.state && t != IDLE
    ensures Inv(Spawn(s, t, prio)) && Spawn(s, t, prio).state.Keys == s.state.Keys + {t}
  {
    var s1 := s.(state := s.state[t := New], timeout := s.timeout[t := prio], prio := s.prio[t := prio]);
    SameRings(s, s1);
    WakeUpInv(s1, t);
  }

  function Spawned(op: Op): set<Tid> {
    if op.SpawnThread? then {op.t} else {}
  }

  /** Every step keeps every thread, in its place. */
  lemma StepInv(s: State, op: Op)
    requires Inv(s) && Enabled(s, op)
    ensures Inv(Step(s, op)) && Step(s, op).state.Keys == s.state.Keys + Spawned(op)
  {
    hide Inv, Schedule, Sleep, WakeOne, WakeAll, WakeUp, Spawn, Leave;
    match op
    case Tick => ScheduleInv(s);
    case SleepOn(w) => SleepInv(s, w);
    case Wakeup(w) => WakeOneInv(s, w);
    case WakeupAll(w) => WakeAllInv(s, w);
    case WakeThread(t) => WakeUpInv(s, t);
    case SpawnThread(t, prio) => SpawnInv(s, t, prio);
    case Suspend(to) => LeaveInv(s, to);
  }

  ghost predicate Possible(s: State, run: seq<Op>)
    decreases |run|
  {
    run == [] || (Enabled(s, run[0]) && Possible(Step(s, run[0]), run[1..]))
  }

  ghost function After(s: State, run: seq<Op>): State
    decreases |run|
  {
    if run == [] then s else After(Step(s, run[0]), run[1..])
  }

  lemma {:induction false} RunInv(s: State, run: seq<Op>)
    requires Inv(s) && Possible(s, run)
    ensures Inv(After(s, run)) && s.state.Keys <= After(s, run).state.Keys
    decreases |run|
  {
    hide Inv, Step, Enabled;
    if run != [] {
      StepInv(s, run[0]);
      RunInv(Step(s, run[0]), run[1..]);
    }
  }

  // ---- what the invariant means ------------------------------------------------------------------

  /** Where a thread can be. */
  datatype Place = OnCpu | OnReady | OnWait(w: nat) | Detached

  ghost predicate At(s: State, t: Tid, p: Place) {
    match p
    case OnCpu => t == s.current
    case OnReady => t in s.ready
    case OnWait(w) => t in Queue(s, w)
    case Detached =>
      t in s.state && s.state[t] in {Waiting, Blocked, Zombie, New} && forall w :: t !in Queue(s, w)
  }

  /** Each thread other than idle is in exactly one place, and is Ready exactly on the ready ring. */
  lemma OnePlace(s: State, t: Tid) returns (p: Place)
    requires Inv(s) && t in s.state && t != IDLE
    ensures At(s, t, p) && forall q :: At(s, t, q) ==> q == p
    ensures s.state[t] == Ready <==> p == OnReady
    ensures s.state[t] == Running <==> p == OnCpu
  {
    if t == s.current {
      p := OnCpu;
    } else if t in s.ready {
      p := OnReady;
    } else if w :| t in Queue(s, w) {
      assert RingAt(s, w);
      p := OnWait(w);
    } else {
      p := Detached;
    }
    forall q | At(s, t, q) ensures q == p {
      if q.OnWait? {
        assert RingAt(s, q.w);
        assert p.OnWait? ==> RingsApart(s, q.w, p.w);
      }
    }
  }

  /** From the idle thread alone on: after any run every thread is in exactly one place. */
  lemma FirstRun(s: State, run: seq<Op>, t: Tid) returns (p: Place)
    requires Initial(s) && Possible(s, run) && t in After(s, run).state && t != IDLE
    ensures var r := After(s, run);
            && Inv(r) && At(r, t, p) && (forall q :: At(r, t, q) ==> q == p)
            && (r.state[t] == Ready <==> p == OnReady) && (r.state[t] == Running <==> p == OnCpu)
  {
    hide Inv, Initial, Step;
    InitialInv(s);
    RunInv(s, run);
    p := OnePlace(After(s, run), t);
  }

  /** The idle thread is on no ring. */
  lemma IdleUnqueued(s: State, w: nat)
    requires Inv(s)
    ensures IDLE !in s.ready && IDLE !in Queue(s, w)
  {
    assert RingAt(s, w);
  }

  function Reverse(q: seq<Tid>): seq<Tid> {
    if q == [] then [] else Reverse(q[1..]) + [q[0]]
  }

  /** Sleepers of one queue are woken in the order in which they fell asleep. */
  lemma WakeOneIsOldest(s: State, w: nat)
    requires Inv(s) && Queue(s, w) != []
    ensures var r := WakeOne(s, w);
            r.ready == [Queue(s, w)[0]] + s.ready && Queue(r, w) == Queue(s, w)[1..] &&
            forall v :: v != w ==> Queue(r, v) == Queue(s, v)
  {
    var q := Queue(s, w);
    assert q[0] in q && RingAt(s, w);
    WokenQueues(s, q[0]);
    RemovedLength(q[1..], q[0]);
    forall v | v != w ensures Queue(WakeOne(s, w), v) == Queue(s, v) {
      assert RingsApart(s, w, v);
      RemovedLength(Queue(s, v), q[0]);
    }
  }

  /**
   A wakeup of all puts the sleepers in front of the ready ring in reverse order: the last
   to fall asleep runs first, and before every thread that was ready already.
   */
  lemma {:induction false} WakeAllReverses(s: State, w: nat)
    requires Inv(s)
    ensures WakeAll(s, w).ready == Reverse(Queue(s, w)) + s.ready && Queue(WakeAll(s, w), w) == []
    decreases |Queue(s, w)|
  {
    hide Inv, WakeOne;
    var q := Queue(s, w);
    if q != [] {
      var r := WakeOne(s, w);
      WakeOneInv(s, w);
      WakeOneIsOldest(s, w);
      WakeAllReverses(r, w);
      assert Reverse(q) + s.ready == Reverse(q[1..]) + ([q[0]] + s.ready);
    }
  }

  // ---- who runs next ----------------------------------------------------------------------------

  /** The step ends with the current thread off the processor, or back in line. */
  predicate GivesUp(s: State, op: Op) {
    (op.Tick? && Lookup(s.timeout, s.current) <= 0) || op.SleepOn? || op.Suspend?
  }

  /** The threads in line when the current one gives up; one whose slice is used up goes to the back. */
  function Line(s: State, op: Op): seq<Tid> {
    if op.Tick? && s.current != IDLE then s.ready + [s.current] else s.ready
  }

  /** The state in which the step leaves the thread that gives up. */
  function Left(op: Op): TState {
    match op
    case SleepOn(_) => Waiting
    case Suspend(to) => to
    case _ => Ready
  }

  /** The front of the line runs next, for a slice of its priority; with nobody in line the idle thread does. */
  lemma NextInLine(s: State, op: Op)
    requires Inv(s) && Enabled(s, op) && GivesUp(s, op)
    ensures var r := Step(s, op);
            && (if Line(s, op) == [] then r.current == IDLE && r.ready == [] && Lookup(r.timeout, IDLE) == 0
                else [r.current] + r.ready == Line(s, op) && Lookup(r.timeout, r.current) == Lookup(s.prio, r.current))
            && r.prio == s.prio && (r.current != s.current ==> StateOf(r, s.current) == Left(op))
            && forall t :: t != s.current && t != r.current ==>
                 Lookup(r.timeout, t) == Lookup(s.timeout, t) && StateOf(r, t) == StateOf(s, t)
  {
    hide Inv, Pick;
    CurrentRuns(s);
    match op
    case Tick =>
      var s1 := s.(timeout := s.timeout[s.current := Lookup(s.timeout, s.current) - 1], state := s.state[s.current := Ready]);
      PickLine(s1);
    case SleepOn(w) =>
      PickLine(s.(waits := s.waits[w := Queue(s, w) + [s.current]], state := s.state[s.current := Waiting]));
    case Suspend(to) =>
      PickLine(s.(state := s.state[s.current := to]));
  }

  lemma PickLine(s: State)
    ensures var r := Pick(s);
            var line := if s.current != IDLE && StateOf(s, s.current) == Ready then s.ready + [s.current] else s.ready;
            && (if line == [] then r.current == IDLE && r.ready == [] && Lookup(r.timeout, IDLE) == 0
                else [r.current] + r.ready == line && Lookup(r.timeout, r.current) == Lookup(s.prio, r.current))
            && r.prio == s.prio
            && forall t :: t != r.current ==> Lookup(r.timeout, t) == Lookup(s.timeout, t) && StateOf(r, t) == StateOf(s, t)
  {
  }

  lemma CurrentRuns(s: State)
    requires Inv(s)
    ensures StateOf(s, s.current) == Running
  {
  }

  /** With some of its slice left a thread runs on. */
  lemma SliceLeft(s: State)
    requires Inv(s) && Lookup(s.timeout, s.current) > 0
    ensures Step(s, Tick) == s.(timeout := s.timeout[s.current := Lookup(s.timeout, s.current) - 1])
  {
  }

  predicate Wakes(op: Op) {
    op.Wakeup? || op.WakeupAll? || op.WakeThread? || op.SpawnThread?
  }

  predicate NoWakes(run: seq<Op>) {
    forall i :: 0 <= i < |run| ==> !Wakes(run[i])
  }

  /** How often the processor changes hands. */
  ghost function Turns(s: State, run: seq<Op>): nat
    decreases |run|
  {
    if run == [] then 0 else (if GivesUp(s, run[0]) then 1 else 0) + Turns(Step(s, run[0]), run[1..])
  }

  lemma FirstOf(s: State, run: seq<Op>, k: nat)
    requires run != [] && k < |run|
    ensures After(s, run[..k + 1]) == After(Step(s, run[0]), run[1..][..k])
    ensures Turns(s, run[..k + 1]) == (if GivesUp(s, run[0]) then 1 else 0) + Turns(Step(s, run[0]), run[1..][..k])
  {
    hide Step, GivesUp;
    assert run[..k + 1][1..] == run[1..][..k];
  }

  /** As long as nobody is woken, the thread in position i of the ready ring runs after i + 1 turns. */
  lemma {:induction false} RunsInTurn(s: State, run: seq<Op>, i: nat) returns (k: nat)
    requires Inv(s) && Possible(s, run) && NoWakes(run) && i < |s.ready| && i < Turns(s, run)
    ensures k <= |run| && After(s, run[..k]).current == s.ready[i] && Turns(s, run[..k]) == i + 1
    decreases |run|
  {
    hide Inv, Step, Enabled, GivesUp;
    var r := Step(s, run[0]);
    StepInv(s, run[0]);
    OneTurn(s, run[0], i);
    if GivesUp(s, run[0]) && i == 0 {
      k := 1;
      FirstOf(s, run, 0);
    } else {
      var rest := RunsInTurn(r, run[1..], if GivesUp(s, run[0]) then i - 1 else i);
      k := rest + 1;
      FirstOf(s, run, rest);
    }
  }

  /** A turn takes the line one step on, and no other step but a wakeup changes it. */
  lemma OneTurn(s: State, op: Op, i: nat)
    requires Inv(s) && Enabled(s, op) && !Wakes(op) && i < |s.ready|
    ensures var r := Step(s, op);
            if GivesUp(s, op) then
              if i == 0 then r.current == s.ready[0] else i <= |r.ready| && r.ready[i - 1] == s.ready[i]
            else i < |r.ready| && r.ready[i] == s.ready[i]
  {
    hide Inv;
    var r := Step(s, op);
    if GivesUp(s, op) {
      NextInLine(s, op);
      assert Line(s, op)[i] == s.ready[i] && ([r.current] + r.ready)[i] == s.ready[i];
    } else {
      SliceLeft(s);
    }
  }

  /** What the current thread has left of its slice. */
  function Slice(s: State): nat {
    if Lookup(s.timeout, s.current) > 0 then Lookup(s.timeout, s.current) else 0
  }

  ghost predicate SlicesUpTo(s: State, most: nat) {
    forall t :: Lookup(s.prio, t) <= most
  }

  lemma OneSlice(s: State, op: Op, most: nat)
    requires Inv(s) && Enabled(s, op) && !Wakes(op) && SlicesUpTo(s, most)
    ensures var r := Step(s, op);
            && SlicesUpTo(r, most)
            && (if GivesUp(s, op) then Slice(r) <= most else Slice(r) == Slice(s) - 1)
  {
    hide Inv;
    if GivesUp(s, op) {
      NextInLine(s, op);
    } else {
      SliceLeft(s);
    }
  }

  /** Slices of at most `most` ticks each force a turn often enough. */
  lemma {:induction false} TurnsCome(s: State, run: seq<Op>, m: nat, most: nat)
    requires Inv(s) && Possible(s, run) && NoWakes(run) && SlicesUpTo(s, most)
    requires |run| >= m * (most + 1) + Slice(s) + 1
    ensures Turns(s, run) > m
    decreases |run|
  {
    hide Inv, Step, Enabled, GivesUp, SlicesUpTo, Slice;
    StepInv(s, run[0]);
    OneSlice(s, run[0], most);
    if !GivesUp(s, run[0]) {
      TurnsCome(Step(s, run[0]), run[1..], m, most);
    } else if m > 0 {
      assert m * (most + 1) == (m - 1) * (most + 1) + (most + 1);
      TurnsCome(Step(s, run[0]), run[1..], m - 1, most);
    }
  }

  /** No ready thread starves while nobody is woken: in position i it runs within i + 1 full slices. */
  lemma NoStarvation(s: State, run: seq<Op>, i: nat, most: nat) returns (k: nat)
    requires Inv(s) && Possible(s, run) && NoWakes(run) && SlicesUpTo(s, most)
    requires i < |s.ready| && |run| >= i * (most + 1) + Slice(s) + 1
    ensures k <= |run| && After(s, run[..k]).current == s.ready[i]
  {
    hide Inv, Step, SlicesUpTo, Slice;
    TurnsCome(s, run, i, most);
    k := RunsInTurn(s, run, i);
  }

  // ---- starvation by wakeups -----------------------------------------------------------------------

  ghost predicate NeverRuns(s: State, run: seq<Op>, t: Tid)
    decreases |run|
  {
    s.current != t && (run == [] || (Enabled(s, run[0]) && NeverRuns(Step(s, run[0]), run[1..], t)))
  }

  /** Two threads that take turns: each wakes the other, which sleeps on w, before it sleeps on v. */
  function PingPong(v: nat, w: nat, n: nat): seq<Op>
    decreases n
  {
    if n == 0 then [] else [Wakeup(w)] + ([SleepOn(v)] + PingPong(w, v, n - 1))
  }

  lemma OneMore(s: State, op: Op, run: seq<Op>, t: Tid)
    requires s.current != t && Enabled(s, op) && NeverRuns(Step(s, op), run, t)
    ensures NeverRuns(s, [op] + run, t)
  {
    hide Step, Enabled;
    assert ([op] + run)[1..] == run;
  }

  /** a runs, b sleeps on w, and t is ready. */
  ghost predicate PingState(s: State, v: nat, w: nat, a: Tid, b: Tid, t: Tid) {
    && Inv(s) && s.current == a && s.ready == [t] && Queue(s, w) == [b] && Queue(s, v) == [] && v != w
    && a != IDLE && b != IDLE && t != a && t != b && a != b
  }

  lemma PingRound(s: State, v: nat, w: nat, a: Tid, b: Tid, t: Tid)
    requires PingState(s, v, w, a, b, t)
    ensures var s1 := Step(s, Wakeup(w));
            && s1.current == a && s1.ready == [b, t]
            && Enabled(s1, SleepOn(v))
            && PingState(Step(s1, SleepOn(v)), w, v, b, a, t)
  {
    hide Inv;
    WakeOneIsOldest(s, w);
    WakeOneInv(s, w);
    var s1 := Step(s, Wakeup(w));
    assert s1.ready == [b, t] && Queue(s1, v) == [] && Queue(s1, w) == [];
    SleepLast(s1, v);
    StepInv(s1, SleepOn(v));
    NextInLine(s1, SleepOn(v));
  }

  /** Because a wakeup goes to the front of the ready ring, two threads can keep a third one from running for good. */
  lemma {:induction false} Starves(s: State, v: nat, w: nat, a: Tid, b: Tid, t: Tid, n: nat)
    requires PingState(s, v, w, a, b, t)
    ensures NeverRuns(s, PingPong(v, w, n), t) && |PingPong(v, w, n)| == 2 * n
    decreases n
  {
    hide Step;
    assert s.current == a && Enabled(s, Wakeup(w));
    if n > 0 {
      PingRound(s, v, w, a, b, t);
      var s1 := Step(s, Wakeup(w));
      var s2 := Step(s1, SleepOn(v));
      Starves(s2, w, v, b, a, t, n - 1);
      OneMore(s1, SleepOn(v), PingPong(w, v, n - 1), t);
      OneMore(s, Wakeup(w), [SleepOn(v)] + PingPong(w, v, n - 1), t);
    }
  }

  // ---- the order of sleepers -------------------------------------------------------------------------

  /** A sleeper joins the back of its ring, and no other ring changes. */
  lemma SleepLast(s: State, w: nat)
    requires Inv(s)
    ensures var r := Sleep(s, w);
            && Queue(r, w) == Queue(s, w) + [s.current]
            && forall v :: v != w ==> Queue(r, v) == Queue(s, v)
  {
  }

  ghost predicate Before(q: seq<Tid>, t: Tid, u: Tid) {
    exists i, j :: 0 <= i < j < |q| && q[i] == t && q[j] == u
  }

  lemma {:induction false} RemovedBefore(q: seq<Tid>, x: Tid, t: Tid, u: Tid)
    requires Before(q, t, u) && x != t && x != u
    ensures Before(Removed(q, x), t, u)
  {
    var i, j :| 0 <= i < j < |q| && q[i] == t && q[j] == u;
    var rest := Removed(q[1..], x);
    if i > 0 {
      assert q[1..][i - 1] == t && q[1..][j - 1] == u;
      RemovedBefore(q[1..], x, t, u);
      var k, l :| 0 <= k < l < |rest| && rest[k] == t && rest[l] == u;
      if q[0] != x {
        assert Removed(q, x)[k + 1] == t && Removed(q, x)[l + 1] == u;
      } else {
        assert Removed(q, x) == rest;
      }
    } else {
      assert q[1..][j - 1] == u;
      assert u in rest;
      var l :| 0 <= l < |rest| && rest[l] == u;
      assert Removed(q, x)[0] == t && Removed(q, x)[l + 1] == u;
    }
  }

  lemma {:induction false} WakeAllOthers(s: State, w: nat, v: nat)
    requires Inv(s) && v != w
    ensures Queue(WakeAll(s, w), v) == Queue(s, v)
    decreases |Queue(s, w)|
  {
    hide Inv, WakeOne;
    if Queue(s, w) != [] {
      WakeOneInv(s, w);
      WakeOneIsOldest(s, w);
      WakeAllOthers(WakeOne(s, w), w, v);
    }
  }

  /** Of two sleepers the one that came later is not woken before the other, unless it is woken by name. */
  lemma FirstInFirstOut(s: State, op: Op, w: nat, t: Tid, u: Tid)
    requires Inv(s) && Enabled(s, op) && op != WakeThread(u)
    requires Before(Queue(s, w), t, u) && t in Queue(Step(s, op), w)
    ensures Before(Queue(Step(s, op), w), t, u)
  {
    hide Inv;
    var q := Queue(s, w);
    var i, j :| 0 <= i < j < |q| && q[i] == t && q[j] == u;
    Asleep(s, w, u);
    match op
    case Tick =>
    case Suspend(_) =>
    case SleepOn(v) => SleepLast(s, v); assert Queue(Step(s, op), w)[j] == u;
    case Wakeup(v) => OldestFirst(s, v, w, t, u);
    case WakeupAll(v) => if v == w { WakeAllReverses(s, w); } else { WakeAllOthers(s, v, w); }
    case WakeThread(x) => WokenQueues(s, x); RemovedBefore(q, x, t, u);
    case SpawnThread(x, prio) => Asleep(s, w, t); RemovedBefore(q, x, t, u);
  }

  lemma Asleep(s: State, w: nat, t: Tid)
    requires Inv(s) && t in Queue(s, w)
    ensures t in s.state && s.state[t] == Waiting
  {
    assert RingAt(s, w);
  }

  lemma OldestFirst(s: State, v: nat, w: nat, t: Tid, u: Tid)
    requires Inv(s) && Before(Queue(s, w), t, u) && t in Queue(WakeOne(s, v), w)
    ensures Before(Queue(WakeOne(s, v), w), t, u)
  {
    if Queue(s, v) != [] {
      WakeOneIsOldest(s, v);
      if v == w {
        var q := Queue(s, w);
        var i, j :| 0 <= i < j < |q| && q[i] == t && q[j] == u;
        assert RingAt(s, w);
        assert i > 0;
        assert q[1..][i - 1] == t && q[1..][j - 1] == u;
      }
    }
  }

  /** Thread t sleeps on w throughout, and u is not woken by name. */
  ghost predicate SleepsOn(s: State, run: seq<Op>, w: nat, t: Tid, u: Tid)
    decreases |run|
  {
    t in Queue(s, w) && (run == [] || (run[0] != WakeThread(u) && SleepsOn(Step(s, run[0]), run[1..], w, t, u)))
  }

  /** Over any run: while a sleeper waits, nobody behind it in its queue is woken but by name. */
  lemma {:induction false} NoOvertaking(s: State, run: seq<Op>, w: nat, t: Tid, u: Tid)
    requires Inv(s) && Possible(s, run) && SleepsOn(s, run, w, t, u) && Before(Queue(s, w), t, u)
    ensures Before(Queue(After(s, run), w), t, u)
    decreases |run|
  {
    hide Inv, Step, Enabled, Before;
    if run != [] {
      StepInv(s, run[0]);
      FirstInFirstOut(s, run[0], w, t, u);
      NoOvertaking(Step(s, run[0]), run[1..], w, t, u);
    }
  }

  // ---- the scheduler as the kernel changes it ---------------------------------------------------

  class Cpu {
    var current: Tid
    var ready: seq<Tid>
    var waits: map<nat, seq<Tid>>
    var state: map<Tid, TState>
    var timeout: map<Tid, int>
    var prio: map<Tid, int>

    function Value(): State
      reads this
    {
      State(current, ready, waits, state, timeout, prio)
    }

    /** sched_init */
    constructor ()
      ensures Initial(Value())
    {
      current, ready, waits, state := IDLE, [], map[], map[IDLE := Running];
      timeout, prio := map[IDLE := 1], map[];
    }

    /** schedule */
    method Reschedule()
      modifies this
      ensures Value() == Schedule(old(Value()))
    {
      hide Pick;
      if StateOf(Value(), current) == Running {
        var left := Lookup(timeout, current);
        timeout := timeout[current := left - 1];
        if left > 0 {
          return;
        }
        state := state[current := Ready];
      }
      PickNext();
    }

    /** The rest of schedule: queue the thread that gives way, and run the front of the ready ring. */
    method PickNext()
      modifies this
      ensures Value() == Pick(old(Value()))
    {
      if current != IDLE && StateOf(Value(), current) == Ready {
        ready := ready + [current];
      }
      if ready == [] {
        current := IDLE;
        timeout := timeout[IDLE := 0];
      } else {
        current := ready[0];
        ready := ready[1..];
        timeout := timeout[current := Lookup(prio, current)];
      }
      state := state[current := Running];
    }

    /** sched_wakeup */
    method MakeReady(t: Tid)
      modifies this
      ensures Value() == WakeUp(old(Value()), t)
    {
      waits := map w | w in waits :: Removed(waits[w], t);
      state := state[t := Ready];
      ready := [t] + ready;
    }

    /** wait_sleep of the current thread. */
    method SleepCurrent(w: nat)
      modifies this
      ensures Value() == Sleep(old(Value()), w)
    {
      state := state[current := Waiting];
      waits := waits[w := Queue(Value(), w) + [current]];
      Reschedule();
    }

    /** wait_wakeup */
    method WakeFirst(w: nat)
      modifies this
      ensures Value() == WakeOne(old(Value()), w)
    {
      var q := Queue(Value(), w);
      if q != [] {
        MakeReady(q[0]);
      }
    }

    /** wait_wakeup_all */
    method WakeEveryone(w: nat)
      modifies this
      ensures Value() == WakeAll(old(Value()), w)
    {
      while Queue(Value(), w) != []
        invariant WakeAll(Value(), w) == WakeAll(old(Value()), w)
        decreases |Queue(Value(), w)|
      {
        Shrinks(Queue(Value(), w));
        WokenQueues(Value(), Queue(Value(), w)[0]);
        WakeFirst(w);
      }
    }
  }
}
