/**
 The read-write lock.  A step is one section of code that runs under the lock's spinlock;
 going to sleep ends a section, and a woken thread runs on in a step of its own.
 */
module RwLock {
  import opened Threads

  datatype Phase =
    | Idle
    | ReadSleep | ReadWoken | Reading
    | WriteSleep | WriteWoken | Writing

  datatype State = State(active: int, wrCount: int, rdCount: int,
                         rdWait: seq<Tid>, wrWait: seq<Tid>, phase: map<Tid, Phase>)

  /** rwlock_init, with all threads idle. */
  ghost predicate Initial(s: State) {
    s.active == 0 && s.wrCount == 0 && s.rdCount == 0 && s.rdWait == [] && s.wrWait == [] &&
    forall t :: t in s.phase ==> s.phase[t] == Idle
  }

  // ---- wait queues ------------------------------------------------------------------

  function SleepRd(s: State, t: Tid): State {
    s.(rdWait := s.rdWait + [t], phase := s.phase[t := ReadSleep])
  }

  function SleepWr(s: State, t: Tid): State {
    s.(wrWait := s.wrWait + [t], phase := s.phase[t := WriteSleep])
  }

  function WakeWr(s: State): State {
    if s.wrWait == [] then s
    else s.(wrWait := s.wrWait[1..], phase := s.phase[s.wrWait[0] := WriteWoken])
  }

  function WakeAllRd(s: State): State {
    s.(rdWait := [], phase := MoveAll(s.phase, ReadSleep, ReadWoken))
  }

  // ---- the steps -------------------------------------------------------------------------

  datatype Op = LockShared | UnlockShared | LockExclusive | UnlockExclusive | Upgrade | Downgrade | Resume

  /** A thread may only release what it holds; only a woken thread resumes. */
  predicate Enabled(s: State, t: Tid, op: Op) {
    t in s.phase &&
    match op
    case LockShared => s.phase[t] == Idle
    case LockExclusive => s.phase[t] == Idle
    case UnlockShared => s.phase[t] == Reading
    case Upgrade => s.phase[t] == Reading
    case UnlockExclusive => s.phase[t] == Writing
    case Downgrade => s.phase[t] == Writing
    case Resume => s.phase[t] == ReadWoken || s.phase[t] == WriteWoken
  }

  /** The tail of rwlock_lock_shared, from the loop on. */
  function TryRead(s: State, t: Tid): State {
    if s.active < 0 then SleepRd(s, t)
    else s.(active := s.active + 1, rdCount := s.rdCount - 1, phase := s.phase[t := Reading])
  }

  /** The tail of rwlock_lock_exclusive and rwlock_upgrade, from the loop on. */
  function TryWrite(s: State, t: Tid): State {
    if s.active != 0 then SleepWr(s, t)
    else s.(wrCount := s.wrCount - 1, active := -1, phase := s.phase[t := Writing])
  }

  function Step(s: State, t: Tid, op: Op): (r: State)
    requires Enabled(s, t, op)
  {
    match op
    case LockShared =>
      var s1 := s.(rdCount := s.rdCount + 1);
      if s.wrCount > 0 then SleepRd(s1, t) else TryRead(s1, t)
    case UnlockShared =>
      var s1 := s.(active := s.active - 1, phase := s.phase[t := Idle]);
      if s1.active == 0 then WakeWr(s1) else s1
    case LockExclusive => TryWrite(s.(wrCount := s.wrCount + 1), t)
    case UnlockExclusive =>
      var s1 := s.(active := 0, phase := s.phase[t := Idle]);
      if s.rdCount > 0 then WakeAllRd(s1) else WakeWr(s1)
    case Upgrade =>
      if s.active == 1 then s.(active := -1, phase := s.phase[t := Writing])
      else TryWrite(s.(wrCount := s.wrCount + 1, active := s.active - 1), t)
    case Downgrade => WakeAllRd(s.(active := 1, phase := s.phase[t := Reading]))
    case Resume => if s.phase[t] == ReadWoken then TryRead(s, t) else TryWrite(s, t)
  }

  // ---- the invariant --------------------------------------------------------------------

  /** active is -1 exactly under one writer, and otherwise counts the readers. */
  ghost predicate Exclusion(s: State) {
    if s.active == -1 then Size(s.phase, Writing) == 1 && Size(s.phase, Reading) == 0
    else s.active == Size(s.phase, Reading) && Size(s.phase, Writing) == 0
  }

  /** The counts are those of the sleeping and the woken waiters. */
  ghost predicate Counts(s: State) {
    && s.rdCount == Size(s.phase, ReadSleep) + Size(s.phase, ReadWoken)
    && s.wrCount == Size(s.phase, WriteSleep) + Size(s.phase, WriteWoken)
  }

  ghost predicate Queues(s: State) {
    Lists(s.phase, ReadSleep, s.rdWait) && Lists(s.phase, WriteSleep, s.wrWait)
  }

  /** Readers sleep only behind a writer; writers sleep at a free lock only if a wakeup is under way. */
  ghost predicate Wakeups(s: State) {
    && (s.active >= 0 && s.rdWait != [] ==> s.wrCount > 0)
    && (s.active == 0 && s.wrWait != [] ==> Size(s.phase, ReadWoken) + Size(s.phase, WriteWoken) > 0)
  }

  ghost predicate Inv(s: State) {
    Exclusion(s) && Counts(s) && Queues(s) && Wakeups(s)
  }

  lemma InitialInv(s: State)
    requires Initial(s)
    ensures Inv(s)
  {
    assert In(s.phase, Reading) == {} && In(s.phase, Writing) == {};
    assert In(s.phase, ReadSleep) == {} && In(s.phase, ReadWoken) == {};
    assert In(s.phase, WriteSleep) == {} && In(s.phase, WriteWoken) == {};
  }

  /** The sizes of all phases after one thread changed phase. */
  lemma Sizes(phase: map<Tid, Phase>, t: Tid, to: Phase)
    requires t in phase
    ensures forall p :: Size(phase[t := to], p) ==
                        Size(phase, p) - (if phase[t] == p then 1 else 0) + (if to == p then 1 else 0)
  {
    forall p ensures Size(phase[t := to], p) ==
                     Size(phase, p) - (if phase[t] == p then 1 else 0) + (if to == p then 1 else 0)
    {
      Moved(phase, t, to, p);
    }
  }

  lemma AllSizes(phase: map<Tid, Phase>)
    ensures forall p :: Size(MoveAll(phase, ReadSleep, ReadWoken), p) ==
                        if p == ReadSleep then 0
                        else if p == ReadWoken then Size(phase, ReadWoken) + Size(phase, ReadSleep) else Size(phase, p)
  {
    forall p ensures Size(MoveAll(phase, ReadSleep, ReadWoken), p) ==
                     if p == ReadSleep then 0
                     else if p == ReadWoken then Size(phase, ReadWoken) + Size(phase, ReadSleep) else Size(phase, p)
    {
      MovedAll(phase, ReadSleep, ReadWoken, p);
    }
  }

  lemma Present(s: State, t: Tid)
    requires Queues(s) && t in s.phase
    ensures Size(s.phase, s.phase[t]) > 0
    ensures Size(s.phase, ReadSleep) == |s.rdWait| && Size(s.phase, WriteSleep) == |s.wrWait|
  {
    SomeIn(s.phase, s.phase[t], t);
    ListSize(s.phase, ReadSleep, s.rdWait);
    ListSize(s.phase, WriteSleep, s.wrWait);
  }

  // ---- one lemma for each way a section ends ------------------------------------------------

  lemma SleepRdInv(s: State, t: Tid)
    requires Queues(s) && Exclusion(s) && t in s.phase && s.phase[t] in {Idle, ReadWoken}
    requires s.rdCount == Size(s.phase, ReadSleep) + Size(s.phase, ReadWoken) + (if s.phase[t] == Idle then 1 else 0)
    requires s.wrCount == Size(s.phase, WriteSleep) + Size(s.phase, WriteWoken)
    requires s.active < 0 || (s.wrCount > 0 && s.phase[t] == Idle)
    requires Wakeups(s)
    ensures Inv(SleepRd(s, t))
  {
    hide Size;
    Sizes(s.phase, t, ReadSleep);
    var r := SleepRd(s, t);
    assert Lists(r.phase, ReadSleep, r.rdWait);
  }

  lemma TryReadInv(s: State, t: Tid)
    requires Queues(s) && Exclusion(s) && t in s.phase && s.phase[t] in {Idle, ReadWoken}
    requires s.rdCount == Size(s.phase, ReadSleep) + Size(s.phase, ReadWoken) + (if s.phase[t] == Idle then 1 else 0)
    requires s.wrCount == Size(s.phase, WriteSleep) + Size(s.phase, WriteWoken)
    requires Wakeups(s)
    ensures Inv(TryRead(s, t))
  {
    hide Size;
    if s.active < 0 {
      SleepRdInv(s, t);
    } else {
      Sizes(s.phase, t, Reading);
    }
  }

  /** t counts as a waiting writer already, and holds nothing. */
  lemma TryWriteInv(s: State, t: Tid, readers: nat)
    requires Queues(s) && t in s.phase && s.phase[t] in {Idle, WriteWoken, Reading}
    requires s.active >= -1 && (if s.active == -1 then Size(s.phase, Writing) == 1 && Size(s.phase, Reading) == 0
             else readers == s.active && Size(s.phase, Writing) == 0)
    requires s.active >= 0 ==> Size(s.phase, Reading) == readers + (if s.phase[t] == Reading then 1 else 0)
    requires s.phase[t] == Reading ==> s.active > 0
    requires s.rdCount == Size(s.phase, ReadSleep) + Size(s.phase, ReadWoken)
    requires s.wrCount == Size(s.phase, WriteSleep) + Size(s.phase, WriteWoken) + (if s.phase[t] == WriteWoken then 0 else 1)
    ensures Inv(TryWrite(s, t))
  {
    hide Size;
    if s.active != 0 {
      Sizes(s.phase, t, WriteSleep);
      var r := SleepWr(s, t);
      Present(s, t);
      assert Lists(r.phase, WriteSleep, r.wrWait);
    } else {
      Sizes(s.phase, t, Writing);
    }
  }

  lemma WakeAllRdInv(s: State)
    requires Queues(s) && Exclusion(s) && Counts(s) && (s.active == 0 ==> s.rdCount > 0)
    ensures Inv(WakeAllRd(s))
  {
    hide Size;
    AllSizes(s.phase);
    var r := WakeAllRd(s);
    assert Lists(r.phase, WriteSleep, r.wrWait);
  }

  /** A release to a free lock wakes a writer, if one sleeps. */
  lemma WakeWrInv(s: State)
    requires Queues(s) && Exclusion(s) && Counts(s) && s.active == 0 && (s.rdWait != [] ==> s.wrCount > 0)
    ensures Inv(WakeWr(s))
  {
    hide Size;
    if s.wrWait != [] {
      var t := s.wrWait[0];
      assert t in s.wrWait;
      Sizes(s.phase, t, WriteWoken);
      var r := WakeWr(s);
      Present(s, t);
      assert s.wrWait == [t] + r.wrWait;
      assert Lists(r.phase, WriteSleep, r.wrWait);
    }
  }

  lemma AcquireInv(s: State, t: Tid, op: Op)
    requires Inv(s) && Enabled(s, t, op) && op in {LockShared, LockExclusive, Resume}
    ensures Inv(Step(s, t, op))
  {
    hide Size;
    Present(s, t);
    match op
    case LockShared =>
      var s1 := s.(rdCount := s.rdCount + 1);
      if s.wrCount > 0 {
        SleepRdInv(s1, t);
      } else {
        TryReadInv(s1, t);
      }
    case LockExclusive => TryWriteInv(s.(wrCount := s.wrCount + 1), t, if s.active < 0 then 0 else s.active);
    case Resume =>
      if s.phase[t] == ReadWoken {
        TryReadInv(s, t);
      } else {
        TryWriteInv(s, t, if s.active < 0 then 0 else s.active);
      }
  }

  lemma ReleaseInv(s: State, t: Tid, op: Op)
    requires Inv(s) && Enabled(s, t, op) && op in {UnlockShared, UnlockExclusive}
    ensures Inv(Step(s, t, op))
  {
    hide Size;
    Present(s, t);
    Sizes(s.phase, t, Idle);
    if op == UnlockShared {
      var s1 := s.(active := s.active - 1, phase := s.phase[t := Idle]);
      if s1.active == 0 {
        WakeWrInv(s1);
      }
    } else {
      var s1 := s.(active := 0, phase := s.phase[t := Idle]);
      if s.rdCount > 0 {
        WakeAllRdInv(s1);
      } else {
        WakeWrInv(s1);
      }
    }
  }

  lemma ConvertInv(s: State, t: Tid, op: Op)
    requires Inv(s) && Enabled(s, t, op) && op in {Upgrade, Downgrade}
    ensures Inv(Step(s, t, op))
  {
    hide Size;
    Present(s, t);
    if op == Upgrade {
      Sizes(s.phase, t, Writing);
      if s.active != 1 {
        TryWriteInv(s.(wrCount := s.wrCount + 1, active := s.active - 1), t, s.active - 1);
      }
    } else {
      Sizes(s.phase, t, Reading);
      WakeAllRdInv(s.(active := 1, phase := s.phase[t := Reading]));
    }
  }

  /** Every step keeps the invariant. */
  lemma StepInv(s: State, t: Tid, op: Op)
    requires Inv(s) && Enabled(s, t, op)
    ensures Inv(Step(s, t, op))
  {
    hide Inv, Step, Enabled;
    if op in {LockShared, LockExclusive, Resume} {
      AcquireInv(s, t, op);
    } else if op in {UnlockShared, UnlockExclusive} {
      ReleaseInv(s, t, op);
    } else {
      ConvertInv(s, t, op);
    }
  }

  // ---- what the invariant means -----------------------------------------------------------------

  /** A writer holds the lock alone. */
  lemma WriterAlone(s: State, t: Tid, u: Tid)
    requires Inv(s) && t in s.phase && s.phase[t] == Writing && u in s.phase && s.phase[u] in {Reading, Writing}
    ensures t == u
  {
    SomeIn(s.phase, Writing, t);
    SomeIn(s.phase, s.phase[u], u);
    OneIn(s.phase, Writing, t, u);
  }

  predicate Asleep(s: State, t: Tid) {
    t in s.phase && s.phase[t] in {ReadSleep, WriteSleep}
  }

  predicate Woken(s: State, t: Tid) {
    t in s.phase && s.phase[t] in {ReadWoken, WriteWoken}
  }

  predicate Holds(s: State, t: Tid) {
    t in s.phase && s.phase[t] in {Reading, Writing}
  }

  /** No wakeup is lost: if a thread sleeps at a free lock, some woken waiter is about to run. */
  lemma NoLostWakeup(s: State, t: Tid) returns (u: Tid)
    requires Inv(s) && Asleep(s, t) && s.active == 0
    ensures Woken(s, u)
  {
    Present(s, t);
    if Size(s.phase, ReadWoken) > 0 {
      u :| u in In(s.phase, ReadWoken);
    } else {
      u :| u in In(s.phase, WriteWoken);
    }
  }

  /** Nobody sleeps forever on an abandoned lock: a sleeper implies a holder or a woken waiter. */
  lemma SleeperHasReason(s: State, t: Tid) returns (u: Tid)
    requires Inv(s) && Asleep(s, t)
    ensures Woken(s, u) || Holds(s, u)
  {
    if s.active == 0 {
      u := NoLostWakeup(s, t);
    } else if s.active == -1 {
      u :| u in In(s.phase, Writing);
    } else {
      u :| u in In(s.phase, Reading);
    }
  }

  // ---- who gets the lock ------------------------------------------------------------------------

  predicate WritesOrWaits(s: State, t: Tid) {
    t in s.phase && s.phase[t] in {Writing, WriteSleep, WriteWoken}
  }

  predicate Writes(s: State, t: Tid) {
    t in s.phase && s.phase[t] == Writing
  }

  predicate ReadWaits(s: State, t: Tid) {
    t in s.phase && s.phase[t] in {ReadSleep, ReadWoken}
  }

  lemma SizeMeans(phase: map<Tid, Phase>, p: Phase)
    ensures Size(phase, p) > 0 <==> exists t :: t in phase && phase[t] == p
  {
    if Size(phase, p) > 0 {
      var t :| t in In(phase, p);
    } else {
      forall t | t in phase && phase[t] == p ensures false {
        SomeIn(phase, p, t);
      }
    }
  }

  /** The counters in terms of threads. */
  lemma Census(s: State)
    requires Inv(s)
    ensures s.active < 0 <==> exists u :: Writes(s, u)
    ensures s.active != 0 <==> exists u :: Holds(s, u)
    ensures s.active < 0 || s.wrCount > 0 <==> exists u :: WritesOrWaits(s, u)
    ensures s.rdCount > 0 <==> exists u :: ReadWaits(s, u)
  {
    hide Size;
    forall p: Phase ensures Size(s.phase, p) > 0 <==> exists t :: t in s.phase && s.phase[t] == p {
      SizeMeans(s.phase, p);
    }
    if s.active < 0 {
      var u :| u in s.phase && s.phase[u] == Writing;
      assert Writes(s, u) && Holds(s, u) && WritesOrWaits(s, u);
    } else if s.active > 0 {
      var u :| u in s.phase && s.phase[u] == Reading;
      assert Holds(s, u);
    }
    if s.wrCount > 0 {
      var u :| u in s.phase && s.phase[u] in {WriteSleep, WriteWoken};
      assert WritesOrWaits(s, u);
    }
    if s.rdCount > 0 {
      var u :| u in s.phase && s.phase[u] in {ReadSleep, ReadWoken};
      assert ReadWaits(s, u);
    }
  }

  /** The last reader is the only thread that holds the lock. */
  lemma LastReader(s: State, t: Tid)
    requires Inv(s) && t in s.phase && s.phase[t] == Reading
    ensures s.active > 0
    ensures s.active == 1 <==> forall u :: Holds(s, u) ==> u == t
  {
    SomeIn(s.phase, Reading, t);
    SizeMeans(s.phase, Writing);
    if s.active == 1 {
      forall u | Holds(s, u) ensures u == t {
        OneIn(s.phase, Reading, t, u);
      }
    }
    if forall u :: Holds(s, u) ==> u == t {
      OnlyReader(s, t);
    }
  }

  lemma OnlyReader(s: State, t: Tid)
    requires Inv(s) && t in s.phase && s.phase[t] == Reading && forall u :: Holds(s, u) ==> u == t
    ensures s.active == 1
  {
    SomeIn(s.phase, Reading, t);
    forall u | u in In(s.phase, Reading) ensures u == t {
      assert Holds(s, u);
    }
    assert In(s.phase, Reading) == {t};
  }

  /** A new reader gets in unless a writer holds the lock or waits for it, a new writer unless anybody holds it. */
  lemma NewcomerAdmitted(s: State, t: Tid, op: Op)
    requires Inv(s) && Enabled(s, t, op) && op in {LockShared, LockExclusive}
    ensures var r := Step(s, t, op);
            if op == LockShared then
              if exists u :: WritesOrWaits(s, u) then r.phase == s.phase[t := ReadSleep] && r.rdWait == s.rdWait + [t]
              else r.phase == s.phase[t := Reading]
            else
              if exists u :: Holds(s, u) then r.phase == s.phase[t := WriteSleep] && r.wrWait == s.wrWait + [t]
              else r.phase == s.phase[t := Writing]
  {
    hide Inv;
    Census(s);
    Signs(s);
  }

  lemma Signs(s: State)
    requires Inv(s)
    ensures s.active >= -1 && s.wrCount >= 0 && s.rdCount >= 0
  {
  }

  /** A woken reader gets in unless a writer holds the lock, however many wait; a woken writer unless anybody holds it. */
  lemma WaiterAdmitted(s: State, t: Tid)
    requires Inv(s) && Enabled(s, t, Resume)
    ensures var r := Step(s, t, Resume);
            if s.phase[t] == ReadWoken then
              if exists u :: Writes(s, u) then r.phase == s.phase[t := ReadSleep] && r.rdWait == s.rdWait + [t]
              else r.phase == s.phase[t := Reading]
            else
              if exists u :: Holds(s, u) then r.phase == s.phase[t := WriteSleep] && r.wrWait == s.wrWait + [t]
              else r.phase == s.phase[t := Writing]
  {
    hide Inv;
    Census(s);
    Signs(s);
  }

  /** A reader that upgrades writes at once if it is the only one, and otherwise gives up its share and waits. */
  lemma UpgradeAdmitted(s: State, t: Tid)
    requires Inv(s) && Enabled(s, t, Upgrade)
    ensures var r := Step(s, t, Upgrade);
            if exists u :: u != t && Holds(s, u) then
              r.phase == s.phase[t := WriteSleep] && r.wrWait == s.wrWait + [t] && r.active == s.active - 1
            else r.phase == s.phase[t := Writing]
  {
    hide Inv;
    LastReader(s, t);
  }

  /**
   A writer that leaves wakes all sleeping readers if any reader waits, and only otherwise the oldest
   sleeping writer.  The last reader that leaves wakes the oldest sleeping writer, and an earlier one nobody.
   */
  lemma HandOver(s: State, t: Tid, op: Op)
    requires Inv(s) && Enabled(s, t, op) && op in {UnlockShared, UnlockExclusive, Downgrade}
    ensures var r := Step(s, t, op); var left := s.phase[t := if op == Downgrade then Reading else Idle];
            if op == Downgrade || (op == UnlockExclusive && exists u :: ReadWaits(s, u)) then
              r.phase == MoveAll(left, ReadSleep, ReadWoken) && r.rdWait == [] && r.wrWait == s.wrWait
            else if s.wrWait == [] || (exists u :: u != t && Holds(s, u)) then
              r.phase == left && r.wrWait == s.wrWait && r.rdWait == s.rdWait
            else
              r.phase == left[s.wrWait[0] := WriteWoken] && r.wrWait == s.wrWait[1..] && r.rdWait == s.rdWait
  {
    hide Inv;
    Census(s);
    if op == UnlockShared {
      LastReader(s, t);
    } else {
      forall u | Holds(s, u) ensures u == t {
        WriterAlone(s, t, u);
      }
    }
  }

  datatype Event = Event(t: Tid, op: Op)

  ghost predicate Possible(s: State, run: seq<Event>)
    decreases |run|
  {
    run == [] || (Enabled(s, run[0].t, run[0].op) && Possible(Step(s, run[0].t, run[0].op), run[1..]))
  }

  ghost function After(s: State, run: seq<Event>): State
    requires Possible(s, run)
    decreases |run|
  {
    if run == [] then s else After(Step(s, run[0].t, run[0].op), run[1..])
  }

  /** After every run of lock operations, in any interleaving: mutual exclusion, exact counts, no lost wakeup. */
  lemma {:induction false} RunInv(s: State, run: seq<Event>)
    requires Inv(s) && Possible(s, run)
    ensures Inv(After(s, run))
    decreases |run|
  {
    hide Inv, Step, Enabled;
    if run != [] {
      StepInv(s, run[0].t, run[0].op);
      RunInv(Step(s, run[0].t, run[0].op), run[1..]);
    }
  }

  /** From a new lock on: a writer holds it alone, whoever else comes. */
  lemma FirstRun(s: State, run: seq<Event>, t: Tid, u: Tid)
    requires Initial(s) && Possible(s, run)
    ensures var r := After(s, run);
            && Inv(r)
            && (t in r.phase && r.phase[t] == Writing && u in r.phase && r.phase[u] in {Reading, Writing} ==> t == u)
  {
    hide Inv, Initial;
    InitialInv(s);
    RunInv(s, run);
    var r := After(s, run);
    if t in r.phase && r.phase[t] == Writing && u in r.phase && r.phase[u] in {Reading, Writing} {
      WriterAlone(r, t, u);
    }
  }

  // ---- the lock as the kernel changes it -----------------------------------------------------------

  class Lock {
    var active: int
    var wrCount: int
    var rdCount: int
    var rdWait: seq<Tid>
    var wrWait: seq<Tid>
    /** Where each thread is in its use of the lock. */
    var phase: map<Tid, Phase>

    function Value(): State
      reads this
    {
      State(active, wrCount, rdCount, rdWait, wrWait, phase)
    }

    constructor (threads: set<Tid>)
      ensures Initial(Value()) && phase.Keys == threads
    {
      active, wrCount, rdCount := 0, 0, 0;
      rdWait, wrWait := [], [];
      phase := map t | t in threads :: Idle;
    }

    method SleepReader(t: Tid)
      modifies this`rdWait, this`phase
      ensures Value() == SleepRd(old(Value()), t)
    {
      phase := phase[t := ReadSleep];
      rdWait := rdWait + [t];
    }

    method SleepWriter(t: Tid)
      modifies this`wrWait, this`phase
      ensures Value() == SleepWr(old(Value()), t)
    {
      phase := phase[t := WriteSleep];
      wrWait := wrWait + [t];
    }

    method WakeWriter()
      modifies this`wrWait, this`phase
      ensures Value() == WakeWr(old(Value()))
    {
      if wrWait != [] {
        phase := phase[wrWait[0] := WriteWoken];
        wrWait := wrWait[1..];
      }
    }

    /** wait_wakeup_all on the readers' queue, one thread after the other. */
    method WakeReaders()
      requires Lists(phase, ReadSleep, rdWait)
      modifies this`rdWait, this`phase
      ensures Value() == WakeAllRd(old(Value()))
    {
      ghost var phase0 := phase;
      while rdWait != []
        invariant Lists(phase, ReadSleep, rdWait)
        invariant MoveAll(phase, ReadSleep, ReadWoken) == MoveAll(phase0, ReadSleep, ReadWoken)
        decreases |rdWait|
      {
        var t := rdWait[0];
        assert t in rdWait && rdWait == [t] + rdWait[1..];
        phase := phase[t := ReadWoken];
        rdWait := rdWait[1..];
      }
      assert MoveAll(phase, ReadSleep, ReadWoken) == phase;
    }

    /** rwlock_lock_shared up to its first sleep or its return. */
    method LockSharedStart(t: Tid)
      requires Enabled(Value(), t, LockShared)
      modifies this
      ensures Value() == Step(old(Value()), t, LockShared)
    {
      rdCount := rdCount + 1;
      if wrCount > 0 {
        SleepReader(t);
      } else {
        ReadLoop(t);
      }
    }

    method ReadLoop(t: Tid)
      modifies this
      ensures Value() == TryRead(old(Value()), t)
    {
      if active < 0 {
        SleepReader(t);
      } else {
        active := active + 1;
        rdCount := rdCount - 1;
        phase := phase[t := Reading];
      }
    }

    method WriteLoop(t: Tid)
      modifies this
      ensures Value() == TryWrite(old(Value()), t)
    {
      if active != 0 {
        SleepWriter(t);
      } else {
        wrCount := wrCount - 1;
        active := -1;
        phase := phase[t := Writing];
      }
    }

    /** A woken thread runs on in its loop. */
    method ResumeWaiter(t: Tid)
      requires Enabled(Value(), t, Resume)
      modifies this
      ensures Value() == Step(old(Value()), t, Resume)
    {
      if phase[t] == ReadWoken {
        ReadLoop(t);
      } else {
        WriteLoop(t);
      }
    }

    /** rwlock_unlock_shared */
    method ReleaseShared(t: Tid)
      requires Enabled(Value(), t, UnlockShared)
      modifies this
      ensures Value() == Step(old(Value()), t, UnlockShared)
    {
      active := active - 1;
      phase := phase[t := Idle];
      if active == 0 {
        WakeWriter();
      }
    }

    /** rwlock_lock_exclusive up to its first sleep or its return. */
    method LockExclusiveStart(t: Tid)
      requires Enabled(Value(), t, LockExclusive)
      modifies this
      ensures Value() == Step(old(Value()), t, LockExclusive)
    {
      wrCount := wrCount + 1;
      WriteLoop(t);
    }

    /** rwlock_unlock_exclusive */
    method ReleaseExclusive(t: Tid)
      requires Inv(Value()) && Enabled(Value(), t, UnlockExclusive)
      modifies this
      ensures Value() == Step(old(Value()), t, UnlockExclusive)
    {
      active := 0;
      phase := phase[t := Idle];
      if rdCount > 0 {
        WakeReaders();
      } else {
        WakeWriter();
      }
    }

    /** rwlock_upgrade up to its first sleep or its return. */
    method UpgradeStart(t: Tid)
      requires Enabled(Value(), t, Upgrade)
      modifies this
      ensures Value() == Step(old(Value()), t, Upgrade)
    {
      if active == 1 {
        active := -1;
        phase := phase[t := Writing];
      } else {
        wrCount := wrCount + 1;
        active := active - 1;
        WriteLoop(t);
      }
    }

    /** rwlock_downgrade */
    method DowngradeLock(t: Tid)
      requires Inv(Value()) && Enabled(Value(), t, Downgrade)
      modifies this
      ensures Value() == Step(old(Value()), t, Downgrade)
    {
      active := 1;
      phase := phase[t := Reading];
      WakeReaders();
    }
  }
}
