/** The pipe: its ring buffer, and a reader and a writer that put each other to sleep and wake each other. */
module Pipe {
  const PIPE_SIZE: nat := 4096

  type Byte = int

  function Min(a: nat, b: nat): nat {
    if a < b then a else b
  }

  // ---- the ring buffer ------------------------------------------------------------------

  /** The next position around the buffer. */
  function Next(p: nat): (n: nat)
    requires p < PIPE_SIZE
    ensures n == if p + 1 < PIPE_SIZE then p + 1 else 0
  {
    (p + 1) % PIPE_SIZE
  }

  /** The bytes from position o up to position i, around the buffer. */
  function Window(b: seq<Byte>, o: nat, i: nat): (c: seq<Byte>)
    requires |b| == PIPE_SIZE && o < PIPE_SIZE && i < PIPE_SIZE
    ensures |c| == if o <= i then i - o else PIPE_SIZE - o + i
  {
    if o <= i then b[o..i] else b[o..] + b[..i]
  }

  lemma PopWindow(b: seq<Byte>, o: nat, i: nat)
    requires |b| == PIPE_SIZE && o < PIPE_SIZE && i < PIPE_SIZE && o != i
    ensures Window(b, o, i) == [b[o]] + Window(b, Next(o), i)
  {
  }

  lemma PushWindow(b: seq<Byte>, o: nat, i: nat, x: Byte)
    requires |b| == PIPE_SIZE && o < PIPE_SIZE && i < PIPE_SIZE && Next(i) != o
    ensures Window(b[i := x], o, Next(i)) == Window(b, o, i) + [x]
  {
  }

  class Buffer {
    const buf: array<Byte>
    var inPtr: nat
    var outPtr: nat

    ghost predicate Valid()
      reads this
    {
      buf.Length == PIPE_SIZE && inPtr < PIPE_SIZE && outPtr < PIPE_SIZE
    }

    /** The bytes in flight, oldest first. */
    ghost function Contents(): (c: seq<Byte>)
      requires Valid()
      reads this, buf
      ensures |c| < PIPE_SIZE
    {
      Window(buf[..], outPtr, inPtr)
    }

    constructor ()
      ensures Valid() && fresh(buf) && Contents() == []
    {
      buf := new Byte[PIPE_SIZE](_ => 0);
      inPtr, outPtr := 0, 0;
    }

    /** One byte out of a buffer that is not empty. */
    method Pop() returns (b: Byte)
      requires Valid() && inPtr != outPtr
      modifies this`outPtr
      ensures Valid() && Contents() == old(Contents())[1..] && b == old(Contents())[0]
    {
      hide Next;
      PopWindow(buf[..], outPtr, inPtr);
      b := buf[outPtr];
      outPtr := Next(outPtr);
    }

    /** One byte into a buffer that is not full. */
    method Push(b: Byte)
      requires Valid() && Next(inPtr) != outPtr
      modifies this`inPtr, buf
      ensures Valid() && Contents() == old(Contents()) + [b]
    {
      hide Next, Window;
      PushWindow(buf[..], outPtr, inPtr, b);
      buf[inPtr] := b;
      assert buf[..] == old(buf[..])[inPtr := b];
      inPtr := Next(inPtr);
    }

    /** The copying loop of pipe_read: at most n bytes, as many as there are. */
    method Take(n: nat) returns (out: seq<Byte>)
      requires Valid()
      modifies this`outPtr
      ensures Valid()
      ensures var c := old(Contents()); var k := Min(n, |c|); out == c[..k] && Contents() == c[k..]
    {
      hide Next, Window;
      out := [];
      ghost var c := Contents();
      while |out| < n && inPtr != outPtr
        invariant Valid() && |out| <= n && |out| <= |c|
        invariant out == c[..|out|] && Contents() == c[|out|..]
      {
        var b := Pop();
        out := out + [b];
      }
    }

    /** The copying loop of pipe_write: as many bytes as fit. */
    method Put(data: seq<Byte>) returns (done: nat)
      requires Valid()
      modifies this`inPtr, buf
      ensures Valid()
      ensures done == Min(|data|, PIPE_SIZE - 1 - |old(Contents())|)
      ensures Contents() == old(Contents()) + data[..done]
    {
      hide Next, Window;
      done := 0;
      ghost var c := Contents();
      while done < |data| && Next(inPtr) != outPtr
        invariant Valid() && done <= |data|
        invariant Contents() == c + data[..done]
        decreases |data| - done
      {
        Push(data[done]);
        done := done + 1;
        assert data[..done] == data[..done - 1] + [data[done - 1]];
      }
    }
  }

  // ---- one reader and one writer ----------------------------------------------------------------

  datatype Side = Awake | Asleep | Woken

  /**
   want and data are what is left of the calls in progress.  accepted and delivered are all
   bytes ever taken from writers and given to readers.
   */
  datatype State = State(contents: seq<Byte>, accepted: seq<Byte>, delivered: seq<Byte>, readable: bool, writable: bool,
                         rd: Side, wr: Side, want: nat, data: seq<Byte>)

  ghost predicate Initial(s: State) {
    s == State([], [], [], true, true, Awake, Awake, 0, [])
  }

  /** The pipe's reference count: its ends that are open. */
  function Refs(s: State): nat {
    (if s.readable then 1 else 0) + if s.writable then 1 else 0
  }

  function Roused(side: Side): Side {
    if side == Asleep then Woken else side
  }

  /** pipe_read from entry or wakeup to its return or its sleep. */
  function ReadSection(s: State): State {
    var k := Min(s.want, |s.contents|);
    var s1 := s.(delivered := s.delivered + s.contents[..k], contents := s.contents[k..], want := s.want - k, rd := Awake);
    if s1.want == 0 || Refs(s) < 2 || k > 0 then s1.(want := 0)
    else s1.(rd := Asleep, wr := Roused(s.wr))
  }

  /** One position always stays empty. */
  function Room(contents: seq<Byte>): nat {
    if |contents| < PIPE_SIZE then PIPE_SIZE - 1 - |contents| else 0
  }

  /** pipe_write from entry or wakeup to its return or its sleep. */
  function WriteSection(s: State): State {
    var k := Min(|s.data|, Room(s.contents));
    var s1 := s.(accepted := s.accepted + s.data[..k], contents := s.contents + s.data[..k], data := s.data[k..], wr := Awake);
    var s2 := s1.(rd := Roused(s.rd));
    if s1.data == [] || Refs(s) < 2 then s2.(data := []) else s2.(wr := Asleep)
  }

  datatype Op = Read(n: nat) | ResumeRead | Write(data: seq<Byte>) | ResumeWrite | CloseRead | CloseWrite

  /** An end is used, and closed, by a thread that is in no other call on it. */
  predicate Enabled(s: State, op: Op) {
    match op
    case Read(_) => s.readable && s.rd == Awake
    case ResumeRead => s.rd == Woken
    case Write(_) => s.writable && s.wr == Awake
    case ResumeWrite => s.wr == Woken
    case CloseRead => s.readable && s.rd == Awake
    case CloseWrite => s.writable && s.wr == Awake
  }

  /** pipe_free counts the end down and wakes nobody. */
  function Step(s: State, op: Op): State
    requires Enabled(s, op)
  {
    match op
    case Read(n) => ReadSection(s.(want := n))
    case ResumeRead => ReadSection(s)
    case Write(d) => WriteSection(s.(data := d))
    case ResumeWrite => WriteSection(s)
    case CloseRead => s.(readable := false)
    case CloseWrite => s.(writable := false)
  }

  /** What was accepted is what was delivered, then what is in the buffer. */
  ghost predicate Flow(s: State) {
    s.accepted == s.delivered + s.contents && |s.contents| < PIPE_SIZE
  }

  /**
   A sleeping reader left the pipe empty, a sleeping writer left a reader that is not asleep.  A side
   that sleeps or is about to run on is in a call on its open end, which wants something still.
   */
  ghost predicate Sleepers(s: State) {
    && (s.rd == Asleep ==> s.contents == [] && s.wr != Asleep)
    && (s.rd == Awake <==> s.want == 0) && (s.rd != Awake ==> s.readable)
    && (s.wr == Awake <==> s.data == []) && (s.wr != Awake ==> s.writable)
  }

  ghost predicate Inv(s: State) {
    Flow(s) && Sleepers(s)
  }

  lemma Moved(a: seq<Byte>, b: seq<Byte>, k: nat)
    requires k <= |b|
    ensures (a + b[..k]) + b[k..] == a + b
  {
    assert b == b[..k] + b[k..];
  }

  lemma ReadInv(s: State)
    requires Flow(s) && s.readable && (s.wr == Awake <==> s.data == []) && (s.wr != Awake ==> s.writable)
    ensures Inv(ReadSection(s))
  {
    Moved(s.delivered, s.contents, Min(s.want, |s.contents|));
  }

  lemma WriteInv(s: State)
    requires Flow(s) && s.writable && (s.rd == Awake <==> s.want == 0) && (s.rd != Awake ==> s.readable)
    ensures Inv(WriteSection(s))
  {
    var k := Min(|s.data|, Room(s.contents));
    assert s.delivered + s.contents + s.data[..k] == s.delivered + (s.contents + s.data[..k]);
  }

  lemma ReadAlone(s: State)
    ensures ReadSection(s).accepted == s.accepted && ReadSection(s).data == s.data
  {
  }

  /** With both ends open the bytes not yet accepted stay with the writer. */
  lemma WriteKeeps(s: State)
    requires s.readable && s.writable
    ensures WriteSection(s).accepted + WriteSection(s).data == s.accepted + s.data
  {
    Moved(s.accepted, s.data, Min(|s.data|, Room(s.contents)));
  }

  /** The bytes that a step brings along. */
  function Given(op: Op): seq<Byte> {
    if op.Write? then op.data else []
  }

  /** While the reader's end is open every byte of a write is accepted, or still to be written. */
  lemma StepInv(s: State, op: Op)
    requires Inv(s) && Enabled(s, op)
    ensures Inv(Step(s, op))
    ensures s.readable ==> Step(s, op).accepted + Step(s, op).data == s.accepted + s.data + Given(op)
  {
    hide ReadSection, WriteSection;
    match op
    case Read(n) => ReadInv(s.(want := n)); ReadAlone(s.(want := n));
    case ResumeRead => ReadInv(s); ReadAlone(s);
    case Write(d) => WriteInv(s.(data := d)); if s.readable { WriteKeeps(s.(data := d)); }
    case ResumeWrite => WriteInv(s); if s.readable { WriteKeeps(s); }
    case CloseRead =>
    case CloseWrite =>
  }

  /**
   With both ends open a write runs on to its end, or sleeps with a full pipe exactly if it has more bytes
   than there is room.  Without a reader it takes what fits.  A sleeping reader is woken in any case.
   */
  lemma WriteTakes(s: State, op: Op)
    requires Inv(s) && Enabled(s, op) && (op.Write? || op.ResumeWrite?)
    ensures var d := if op.Write? then op.data else s.data; var r := Step(s, op);
            && (r.wr == Asleep <==> s.readable && |d| > Room(s.contents))
            && (r.wr == Asleep ==> |r.contents| == PIPE_SIZE - 1 && r.data == d[Room(s.contents)..])
            && (r.wr != Asleep ==> r.wr == Awake)
            && (s.readable && r.wr == Awake ==> r.accepted == s.accepted + d)
            && r.accepted == s.accepted + d[..Min(|d|, Room(s.contents))]
            && r.rd != Asleep && r.delivered == s.delivered
  {
  }

  /** A read returns as many of the oldest bytes as it can, and sleeps exactly if there is none to come yet. */
  lemma ReadGives(s: State, op: Op)
    requires Inv(s) && Enabled(s, op) && (op.Read? || op.ResumeRead?)
    ensures var n := if op.Read? then op.n else s.want; var r := Step(s, op);
            && r.delivered == s.delivered + s.contents[..Min(n, |s.contents|)]
            && r.contents == s.contents[Min(n, |s.contents|)..]
            && (r.rd == Asleep <==> n > 0 && s.contents == [] && s.writable) && (r.rd != Asleep ==> r.rd == Awake)
            && (r.rd == Awake && n > 0 && r.delivered == s.delivered ==> !s.writable)
            && r.accepted == s.accepted && r.data == s.data
  {
    var n := if op.Read? then op.n else s.want;
    if n > 0 && s.contents != [] {
      assert s.contents[..Min(n, |s.contents|)] != [];
    }
  }

  ghost predicate Possible(s: State, run: seq<Op>)
    decreases |run|
  {
    run == [] || (Enabled(s, run[0]) && Possible(Step(s, run[0]), run[1..]))
  }

  ghost function After(s: State, run: seq<Op>): State
    requires Possible(s, run)
    decreases |run|
  {
    if run == [] then s else After(Step(s, run[0]), run[1..])
  }

  /** All bytes of the writes in a run. */
  function Written(run: seq<Op>): seq<Byte> {
    if run == [] then [] else Given(run[0]) + Written(run[1..])
  }

  /**
   Under any interleaving: the bytes delivered are a prefix of the bytes accepted, at most
   PIPE_SIZE - 1 are in flight, and reader and writer are never asleep together.  While the
   reader's end is open, the bytes accepted are those of all writes, but for what the writer in
   progress has left.
   */
  lemma {:induction false} RunInv(s: State, run: seq<Op>)
    requires Inv(s) && Possible(s, run)
    ensures var r := After(s, run);
            && Inv(r) && r.delivered <= r.accepted && |r.accepted| - |r.delivered| <= PIPE_SIZE - 1
            && !(r.rd == Asleep && r.wr == Asleep)
            && (r.readable ==> s.readable && r.accepted + r.data == s.accepted + s.data + Written(run))
    decreases |run|
  {
    hide Step, Inv;
    if run == [] {
      InFlight(s);
      assert s.accepted + s.data + [] == s.accepted + s.data;
    } else {
      StepInv(s, run[0]);
      StaysClosed(s, run[0]);
      RunInv(Step(s, run[0]), run[1..]);
      Assoc(s.accepted + s.data, Given(run[0]), Written(run[1..]));
    }
  }

  lemma Assoc(a: seq<Byte>, b: seq<Byte>, c: seq<Byte>)
    ensures (a + b) + c == a + (b + c)
  {
  }

  lemma InFlight(s: State)
    requires Inv(s)
    ensures s.delivered <= s.accepted && |s.accepted| - |s.delivered| <= PIPE_SIZE - 1
    ensures !(s.rd == Asleep && s.wr == Asleep)
  {
  }

  lemma StaysClosed(s: State, op: Op)
    requires Enabled(s, op)
    ensures Step(s, op).readable ==> s.readable
  {
  }

  /** From a new pipe on, the bytes read, the bytes in the pipe and those still to be written are the bytes written. */
  lemma FirstRun(s: State, run: seq<Op>)
    requires Initial(s) && Possible(s, run)
    ensures var r := After(s, run);
            && Inv(r) && r.delivered <= r.accepted && !(r.rd == Asleep && r.wr == Asleep)
            && (r.readable ==> r.delivered + r.contents + r.data == Written(run))
  {
    RunInv(s, run);
  }

  /**
   A read that returns data does not wake the writer, however much room it makes; only a read
   that starts on an empty pipe with both ends open does.
   */
  lemma WriterWakesOnlyOnEmpty(s: State, n: nat)
    requires Inv(s) && s.readable && s.rd == Awake && s.wr == Asleep
    ensures Step(s, Read(n)).wr == Woken <==> s.contents == [] && n > 0
  {
  }

  // ---- sleepers whose other end is gone -------------------------------------------------------------

  /** Some run from here on wakes the sleeping reader. */
  ghost predicate ReaderWakes(s: State) {
    exists run :: Possible(s, run) && After(s, run).rd != Asleep
  }

  ghost predicate WriterWakes(s: State) {
    exists run :: Possible(s, run) && After(s, run).wr != Asleep
  }

  /** With one side asleep and the other end closed nothing can happen to the pipe any more. */
  lemma Dead(s: State, run: seq<Op>)
    requires Inv(s) && Possible(s, run)
    requires (s.rd == Asleep && !s.writable) || (s.wr == Asleep && !s.readable)
    ensures run == []
  {
    hide Step;
    assert forall op :: !Enabled(s, op);
  }

  lemma OneStep(s: State, op: Op)
    requires Enabled(s, op)
    ensures Possible(s, [op]) && After(s, [op]) == Step(s, op)
  {
    hide Step;
    assert [op][1..] == [];
  }

  lemma FirstThen(s: State, op: Op, run: seq<Op>)
    requires Enabled(s, op) && Possible(Step(s, op), run)
    ensures Possible(s, [op] + run) && After(s, [op] + run) == After(Step(s, op), run)
  {
    hide Step;
    assert ([op] + run)[1..] == run;
  }

  /** A sleeping reader can still be woken exactly while the writer's end is open. */
  lemma ReaderStranded(s: State)
    requires Inv(s) && s.rd == Asleep
    ensures ReaderWakes(s) <==> s.writable
  {
    if s.writable {
      var op := if s.wr == Awake then Write([0]) else ResumeWrite;
      OneStep(s, op);
    } else {
      forall run | Possible(s, run) ensures After(s, run).rd == Asleep {
        Dead(s, run);
      }
    }
  }

  /** A sleeping writer can still be woken exactly while the reader's end is open. */
  lemma WriterStranded(s: State)
    requires Inv(s) && s.wr == Asleep
    ensures WriterWakes(s) <==> s.readable
  {
    if s.readable {
      if s.rd == Awake {
        Drained(s);
      } else {
        var t := Step(s, ResumeRead);
        StepInv(s, ResumeRead);
        if t.wr == Asleep {
          Drained(t);
          var run :| Possible(t, run) && After(t, run).wr != Asleep;
          FirstThen(s, ResumeRead, run);
        } else {
          OneStep(s, ResumeRead);
        }
      }
    } else {
      forall run | Possible(s, run) ensures After(s, run).wr == Asleep {
        Dead(s, run);
      }
    }
  }

  /** A reader that reads the pipe empty and asks for more wakes the writer. */
  lemma Drained(s: State)
    requires Inv(s) && s.wr == Asleep && s.readable && s.rd == Awake
    ensures WriterWakes(s)
  {
    var all := Read(|s.contents|);
    var t := Step(s, all);
    StepInv(s, all);
    assert t.contents == [] && t.wr == Asleep && t.rd == Awake;
    WriterWakesOnlyOnEmpty(t, 1);
    OneStep(t, Read(1));
    FirstThen(s, all, [Read(1)]);
  }

  /** A thread is stranded exactly by the close of the other end while it sleeps. */
  lemma CloseStrands(s: State, op: Op)
    requires Inv(s) && Enabled(s, op)
    ensures var r := Step(s, op);
            && (r.rd == Asleep && !ReaderWakes(r) <==> s.rd == Asleep && op == CloseWrite)
            && (r.wr == Asleep && !WriterWakes(r) <==> s.wr == Asleep && op == CloseRead)
  {
    hide ReaderWakes, WriterWakes;
    StepInv(s, op);
    var r := Step(s, op);
    if r.rd == Asleep {
      ReaderStranded(r);
    }
    if r.wr == Asleep {
      WriterStranded(r);
    }
  }

  /** The pipe object with its two sides. */
  class Shared {
    const buffer: Buffer
    var refs: nat
    var rd: Side
    var wr: Side
    var want: nat
    var data: seq<Byte>
    ghost var readable: bool
    ghost var writable: bool
    ghost var accepted: seq<Byte>
    ghost var delivered: seq<Byte>

    ghost predicate Valid()
      reads this, buffer
    {
      buffer.Valid() && refs == (if readable then 1 else 0) + if writable then 1 else 0
    }

    ghost function Value(): State
      requires Valid()
      reads this, buffer, buffer.buf
    {
      State(buffer.Contents(), accepted, delivered, readable, writable, rd, wr, want, data)
    }

    /** sys_pipe's part for the pipe itself. */
    constructor ()
      ensures Valid() && Initial(Value()) && fresh(buffer) && fresh(buffer.buf)
    {
      buffer := new Buffer();
      refs, rd, wr, want, data := 2, Awake, Awake, 0, [];
      readable, writable, accepted, delivered := true, true, [], [];
    }

    /** pipe_free for the file of one end. */
    method FreeEnd(ghost reader: bool)
      requires Valid() && Enabled(Value(), if reader then CloseRead else CloseWrite)
      modifies this
      ensures Valid() && Value() == Step(old(Value()), if reader then CloseRead else CloseWrite)
    {
      refs := refs - 1;
      if reader {
        readable := false;
      } else {
        writable := false;
      }
    }

    /** pipe_read from entry or wakeup on; out is what it copied out. */
    method ReadOn() returns (out: seq<Byte>)
      requires Valid()
      modifies this, buffer
      ensures Valid() && Value() == ReadSection(old(Value()))
      ensures delivered == old(delivered) + out
    {
      hide Next, Window;
      out := buffer.Take(want);
      delivered := delivered + out;
      want := want - |out|;
      rd := Awake;
      if want == 0 || refs < 2 || |out| > 0 {
        want := 0;
      } else {
        wr := Roused(wr);
        rd := Asleep;
      }
    }

    /** pipe_write from entry or wakeup on; done is how many bytes it copied in. */
    method WriteOn() returns (done: nat)
      requires Valid()
      modifies this, buffer, buffer.buf
      ensures Valid() && Value() == WriteSection(old(Value()))
      ensures done <= |old(data)| && accepted == old(accepted) + old(data)[..done]
    {
      hide Next, Window;
      done := buffer.Put(data);
      accepted := accepted + data[..done];
      data := data[done..];
      rd := Roused(rd);
      wr := Awake;
      if data != [] {
        if refs < 2 {
          data := [];
        } else {
          wr := Asleep;
        }
      }
    }
  }
}
