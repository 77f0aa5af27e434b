/** `basic_streambuf`, asio/basic_streambuf.hpp: a growing buffer with get and
    put positions, refining a byte queue of at most max_size bytes. */
module StreamBuf {
  import opened Common
  import opened Text

  const BUFFER_DELTA := 128

  /** `int_type`: a character or end of file. */
  datatype IntType = Eof | Ch(c: Char8)

  /** The input sequence, and the output sequence behind it. */
  datatype Sequences = Sequences(queue: Text8, room: Text8)

  /** What is left in a window of a buffer after its bytes have been copied g
      places towards the front and the window itself has not moved. */
  function CopiedOver(s: Text8, g: nat): (r: Text8)
    ensures |r| == |s|
  {
    seq(|s|, k requires 0 <= k < |s| => if k + g < |s| then s[k + g] else s[k])
  }

  /** Such a copy goes unnoticed only for bytes that repeat with period g. */
  lemma CopyUnnoticedIff(s: Text8, g: nat)
    ensures CopiedOver(s, g) == s <==> forall k :: 0 <= k < |s| - g ==> s[k + g] == s[k]
  {
    if CopiedOver(s, g) == s {
      forall k | 0 <= k < |s| - g
        ensures s[k + g] == s[k]
      {
        assert CopiedOver(s, g)[k] == s[k];
      }
    }
  }

  lemma AppendAt(s: Text8, from: nat, at: nat, c: Char8)
    requires from <= at < |s|
    ensures s[at := c][from..at + 1] == s[from..at] + [c]
    ensures s[at := c][at + 1..] == s[at + 1..]
  {
  }

  lemma SliceSplit(s: Text8, from: nat, at: nat, to: nat)
    requires from <= at <= to <= |s|
    ensures s[from..at] + s[at..to] == s[from..to]
    ensures s[from..to][..at - from] == s[from..at] && s[from..to][at - from..] == s[at..to]
  {
  }

  lemma MoveBoundary(s: Text8, from: nat, at: nat, n: nat, to: nat)
    requires from <= at && at + n <= to <= |s|
    ensures s[from..at + n] == s[from..at] + s[at..to][..n] && s[at + n..to] == s[at..to][n..]
  {
    SliceSplit(s, at, at + n, to);
    SliceSplit(s, from, at, at + n);
  }

  lemma DropFront(s: Text8, from: nat, n: nat, to: nat)
    requires from + n <= to <= |s|
    ensures s[from..to][n..] == s[from + n..to]
  {
  }

  lemma Overwrite(s: Text8, at: nat, bytes: Text8, to: nat)
    requires at + |bytes| <= to <= |s|
    ensures
      var t := s[..at] + bytes + s[at + |bytes|..];
      |t| == |s| && t[..at] == s[..at] && t[at..to] == bytes + s[at..to][|bytes|..]
  {
  }

  class StreamBuf {
    const maxSize: nat
    var buffer: Text8
    var gptr: nat
    var egptr: nat
    var pptr: nat
    var epptr: nat

    ghost predicate Valid()
      reads this
    {
      && gptr <= egptr <= pptr <= epptr <= maxSize
      && |buffer| == Max(epptr, 1)
    }

    /** The input sequence. */
    ghost function Contents(): (s: Text8)
      requires Valid()
      reads this
      ensures |s| == pptr - gptr
    {
      buffer[gptr..pptr]
    }

    /** The output sequence, as far as the put area reaches. */
    ghost function Room(): (s: Text8)
      requires Valid()
      reads this
      ensures |s| == epptr - pptr
    {
      buffer[pptr..epptr]
    }

    /** What a user of the buffer sees. */
    ghost function Abs(): Sequences
      requires Valid()
      reads this
    {
      Sequences(Contents(), Room())
    }

    constructor (maximumSize: nat)
      ensures Valid() && maxSize == maximumSize
      ensures Contents() == [] && |Room()| == Min(maximumSize, 128)
    {
      var pend := Min(maximumSize, BUFFER_DELTA);
      maxSize := maximumSize;
      buffer := seq(Max(pend, 1), _ => 0);
      gptr, egptr, pptr, epptr := 0, 0, 0, pend;
    }

    method Size() returns (n: nat)
      requires Valid()
      ensures n == |Contents()| <= maxSize
    {
      n := pptr - gptr;
    }

    /** basic_streambuf.hpp:308-346. It fails exactly when size() + n exceeds
        max_size(); the bytes are shifted before that is known, so a failure
        keeps the positions but not the contents. */
    method Reserve(n: nat) returns (ok: bool)
      requires Valid()
      modifies this
      ensures Valid()
      ensures ok <==> |old(Contents())| + n <= maxSize
      ensures ok ==> Contents() == old(Contents()) && |Room()| >= n
      ensures n <= |old(Room())| ==> gptr == old(gptr) && Room() == old(Room())
      ensures ok && n > |old(Room())| ==> gptr == 0 && |Room()| == Max(n, |old(Room())| + old(gptr))
      ensures !ok ==> gptr == old(gptr) && pptr == old(pptr) && Contents() == CopiedOver(old(Contents()), gptr)
    {
      var gnext, pnext, pend := gptr, pptr, epptr;
      if n <= pend - pnext {
        return true;
      }
      ghost var contents := Contents();
      if gnext > 0 {
        pnext := pnext - gnext;
        buffer := buffer[gnext..gnext + pnext] + buffer[pnext..];
      }
      if n > pend - pnext {
        if n <= maxSize && pnext <= maxSize - n {
          pend := pnext + n;
          var size := Max(pend, 1);
          buffer := buffer + seq(size - |buffer|, _ => 0);
        } else {
          assert Contents() == CopiedOver(contents, gptr);
          return false;
        }
      }
      gptr, egptr, pptr, epptr := 0, pnext, pnext, pend;
      return true;
    }

    /** basic_streambuf.hpp:214-219. */
    method Prepare(n: nat) returns (ok: bool)
      requires Valid()
      modifies this
      ensures Valid()
      ensures ok <==> |old(Contents())| + n <= maxSize
      ensures ok ==> Contents() == old(Contents()) && |Room()| >= n
      ensures n <= |old(Room())| ==> Room() == old(Room())
      ensures ok && n > |old(Room())| ==> |Room()| == Max(n, |old(Room())| + old(gptr))
      ensures !ok ==> gptr == old(gptr) && Contents() == CopiedOver(old(Contents()), gptr)
    {
      ok := Reserve(n);
    }

    /** What a caller does with a prepared buffer. */
    method Write(bytes: Text8)
      requires Valid() && |bytes| <= |Room()|
      modifies this`buffer
      ensures Valid() && Contents() == old(Contents())
      ensures Room() == bytes + old(Room())[|bytes|..]
    {
      Overwrite(buffer, pptr, bytes, epptr);
      ghost var before := buffer;
      buffer := buffer[..pptr] + bytes + buffer[pptr + |bytes|..];
      assert buffer[gptr..pptr] == buffer[..pptr][gptr..] == before[..pptr][gptr..];
    }

    /** basic_streambuf.hpp:233-238. The bump is passed as an int. */
    method Commit(count: nat)
      requires Valid() && Min(count, |Room()|) <= INT_MAX
      modifies this`pptr, this`egptr
      ensures Valid()
      ensures Contents() == old(Contents()) + old(Room())[..Min(count, |old(Room())|)]
      ensures Room() == old(Room())[Min(count, |old(Room())|)..]
    {
      var n := Min(count, epptr - pptr);
      MoveBoundary(buffer, gptr, pptr, n, epptr);
      pptr := pptr + n;
      egptr := pptr;
    }

    /** basic_streambuf.hpp:247-254. */
    method Consume(count: nat)
      requires Valid() && Min(count, |Contents()|) <= INT_MAX
      modifies this`gptr, this`egptr
      ensures Valid()
      ensures Contents() == old(Contents())[Min(count, |old(Contents())|)..] && Room() == old(Room())
    {
      if egptr < pptr {
        egptr := pptr;
      }
      var n := count;
      if gptr + n > pptr {
        n := pptr - gptr;
      }
      DropFront(buffer, gptr, n, pptr);
      gptr := gptr + n;
    }

    /** basic_streambuf.hpp:263-274. */
    method Underflow() returns (r: IntType)
      requires Valid()
      modifies this`egptr
      ensures Valid() && Contents() == old(Contents()) && Room() == old(Room())
      ensures r == if Contents() == [] then Eof else Ch(Contents()[0])
      ensures r != Eof ==> gptr < egptr
    {
      if gptr < pptr {
        egptr := pptr;
        return Ch(buffer[gptr]);
      }
      return Eof;
    }

    /** basic_streambuf.hpp:283-306. It fails exactly when the queue is full,
        and then nothing has changed. */
    method Overflow(c: IntType) returns (ok: bool)
      requires Valid()
      modifies this
      ensures Valid()
      ensures ok <==> c.Eof? || |old(Contents())| < maxSize
      ensures Contents() == if ok && c.Ch? then old(Contents()) + [c.c] else old(Contents())
      ensures c.Ch? && old(Room()) != [] ==> Room() == old(Room())[1..]
      ensures ok && c.Ch? && old(Room()) == [] ==>
        |Room()| + 1 == Max(Min(128, maxSize - |old(Contents())|), old(gptr))
    {
      if c.Eof? {
        return true;
      }
      if pptr == epptr {
        ok := ReserveForOne();
        if !ok {
          return;
        }
      }
      AppendAt(buffer, gptr, pptr, c.c);
      SliceSplit(buffer, pptr, pptr + 1, epptr);
      buffer := buffer[pptr := c.c];
      pptr := pptr + 1;
      return true;
    }

    /** basic_streambuf.hpp:289-297. */
    method ReserveForOne() returns (ok: bool)
      requires Valid() && pptr == epptr
      modifies this
      ensures Valid() && Contents() == old(Contents())
      ensures ok <==> |old(Contents())| < maxSize
      ensures ok ==> |Room()| == Max(Min(128, maxSize - |old(Contents())|), old(gptr))
    {
      var size := pptr - gptr;
      if size < maxSize && maxSize - size < BUFFER_DELTA {
        ok := Reserve(maxSize - size);
      } else {
        ok := Reserve(BUFFER_DELTA);
      }
    }
  }

  // --------------------------------------------------------------- whole runs

  /** What a client does with the buffer; `Write` fills prepared room. */
  datatype Op = Prepare(n: nat) | Write(bytes: Text8) | Commit(n: nat) | Take(n: nat) | Put(c: Char8) | Peek

  /** The operation does not throw, and a write stays inside the room. */
  predicate Enabled(s: Sequences, op: Op, max: nat) {
    match op
    case Prepare(n) => |s.queue| + n <= max
    case Write(bytes) => |bytes| <= |s.room|
    case Put(_) => |s.queue| < max
    case _ => true
  }

  function AppendedBy(s: Sequences, op: Op): Text8 {
    match op
    case Commit(n) => s.room[..Min(n, |s.room|)]
    case Put(c) => [c]
    case _ => []
  }

  function TakenBy(s: Sequences, op: Op): Text8 {
    if op.Take? then s.queue[..Min(op.n, |s.queue|)] else []
  }

  /** What the operation may do to the room. New room has whatever bytes the
      vector happens to hold. */
  ghost predicate RoomAfter(s: Sequences, op: Op, room: Text8) {
    match op
    case Prepare(n) => if n <= |s.room| then room == s.room else |room| >= n
    case Write(bytes) => |bytes| <= |s.room| && room == bytes + s.room[|bytes|..]
    case Commit(n) => room == s.room[Min(n, |s.room|)..]
    case Put(_) => s.room != [] ==> room == s.room[1..]
    case _ => room == s.room
  }

  /** The operation lays out the room anew. */
  predicate Grows(s: Sequences, op: Op) {
    (op.Prepare? && op.n > |s.room|) || (op.Put? && s.room == [])
  }

  /** A bounded queue with room behind it makes one step. New room fits. */
  ghost predicate Next(s: Sequences, op: Op, s': Sequences, max: nat) {
    && TakenBy(s, op) + s'.queue == s.queue + AppendedBy(s, op)
    && RoomAfter(s, op, s'.room)
    && (Grows(s, op) ==> |s'.queue| + |s'.room| <= max)
  }

  /** What the operation shows its caller: the next byte, or end of file. */
  function ShownBy(s: Sequences, op: Op): seq<IntType> {
    if op.Peek? then [if s.queue == [] then Eof else Ch(s.queue[0])] else []
  }

  ghost predicate IsTrace(trace: seq<Sequences>, ops: seq<Op>, max: nat) {
    && |trace| == |ops| + 1
    && forall i :: 0 <= i < |ops| ==> Enabled(trace[i], ops[i], max) && Next(trace[i], ops[i], trace[i + 1], max)
  }

  /** `pbump` and `gbump` take an int. */
  predicate Castable(op: Op, max: nat) {
    (op.Commit? || op.Take?) && max > INT_MAX ==> op.n <= INT_MAX
  }

  /** The same step, with the new queue written out. */
  function QueueAfter(s: Sequences, op: Op): Text8 {
    if op.Take? then s.queue[Min(op.n, |s.queue|)..] else s.queue + AppendedBy(s, op)
  }

  lemma NextIf(s: Sequences, op: Op, s': Sequences, max: nat)
    requires s'.queue == QueueAfter(s, op) && RoomAfter(s, op, s'.room)
    requires Grows(s, op) ==> |s'.queue| + |s'.room| <= max
    ensures Next(s, op, s', max)
  {
  }

  method Perform(b: StreamBuf, op: Op) returns (ok: bool, shown: seq<IntType>)
    requires b.Valid() && Castable(op, b.maxSize)
    modifies b
    ensures b.Valid()
    ensures ok <==> Enabled(old(b.Abs()), op, b.maxSize)
    ensures ok ==> Next(old(b.Abs()), op, b.Abs(), b.maxSize)
    ensures shown == ShownBy(old(b.Abs()), op)
    ensures !ok ==> b.Contents() == CopiedOver(old(b.Contents()), if op.Prepare? then b.gptr else 0)
  {
    hide Next, CopiedOver, StreamBuf.Contents, StreamBuf.Room;
    ghost var s := b.Abs();
    KeptInPlace(s.queue);
    shown := [];
    match op {
      case Prepare(n) =>
        ok := b.Prepare(n);
      case Write(bytes) =>
        ok := |bytes| <= b.epptr - b.pptr;
        if ok {
          b.Write(bytes);
        }
      case Commit(n) =>
        b.Commit(n);
        ok := true;
      case Take(n) =>
        b.Consume(n);
        ok := true;
      case Put(c) =>
        ok := b.Overflow(Ch(c));
      case Peek =>
        var next := b.Underflow();
        shown := [next];
        ok := true;
    }
    if ok {
      NextIf(s, op, b.Abs(), b.maxSize);
    }
  }

  lemma KeptInPlace(s: Text8)
    ensures CopiedOver(s, 0) == s
  {
  }

  /** Over every sequence of operations the buffer runs as the bounded queue
      does, shows what is at its front, and stops exactly at the first operation
      that is not enabled. */
  method Drive(b: StreamBuf, ops: seq<Op>)
      returns (done: nat, shown: seq<IntType>, ghost trace: seq<Sequences>)
    requires b.Valid() && forall i :: 0 <= i < |ops| ==> Castable(ops[i], b.maxSize)
    modifies b
    ensures b.Valid() && done <= |ops|
    ensures IsTrace(trace, ops[..done], b.maxSize) && trace[0] == old(b.Abs())
    ensures shown == Shown(trace, ops[..done])
    ensures if done < |ops| then !Enabled(trace[done], ops[done], b.maxSize) else trace[done] == b.Abs()
  {
    hide Next, Enabled, ShownBy, StreamBuf.Contents, StreamBuf.Room;
    done, shown := 0, [];
    trace := [b.Abs()];
    while done < |ops|
      invariant 0 <= done <= |ops| && b.Valid()
      invariant IsTrace(trace, ops[..done], b.maxSize) && trace[0] == old(b.Abs()) && trace[done] == b.Abs()
      invariant shown == Shown(trace, ops[..done])
    {
      var ok, now := Perform(b, ops[done]);
      if !ok {
        return;
      }
      TraceExtended(trace, ops, done, b.Abs(), b.maxSize);
      ShownExtended(trace, ops[..done], ops[done], b.Abs());
      assert ops[..done + 1] == ops[..done] + [ops[done]];
      shown := shown + now;
      trace := trace + [b.Abs()];
      done := done + 1;
    }
    assert ops[..done] == ops;
  }

  lemma TraceExtended(trace: seq<Sequences>, ops: seq<Op>, done: nat, next: Sequences, max: nat)
    requires done < |ops| && IsTrace(trace, ops[..done], max)
    requires Enabled(trace[done], ops[done], max) && Next(trace[done], ops[done], next, max)
    ensures IsTrace(trace + [next], ops[..done + 1], max)
  {
    hide Next, Enabled;
    assert ops[..done + 1][..done] == ops[..done];
  }

  // ------------------------------------------------------- laws of the queue

  /** All the bytes that the operations of a trace append, and all they take. */
  ghost function Appended(trace: seq<Sequences>, ops: seq<Op>): Text8
    requires |trace| == |ops| + 1
  {
    if ops == [] then [] else AppendedBy(trace[0], ops[0]) + Appended(trace[1..], ops[1..])
  }

  ghost function Taken(trace: seq<Sequences>, ops: seq<Op>): Text8
    requires |trace| == |ops| + 1
  {
    if ops == [] then [] else TakenBy(trace[0], ops[0]) + Taken(trace[1..], ops[1..])
  }

  /** All that the operations of a trace show. */
  ghost function Shown(trace: seq<Sequences>, ops: seq<Op>): seq<IntType>
    requires |trace| == |ops| + 1
  {
    if ops == [] then [] else ShownBy(trace[0], ops[0]) + Shown(trace[1..], ops[1..])
  }

  lemma {:induction false} ShownExtended(trace: seq<Sequences>, ops: seq<Op>, op: Op, next: Sequences)
    requires |trace| == |ops| + 1
    ensures Shown(trace + [next], ops + [op]) == Shown(trace, ops) + ShownBy(trace[|ops|], op)
    decreases |ops|
  {
    hide ShownBy;
    assert (trace + [next])[1..] == trace[1..] + [next];
    if ops == [] {
      assert (ops + [op])[1..] == [];
    } else {
      assert (ops + [op])[1..] == ops[1..] + [op];
      ShownExtended(trace[1..], ops[1..], op, next);
    }
  }

  /** What is shown is what the next byte taken will be. */
  lemma ShownIsNext(s: Sequences)
    ensures
      var taken := TakenBy(s, Take(1));
      ShownBy(s, Peek) == if taken == [] then [Eof] else [Ch(taken[0])]
  {
  }

  lemma TraceTail(trace: seq<Sequences>, ops: seq<Op>, max: nat)
    requires IsTrace(trace, ops, max) && ops != []
    ensures IsTrace(trace[1..], ops[1..], max)
  {
    hide Next, Enabled;
    var tail := trace[1..];
    forall i | 0 <= i < |ops[1..]|
      ensures Enabled(tail[i], ops[1..][i], max) && Next(tail[i], ops[1..][i], tail[i + 1], max)
    {
      assert tail[i] == trace[i + 1] && tail[i + 1] == trace[i + 1 + 1] && ops[1..][i] == ops[i + 1];
    }
  }

  lemma Reassociate(q: Text8, t: Text8, ts: Text8, m: Text8, a: Text8, rest: Text8, last: Text8)
    requires t + m == q + a && ts + last == m + rest
    ensures (t + ts) + last == q + (a + rest)
  {
    calc {
      (t + ts) + last;
      t + (ts + last);
      t + (m + rest);
      (t + m) + rest;
      (q + a) + rest;
      q + (a + rest);
    }
  }

  /** First in, first out: what was taken, followed by what is left, is what was
      there, followed by what was appended. No byte is lost, doubled or moved. */
  lemma {:induction false} RunIsFifo(trace: seq<Sequences>, ops: seq<Op>, max: nat)
    requires IsTrace(trace, ops, max)
    ensures Taken(trace, ops) + trace[|ops|].queue == trace[0].queue + Appended(trace, ops)
    decreases |ops|
  {
    if ops == [] {
    } else {
      TraceTail(trace, ops, max);
      RunIsFifo(trace[1..], ops[1..], max);
      assert Next(trace[0], ops[0], trace[0 + 1], max);
      Reassociate(trace[0].queue, TakenBy(trace[0], ops[0]), Taken(trace[1..], ops[1..]), trace[1].queue,
        AppendedBy(trace[0], ops[0]), Appended(trace[1..], ops[1..]), trace[|ops|].queue);
    }
  }

  /** A run that starts within the bound stays within it, room included. */
  lemma {:induction false} RunWithinBound(trace: seq<Sequences>, ops: seq<Op>, max: nat, i: nat)
    requires IsTrace(trace, ops, max) && |trace[0].queue| + |trace[0].room| <= max && i < |trace|
    ensures |trace[i].queue| + |trace[i].room| <= max
  {
    hide Next;
    if i == 0 {
    } else {
      RunWithinBound(trace, ops, max, i - 1);
      assert Next(trace[i - 1], ops[i - 1], trace[i - 1 + 1], max);
      StepWithinBound(trace[i - 1], ops[i - 1], trace[i], max);
    }
  }

  /** What moves between queue and room, or leaves, makes nothing longer. */
  lemma StepWithinBound(s: Sequences, op: Op, s': Sequences, max: nat)
    requires Next(s, op, s', max) && |s.queue| + |s.room| <= max
    ensures |s'.queue| + |s'.room| <= max
  {
    hide Next;
    NextQueue(s, op, s', max);
  }

  // ------------------------------------------------- prepare, write, commit

  /** What a careful client knows: the queue, how much room it has prepared, and
      the bytes it has written to the front of that room. */
  datatype View = View(queue: Text8, known: Text8, prepared: nat) | Overfull

  /** A careful client writes into what it prepared and commits what it wrote. */
  predicate Careful(v: View, op: Op) {
    match op
    case Write(bytes) => v.View? ==> |bytes| <= v.prepared
    case Commit(n) => v.View? ==> n <= |v.known|
    case _ => true
  }

  function ViewStep(v: View, op: Op, max: nat): View
    requires Careful(v, op)
  {
    if v.Overfull? then v
    else match op
      case Prepare(n) => if |v.queue| + n <= max then View(v.queue, [], n) else Overfull
      case Write(bytes) => v.(known := bytes + v.known[Min(|bytes|, |v.known|)..])
      case Commit(n) => View(v.queue + v.known[..n], v.known[n..], if n < v.prepared then v.prepared - n else 0)
      case Take(n) => v.(queue := v.queue[Min(n, |v.queue|)..])
      case Put(c) =>
        if |v.queue| >= max then Overfull
        else View(v.queue + [c], v.known[Min(1, |v.known|)..], if v.prepared > 0 then v.prepared - 1 else 0)
      case Peek => v
  }

  predicate CarefulRun(v: View, ops: seq<Op>, max: nat)
    decreases |ops|
  {
    ops == [] || (Careful(v, ops[0]) && CarefulRun(ViewStep(v, ops[0], max), ops[1..], max))
  }

  function ViewRun(v: View, ops: seq<Op>, max: nat): View
    requires CarefulRun(v, ops, max)
    decreases |ops|
  {
    if ops == [] then v else ViewRun(ViewStep(v, ops[0], max), ops[1..], max)
  }

  /** What the byte queue shows over a run. */
  function ViewShown(v: View, ops: seq<Op>, max: nat): seq<IntType>
    requires CarefulRun(v, ops, max)
    decreases |ops|
  {
    if ops == [] || v.Overfull? then []
    else ShownBy(Sequences(v.queue, []), ops[0]) + ViewShown(ViewStep(v, ops[0], max), ops[1..], max)
  }

  /** The client's view is right. */
  ghost predicate Matches(s: Sequences, v: View) {
    && v.View? && s.queue == v.queue
    && |v.known| <= v.prepared <= |s.room| && Starts(v.known, s.room)
  }

  lemma StepEnabled(s: Sequences, v: View, op: Op, max: nat)
    requires Matches(s, v) && Careful(v, op)
    ensures Enabled(s, op, max) <==> ViewStep(v, op, max).View?
  {
  }

  /** Whatever bytes new room holds, a careful client's view stays right. */
  lemma StepMatches(s: Sequences, v: View, op: Op, s': Sequences, max: nat)
    requires Matches(s, v) && Careful(v, op) && Enabled(s, op, max) && Next(s, op, s', max)
    ensures Matches(s', ViewStep(v, op, max))
  {
    hide Next;
    NextQueue(s, op, s', max);
    match op
    case Write(bytes) => PrefixOverwritten(v.known, s.room, bytes);
    case Commit(n) => PrefixDropped(v.known, s.room, n);
    case Put(_) => PrefixDropped(v.known, s.room, Min(1, |v.known|));
    case _ =>
  }

  ghost predicate Starts(known: Text8, room: Text8) {
    |known| <= |room| && room[..|known|] == known
  }

  lemma PrefixDropped(known: Text8, room: Text8, n: nat)
    requires Starts(known, room) && n <= |known|
    ensures Starts(known[n..], room[n..]) && room[..n] == known[..n]
  {
    assert known[..n] == room[..|known|][..n];
    assert room[n..][..|known| - n] == room[..|known|][n..];
  }

  lemma PrefixOverwritten(known: Text8, room: Text8, bytes: Text8)
    requires Starts(known, room) && |bytes| <= |room|
    ensures Starts(bytes + known[Min(|bytes|, |known|)..], bytes + room[|bytes|..])
  {
    if |bytes| <= |known| {
      PrefixDropped(known, room, |bytes|);
    }
  }

  lemma NextQueue(s: Sequences, op: Op, s': Sequences, max: nat)
    requires Next(s, op, s', max)
    ensures s'.queue == QueueAfter(s, op) && RoomAfter(s, op, s'.room)
    ensures Grows(s, op) ==> |s'.queue| + |s'.room| <= max
  {
    var taken := TakenBy(s, op);
    assert s'.queue == (taken + s'.queue)[|taken|..];
  }

  lemma {:induction false} OverfullStays(ops: seq<Op>, max: nat)
    requires CarefulRun(Overfull, ops, max)
    ensures ViewRun(Overfull, ops, max) == Overfull
    decreases |ops|
  {
    if ops == [] {
    } else {
      OverfullStays(ops[1..], max);
    }
  }

  /** So it does over a whole run; the run is stopped exactly when the view
      overfills. */
  lemma {:induction false} RunMatches(trace: seq<Sequences>, ops: seq<Op>, done: nat, v: View, max: nat)
    requires done <= |ops| && IsTrace(trace, ops[..done], max) && Matches(trace[0], v) && CarefulRun(v, ops, max)
    requires done < |ops| ==> !Enabled(trace[done], ops[done], max)
    ensures done < |ops| <==> ViewRun(v, ops, max).Overfull?
    ensures Shown(trace, ops[..done]) == ViewShown(v, ops, max)
    ensures done == |ops| ==> Matches(trace[done], ViewRun(v, ops, max))
    decreases |ops|
  {
    hide Matches, Enabled, Next, ViewStep, Careful;
    MatchesView(trace[0], v);
    if ops == [] {
    } else {
      StepEnabled(trace[0], v, ops[0], max);
      if done == 0 {
        OverfullStays(ops[1..], max);
        NothingShown(trace[0], ops[0], max);
      } else {
        assert Enabled(trace[0], ops[..done][0], max) && Next(trace[0], ops[..done][0], trace[0 + 1], max);
        StepMatches(trace[0], v, ops[0], trace[1], max);
        TraceTail(trace, ops[..done], max);
        assert ops[..done][1..] == ops[1..][..done - 1];
        RunMatches(trace[1..], ops[1..], done - 1, ViewStep(v, ops[0], max), max);
      }
    }
  }

  lemma NothingShown(s: Sequences, op: Op, max: nat)
    requires !Enabled(s, op, max)
    ensures ShownBy(s, op) == []
  {
  }

  lemma MatchesView(s: Sequences, v: View)
    requires Matches(s, v)
    ensures v.View? && s.queue == v.queue
  {
  }

  /** A careful client gets a byte queue of at most max_size bytes: over every
      run the buffer holds what the queue holds, and fails exactly when the
      queue would overfill. */
  method DriveCarefully(b: StreamBuf, ops: seq<Op>) returns (ok: bool, shown: seq<IntType>)
    requires b.Valid() && forall i :: 0 <= i < |ops| ==> Castable(ops[i], b.maxSize)
    requires CarefulRun(View(b.Contents(), [], 0), ops, b.maxSize)
    modifies b
    ensures b.Valid()
    ensures ok <==> ViewRun(View(old(b.Contents()), [], 0), ops, b.maxSize).View?
    ensures ok ==> b.Contents() == ViewRun(View(old(b.Contents()), [], 0), ops, b.maxSize).queue
    ensures shown == ViewShown(View(old(b.Contents()), [], 0), ops, b.maxSize)
  {
    ghost var start := View(b.Contents(), [], 0);
    var done;
    ghost var trace;
    done, shown, trace := Drive(b, ops);
    RunMatches(trace, ops, done, start, b.maxSize);
    ok := done == |ops|;
  }
}
