// When lib/pg.js sends what it has written: a call does not flush while commands
// are pending, and relies on the flush that comes before every read.
module Calling {
  import opened ByteText
  import opened Sending

  // The send buffer, and for every pending command where its messages end in the
  // stream.
  datatype Line = Line(pipe: Pipe, pending: seq<nat>)

  const IDLE: Line := Line(EMPTY, [])

  // Everything written so far.
  function Written(s: Line): nat
  {
    |s.pipe.accepted| + |s.pipe.unsent|
  }

  // The messages of a command are written, and it is pending.
  function Write(s: Line, text: Bytes): Line
  {
    Line(Append(s.pipe, text), s.pending + [Written(s) + |text|])
  }

  function Flush(s: Line, written: int, blocked: bool): Line
  {
    s.(pipe := Flushed(s.pipe, written, blocked).0)
  }

  datatype Event =
    | Compile(text: Bytes, written: int, blocked: bool)
    | Call(text: Bytes, written: int, blocked: bool)
    | Readable(written: int, blocked: bool, answers: nat)
    | Writable(written: int, blocked: bool)

  // What the flush of an event starts from.
  function Before(s: Line, e: Event): Line
  {
    match e
    case Compile(text, _, _) => Write(s, text)
    case Call(text, _, _) => Write(s, text)
    case Readable(_, _, _) => s
    case Writable(_, _) => s.(pipe := s.pipe.(flushing := false))
  }

  // A compilation and a call on an idle connection flush what they have written.
  // A read flushes first and then settles the commands that were answered.
  function Apply(s: Line, e: Event): Line
  {
    var before := Before(s, e);
    match e
    case Compile(_, written, blocked) => Flush(before, written, blocked)
    case Call(_, written, blocked) => if s.pending == [] then Flush(before, written, blocked) else before
    case Readable(written, blocked, answers) =>
      var flushed := Flush(before, written, blocked);
      if answers <= |flushed.pending| then flushed.(pending := flushed.pending[answers..]) else flushed
    case Writable(written, blocked) => Flush(before, written, blocked)
  }

  // A send takes no more than it is given, a socket becomes writable when that
  // was asked for, and a server answers only what it has been sent.
  predicate Enabled(s: Line, e: Event)
  {
    && e.written <= |Before(s, e).pipe.unsent|
    && match e
       case Writable(_, _) => s.pipe.watching
       case Readable(written, blocked, answers) =>
         var flushed := Flush(s, written, blocked);
         answers <= |s.pending| && (answers > 0 ==> s.pending[answers - 1] <= |flushed.pipe.accepted|)
       case _ => true
  }

  ghost predicate IsRun(states: seq<Line>, events: seq<Event>)
  {
    && |states| == |events| + 1
    && states[0] == IDLE
    && forall i :: 0 <= i < |events| ==>
         Enabled(states[i], events[i]) && states[i + 1] == Apply(states[i], events[i])
  }

  // A command that has been sent whole waits for its answer.
  predicate AwaitsAnswer(s: Line)
  {
    s.pending != [] && s.pending[0] <= |s.pipe.accepted|
  }

  // Bytes that are left unsent are on their way: in a flush that waits for the
  // socket, or behind a command whose answer brings the next flush.
  predicate IsMoving(s: Line)
  {
    s.pipe.unsent != [] && !s.pipe.closed ==> s.pipe.flushing || AwaitsAnswer(s)
  }

  predicate AllWritten(s: Line)
  {
    forall i :: 0 <= i < |s.pending| ==> s.pending[i] <= Written(s)
  }

  ghost predicate Inv(s: Line)
  {
    IsMoving(s) && AllWritten(s) && Live(s.pipe)
  }

  // An event sends exactly when there is something to send and no flush waits for
  // the socket, and a call does so only with no other command pending. What it
  // writes is put at the end.
  lemma EventExactly(s: Line, e: Event)
    requires Enabled(s, e)
    ensures var after, text := Apply(s, e), if e.Compile? || e.Call? then e.text else [];
      var total := s.pipe.accepted + s.pipe.unsent + text;
      var sends := (e.Call? ==> s.pending == []) && (e.Writable? || !s.pipe.flushing) && s.pipe.unsent + text != [];
      && after.pipe.accepted + after.pipe.unsent == total
      && |after.pipe.accepted| == |s.pipe.accepted| + (if sends && e.written > 0 then e.written else 0)
      && (e.Compile? || e.Call? ==> after.pending == s.pending + [|total|])
      && (e.Writable? ==> after.pending == s.pending)
      && (e.Readable? ==> e.answers <= |s.pending| && after.pending == s.pending[e.answers..])
  {
    var before := Before(s, e);
    FlushExactly(before.pipe, e.written, e.blocked);
    FlushKeeps(before.pipe, e.written, e.blocked);
    hide Flushed, Live;
    if e.Compile? || e.Call? {
      assert s.pipe.accepted + (s.pipe.unsent + e.text) == s.pipe.accepted + s.pipe.unsent + e.text;
    } else {
      assert s.pipe.accepted + s.pipe.unsent + [] == s.pipe.accepted + s.pipe.unsent;
    }
  }

  // After a flush everything is sent, or a flush waits, or the socket is closed.
  lemma FlushMoves(s: Line, written: int, blocked: bool)
    requires written <= |s.pipe.unsent| && Live(s.pipe)
    ensures var after := Flush(s, written, blocked);
      && (after.pipe.unsent == [] || after.pipe.flushing || after.pipe.closed)
      && Live(after.pipe) && Written(after) == Written(s)
      && |s.pipe.accepted| <= |after.pipe.accepted|
  {
  }

  lemma WriteKeeps(s: Line, text: Bytes)
    requires Inv(s)
    ensures AllWritten(Write(s, text)) && Live(Write(s, text).pipe)
    ensures s.pending != [] ==> IsMoving(Write(s, text))
  {
  }

  lemma StepInv(s: Line, e: Event)
    requires Inv(s) && Enabled(s, e)
    ensures Inv(Apply(s, e))
  {
    var before := Before(s, e);
    if e.Compile? || e.Call? {
      WriteKeeps(s, e.text);
    }
    assert Live(before.pipe) && AllWritten(before);
    FlushMoves(before, e.written, e.blocked);
    hide Flushed, Append;
  }

  // Over every run of calls, answers and partial sends nothing is left behind:
  // with bytes unsent and no flush under way on an open socket, a command that
  // was sent whole still waits for its answer.
  lemma {:induction false} NothingLeftBehind(states: seq<Line>, events: seq<Event>, i: nat)
    requires IsRun(states, events) && i < |states|
    ensures Inv(states[i])
    ensures states[i].pipe.unsent != [] && !states[i].pipe.closed && !states[i].pipe.flushing ==>
      AwaitsAnswer(states[i])
  {
    if i > 0 {
      NothingLeftBehind(states, events, i - 1);
      assert states[i] == Apply(states[i - 1], events[i - 1]) && Enabled(states[i - 1], events[i - 1]);
      StepInv(states[i - 1], events[i - 1]);
      hide Apply, Enabled, AllWritten;
    }
  }
}
