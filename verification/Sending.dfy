// What lib/pg.js sends: messages are appended to one buffer, and sends that
// take all, some or none of it.
module Sending {
  import opened Prelude
  import opened ByteText
  import opened Messages
  import opened MessageTheorems

  // The bytes the socket has accepted and those still in the buffer.
  datatype Pipe = Pipe(accepted: Bytes, unsent: Bytes, flushing: bool, watching: bool, closed: bool)

  const EMPTY: Pipe := Pipe([], [], false, false, false)

  datatype Outcome = All | Refused | Wait | Failed

  // What a send of size bytes led to. A negative result is an error; blocked
  // says that it was only a full socket.
  function OutcomeOf(size: nat, written: int, blocked: bool): Outcome
  {
    if written == size then All
    else if written == 0 then Refused
    else if written < size || (written < 0 && blocked) then Wait
    else Failed
  }

  // Closing for an error that is not a full socket never happens: a send closes
  // exactly when it takes nothing of something, and every error waits.
  lemma ClosesExactly(size: nat, written: int, blocked: bool)
    requires size > 0 && written <= size
    ensures OutcomeOf(size, written, blocked) in {Refused, Failed} <==> written == 0
    ensures written < 0 ==> OutcomeOf(size, written, blocked) == Wait
  {
  }

  function Append(p: Pipe, text: Bytes): Pipe
  {
    p.(unsent := p.unsent + text)
  }

  predicate Sends(p: Pipe)
  {
    !p.flushing && p.unsent != []
  }

  // One flush, and its result. The send is made only when none is waiting and
  // there is something to send.
  function Flushed(p: Pipe, written: int, blocked: bool): (Pipe, int)
  {
    if !Sends(p) then (p, 0)
    else
      match OutcomeOf(|p.unsent|, written, blocked)
      case All => (p.(accepted := p.accepted + p.unsent, unsent := []), written)
      case Refused => (p.(closed := true), -1)
      case Failed => (p.(closed := true), -2)
      case Wait =>
        var n := if written > 0 then written else 0;
        (p.(accepted := p.accepted + p.unsent[..n], unsent := p.unsent[n..], flushing := true, watching := true), 0)
  }

  // The socket can take more.
  function Resumed(p: Pipe, written: int, blocked: bool): (Pipe, int)
  {
    Flushed(p.(flushing := false), written, blocked)
  }

  // ---- Runs ----

  datatype Event =
    | Written(m: Message)
    | Flush(written: int, blocked: bool)
    | Writable(written: int, blocked: bool)

  predicate Enabled(p: Pipe, e: Event)
  {
    match e
    case Written(_) => true
    case Flush(written, _) => written <= |p.unsent|
    case Writable(written, _) => p.watching && written <= |p.unsent|
  }

  function Apply(p: Pipe, e: Event): Pipe
  {
    match e
    case Written(m) => Append(p, Encode(m))
    case Flush(written, blocked) => Flushed(p, written, blocked).0
    case Writable(written, blocked) => Resumed(p, written, blocked).0
  }

  function Issued(events: seq<Event>): seq<Message>
  {
    if events == [] then []
    else
      var before, last := Issued(events[..|events| - 1]), events[|events| - 1];
      if last.Written? then before + [last.m] else before
  }

  function After(events: seq<Event>): Pipe
  {
    if events == [] then EMPTY else Apply(After(events[..|events| - 1]), events[|events| - 1])
  }

  predicate IsRun(events: seq<Event>)
  {
    events == [] ||
    (IsRun(events[..|events| - 1]) && Enabled(After(events[..|events| - 1]), events[|events| - 1]))
  }

  // A flush in progress has its handler set and something left to send, so it
  // is not lost.
  predicate Live(p: Pipe)
  {
    p.flushing ==> p.watching && p.unsent != []
  }

  lemma FlushKeeps(p: Pipe, written: int, blocked: bool)
    requires written <= |p.unsent|
    ensures var q := Flushed(p, written, blocked).0;
      q.accepted + q.unsent == p.accepted + p.unsent && p.accepted <= q.accepted && (Live(p) ==> Live(q))
  {
    hide Live;
    var n := if written > 0 then written else 0;
    assert p.accepted + p.unsent[..n] + p.unsent[n..] == p.accepted + p.unsent by {
      assert p.unsent == p.unsent[..n] + p.unsent[n..];
    }
    FlushLive(p, written, blocked);
  }

  // The bytes that count as accepted are those the send took, all of the buffer
  // is offered, and one flush ends in one of four ways: nothing is done, all is
  // sent, the rest waits for the socket, or the socket is closed.
  lemma FlushExactly(p: Pipe, written: int, blocked: bool)
    requires written <= |p.unsent|
    ensures var (q, result) := Flushed(p, written, blocked);
      if p.flushing || p.unsent == [] then q == p && result == 0
      else
        && |q.accepted| == |p.accepted| + (if written > 0 then written else 0)
        && result == (if written == 0 then -1 else if written == |p.unsent| then written else 0)
        && (q.closed <==> p.closed || written == 0)
        && (q.flushing <==> written != 0 && written != |p.unsent|) && (q.flushing ==> q.watching)
  {
  }

  // When the socket can take more, what waited is sent.
  lemma ResumedExactly(p: Pipe, written: int, blocked: bool)
    requires written <= |p.unsent| && p.unsent != []
    ensures var (q, result) := Resumed(p, written, blocked);
      && |q.accepted| == |p.accepted| + (if written > 0 then written else 0)
      && result == (if written == 0 then -1 else if written == |p.unsent| then written else 0)
      && (q.closed <==> p.closed || written == 0)
      && (q.flushing <==> written != 0 && written != |p.unsent|) && (q.flushing ==> q.watching)
  {
    FlushExactly(p.(flushing := false), written, blocked);
    hide Flushed;
  }

  lemma FlushLive(p: Pipe, written: int, blocked: bool)
    requires written <= |p.unsent|
    ensures Live(p) ==> Live(Flushed(p, written, blocked).0)
  {
  }

  lemma FlattenSnoc(parts: seq<Bytes>, last: Bytes)
    ensures Flatten(parts + [last]) == Flatten(parts) + last
  {
    assert (parts + [last])[..|parts|] == parts;
  }

  lemma EncodeAllSnoc(messages: seq<Message>, m: Message)
    ensures Flatten(EncodeAll(messages + [m])) == Flatten(EncodeAll(messages)) + Encode(m)
  {
    hide Encode, Flatten;
    FlattenSnoc(EncodeAll(messages), Encode(m));
    assert EncodeAll(messages + [m]) == EncodeAll(messages) + [Encode(m)];
  }

  // The bytes are those of the messages, in order.
  predicate Conserves(p: Pipe, messages: seq<Message>)
  {
    p.accepted + p.unsent == Flatten(EncodeAll(messages)) && Live(p)
  }

  lemma AppendConserves(p: Pipe, messages: seq<Message>, m: Message)
    requires Conserves(p, messages)
    ensures Conserves(Append(p, Encode(m)), messages + [m])
  {
    hide Encode, Flatten, EncodeAll;
    EncodeAllSnoc(messages, m);
    assert p.accepted + (p.unsent + Encode(m)) == p.accepted + p.unsent + Encode(m);
  }

  // Three messages written one after the other.
  function AppendThree(p: Pipe, a: Message, b: Message, c: Message): Pipe
  {
    Append(Append(Append(p, Encode(a)), Encode(b)), Encode(c))
  }

  lemma AppendThreeConserves(p: Pipe, messages: seq<Message>, a: Message, b: Message, c: Message)
    requires Conserves(p, messages)
    ensures Conserves(AppendThree(p, a, b, c), messages + [a, b, c])
  {
    hide Conserves, Encode, Append;
    AppendConserves(p, messages, a);
    AppendConserves(Append(p, Encode(a)), messages + [a], b);
    AppendConserves(Append(Append(p, Encode(a)), Encode(b)), messages + [a] + [b], c);
    assert messages + [a] + [b] + [c] == messages + [a, b, c];
  }

  lemma FlushConserves(p: Pipe, messages: seq<Message>, written: int, blocked: bool)
    requires Conserves(p, messages) && written <= |p.unsent|
    ensures Conserves(Flushed(p, written, blocked).0, messages)
    ensures Conserves(Resumed(p, written, blocked).0, messages)
  {
    hide Flushed, Flatten, EncodeAll;
    FlushKeeps(p, written, blocked);
    FlushKeeps(p.(flushing := false), written, blocked);
  }

  // Over every run of full, partial and refused sends with messages written in
  // between, the accepted bytes and the unsent ones make up all messages.
  lemma {:induction false} RunConserves(events: seq<Event>)
    requires IsRun(events)
    ensures Conserves(After(events), Issued(events))
  {
    hide Encode, Flushed, Resumed, Conserves;
    if events == [] {
      NothingConserved();
    } else {
      var before, last := events[..|events| - 1], events[|events| - 1];
      RunConserves(before);
      match last
      case Written(m) => AppendConserves(After(before), Issued(before), m);
      case Flush(written, blocked) => FlushConserves(After(before), Issued(before), written, blocked);
      case Writable(written, blocked) => FlushConserves(After(before), Issued(before), written, blocked);
    }
  }

  lemma NothingConserved()
    ensures Conserves(EMPTY, [])
  {
    assert EncodeAll([]) == [];
  }

  // ---- What the server sees ----

  // The complete frames at the front of what has arrived.
  function Received(stream: Bytes): seq<Bytes>
  {
    if |stream| < 5 then []
    else
      var size := 1 + U32At(stream, 1);
      if size < 5 || size > INT32_LIMIT || size > |stream| then [] else [stream[..size]] + Received(stream[size..])
  }

  // A frame at the front has arrived when all its bytes have.
  lemma ReceivedNext(frame: Bytes, rest: Bytes, arrived: Bytes)
    requires 5 <= |frame| <= INT32_LIMIT && U32At(frame + rest, 1) == |frame| - 1 && arrived <= frame + rest
    ensures |arrived| < |frame| ==> Received(arrived) == []
    ensures |arrived| >= |frame| ==>
      arrived[|frame|..] <= rest && Received(arrived) == [frame] + Received(arrived[|frame|..])
  {
    if |arrived| >= 5 {
      assert arrived[1..5] == (frame + rest)[1..5];
      assert U32At(arrived, 1) == |frame| - 1 by {
        SameU32(arrived, frame + rest, 1);
      }
      hide U32At;
      if |arrived| >= |frame| {
        assert arrived[..|frame|] == (frame + rest)[..|frame|] == frame;
        assert arrived[|frame|..] == rest[..|arrived| - |frame|];
      }
    }
  }

  lemma SameU32(a: Bytes, b: Bytes, off: nat)
    requires a <= b && off + 4 <= |a|
    ensures U32At(a, off) == U32At(b, off)
  {
    assert forall i :: 0 <= i < |a| ==> a[i] == b[i];
  }

  predicate AllSized(messages: seq<Message>)
  {
    forall i :: 0 <= i < |messages| ==> |Encode(messages[i])| <= INT32_LIMIT
  }

  // However the stream was cut by the sends, the complete frames that have
  // arrived are the first messages, in order, and with the whole stream all.
  lemma {:induction false} ReceivedExactly(messages: seq<Message>, arrived: Bytes)
    requires AllSized(messages) && arrived <= Flatten(EncodeAll(messages))
    ensures Received(arrived) <= EncodeAll(messages)
    ensures arrived == Flatten(EncodeAll(messages)) ==> Received(arrived) == EncodeAll(messages)
    decreases |messages|
  {
    if messages == [] {
      assert EncodeAll(messages) == [];
    } else {
      var first, rest := messages[0], messages[1..];
      var frame, tail := Encode(first), Flatten(EncodeAll(rest));
      assert |frame| >= 5 && |frame| <= INT32_LIMIT && AllSized(rest) by {
        hide Encode;
      }
      hide *;
      EncodeAllCons(messages);
      FlattenFront(frame, EncodeAll(rest));
      FrameRead(first, tail);
      ReceivedNext(frame, tail, arrived);
      if |arrived| >= |frame| {
        ReceivedExactly(rest, arrived[|frame|..]);
        PrefixCons(frame, Received(arrived[|frame|..]), EncodeAll(rest));
        assert arrived == frame + tail ==> arrived[|frame|..] == tail;
      } else {
        assert |frame + tail| == |frame| + |tail|;
        assert arrived != frame + tail;
      }
    }
  }

  lemma PrefixCons(frame: Bytes, a: seq<Bytes>, b: seq<Bytes>)
    requires a <= b
    ensures [frame] + a <= [frame] + b
  {
  }

  // The server reads the frame as the message exactly when it accepts that.
  predicate ReadAs(frame: Bytes, m: Message)
  {
    Decode(frame) == Some(ContentOf(m)) <==> Accepted(m)
  }

  // End to end: at every moment of every run the server has read, from the
  // bytes accepted so far, the first k messages that were issued and nothing
  // else, each as what was issued exactly when its statement is named and its
  // count of formats fits; all of them once nothing is unsent.
  lemma ServerReads(events: seq<Event>)
    requires IsRun(events) && forall i :: 0 <= i < |Issued(events)| ==> Representable(Issued(events)[i])
    ensures var (frames, issued) := (Received(After(events).accepted), Issued(events));
      && |frames| <= |issued|
      && (forall i :: 0 <= i < |frames| ==> ReadAs(frames[i], issued[i]))
      && (After(events).unsent == [] ==> |frames| == |issued|)
  {
    var p, issued := After(events), Issued(events);
    RunConserves(events);
    assert AllSized(issued) by {
      hide Encode;
    }
    assert Conserves(p, issued);
    hide Encode, Flatten, EncodeAll, Representable, Accepted, Decode, Received, After, Issued, IsRun, Live, AllSized,
      ContentOf;
    assert p.accepted <= Flatten(EncodeAll(issued));
    ReceivedExactly(issued, p.accepted);
    assert p.unsent == [] ==> p.accepted + p.unsent == p.accepted;
    forall i | 0 <= i < |Received(p.accepted)| ensures ReadAs(Received(p.accepted)[i], issued[i]) {
      EncodeAllAt(issued, i);
      DecodeEncode(issued[i]);
    }
  }
}
