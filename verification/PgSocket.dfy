// The connection of lib/pg.js: one buffer that every query writes into, and its
// partial sends.
module PgSocket {
  import opened ByteText
  import opened Messages
  import Protocol
  import opened Sending

  const BUFFER_SIZE: nat := 64 * 1024

  // What compiling a query and calling it send.
  function CompileMessages(protocol: Protocol.Protocol): seq<Message>
  {
    [protocol.ParseMessage(), Message.Describe(protocol.id), Message.Flush]
  }

  function CallMessages(protocol: Protocol.Protocol): seq<Message>
    reads protocol
  {
    [protocol.BindMessage(), protocol.ExecuteMessage(), Message.Sync]
  }

  class PGSocket {
    const buffer: array<Byte>
    var off: nat
    var flushing: bool
    var watching: bool
    var closed: bool
    ghost var accepted: Bytes
    ghost var messages: seq<Message>

    ghost predicate Valid()
      reads this, buffer
    {
      buffer.Length == BUFFER_SIZE && off <= buffer.Length && Conserves(Contents(), messages)
    }

    ghost function Contents(): Pipe
      reads this, buffer
      requires off <= buffer.Length
    {
      Pipe(accepted, buffer[..off], flushing, watching, closed)
    }

    constructor ()
      ensures Valid() && fresh(buffer) && buffer.Length == 65536 && Contents() == EMPTY && messages == []
    {
      buffer := new Byte[BUFFER_SIZE](i => 0);
      off, flushing, watching, closed := 0, false, false, false;
      accepted, messages := [], [];
      new;
      assert buffer[..0] == [];
      NothingConserved();
    }

    // The source's test for a blocked socket and its last way out are part of
    // OutcomeOf.
    method Flush(written: int, blocked: bool) returns (result: int)
      requires Valid() && written <= off
      modifies this, buffer
      ensures Valid() && messages == old(messages)
      ensures (Contents(), result) == Flushed(old(Contents()), written, blocked)
    {
      FlushConserves(Contents(), messages, written, blocked);
      hide Conserves;
      if flushing || off == 0 {
        return 0;
      }
      flushing := true;
      match OutcomeOf(off, written, blocked)
      case All =>
        accepted := accepted + buffer[..off];
        off, flushing := 0, false;
        result := written;
        assert buffer[..0] == [];
      case Refused =>
        flushing, closed := false, true;
        result := -1;
      case Wait =>
        if written > 0 {
          KeepRest(written);
        } else {
          assert accepted + buffer[..off][..0] == accepted && buffer[..off][0..] == buffer[..off];
        }
        watching := true;
        result := 0;
    }

    // What was not sent moves to the front of the buffer.
    method KeepRest(written: nat)
      requires written <= off <= buffer.Length
      modifies this`off, this`accepted, buffer
      ensures off == old(off) - written && buffer[..off] == old(buffer[..off])[written..]
      ensures accepted == old(accepted) + old(buffer[..off])[..written]
    {
      ghost var was := buffer[..off];
      accepted := accepted + buffer[..written];
      forall i | 0 <= i < off - written {
        buffer[i] := buffer[written + i];
      }
      off := off - written;
      assert buffer[..off] == was[written..] && was[..written] == old(buffer[..written]);
    }

    method OnWritable(written: int, blocked: bool) returns (result: int)
      requires Valid() && watching && written <= off
      modifies this, buffer
      ensures Valid() && messages == old(messages)
      ensures (Contents(), result) == Resumed(old(Contents()), written, blocked)
    {
      FlushConserves(Contents(), messages, written, blocked);
      flushing := false;
      result := Flush(written, blocked);
    }

    // Compiling a query appends its three messages and flushes.
    method Compile(protocol: Protocol.Protocol, written: int, blocked: bool) returns (result: int)
      requires Valid() && protocol.buffer == buffer
      requires off + CompileSize(protocol) <= buffer.Length && written <= off + CompileSize(protocol)
      modifies this, buffer
      ensures Valid() && messages == old(messages) + CompileMessages(protocol)
      ensures var issued := CompileMessages(protocol);
        (Contents(), result)
        == Flushed(AppendThree(old(Contents()), issued[0], issued[1], issued[2]), written, blocked)
    {
      ghost var issued := CompileMessages(protocol);
      AppendThreeConserves(Contents(), messages, issued[0], issued[1], issued[2]);
      hide Conserves, Flushed, Encode;
      off := protocol.Parse(off);
      off := protocol.Describe(off);
      off := protocol.Flush(off);
      messages := messages + issued;
      result := Flush(written, blocked);
    }

    // Calling a compiled query appends its three messages, and flushes when no
    // other command is outstanding.
    method Call(protocol: Protocol.Protocol, args: seq<Param>, idle: bool, written: int, blocked: bool)
      returns (result: int)
      requires Valid() && protocol.buffer == buffer && Protocol.Fit(protocol.config.formats, args)
      requires off + CallSize(protocol, args) <= buffer.Length && written <= off + CallSize(protocol, args)
      modifies this, buffer, protocol
      ensures protocol.params == args
      ensures Valid() && messages == old(messages) + CallMessages(protocol)
      ensures var issued := CallMessages(protocol);
        var p := AppendThree(old(Contents()), issued[0], issued[1], issued[2]);
        (Contents(), result) == if idle then Flushed(p, written, blocked) else (p, 0)
    {
      protocol.params := args;
      ghost var issued := CallMessages(protocol);
      AppendThreeConserves(Contents(), messages, issued[0], issued[1], issued[2]);
      hide Conserves, Flushed, Encode;
      off := WriteCall(protocol, off);
      messages := messages + issued;
      result := 0;
      if idle {
        result := Flush(written, blocked);
      }
    }

    method WriteCall(protocol: Protocol.Protocol, start: nat) returns (off: nat)
      requires protocol.buffer == buffer && Protocol.Fit(protocol.config.formats, protocol.params)
      requires start + CallSize(protocol, protocol.params) <= buffer.Length
      modifies buffer
      ensures off == start + CallSize(protocol, protocol.params)
      ensures buffer[..off] == old(buffer[..start]) + Encode(protocol.BindMessage()) +
              Encode(protocol.ExecuteMessage()) + Encode(Message.Sync)
    {
      hide Encode;
      off := protocol.Bind(start);
      off := protocol.Exec(off);
      off := protocol.Sync(off);
    }
  }

  // The bytes that compiling a query appends.
  ghost function CompileSize(protocol: Protocol.Protocol): nat
  {
    |Encode(protocol.ParseMessage())| + |Encode(Message.Describe(protocol.id))| + |Encode(Message.Flush)|
  }

  // The bytes that a call with these arguments appends.
  ghost function CallSize(protocol: Protocol.Protocol, args: seq<Param>): nat
  {
    var config := protocol.config;
    |Encode(Message.Bind(config.portal, protocol.id, Protocol.Codes(config.formats), args, config.fields))| +
    |Encode(protocol.ExecuteMessage())| + |Encode(Message.Sync)|
  }
}
