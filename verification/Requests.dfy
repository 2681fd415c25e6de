// What a PostgreSQL server is asked for when lib/pg.js compiles a query and
// when it calls one.
module Requests {
  import opened Prelude
  import opened ByteText
  import opened Messages
  import opened MessageTheorems
  import Protocol
  import PgSocket

  // A stream of whole messages as a server understands it.
  function Understood(stream: Bytes): Option<seq<Content>>
  {
    var frames := Frames(stream);
    if frames.None? || (exists i :: 0 <= i < |frames.value| && Decode(frames.value[i]).None?) then None
    else Some(seq(|frames.value|, i requires 0 <= i < |frames.value| => Decode(frames.value[i]).value))
  }

  lemma MessagesUnderstood(messages: seq<Message>)
    requires forall i :: 0 <= i < |messages| ==> Representable(messages[i]) && Accepted(messages[i])
    ensures var r := Understood(Flatten(EncodeAll(messages)));
      && r.Some? && |r.value| == |messages|
      && forall i :: 0 <= i < |messages| ==> r.value[i] == ContentOf(messages[i])
  {
    assert forall i :: 0 <= i < |messages| && Representable(messages[i]) ==> |Encode(messages[i])| <= INT32_LIMIT by {
      hide Encode;
    }
    hide Encode, Decode, Frames, Flatten, EncodeAll, Representable, Accepted, ContentOf;
    FramesExactly(messages);
    forall i | 0 <= i < |messages| ensures Decode(EncodeAll(messages)[i]) == Some(ContentOf(messages[i])) {
      EncodeAllAt(messages, i);
      DecodeEncode(messages[i]);
    }
  }

  // ---- Compiling ----

  // The statement is prepared under its name with the types of its parameters,
  // described under the same name, and the answer is asked for at once.
  predicate IsCompile(contents: seq<Content>, id: Byte, config: Protocol.Config)
  {
    && |contents| == 3
    && contents[0].ParseContent? && contents[0].name == [id] && contents[0].sql == config.sql
    && |contents[0].oids| == |config.formats|
    && (forall i :: 0 <= i < |config.formats| ==> contents[0].oids[i] == config.formats[i].oid)
    && contents[1] == DescribeContent('S' as int, [id])
    && contents[2] == FlushContent
  }

  lemma CompileUnderstood(protocol: Protocol.Protocol)
    requires Representable(protocol.ParseMessage()) && protocol.id != 0
    ensures var r := Understood(Flatten(EncodeAll(PgSocket.CompileMessages(protocol))));
      r.Some? && IsCompile(r.value, protocol.id, protocol.config)
  {
    var messages := PgSocket.CompileMessages(protocol);
    ShortRepresentable(protocol.id);
    hide Representable, Understood, EncodeAll, Flatten, Protocol.Oids;
    MessagesUnderstood(messages);
    OidsAre(protocol.config.formats);
  }

  lemma OidsAre(formats: seq<Protocol.Format>)
    ensures forall i :: 0 <= i < |formats| ==> Protocol.Oids(formats)[i] == formats[i].oid
    ensures forall i :: 0 <= i < |formats| ==> Protocol.Codes(formats)[i] == formats[i].format
  {
  }

  lemma ShortRepresentable(id: Byte)
    ensures Representable(Describe(id)) && Representable(Flush) && Representable(Sync)
  {
    hide U32;
  }

  // ---- Calling ----

  // The value is the text of the parameter, or its number in four bytes.
  predicate Carries(value: Bytes, p: Param)
  {
    match p
    case Text(text) => value == text
    case Number(n) => |value| == 4 && (-0x8000_0000 <= n < 0x8000_0000 ==> Int32At(value, 0) == n)
  }

  predicate OneFormat(fields: seq<nat>)
  {
    forall i :: 0 <= i < |fields| ==> fields[i] == fields[0]
  }

  // A call binds the arguments, executes the same portal, and asks for the answer.
  predicate IsCall(contents: seq<Content>, id: Byte, config: Protocol.Config, params: seq<Param>)
  {
    && |contents| == 3 && CallBinds(contents[0], id, config, params)
    && contents[1] == ExecuteContent(config.portal, config.maxRows)
    && contents[2] == SyncContent
  }

  lemma CallUnderstood(protocol: Protocol.Protocol)
    requires Representable(protocol.BindMessage()) && Representable(protocol.ExecuteMessage())
    requires protocol.id != 0 && CountFits(|protocol.config.formats|, |protocol.params|)
    ensures var r := Understood(Flatten(EncodeAll(PgSocket.CallMessages(protocol))));
      r.Some? && IsCall(r.value, protocol.id, protocol.config, protocol.params)
  {
    var messages, config, params := PgSocket.CallMessages(protocol), protocol.config, protocol.params;
    ShortRepresentable(protocol.id);
    BindAsksFor(protocol.id, config, params);
    hide Representable, Understood, EncodeAll, Flatten, Protocol.Codes, ResultCodes, Values, CallBinds;
    MessagesUnderstood(messages);
  }

  // The arguments are bound to the statement under a portal, with their formats
  // and those of the result's columns.
  predicate CallBinds(content: Content, id: Byte, config: Protocol.Config, params: seq<Param>)
  {
    && content.BindContent? && content.portal == config.portal && content.name == [id]
    && |content.formats| == |config.formats|
    && (forall i :: 0 <= i < |config.formats| ==> content.formats[i] == config.formats[i].format)
    && |content.values| == |params|
    && (forall i :: 0 <= i < |params| ==> Carries(content.values[i], params[i]))
    && (forall i :: 0 <= i < |config.fields| ==> FormatUnder(content.results, i) == config.fields[i])
    && (|content.results| <= 1 <==> OneFormat(config.fields))
  }

  lemma BindAsksFor(id: Byte, config: Protocol.Config, params: seq<Param>)
    ensures var m := Message.Bind(config.portal, id, Protocol.Codes(config.formats), params, config.fields);
      CallBinds(ContentOf(m), id, config, params)
  {
    hide Protocol.Codes, ResultCodes, FormatUnder, Carries, Values, OneFormat;
    OidsAre(config.formats);
    OneCodeExactly(config.fields);
    forall i | 0 <= i < |params| ensures Carries(Values(params)[i], params[i]) {
      ValueCarries(params, i);
    }
    forall i | 0 <= i < |config.fields| ensures FormatUnder(ResultCodes(config.fields), i) == config.fields[i] {
      ResultFormatsKept(config.fields, i);
    }
  }

  lemma OneCodeExactly(fields: seq<nat>)
    ensures |ResultCodes(fields)| <= 1 <==> OneFormat(fields)
  {
  }

  lemma ValueCarries(params: seq<Param>, i: nat)
    requires i < |params|
    ensures Carries(Values(params)[i], params[i])
  {
    hide U32, Int32At;
    if params[i].Number? {
      NumberReadExactly(params[i].n);
    }
  }
}
