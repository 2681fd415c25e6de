// The message writers of lib/pg.js: each fills the shared buffer from an offset
// on and returns the offset after its message.
module Protocol {
  import opened ByteText
  import opened Messages

  // A parameter's type and whether it is sent as text (0) or binary (1).
  datatype Format = Format(oid: nat, format: nat)

  // What a query is compiled from; fields holds the formats of its columns.
  datatype Config = Config(sql: Bytes, formats: seq<Format>, portal: Bytes, fields: seq<nat>, maxRows: nat)

  function Oids(formats: seq<Format>): (oids: seq<nat>)
    ensures |oids| == |formats|
  {
    seq(|formats|, i requires 0 <= i < |formats| => formats[i].oid)
  }

  function Codes(formats: seq<Format>): (codes: seq<nat>)
    ensures |codes| == |formats|
  {
    seq(|formats|, i requires 0 <= i < |formats| => formats[i].format)
  }

  // Parameters sent in binary are numbers, the others texts.
  predicate Fit(formats: seq<Format>, params: seq<Param>)
  {
    forall i :: 0 <= i < |params| ==> formats != [] && (params[i].Number? <==> WrittenFormat(Codes(formats), i) == 1)
  }

  // ---- Statement names ----

  // A one-byte name, or the query's own name once those have run out.
  datatype Id = Code(code: Byte) | Own(name: string)

  const NAMES: nat := 64

  // The characters A to Z, a to z, 0 to 9, - and +.
  function NameCode(i: nat): Byte
    requires i < NAMES
  {
    if i < 26 then 65 + i else if i < 52 then 71 + i else if i < 62 then i - 4 else if i == 62 then 45 else 43
  }

  class NameIndex {
    var index: nat

    constructor ()
      ensures index == 0
    {
      index := 0;
    }

    method GetId(name: string) returns (id: Id)
      modifies this
      ensures id == IdOf(old(index), name)
      ensures index == if old(index) >= NAMES then old(index) else old(index) + 1
    {
      if index >= NAMES {
        return Own(name);
      }
      id := Code(NameCode(index));
      index := index + 1;
    }
  }

  // What the Protocol object created at this place in the program's run gets.
  function IdOf(place: nat, name: string): Id
  {
    if place < NAMES then Code(NameCode(place)) else Own(name)
  }

  // The 64 names, in the order in which they are given out.
  const UPPER: string := "ABCDEFGHIJKLMNOPQRSTUVWXYZ"
  const LOWER: string := "abcdefghijklmnopqrstuvwxyz"
  const OTHERS: string := "0123456789-+"

  lemma NamesSpelled(place: nat, name: string)
    ensures place < 26 ==> IdOf(place, name).Code? && IdOf(place, name).code == UPPER[place] as int
    ensures 26 <= place < 52 ==> IdOf(place, name).Code? && IdOf(place, name).code == LOWER[place - 26] as int
    ensures 52 <= place < 64 ==> IdOf(place, name).Code? && IdOf(place, name).code == OTHERS[place - 52] as int
    ensures 64 <= place ==> IdOf(place, name) == Own(name)
  {
    assert place < 26 ==> UPPER[place] as int == 65 + place;
    assert 26 <= place < 52 ==> LOWER[place - 26] as int == 71 + place;
  }

  // The byte that stands for the name in a message. Storing a text in a byte
  // converts it to a number, and one that is no number to 0.
  function StoredByte(id: Id, toNumber: string -> int): Byte
  {
    match id
    case Code(code) => code
    case Own(name) => toNumber(name) % 256
  }

  // A Protocol object is created for every socket and for every query.
  datatype Created = ForSocket(name: string) | ForQuery(name: string)

  function NameByte(created: seq<Created>, i: nat, toNumber: string -> int): Byte
    requires i < |created|
  {
    StoredByte(IdOf(i, created[i].name), toNumber)
  }

  // No statement name is empty and no two queries share one.
  predicate WellNamed(created: seq<Created>, toNumber: string -> int)
  {
    && (forall i :: 0 <= i < |created| && created[i].ForQuery? ==> NameByte(created, i, toNumber) != 0)
    && (forall i, j :: 0 <= i < j < |created| && created[i].ForQuery? && created[j].ForQuery? ==>
          NameByte(created, i, toNumber) != NameByte(created, j, toNumber))
  }

  // When the names used after the first 64 are no numbers, the queries are well
  // named exactly when none is created after 64 sockets and queries.
  lemma NamesExactly(created: seq<Created>, toNumber: string -> int)
    requires forall i :: NAMES <= i < |created| ==> toNumber(created[i].name) == 0
    ensures WellNamed(created, toNumber) <==> forall i :: NAMES <= i < |created| ==> created[i].ForSocket?
  {
    if i :| NAMES <= i < |created| && created[i].ForQuery? {
      assert NameByte(created, i, toNumber) == 0;
    }
  }

  lemma ParamsBytesSnoc(params: seq<Param>, i: nat)
    requires i < |params|
    ensures ParamsBytes(params[..i + 1]) == ParamsBytes(params[..i]) + ParamBytes(params[i])
  {
    assert params[..i + 1][..i] == params[..i];
  }

  lemma {:induction false} ParamsBytesGrow(params: seq<Param>, i: nat)
    requires i <= |params|
    ensures |ParamsBytes(params[..i])| <= |ParamsBytes(params)|
    decreases |params| - i
  {
    if i == |params| {
      assert params[..i] == params;
    } else {
      ParamsBytesSnoc(params, i);
      ParamsBytesGrow(params, i + 1);
    }
  }

  class Protocol {
    const buffer: array<Byte>
    const id: Byte
    const config: Config
    var params: seq<Param>

    constructor (buffer: array<Byte>, id: Byte, config: Config)
      ensures this.buffer == buffer && this.id == id && this.config == config && params == []
    {
      this.buffer, this.id, this.config, params := buffer, id, config, [];
    }

    // ---- What is issued ----

    function ParseMessage(): Message
    {
      Message.Parse(id, config.sql, Oids(config.formats))
    }

    function BindMessage(): Message
      reads this
    {
      Message.Bind(config.portal, id, Codes(config.formats), params, config.fields)
    }

    function ExecuteMessage(): Message
    {
      Message.Execute(config.portal, config.maxRows)
    }

    // ---- Numbers and texts ----

    method PutByte(off: nat, x: Byte) returns (end: nat)
      requires off < buffer.Length
      modifies buffer
      ensures end == off + 1 && buffer[..end] == old(buffer[..off]) + [x]
    {
      buffer[off] := x;
      end := off + 1;
    }

    method PutUint16(off: nat, n: nat) returns (end: nat)
      requires off + 2 <= buffer.Length
      modifies buffer
      ensures end == off + 2 && buffer[..end] == old(buffer[..off]) + U16(n)
    {
      buffer[off], buffer[off + 1] := n / 0x100 % 0x100, n % 0x100;
      end := off + 2;
    }

    method PutUint32(off: nat, n: nat) returns (end: nat)
      requires off + 4 <= buffer.Length
      modifies buffer
      ensures end == off + 4 && buffer[..end] == old(buffer[..off]) + U32(n)
      ensures buffer[end..] == old(buffer[off + 4..])
    {
      ghost var text := U32(n);
      buffer[off], buffer[off + 1] := n / 0x100_0000 % 0x100, n / 0x1_0000 % 0x100;
      buffer[off + 2], buffer[off + 3] := n / 0x100 % 0x100, n % 0x100;
      end := off + 4;
      assert text == [buffer[off], buffer[off + 1], buffer[off + 2], buffer[off + 3]];
      hide U32;
    }

    method PutString(off: nat, text: Bytes) returns (end: nat)
      requires off + |text| <= buffer.Length
      modifies buffer
      ensures end == off + |text| && buffer[..end] == old(buffer[..off]) + text
    {
      forall i | 0 <= i < |text| {
        buffer[off + i] := text[i];
      }
      end := off + |text|;
    }

    method PutTerminated(off: nat, text: Bytes) returns (end: nat)
      requires off + |text| < buffer.Length
      modifies buffer
      ensures end == off + |text| + 1 && buffer[..end] == old(buffer[..off]) + text + [0]
    {
      end := PutString(off, text);
      end := PutByte(end, 0);
    }

    // The name of the statement.
    method PutName(off: nat) returns (end: nat)
      requires off + 2 <= buffer.Length
      modifies buffer
      ensures end == off + 2 && buffer[..end] == old(buffer[..off]) + [id] + [0]
    {
      end := PutByte(off, id);
      end := PutByte(end, 0);
    }

    method PutUint16s(off: nat, ns: seq<nat>) returns (end: nat)
      requires off + 2 * |ns| <= buffer.Length
      modifies buffer
      ensures end == off + 2 * |ns| && buffer[..end] == old(buffer[..off]) + U16s(ns)
    {
      hide U16;
      end := off;
      for i := 0 to |ns|
        invariant end == off + 2 * i && buffer[..end] == old(buffer[..off]) + U16s(ns[..i])
      {
        assert ns[..i + 1][..i] == ns[..i];
        end := PutUint16(end, ns[i]);
        assert U16s(ns[..i + 1]) == U16s(ns[..i]) + U16(ns[i]);
      }
      assert ns[..|ns|] == ns;
    }

    // ---- Messages ----

    method Parse(start: nat) returns (off: nat)
      requires start + |Encode(ParseMessage())| <= buffer.Length
      modifies buffer
      ensures off == start + |Encode(ParseMessage())|
      ensures buffer[..off] == old(buffer[..start]) + Encode(ParseMessage())
    {
      var flen := |config.formats|;
      var len := 9 + |config.sql| + 1 + flen * 4;
      ParseText(buffer[..start]);
      hide *;
      off := PutByte(start, 80);
      off := PutUint32(off, len - 1);
      off := PutName(off);
      off := PutTerminated(off, config.sql);
      off := PutUint16(off, flen);
      off := PutOids(off);
    }

    method PutOids(start: nat) returns (off: nat)
      requires start + 4 * |config.formats| <= buffer.Length
      modifies buffer
      ensures off == start + 4 * |config.formats|
      ensures buffer[..off] == old(buffer[..start]) + U32s(Oids(config.formats))
    {
      hide U32;
      ghost var oids := Oids(config.formats);
      off := start;
      for i := 0 to |config.formats|
        invariant off == start + 4 * i && buffer[..off] == old(buffer[..start]) + U32s(oids[..i])
      {
        assert oids[..i + 1][..i] == oids[..i];
        off := PutUint32(off, config.formats[i].oid);
        assert U32s(oids[..i + 1]) == U32s(oids[..i]) + U32(oids[i]);
      }
      assert oids[..|oids|] == oids;
    }

    lemma ParseText(was: Bytes)
      ensures |Encode(ParseMessage())| == 10 + |config.sql| + 4 * |config.formats|
      ensures var len := 10 + |config.sql| + 4 * |config.formats|;
        was + [80] + U32(len - 1) + [id] + [0] + config.sql + [0] + U16(|config.formats|) +
        U32s(Oids(config.formats)) == was + Encode(ParseMessage())
    {
      hide U16, U32, U32s, Oids;
      assert [id, 0] == [id] + [0];
    }

    method Describe(start: nat) returns (off: nat)
      requires start + |Encode(Message.Describe(id))| <= buffer.Length
      modifies buffer
      ensures off == start + |Encode(Message.Describe(id))|
      ensures buffer[..off] == old(buffer[..start]) + Encode(Message.Describe(id))
    {
      hide U32;
      var len := 8;
      off := PutByte(start, 68);
      off := PutUint32(off, len - 1);
      off := PutByte(off, 83);
      off := PutByte(off, id);
      off := PutByte(off, 0);
    }

    method Exec(start: nat) returns (off: nat)
      requires start + |Encode(ExecuteMessage())| <= buffer.Length
      modifies buffer
      ensures off == start + |Encode(ExecuteMessage())|
      ensures buffer[..off] == old(buffer[..start]) + Encode(ExecuteMessage())
    {
      hide U32;
      var len := 6 + |config.portal| + 4;
      off := PutByte(start, 69);
      off := PutUint32(off, len - 1);
      if |config.portal| > 0 {
        off := PutString(off, config.portal);
      }
      off := PutByte(off, 0);
      off := PutUint32(off, config.maxRows);
    }

    method Flush(start: nat) returns (off: nat)
      requires start + 5 <= buffer.Length
      modifies buffer
      ensures off == start + 5 && buffer[..off] == old(buffer[..start]) + Encode(Message.Flush)
    {
      hide U32;
      off := PutByte(start, 72);
      off := PutUint32(off, 4);
    }

    method Sync(start: nat) returns (off: nat)
      requires start + 5 <= buffer.Length
      modifies buffer
      ensures off == start + 5 && buffer[..off] == old(buffer[..start]) + Encode(Message.Sync)
    {
      hide U32;
      off := PutByte(start, 83);
      off := PutUint32(off, 4);
    }

    // ---- Bind ----

    method PutParams(start: nat) returns (off: nat)
      requires Fit(config.formats, params) && start + |ParamsBytes(params)| <= buffer.Length
      modifies buffer
      ensures off == start + |ParamsBytes(params)|
      ensures buffer[..off] == old(buffer[..start]) + ParamsBytes(params)
    {
      hide U32, Fit, ParamBytes;
      off := start;
      for i := 0 to |params|
        invariant off == start + |ParamsBytes(params[..i])| <= buffer.Length
        invariant buffer[..off] == old(buffer[..start]) + ParamsBytes(params[..i])
      {
        ParamsBytesSnoc(params, i);
        ParamsBytesGrow(params, i + 1);
        hide ParamsBytes;
        off := PutParam(off, i);
      }
      assert params[..|params|] == params;
    }

    method PutParam(start: nat, i: nat) returns (off: nat)
      requires Fit(config.formats, params) && i < |params| && start + |ParamBytes(params[i])| <= buffer.Length
      modifies buffer
      ensures off == start + |ParamBytes(params[i])|
      ensures buffer[..off] == old(buffer[..start]) + ParamBytes(params[i])
    {
      hide U32;
      var own := if i < |config.formats| then config.formats[i] else config.formats[0];
      if own.format == 1 {
        off := PutUint32(start, 4);
        off := PutUint32(off, params[i].n % 0x1_0000_0000);
      } else {
        off := PutUint32(start, |params[i].text|);
        off := PutString(off, params[i].text);
      }
    }

    method PutFields(start: nat) returns (off: nat)
      requires start + 2 + 2 * |ResultCodes(config.fields)| <= buffer.Length
      modifies buffer
      ensures off == start + 2 + 2 * |ResultCodes(config.fields)|
      ensures buffer[..off]
           == old(buffer[..start]) + U16(|ResultCodes(config.fields)|) + U16s(ResultCodes(config.fields))
    {
      hide U16;
      var filen := |config.fields|;
      if filen > 0 {
        var same, i := true, 1;
        while i < filen && same
          invariant 1 <= i <= filen
          invariant same ==> forall j :: 0 <= j < i ==> config.fields[j] == config.fields[0]
          invariant !same ==> !AllSame(config.fields)
        {
          if config.fields[i] != config.fields[0] {
            same := false;
          }
          i := i + 1;
        }
        if same {
          off := PutUint16(start, 1);
          off := PutUint16(off, config.fields[0]);
          SingleU16(config.fields[0]);
        } else {
          off := PutUint16(start, filen);
          off := PutUint16s(off, config.fields);
        }
      } else {
        off := PutUint16(start, 0);
      }
    }

    lemma SingleU16(n: nat)
      ensures U16s([n]) == U16(n)
    {
      hide U16;
      assert [n][..0] == [];
    }

    // The length is written last, over the four bytes left for it.
    method Bind(start: nat) returns (off: nat)
      requires Fit(config.formats, params) && start + |Encode(BindMessage())| <= buffer.Length
      modifies buffer
      ensures off == start + |Encode(BindMessage())|
      ensures buffer[..off] == old(buffer[..start]) + Encode(BindMessage())
    {
      ghost var body := Body(BindMessage());
      assert Encode(BindMessage()) == [66] + U32(4 + |body|) + body by {
        hide U32, Body;
      }
      hide *;
      off := PutByte(start, 66);
      off := off + 4;
      ghost var gap := buffer[..off];
      assert gap[..start + 1] == buffer[..start + 1];
      off := BindBody(off);
      assert buffer[..start + 1] == gap[..start + 1];
      assert buffer[start + 5..off] == body;
      SetLength(start, off);
    }

    method SetLength(start: nat, off: nat)
      requires start + 5 <= off <= buffer.Length
      modifies buffer
      ensures buffer[..off] == old(buffer[..start + 1]) + U32(off - start - 1) + old(buffer[start + 5..off])
    {
      hide *;
      ghost var tail := buffer[start + 5..][..off - start - 5];
      assert tail == buffer[start + 5..off];
      var next := PutUint32(start + 1, off - start - 1);
      assert buffer[next..][..off - start - 5] == tail;
      assert buffer[..off] == buffer[..next] + buffer[next..off];
    }

    method BindBody(start: nat) returns (off: nat)
      requires Fit(config.formats, params) && start + |Body(BindMessage())| <= buffer.Length
      modifies buffer
      ensures off == start + |Body(BindMessage())|
      ensures buffer[..off] == old(buffer[..start]) + Body(BindMessage())
    {
      BindText(buffer[..start]);
      hide *;
      off := start;
      if |config.portal| > 0 {
        off := PutString(off, config.portal);
      }
      assert buffer[..off] == old(buffer[..start]) + config.portal;
      off := PutByte(off, 0);
      off := PutName(off);
      off := PutUint16(off, |config.formats|);
      off := PutUint16s(off, Codes(config.formats));
      off := PutUint16(off, |params|);
      off := PutParams(off);
      off := PutFields(off);
    }

    lemma BindText(was: Bytes)
      ensures var codes := ResultCodes(config.fields);
        && |Body(BindMessage())|
        == |config.portal| + 9 + 2 * |config.formats| + |ParamsBytes(params)| + 2 * |codes|
        && was + config.portal + [0] + [id] + [0] + U16(|config.formats|) + U16s(Codes(config.formats)) +
           U16(|params|) + ParamsBytes(params) + U16(|codes|) + U16s(codes) == was + Body(BindMessage())
    {
      hide U16, U16s, ParamsBytes, ResultCodes, Codes;
      assert [id, 0] == [id] + [0];
    }
  }
}
