// The messages that lib/pg.js sends, as bytes, and how a PostgreSQL server
// reads them (Message Formats in the PostgreSQL frontend/backend protocol).
module Messages {
  import opened Prelude
  import opened ByteText

  // A parameter of a query: a number sent in binary or a text.
  datatype Param = Number(n: int) | Text(text: Bytes)

  // A statement is named by one byte. Formats are those of the parameters, and
  // fields those of the columns of the result: 0 for text, 1 for binary.
  datatype Message =
    | Parse(id: Byte, sql: Bytes, oids: seq<nat>)
    | Describe(id: Byte)
    | Bind(portal: Bytes, id: Byte, formats: seq<nat>, params: seq<Param>, fields: seq<nat>)
    | Execute(portal: Bytes, maxRows: nat)
    | Flush
    | Sync

  // ---- Writing ----

  function U16(n: nat): (b: Bytes)
    ensures |b| == 2
  {
    [n / 0x100 % 0x100, n % 0x100]
  }

  function U32(n: nat): (b: Bytes)
    ensures |b| == 4
  {
    [n / 0x100_0000 % 0x100, n / 0x1_0000 % 0x100, n / 0x100 % 0x100, n % 0x100]
  }

  function U16s(ns: seq<nat>): (b: Bytes)
    ensures |b| == 2 * |ns|
  {
    if ns == [] then [] else U16s(ns[..|ns| - 1]) + U16(ns[|ns| - 1])
  }

  function U32s(ns: seq<nat>): (b: Bytes)
    ensures |b| == 4 * |ns|
  {
    if ns == [] then [] else U32s(ns[..|ns| - 1]) + U32(ns[|ns| - 1])
  }

  // The bytes of a parameter value: a number in two's complement, or the text.
  function Value(p: Param): Bytes
  {
    match p
    case Number(n) => U32(n % 0x1_0000_0000)
    case Text(text) => text
  }

  function ParamBytes(p: Param): Bytes
  {
    U32(|Value(p)|) + Value(p)
  }

  function ParamsBytes(params: seq<Param>): Bytes
  {
    if params == [] then [] else ParamsBytes(params[..|params| - 1]) + ParamBytes(params[|params| - 1])
  }

  predicate AllSame(fields: seq<nat>)
  {
    forall i :: 0 <= i < |fields| ==> fields[i] == fields[0]
  }

  // The result-column format codes that are sent: none without columns, one
  // when all columns agree, else one each.
  function ResultCodes(fields: seq<nat>): seq<nat>
  {
    if fields == [] then [] else if AllSame(fields) then [fields[0]] else fields
  }

  function Body(m: Message): Bytes
  {
    match m
    case Parse(id, sql, oids) => [id, 0] + sql + [0] + U16(|oids|) + U32s(oids)
    case Describe(id) => [83, id, 0]
    case Bind(portal, id, formats, params, fields) =>
      portal + [0] + [id, 0] + U16(|formats|) + U16s(formats) + U16(|params|) + ParamsBytes(params) +
      U16(|ResultCodes(fields)|) + U16s(ResultCodes(fields))
    case Execute(portal, maxRows) => portal + [0] + U32(maxRows)
    case Flush => []
    case Sync => []
  }

  function Tag(m: Message): Byte
  {
    match m
    case Parse(_, _, _) => 80
    case Describe(_) => 68
    case Bind(_, _, _, _, _) => 66
    case Execute(_, _) => 69
    case Flush => 72
    case Sync => 83
  }

  function Encode(m: Message): (b: Bytes)
    ensures |b| == 5 + |Body(m)|
  {
    [Tag(m)] + U32(4 + |Body(m)|) + Body(m)
  }

  // ---- Reading frames ----

  function U32At(bytes: Bytes, off: nat): nat
    requires off + 4 <= |bytes|
  {
    bytes[off] as int * 0x100_0000 + bytes[off + 1] as int * 0x1_0000 + bytes[off + 2] as int * 0x100 +
    bytes[off + 3] as int
  }

  function U16At(bytes: Bytes, off: nat): nat
    requires off + 2 <= |bytes|
  {
    bytes[off] as int * 0x100 + bytes[off + 1] as int
  }

  // A signed 32-bit number below this is not negative.
  const INT32_LIMIT: nat := 0x8000_0000

  // The number a server reads from four bytes sent in binary.
  function Int32At(bytes: Bytes, off: nat): int
    requires off + 4 <= |bytes|
  {
    if U32At(bytes, off) < INT32_LIMIT then U32At(bytes, off) else U32At(bytes, off) - 0x1_0000_0000
  }

  // A stream cut into frames by the length that follows each tag, which is
  // signed and counts itself.
  function Frames(stream: Bytes): Option<seq<Bytes>>
  {
    if stream == [] then Some([])
    else if |stream| < 5 then None
    else
      var size := 1 + U32At(stream, 1);
      if size < 5 || size > INT32_LIMIT || size > |stream| then None
      else
        var rest := Frames(stream[size..]);
        if rest.None? then None else Some([stream[..size]] + rest.value)
  }

  // ---- Reading messages ----

  // A message as the server understands it. A bound value is its bytes.
  datatype Content =
    | ParseContent(name: Bytes, sql: Bytes, oids: seq<nat>)
    | DescribeContent(kind: Byte, name: Bytes)
    | BindContent(portal: Bytes, name: Bytes, formats: seq<nat>, values: seq<Bytes>, results: seq<nat>)
    | ExecuteContent(portal: Bytes, maxRows: nat)
    | FlushContent
    | SyncContent

  // A value and the offset after it.
  type At<T> = Option<(T, nat)>

  function StringAt(bytes: Bytes, off: nat): (r: At<Bytes>)
    ensures r.Some? ==> r.value.1 <= |bytes|
    decreases |bytes| - off
  {
    if off >= |bytes| then None
    else if bytes[off] == 0 then Some(([], off + 1))
    else
      var rest := StringAt(bytes, off + 1);
      if rest.None? then None else Some(([bytes[off]] + rest.value.0, rest.value.1))
  }

  function NumbersAt(bytes: Bytes, off: nat, n: nat, wide: bool): (r: At<seq<nat>>)
    ensures r.Some? ==> r.value.1 <= |bytes|
  {
    if n == 0 then if off <= |bytes| then Some(([], off)) else None
    else
      var before := NumbersAt(bytes, off, n - 1, wide);
      if before.None? then None
      else
        var (ns, next) := before.value;
        var size := if wide then 4 else 2;
        if next + size > |bytes| then None
        else Some((ns + [if wide then U32At(bytes, next) else U16At(bytes, next)], next + size))
  }

  // A 16-bit count and that many numbers.
  function CountedAt(bytes: Bytes, off: nat, wide: bool): (r: At<seq<nat>>)
    ensures r.Some? ==> r.value.1 <= |bytes|
  {
    if off + 2 > |bytes| then None else NumbersAt(bytes, off + 2, U16At(bytes, off), wide)
  }

  // Values with their lengths. A negative length stands for NULL, which is
  // never sent.
  function ValuesAt(bytes: Bytes, off: nat, n: nat): (r: At<seq<Bytes>>)
    ensures r.Some? ==> r.value.1 <= |bytes|
  {
    if n == 0 then if off <= |bytes| then Some(([], off)) else None
    else
      var before := ValuesAt(bytes, off, n - 1);
      if before.None? then None
      else
        var (values, next) := before.value;
        if next + 4 > |bytes| then None
        else
          var size := U32At(bytes, next);
          if size >= INT32_LIMIT || next + 4 + size > |bytes| then None
          else Some((values + [bytes[next + 4..next + 4 + size]], next + 4 + size))
  }

  function DecodeParse(b: Bytes): Option<Content>
  {
    var name := StringAt(b, 0);
    if name.None? then None
    else
      var sql := StringAt(b, name.value.1);
      if sql.None? then None
      else
        var oids := CountedAt(b, sql.value.1, true);
        if oids.None? || oids.value.1 != |b| then None
        else Some(ParseContent(name.value.0, sql.value.0, oids.value.0))
  }

  // A Bind message gives no format for its parameters, one for all, or one for
  // each.
  predicate CountFits(formats: nat, params: nat)
  {
    formats <= 1 || formats == params
  }

  function DecodeBind(b: Bytes): Option<Content>
  {
    var portal := StringAt(b, 0);
    if portal.None? then None
    else
      var name := StringAt(b, portal.value.1);
      if name.None? then None
      else
        var formats := CountedAt(b, name.value.1, false);
        if formats.None? || formats.value.1 + 2 > |b| then None
        else
          var values := ValuesAt(b, formats.value.1 + 2, U16At(b, formats.value.1));
          if values.None? || !CountFits(|formats.value.0|, |values.value.0|) then None
          else
            var results := CountedAt(b, values.value.1, false);
            if results.None? || results.value.1 != |b| then None
            else Some(BindContent(portal.value.0, name.value.0, formats.value.0, values.value.0, results.value.0))
  }

  function DecodeExecute(b: Bytes): Option<Content>
  {
    var portal := StringAt(b, 0);
    if portal.None? || portal.value.1 + 4 != |b| then None
    else Some(ExecuteContent(portal.value.0, U32At(b, portal.value.1)))
  }

  function DecodeDescribe(b: Bytes): Option<Content>
  {
    if b == [] then None
    else
      var name := StringAt(b, 1);
      if name.None? || name.value.1 != |b| then None else Some(DescribeContent(b[0], name.value.0))
  }

  function Decode(frame: Bytes): Option<Content>
  {
    if |frame| < 5 then None
    else
      var b := frame[5..];
      if frame[0] == 80 then DecodeParse(b)
      else if frame[0] == 66 then DecodeBind(b)
      else if frame[0] == 68 then DecodeDescribe(b)
      else if frame[0] == 69 then DecodeExecute(b)
      else if frame[0] == 72 && b == [] then Some(FlushContent)
      else if frame[0] == 83 && b == [] then Some(SyncContent)
      else None
  }

  // The format of a parameter or a result column under these codes: text
  // without codes, the one code for all, or its own.
  function FormatUnder(codes: seq<nat>, i: nat): nat
  {
    if codes == [] then 0 else if |codes| == 1 then codes[0] else if i < |codes| then codes[i] else 0
  }

  // The format the writer uses for a parameter: its own, else the first.
  function WrittenFormat(codes: seq<nat>, i: nat): nat
    requires codes != []
  {
    if i < |codes| then codes[i] else codes[0]
  }
}
