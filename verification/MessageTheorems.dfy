// The messages of lib/pg.js read back: a stream of them is cut at the right
// places by its length fields, and each means what was issued.
module MessageTheorems {
  import opened Prelude
  import opened ByteText
  import opened Messages

  // ---- Numbers ----

  lemma U16Read(bytes: Bytes, off: nat, n: nat)
    requires n < 0x1_0000 && HasAt(bytes, off, U16(n))
    ensures U16At(bytes, off) == n
  {
    var text := bytes[off..off + 2];
    assert text[0] == n / 0x100 && text[1] == n % 0x100;
  }

  lemma U32Parts(n: nat)
    requires n < 0x1_0000_0000
    ensures n / 0x100_0000 % 0x100 * 0x100_0000 + n / 0x1_0000 % 0x100 * 0x1_0000 + n / 0x100 % 0x100 * 0x100 +
            n % 0x100 == n
  {
  }

  lemma U32Read(bytes: Bytes, off: nat, n: nat)
    requires n < 0x1_0000_0000 && HasAt(bytes, off, U32(n))
    ensures U32At(bytes, off) == n
  {
    var text := bytes[off..off + 4];
    assert bytes[off] == text[0] && bytes[off + 1] == text[1] && bytes[off + 2] == text[2] && bytes[off + 3] == text[3];
    U32Parts(n);
  }

  // A number comes back exactly when it is one of 32 bits with its sign.
  lemma NumberReadExactly(n: int)
    ensures Int32At(Value(Number(n)), 0) == n <==> -0x8000_0000 <= n < 0x8000_0000
  {
    var m, bytes := n % 0x1_0000_0000, Value(Number(n));
    assert bytes == U32(m);
    assert HasAt(bytes, 0, U32(m)) by {
      hide U32;
      assert bytes[0..4] == bytes;
    }
    hide U32, HasAt, U32At, Value;
    U32Read(bytes, 0, m);
  }

  predicate AllBelow(ns: seq<nat>, limit: nat)
  {
    forall i :: 0 <= i < |ns| ==> ns[i] < limit
  }

  lemma HasAtFits(bytes: Bytes, off: nat, text: Bytes)
    requires HasAt(bytes, off, text)
    ensures off + |text| <= |bytes|
  {
  }

  // One more number.
  lemma NumbersNext(bytes: Bytes, off: nat, ns: seq<nat>, last: nat, wide: bool)
    requires var size := if wide then 4 else 2;
      && NumbersAt(bytes, off, |ns|, wide) == Some((ns, off + size * |ns|))
      && off + size * |ns| + size <= |bytes|
      && last == if wide then U32At(bytes, off + size * |ns|) else U16At(bytes, off + size * |ns|)
    ensures NumbersAt(bytes, off, |ns + [last]|, wide)
         == Some((ns + [last], off + (if wide then 4 else 2) * |ns + [last]|))
  {
    hide U16At, U32At;
  }

  lemma {:induction false} NarrowRead(bytes: Bytes, off: nat, ns: seq<nat>)
    requires AllBelow(ns, 0x1_0000) && HasAt(bytes, off, U16s(ns))
    ensures NumbersAt(bytes, off, |ns|, false) == Some((ns, off + 2 * |ns|))
  {
    hide U16, U16At, U32At, HasAt;
    if ns == [] {
      HasAtFits(bytes, off, U16s(ns));
    } else {
      var before, last := ns[..|ns| - 1], ns[|ns| - 1];
      hide NumbersAt;
      assert HasAt(bytes, off, U16s(before)) && HasAt(bytes, off + 2 * |before|, U16(last)) by {
        HasAtParts(bytes, off, U16s(before), U16(last));
      }
      assert AllBelow(before, 0x1_0000) && last < 0x1_0000;
      hide U16s, AllBelow;
      NarrowRead(bytes, off, before);
      U16Read(bytes, off + 2 * |before|, last);
      HasAtFits(bytes, off + 2 * |before|, U16(last));
      assert before + [last] == ns;
      NumbersNext(bytes, off, before, last, false);
    }
  }

  lemma {:induction false} WideRead(bytes: Bytes, off: nat, ns: seq<nat>)
    requires AllBelow(ns, 0x1_0000_0000) && HasAt(bytes, off, U32s(ns))
    ensures NumbersAt(bytes, off, |ns|, true) == Some((ns, off + 4 * |ns|))
  {
    hide U32, U16At, U32At, HasAt;
    if ns == [] {
      HasAtFits(bytes, off, U32s(ns));
    } else {
      var before, last := ns[..|ns| - 1], ns[|ns| - 1];
      hide NumbersAt;
      assert HasAt(bytes, off, U32s(before)) && HasAt(bytes, off + 4 * |before|, U32(last)) by {
        HasAtParts(bytes, off, U32s(before), U32(last));
      }
      assert AllBelow(before, 0x1_0000_0000) && last < 0x1_0000_0000;
      hide U32s, AllBelow;
      WideRead(bytes, off, before);
      U32Read(bytes, off + 4 * |before|, last);
      HasAtFits(bytes, off + 4 * |before|, U32(last));
      assert before + [last] == ns;
      NumbersNext(bytes, off, before, last, true);
    }
  }

  lemma CountedRead(bytes: Bytes, off: nat, ns: seq<nat>, wide: bool)
    requires |ns| < 0x1_0000 && AllBelow(ns, if wide then 0x1_0000_0000 else 0x1_0000)
    requires HasAt(bytes, off, U16(|ns|) + if wide then U32s(ns) else U16s(ns))
    ensures CountedAt(bytes, off, wide) == Some((ns, off + 2 + (if wide then 4 else 2) * |ns|))
  {
    hide U16, U16At, U32At, NumbersAt, HasAt, AllBelow, U16s, U32s;
    HasAtParts(bytes, off, U16(|ns|), if wide then U32s(ns) else U16s(ns));
    HasAtFits(bytes, off, U16(|ns|));
    U16Read(bytes, off, |ns|);
    if wide {
      WideRead(bytes, off + 2, ns);
    } else {
      NarrowRead(bytes, off + 2, ns);
    }
  }

  // ---- Texts and values ----

  lemma {:induction false} StringRead(bytes: Bytes, off: nat, text: Bytes)
    requires 0 !in text && HasAt(bytes, off, text + [0])
    ensures StringAt(bytes, off) == Some((text, off + |text| + 1))
    decreases |text|
  {
    if text == [] {
      HasAtParts(bytes, off, [], [0]);
      assert bytes[off] == bytes[off..off + 1][0];
    } else {
      var rest := text[1..];
      assert text + [0] == [text[0]] + (rest + [0]);
      HasAtParts(bytes, off, [text[0]], rest + [0]);
      assert bytes[off] == bytes[off..off + 1][0] == text[0];
      StringRead(bytes, off + 1, rest);
      assert [text[0]] + rest == text;
    }
  }

  // Every value has a length of 32 bits with its sign.
  predicate AllFit(params: seq<Param>)
  {
    forall i :: 0 <= i < |params| ==> |Value(params[i])| < INT32_LIMIT
  }

  function Values(params: seq<Param>): (values: seq<Bytes>)
    ensures |values| == |params|
  {
    seq(|params|, i requires 0 <= i < |params| => Value(params[i]))
  }

  // One more value.
  lemma ValuesNext(bytes: Bytes, off: nat, n: nat, values: seq<Bytes>, next: nat, size: nat)
    requires ValuesAt(bytes, off, n) == Some((values, next))
    requires next + 4 + size <= |bytes| && U32At(bytes, next) == size < INT32_LIMIT
    ensures ValuesAt(bytes, off, n + 1) == Some((values + [bytes[next + 4..next + 4 + size]], next + 4 + size))
  {
    hide U32At;
  }

  lemma ValueRead(bytes: Bytes, start: nat, p: Param)
    requires |Value(p)| < INT32_LIMIT && HasAt(bytes, start, ParamBytes(p))
    ensures start + 4 + |Value(p)| <= |bytes| && |ParamBytes(p)| == 4 + |Value(p)|
    ensures U32At(bytes, start) == |Value(p)|
    ensures bytes[start + 4..start + 4 + |Value(p)|] == Value(p)
  {
    hide U32, U32At, Value;
    HasAtParts(bytes, start, U32(|Value(p)|), Value(p));
    U32Read(bytes, start, |Value(p)|);
  }

  lemma {:induction false} ValuesRead(bytes: Bytes, off: nat, params: seq<Param>)
    requires AllFit(params) && HasAt(bytes, off, ParamsBytes(params))
    ensures ValuesAt(bytes, off, |params|) == Some((Values(params), off + |ParamsBytes(params)|))
  {
    hide U32, U32At, Value, ParamBytes, HasAt;
    if params == [] {
      HasAtFits(bytes, off, ParamsBytes(params));
      assert Values(params) == [];
    } else {
      var before, last := params[..|params| - 1], params[|params| - 1];
      HasAtParts(bytes, off, ParamsBytes(before), ParamBytes(last));
      var start := off + |ParamsBytes(before)|;
      assert ParamsBytes(params) == ParamsBytes(before) + ParamBytes(last);
      hide ParamsBytes, ValuesAt;
      ValuesRead(bytes, off, before);
      assert Values(before) + [Value(last)] == Values(params);
      ValueRead(bytes, start, last);
      ValuesNext(bytes, off, |before|, Values(before), start, |Value(last)|);
    }
  }

  // ---- Messages ----

  // Portals and statements without NUL, counts and codes of 16 bits, and numbers
  // and sizes of 32 bits.
  predicate Representable(m: Message)
  {
    && |Encode(m)| <= INT32_LIMIT
    && match m
       case Parse(id, sql, oids) =>
         0 !in sql && |oids| < 0x1_0000 && AllBelow(oids, 0x1_0000_0000)
       case Describe(_) => true
       case Bind(portal, id, formats, params, fields) =>
         0 !in portal && |formats| < 0x1_0000 && AllBelow(formats, 0x1_0000) && |params| < 0x1_0000 &&
         |fields| < 0x1_0000 && AllBelow(fields, 0x1_0000) && AllFit(params)
       case Execute(portal, maxRows) => 0 !in portal && maxRows < INT32_LIMIT
       case _ => true
  }

  // A message whose statement, if it names one, has a name that is not NUL.
  predicate IsNamed(m: Message)
  {
    match m
    case Parse(id, _, _) => id != 0
    case Describe(id) => id != 0
    case Bind(_, id, _, _, _) => id != 0
    case _ => true
  }

  // A message that a server reads as what was issued.
  predicate Accepted(m: Message)
  {
    IsNamed(m) && (m.Bind? ==> CountFits(|m.formats|, |m.params|))
  }

  // What the message asks for.
  function ContentOf(m: Message): Content
  {
    match m
    case Parse(id, sql, oids) => ParseContent([id], sql, oids)
    case Describe(id) => DescribeContent(83, [id])
    case Bind(portal, id, formats, params, fields) =>
      BindContent(portal, [id], formats, Values(params), ResultCodes(fields))
    case Execute(portal, maxRows) => ExecuteContent(portal, maxRows)
    case Flush => FlushContent
    case Sync => SyncContent
  }

  lemma ParseParts(m: Message)
    requires m.Parse?
    ensures HasAt(Body(m), 0, [m.id] + [0]) && HasAt(Body(m), 2, m.sql + [0])
    ensures HasAt(Body(m), 3 + |m.sql|, U16(|m.oids|) + U32s(m.oids))
    ensures |Body(m)| == 5 + |m.sql| + 4 * |m.oids|
  {
    hide U16, U32s;
    var b, counted := Body(m), U16(|m.oids|) + U32s(m.oids);
    assert b == [m.id] + [0] + (m.sql + [0]) + counted;
    hide Body;
    assert HasAt(b, 0, [m.id] + [0] + (m.sql + [0]) + counted);
    hide HasAt;
    HasAtParts(b, 0, [m.id] + [0] + (m.sql + [0]), counted);
    HasAtParts(b, 0, [m.id] + [0], m.sql + [0]);
  }

  lemma ParseRead(m: Message)
    requires m.Parse? && Representable(m) && m.id != 0
    ensures DecodeParse(Body(m)) == Some(ContentOf(m))
  {
    ParseParts(m);
    hide Body, HasAt, StringAt, CountedAt, U16, U32s, Encode, AllBelow;
    StringRead(Body(m), 0, [m.id]);
    StringRead(Body(m), 2, m.sql);
    CountedRead(Body(m), 3 + |m.sql|, m.oids, true);
  }

  lemma DescribeRead(m: Message)
    requires m.Describe? && Representable(m) && m.id != 0
    ensures DecodeDescribe(Body(m)) == Some(ContentOf(m))
  {
    var b := Body(m);
    assert b == [83] + ([m.id] + [0]);
    assert HasAt(b, 0, [83] + ([m.id] + [0]));
    HasAtParts(b, 0, [83], [m.id] + [0]);
    hide StringAt;
    StringRead(b, 1, [m.id]);
  }

  lemma ExecuteRead(m: Message)
    requires m.Execute? && Representable(m)
    ensures DecodeExecute(Body(m)) == Some(ContentOf(m))
  {
    var b, size := Body(m), |m.portal| + 1;
    assert HasAt(b, 0, m.portal + [0] + U32(m.maxRows));
    HasAtParts(b, 0, m.portal + [0], U32(m.maxRows));
    hide StringAt, U32, U32At;
    StringRead(b, 0, m.portal);
    U32Read(b, size, m.maxRows);
  }

  lemma ResultCodesBelow(fields: seq<nat>)
    requires AllBelow(fields, 0x1_0000)
    ensures AllBelow(ResultCodes(fields), 0x1_0000) && |ResultCodes(fields)| <= |fields|
  {
  }

  // Where the lists of a Bind message start.
  function FormatsOff(m: Message): nat
    requires m.Bind?
  {
    |m.portal| + 3
  }

  function ValuesOff(m: Message): nat
    requires m.Bind?
  {
    FormatsOff(m) + 2 + 2 * |m.formats|
  }

  function ResultsOff(m: Message): nat
    requires m.Bind?
  {
    ValuesOff(m) + 2 + |ParamsBytes(m.params)|
  }

  lemma BindParts(m: Message)
    requires m.Bind?
    ensures HasAt(Body(m), 0, m.portal + [0]) && HasAt(Body(m), |m.portal| + 1, [m.id] + [0])
    ensures HasAt(Body(m), FormatsOff(m), U16(|m.formats|) + U16s(m.formats))
    ensures HasAt(Body(m), ValuesOff(m), U16(|m.params|) + ParamsBytes(m.params))
    ensures HasAt(Body(m), ResultsOff(m), U16(|ResultCodes(m.fields)|) + U16s(ResultCodes(m.fields)))
    ensures |Body(m)| == ResultsOff(m) + 2 + 2 * |ResultCodes(m.fields)|
  {
    var codes := ResultCodes(m.fields);
    var names, counted := m.portal + [0] + ([m.id] + [0]), U16(|m.formats|) + U16s(m.formats);
    var values, results := U16(|m.params|) + ParamsBytes(m.params), U16(|codes|) + U16s(codes);
    BindBody(m);
    hide *;
    FourParts(Body(m), names, counted, values, results);
    HasAtParts(Body(m), 0, m.portal + [0], [m.id] + [0]);
    ResultsAfter(m);
  }

  lemma BindBody(m: Message)
    requires m.Bind?
    ensures var codes := ResultCodes(m.fields);
      Body(m) == m.portal + [0] + ([m.id] + [0]) + (U16(|m.formats|) + U16s(m.formats)) +
        (U16(|m.params|) + ParamsBytes(m.params)) + (U16(|codes|) + U16s(codes))
  {
    hide U16, U16s, ParamsBytes, ResultCodes;
    assert [m.id, 0] == [m.id] + [0];
  }

  lemma FourParts(bytes: Bytes, a: Bytes, b: Bytes, c: Bytes, d: Bytes)
    requires bytes == a + b + c + d
    ensures HasAt(bytes, 0, a) && HasAt(bytes, |a|, b) && HasAt(bytes, |a| + |b|, c)
    ensures HasAt(bytes, |a| + |b| + |c|, d)
  {
    assert HasAt(bytes, 0, a + b + c + d);
    hide *;
    HasAtParts(bytes, 0, a + b + c, d);
    HasAtParts(bytes, 0, a + b, c);
    HasAtParts(bytes, 0, a, b);
  }

  lemma BindNamesRead(m: Message)
    requires m.Bind? && Representable(m) && m.id != 0
    ensures StringAt(Body(m), 0) == Some((m.portal, |m.portal| + 1))
    ensures StringAt(Body(m), |m.portal| + 1) == Some(([m.id], FormatsOff(m)))
  {
    hide *;
    BindFacts(m);
    BindParts(m);
    StringRead(Body(m), 0, m.portal);
    StringRead(Body(m), |m.portal| + 1, [m.id]);
    ResultsAfter(m);
  }

  lemma BindFormatsRead(m: Message)
    requires m.Bind? && Representable(m) && m.id != 0
    ensures CountedAt(Body(m), FormatsOff(m), false) == Some((m.formats, ValuesOff(m)))
  {
    hide *;
    BindFacts(m);
    BindParts(m);
    ResultsAfter(m);
    CountedRead(Body(m), FormatsOff(m), m.formats, false);
  }

  lemma BindValuesRead(m: Message)
    requires m.Bind? && Representable(m) && m.id != 0
    ensures ValuesOff(m) + 2 <= |Body(m)| && U16At(Body(m), ValuesOff(m)) == |m.params|
    ensures ValuesAt(Body(m), ValuesOff(m) + 2, |m.params|) == Some((Values(m.params), ResultsOff(m)))
  {
    hide *;
    BindFacts(m);
    BindParts(m);
    CountedValuesRead(Body(m), ValuesOff(m), m.params);
    ResultsAfter(m);
  }

  // A 16-bit count and that many values.
  lemma CountedValuesRead(bytes: Bytes, off: nat, params: seq<Param>)
    requires |params| < 0x1_0000 && AllFit(params)
    requires HasAt(bytes, off, U16(|params|) + ParamsBytes(params))
    ensures off + 2 <= |bytes| && U16At(bytes, off) == |params|
    ensures ValuesAt(bytes, off + 2, |params|) == Some((Values(params), off + 2 + |ParamsBytes(params)|))
  {
    hide *;
    HasAtParts(bytes, off, U16(|params|), ParamsBytes(params));
    HasAtFits(bytes, off, U16(|params|));
    U16Read(bytes, off, |params|);
    ValuesRead(bytes, off + 2, params);
  }

  lemma ResultsAfter(m: Message)
    requires m.Bind?
    ensures ResultsOff(m) == ValuesOff(m) + 2 + |ParamsBytes(m.params)|
    ensures ValuesOff(m) == FormatsOff(m) + 2 + 2 * |m.formats| && FormatsOff(m) == |m.portal| + 3
  {
    hide ParamsBytes;
  }

  lemma BindFacts(m: Message)
    requires m.Bind? && Representable(m) && m.id != 0
    ensures 0 !in m.portal && m.id != 0 && |m.formats| < 0x1_0000 && AllBelow(m.formats, 0x1_0000)
    ensures |m.params| < 0x1_0000 && AllFit(m.params)
    ensures |ResultCodes(m.fields)| < 0x1_0000 && AllBelow(ResultCodes(m.fields), 0x1_0000)
  {
    ResultCodesBelow(m.fields);
    hide Encode, AllBelow, AllFit, ResultCodes;
  }

  lemma BindResultsRead(m: Message)
    requires m.Bind? && Representable(m) && m.id != 0
    ensures CountedAt(Body(m), ResultsOff(m), false) == Some((ResultCodes(m.fields), |Body(m)|))
  {
    hide *;
    BindFacts(m);
    BindParts(m);
    CountedRead(Body(m), ResultsOff(m), ResultCodes(m.fields), false);
  }

  // The message means its parts, unless the count of formats is refused.
  lemma BindMeans(b: Bytes, portal: At<Bytes>, name: At<Bytes>, formats: At<seq<nat>>, values: At<seq<Bytes>>,
                    results: At<seq<nat>>)
    requires portal.Some? && name.Some? && formats.Some? && values.Some? && results.Some?
    requires StringAt(b, 0) == portal && StringAt(b, portal.value.1) == name
    requires CountedAt(b, name.value.1, false) == formats && formats.value.1 + 2 <= |b|
    requires ValuesAt(b, formats.value.1 + 2, U16At(b, formats.value.1)) == values
    requires CountedAt(b, values.value.1, false) == results && results.value.1 == |b|
    ensures DecodeBind(b) == if CountFits(|formats.value.0|, |values.value.0|) then
      Some(BindContent(portal.value.0, name.value.0, formats.value.0, values.value.0, results.value.0)) else None
  {
    hide StringAt, CountedAt, ValuesAt, U16At, CountFits;
  }

  lemma BindRead(m: Message)
    requires m.Bind? && Representable(m) && m.id != 0
    ensures DecodeBind(Body(m)) == if CountFits(|m.formats|, |m.params|) then Some(ContentOf(m)) else None
  {
    hide *;
    BindNamesRead(m);
    BindFormatsRead(m);
    BindValuesRead(m);
    BindResultsRead(m);
    BindMeans(Body(m), Some((m.portal, |m.portal| + 1)), Some(([m.id], FormatsOff(m))),
                Some((m.formats, ValuesOff(m))), Some((Values(m.params), ResultsOff(m))),
                Some((ResultCodes(m.fields), |Body(m)|)));
    BindAsks(m);
  }

  lemma BindAsks(m: Message)
    requires m.Bind?
    ensures ContentOf(m) == BindContent(m.portal, [m.id], m.formats, Values(m.params), ResultCodes(m.fields))
  {
    hide Values, ResultCodes;
  }

  // A name that a server has read holds no NUL.
  lemma {:induction false} NoNulRead(bytes: Bytes, off: nat)
    ensures StringAt(bytes, off).Some? ==> 0 !in StringAt(bytes, off).value.0
    decreases |bytes| - off
  {
    if off < |bytes| && bytes[off] != 0 {
      NoNulRead(bytes, off + 1);
    }
  }

  // The statement that a message names, as the server reads it.
  function NameOf(content: Content): Bytes
  {
    match content
    case ParseContent(name, _, _) => name
    case DescribeContent(_, name) => name
    case BindContent(_, name, _, _, _) => name
    case _ => []
  }

  lemma NamesWithoutNul(b: Bytes)
    ensures DecodeParse(b).Some? ==> 0 !in NameOf(DecodeParse(b).value)
    ensures DecodeDescribe(b).Some? ==> 0 !in NameOf(DecodeDescribe(b).value)
    ensures DecodeBind(b).Some? ==> 0 !in NameOf(DecodeBind(b).value)
  {
    NoNulRead(b, 0);
    NoNulRead(b, 1);
    var portal := StringAt(b, 0);
    if portal.Some? {
      NoNulRead(b, portal.value.1);
    }
    hide StringAt, CountedAt, ValuesAt, U16At, CountFits;
  }

  lemma NamedRead(m: Message)
    requires Representable(m) && IsNamed(m)
    ensures Decode(Encode(m)) == if Accepted(m) then Some(ContentOf(m)) else None
  {
    EncodeBody(m);
    hide Encode, Body, ContentOf, Representable, CountFits, DecodeParse, DecodeBind, DecodeDescribe, DecodeExecute;
    EncodeTag(m);
    match m
    case Parse(_, _, _) => ParseRead(m);
    case Describe(_) => DescribeRead(m);
    case Bind(_, _, _, _, _) => BindRead(m);
    case Execute(_, _) => ExecuteRead(m);
    case Flush => EmptyRead(m);
    case Sync => EmptyRead(m);
  }

  lemma UnnamedMisread(m: Message)
    requires !IsNamed(m)
    ensures Decode(Encode(m)) != Some(ContentOf(m))
  {
    EncodeBody(m);
    NamesWithoutNul(Body(m));
    assert NameOf(ContentOf(m)) == [0];
    hide Encode, Body, ContentOf, DecodeParse, DecodeBind, DecodeDescribe, DecodeExecute, NameOf;
    EncodeTag(m);
  }

  // The server reads a message as what was issued exactly when the name of its
  // statement is not NUL and, in a Bind message, there is one format for all
  // parameters or one for each. It refuses every other count of formats.
  lemma DecodeEncode(m: Message)
    requires Representable(m)
    ensures Decode(Encode(m)) == Some(ContentOf(m)) <==> Accepted(m)
    ensures IsNamed(m) && !Accepted(m) ==> Decode(Encode(m)) == None
  {
    hide Decode, Encode, ContentOf, Representable, CountFits;
    if IsNamed(m) {
      NamedRead(m);
    } else {
      UnnamedMisread(m);
    }
  }

  // With parameters, the server reads every one of them in the format it was
  // written in exactly when the statement is named and there is one format for
  // all or one for each.
  lemma ParamFormatsExactly(m: Message)
    requires m.Bind? && Representable(m) && m.params != [] && m.formats != []
    ensures (Decode(Encode(m)) == Some(ContentOf(m)) &&
             forall i :: 0 <= i < |m.params| ==> FormatUnder(m.formats, i) == WrittenFormat(m.formats, i))
       <==> m.id != 0 && (|m.formats| == 1 || |m.formats| == |m.params|)
    ensures m.id != 0 ==> (Decode(Encode(m)).Some? <==> |m.formats| == 1 || |m.formats| == |m.params|)
  {
    hide *;
    DecodeEncode(m);
    FormatsKeptExactly(m);
  }

  lemma FormatsKeptExactly(m: Message)
    requires m.Bind? && m.params != [] && m.formats != []
    ensures IsNamed(m) <==> m.id != 0
    ensures Accepted(m) <==> m.id != 0 && (|m.formats| == 1 || |m.formats| == |m.params|)
    ensures Accepted(m) ==>
      forall i :: 0 <= i < |m.params| ==> FormatUnder(m.formats, i) == WrittenFormat(m.formats, i)
  {
  }

  // Three texts under two formats, as a caller with one argument too many sends
  // them, are refused.
  lemma SurplusParameterRefused()
    ensures var m := Bind([], 65, [0, 0], [Text([97]), Text([98]), Text([99])], []);
      Representable(m) && Decode(Encode(m)) == None
  {
    var params := [Text([97]), Text([98]), Text([99])];
    var m := Bind([], 65, [0, 0], params, []);
    assert params[..2] == [Text([97]), Text([98])] && params[..1] == [Text([97])];
    hide U16, U32;
    assert |ParamBytes(params[0])| == |ParamBytes(params[1])| == |ParamBytes(params[2])| == 5;
    assert params[..2][..1] == params[..1] && params[..1][..0] == [];
    assert |ParamsBytes(params[..1])| == 5;
    assert |ParamsBytes(params[..2])| == 10;
    assert |ParamsBytes(params)| == 15;
    assert |Body(m)| == 9 + 4 + 15;
    assert Representable(m);
    hide *;
    DecodeEncode(m);
    assert !Accepted(m) by {
      RefusedCount(m);
    }
    assert IsNamed(m) by {
      RefusedCount(m);
    }
  }

  lemma RefusedCount(m: Message)
    requires m.Bind? && m.id == 65 && |m.formats| == 2 && |m.params| == 3
    ensures !Accepted(m) && IsNamed(m)
  {
  }

  // ---- Statements without a name ----

  lemma {:induction false} NumbersFit(bytes: Bytes, off: nat, n: nat)
    requires off <= |bytes|
    ensures NumbersAt(bytes, off, n, true).Some? <==> off + 4 * n <= |bytes|
    ensures NumbersAt(bytes, off, n, true).Some? ==> NumbersAt(bytes, off, n, true).value.1 == off + 4 * n
  {
    hide U32At, U16At;
    if n > 0 {
      NumbersFit(bytes, off, n - 1);
    }
  }

  // The server takes the NUL that is the name and the one after it for an empty
  // name and an empty statement, and the start of the statement for the count of
  // types: it refuses the message unless the length happens to fit that.
  lemma UnnamedParse(m: Message)
    requires m.Parse? && m.id == 0 && |m.sql| >= 2
    ensures Decode(Encode(m)).Some? <==>
            4 * (m.sql[0] as int * 0x100 + m.sql[1] as int) == 1 + |m.sql| + 4 * |m.oids|
    ensures Decode(Encode(m)).Some? ==> Decode(Encode(m)).value.ParseContent? && Decode(Encode(m)).value.sql == []
  {
    var b := Body(m);
    EncodeBody(m);
    EncodeTag(m);
    assert |b| == 5 + |m.sql| + 4 * |m.oids| && b[0] == 0 && b[1] == 0 && b[2] == m.sql[0] && b[3] == m.sql[1] by {
      hide U16, U32s;
    }
    hide Encode, Body;
    assert StringAt(b, 0) == Some(([], 1)) && StringAt(b, 1) == Some(([], 2));
    NumbersFit(b, 4, U16At(b, 2));
    hide StringAt, NumbersAt;
  }

  // SELECT 1, prepared under the name that is left after the first 64.
  lemma UnnamedSelectRefused()
    ensures var m := Parse(0, [83, 69, 76, 69, 67, 84, 32, 49], []);
      Representable(m) && Decode(Encode(m)) == None
  {
    var m := Parse(0, [83, 69, 76, 69, 67, 84, 32, 49], []);
    assert |Body(m)| == 13 && Representable(m) by {
      hide U16, U32;
    }
    hide *;
    UnnamedParse(m);
  }

  lemma EncodeBody(m: Message)
    ensures Encode(m)[5..] == Body(m)
  {
    hide U32, Body;
  }

  lemma EncodeTag(m: Message)
    ensures Encode(m)[0] == Tag(m)
  {
  }

  lemma EmptyRead(m: Message)
    requires m.Flush? || m.Sync?
    ensures Body(m) == [] && ContentOf(m) == if m.Flush? then FlushContent else SyncContent
  {
  }

  // The codes sent give every result column its own format.
  lemma ResultFormatsKept(fields: seq<nat>, column: nat)
    requires column < |fields|
    ensures FormatUnder(ResultCodes(fields), column) == fields[column]
  {
  }

  // ---- Streams ----

  function EncodeAll(messages: seq<Message>): (frames: seq<Bytes>)
    ensures |frames| == |messages|
  {
    seq(|messages|, i requires 0 <= i < |messages| => Encode(messages[i]))
  }

  lemma EncodeAllAt(messages: seq<Message>, i: nat)
    requires i < |messages|
    ensures EncodeAll(messages)[i] == Encode(messages[i])
  {
    hide Encode, Body;
  }

  lemma EncodeAllCons(messages: seq<Message>)
    requires messages != []
    ensures EncodeAll(messages) == [Encode(messages[0])] + EncodeAll(messages[1..])
  {
    hide *;
    var all, rest := EncodeAll(messages), EncodeAll(messages[1..]);
    forall i | 0 <= i < |all| ensures all[i] == ([Encode(messages[0])] + rest)[i] {
      EncodeAllAt(messages, i);
      if i > 0 {
        EncodeAllAt(messages[1..], i - 1);
      }
    }
  }

  lemma {:induction false} FlattenFront(first: Bytes, parts: seq<Bytes>)
    ensures Flatten([first] + parts) == first + Flatten(parts)
  {
    if parts == [] {
      assert [first] + parts == [first];
      assert [first][..0] == [];
    } else {
      assert ([first] + parts)[..|parts|] == [first] + parts[..|parts| - 1];
      FlattenFront(first, parts[..|parts| - 1]);
    }
  }

  lemma EncodeLength(m: Message, rest: Bytes)
    ensures HasAt(Encode(m) + rest, 1, U32(|Encode(m)| - 1))
  {
    hide U32, Body;
    var stream, length := Encode(m) + rest, U32(4 + |Body(m)|);
    assert stream == [Tag(m)] + (length + (Body(m) + rest));
    hide Encode;
    assert HasAt(stream, 0, [Tag(m)] + (length + (Body(m) + rest)));
    hide HasAt;
    HasAtParts(stream, 0, [Tag(m)], length + (Body(m) + rest));
    HasAtParts(stream, 1, length, Body(m) + rest);
  }

  lemma FrameRead(m: Message, rest: Bytes)
    requires |Encode(m)| <= INT32_LIMIT
    ensures U32At(Encode(m) + rest, 1) == |Encode(m)| - 1
  {
    hide U32, Body, U32At, HasAt;
    EncodeLength(m, rest);
    hide Encode;
    U32Read(Encode(m) + rest, 1, |Encode(m)| - 1);
  }

  // A frame at the front of a stream is cut off.
  lemma FramesNext(frame: Bytes, rest: Bytes)
    requires 5 <= |frame| <= INT32_LIMIT && U32At(frame + rest, 1) == |frame| - 1 && Frames(rest).Some?
    ensures Frames(frame + rest) == Some([frame] + Frames(rest).value)
  {
    hide U32At;
    assert (frame + rest)[..|frame|] == frame && (frame + rest)[|frame|..] == rest;
  }

  // A stream of messages splits by its length fields into exactly the messages.
  lemma {:induction false} FramesExactly(messages: seq<Message>)
    requires forall i :: 0 <= i < |messages| ==> |Encode(messages[i])| <= INT32_LIMIT
    ensures Frames(Flatten(EncodeAll(messages))) == Some(EncodeAll(messages))
  {
    hide Encode, U32At;
    if messages == [] {
      assert EncodeAll(messages) == [];
    } else {
      hide Frames, Flatten;
      var first, rest := messages[0], messages[1..];
      EncodeAllCons(messages);
      FlattenFront(Encode(first), EncodeAll(rest));
      FrameRead(first, Flatten(EncodeAll(rest)));
      FramesExactly(rest);
      FramesNext(Encode(first), Flatten(EncodeAll(rest)));
    }
  }
}
