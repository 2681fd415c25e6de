// Extraction: what untar does to every archive of valid headers, in the terms of
// the ustar interchange format (POSIX pax), and what it keeps on any bytes.
module UntarTheorems {
  import opened Prelude
  import opened ByteText
  import opened Untar

  // ---- Fields ----

  // The number that octal digits stand for, by position.
  function OctalValue(digits: Bytes): nat
    requires forall i :: 0 <= i < |digits| ==> IsOctal(digits[i])
  {
    if digits == [] then 0
    else
      assert IsOctal(digits[|digits| - 1]);
      8 * OctalValue(digits[..|digits| - 1]) + (digits[|digits| - 1] as int - 48)
  }

  // A numeric field: octal digits after the given number of spaces, ended by a
  // space or a NUL.
  predicate NumberField(text: Bytes, spaces: nat, digits: Bytes, n: nat)
  {
    && digits != [] && (forall i :: 0 <= i < |digits| ==> IsOctal(digits[i])) && OctalValue(digits) == n
    && spaces + |digits| < |text|
    && (forall i :: 0 <= i < spaces ==> text[i] == 32)
    && text[spaces..spaces + |digits|] == digits
    && text[spaces + |digits|] in {0, 32}
  }

  ghost predicate OctalField(text: Bytes, n: nat)
  {
    exists spaces: nat, digits: Bytes :: NumberField(text, spaces, digits, n)
  }

  lemma {:induction false} DigitsRead(n: nat, digits: Bytes, rest: Bytes)
    requires forall i :: 0 <= i < |digits| ==> IsOctal(digits[i])
    requires rest != [] && !IsOctal(rest[0])
    ensures Digits(n, digits + rest) == n * Power8(|digits|) + OctalValue(digits)
    decreases |digits|
  {
    if digits == [] {
      assert digits + rest == rest;
    } else {
      var tail := digits[1..];
      assert (digits + rest)[1..] == tail + rest;
      hide OctalValue;
      DigitsRead(n * 8 + digits[0] - 48, tail, rest);
      OctalFront(digits);
      Regroup(n, digits[0] as int - 48, Power8(|tail|));
    }
  }

  lemma Regroup(n: int, d: int, p: int)
    ensures (n * 8 + d) * p == n * (8 * p) + d * p && 8 * (d * p) == d * (8 * p)
  {
  }

  function Power8(n: nat): nat
  {
    if n == 0 then 1 else 8 * Power8(n - 1)
  }

  lemma {:induction false} OctalFront(digits: Bytes)
    requires digits != [] && forall i :: 0 <= i < |digits| ==> IsOctal(digits[i])
    ensures OctalValue(digits) == (digits[0] - 48) * Power8(|digits| - 1) + OctalValue(digits[1..])
  {
    if |digits| > 1 {
      var init := digits[..|digits| - 1];
      OctalFront(init);
      assert digits[1..][..|digits| - 2] == init[1..];
      assert digits[1..][|digits| - 2] == digits[|digits| - 1] && init[0] == digits[0];
      Regroup(0, digits[0] as int - 48, Power8(|init| - 1));
      assert Power8(|init|) == 8 * Power8(|init| - 1);
      hide Power8;
    }
  }

  lemma {:induction false} SpacesSkipped(text: Bytes, spaces: nat)
    requires spaces < |text| && (forall i :: 0 <= i < spaces ==> text[i] == 32) && IsOctal(text[spaces])
    ensures FromDigit(text) == text[spaces..]
    decreases spaces
  {
    if spaces > 0 {
      SpacesSkipped(text[1..], spaces - 1);
    }
  }

  // Every numeric field is read as its number.
  lemma OctalReads(text: Bytes, spaces: nat, digits: Bytes, n: nat)
    requires NumberField(text, spaces, digits, n)
    ensures Octal(text) == n
  {
    assert text[spaces] == text[spaces..spaces + |digits|][0] == digits[0];
    SpacesSkipped(text, spaces);
    var rest := text[spaces + |digits|..];
    assert text[spaces..] == digits + rest;
    DigitsRead(0, digits, rest);
  }

  // ---- Archives ----

  datatype Member = Member(prefix: Bytes, name: Bytes, mode: nat, flag: Byte, data: Bytes)

  // A text without NUL, ended by one where it does not fill its field.
  predicate TextField(bytes: Bytes, at: nat, size: nat, text: Bytes)
  {
    at + size <= |bytes| && |text| <= size && 0 !in text && HasAt(bytes, at, text) &&
    (|text| < size ==> bytes[at + |text|] == 0)
  }

  ghost predicate NumberAt(bytes: Bytes, at: nat, size: nat, n: nat)
  {
    at + size <= |bytes| && OctalField(bytes[at..at + size], n)
  }

  // The fields of a ustar header; a prefix that fills its field needs padding of
  // NUL after it.
  ghost predicate HeaderOf(bytes: Bytes, off: nat, m: Member)
  {
    && off + 512 <= |bytes|
    && TextField(bytes, off, 100, m.name) && TextField(bytes, off + 345, 155, m.prefix)
    && (|m.prefix| == 155 ==> bytes[off + 500] == 0)
    && NumberAt(bytes, off + 100, 8, m.mode) && NumberAt(bytes, off + 124, 12, |m.data|)
    && NumberAt(bytes, off + 148, 8, Sum(bytes[off..off + 512], 512)) && bytes[off + 156] == m.flag
  }

  // Members in whole blocks, and blocks of zeros anywhere.
  ghost predicate Archive(bytes: Bytes, off: nat, members: seq<Member>)
    decreases |bytes| - off
  {
    || (off == |bytes| && members == [])
    || (off + 512 <= |bytes| && AllZero(bytes[off..off + 512]) && Archive(bytes, off + 512, members))
    || (members != [] && HeaderOf(bytes, off, members[0]) && HasAt(bytes, off + 512, members[0].data) &&
        off + Size(members[0]) <= |bytes| && Archive(bytes, off + Size(members[0]), members[1..]))
  }

  function Size(m: Member): nat
  {
    512 + (|m.data| + 511) / 512 * 512
  }

  function HeaderFor(m: Member): Header
  {
    Header(Joined(Escape(m.prefix), Escape(m.name)), m.mode, |m.data|, KindOf(m.flag))
  }

  // ---- Headers read ----

  lemma NumberReads(bytes: Bytes, at: nat, size: nat, n: nat)
    requires NumberAt(bytes, at, size, n)
    ensures Octal(bytes[at..at + size]) == n
    ensures exists i :: at <= i < at + size && bytes[i] != 0
  {
    var text := bytes[at..at + size];
    var spaces: nat, digits: Bytes :| NumberField(text, spaces, digits, n);
    OctalReads(text, spaces, digits, n);
    assert text[spaces] == text[spaces..spaces + |digits|][0] == digits[0];
    assert bytes[at + spaces] == text[spaces];
  }

  lemma {:induction false} TextReads(text: Bytes, name: Bytes)
    requires 0 !in name && name <= text && (|name| < |text| ==> text[|name|] == 0)
    ensures UpToNul(text) == name
  {
    if name != [] {
      TextReads(text[1..], name[1..]);
      assert name == [name[0]] + name[1..];
    }
  }

  lemma NameReads(bytes: Bytes, off: nat, m: Member)
    requires HeaderOf(bytes, off, m)
    ensures NameAt(bytes, off) == Escape(m.name)
  {
    assert TextField(bytes, off, 100, m.name);
    hide NumberAt, Sum;
    TextReads(bytes[off..off + 100], m.name);
  }

  lemma PrefixReads(bytes: Bytes, off: nat, m: Member)
    requires HeaderOf(bytes, off, m)
    ensures PrefixAt(bytes, off) == Escape(m.prefix)
  {
    hide NumberAt, Sum;
    var at := off + 345;
    var text := bytes[at..Min(at + NAME_MAX, |bytes|)];
    assert text[|m.prefix|] == bytes[at + |m.prefix|] == 0;
    assert text[..|m.prefix|] == bytes[at..at + |m.prefix|];
    TextReads(text, m.prefix);
  }

  lemma HeaderReads(bytes: Bytes, off: nat, m: Member)
    requires HeaderOf(bytes, off, m)
    ensures HeaderAt(bytes, off) == HeaderFor(m)
    ensures ChecksumHolds(bytes[off..off + BLOCK]) && !AllZero(bytes[off..off + BLOCK])
  {
    var block := bytes[off..off + BLOCK];
    NameReads(bytes, off, m);
    PrefixReads(bytes, off, m);
    hide NameAt, PrefixAt, Escape, TextField, Sum, Octal;
    NumberReads(bytes, off + 100, 8, m.mode);
    NumberReads(bytes, off + 124, 12, |m.data|);
    NumberReads(bytes, off + 148, 8, Sum(block, BLOCK));
    SliceOfSlice(bytes, off, BLOCK, 148, 156);
    var i :| off + 148 <= i < off + 156 && bytes[i] != 0;
    assert block[i - off] == bytes[i];
  }

  // ---- What extraction does ----

  // The calls with the bytes they store.
  datatype Effect =
    | MakeAll(path: Bytes, mode: nat)
    | Make(path: Bytes, mode: nat)
    | Create(path: Bytes, mode: nat)
    | Store(data: Bytes)
    | Overrun
    | Finish

  function EffectOf(bytes: Bytes, op: Op): Effect
  {
    match op
    case MkDirAll(path, mode) => MakeAll(path, mode)
    case MkDir(path, mode) => Make(path, mode)
    case Open(path, mode) => Create(path, mode)
    case Write(start, size) => if start + size <= |bytes| then Store(bytes[start..start + size]) else Overrun
    case Close => Finish
  }

  function Effects(bytes: Bytes, ops: seq<Op>): (effects: seq<Effect>)
    ensures |effects| == |ops|
  {
    seq(|ops|, i requires 0 <= i < |ops| => EffectOf(bytes, ops[i]))
  }

  // What a member asks for: a directory, a file of this data, or nothing. Files
  // without data are not closed.
  function Asks(m: Member, top: Option<Bytes>): seq<Effect>
  {
    var h := HeaderFor(m);
    match h.kind
    case Directory => if IsSet(top) then [Make(h.path, h.mode)] else [MakeAll(h.path, h.mode)]
    case File => if m.data == [] then [Create(h.path, h.mode)] else [Create(h.path, h.mode), Store(m.data), Finish]
    case Skipped => []
  }

  // Members in order, up to the first file whose path does not start with the
  // name of the first directory.
  function Extraction(members: seq<Member>, top: Option<Bytes>): (Result<Option<Bytes>, Error>, seq<Effect>)
    decreases |members|
  {
    if members == [] then (Ok(top), [])
    else
      var m := members[0];
      if Rejects(top, HeaderFor(m)) then (Err(OutsideTop), [])
      else
        var (result, rest) := Extraction(members[1..], TopAfter(top, HeaderFor(m)));
        (result, Asks(m, top) + rest)
  }

  lemma SizeOf(m: Member)
    ensures HeaderFor(m).size == |m.data|
    ensures Size(m) == BLOCK + BLOCK * Blocks(|m.data|)
  {
  }

  lemma MemberEffects(bytes: Bytes, off: nat, m: Member, top: Option<Bytes>, ops: seq<Op>)
    requires HasAt(bytes, off + BLOCK, m.data)
    ensures Effects(bytes, ops + Begin(top, HeaderFor(m)) + End(HeaderFor(m), off + BLOCK))
         == Effects(bytes, ops) + Asks(m, top)
  {
    hide KindOf;
    var h := HeaderFor(m);
    var added := Begin(top, h) + End(h, off + BLOCK);
    assert Effects(bytes, added) == Asks(m, top);
    assert ops + Begin(top, h) + End(h, off + BLOCK) == ops + added;
    assert Effects(bytes, ops + added) == Effects(bytes, ops) + Effects(bytes, added);
  }

  // Extracting an archive makes the calls of its members in order, each
  // non-empty file storing exactly its data.
  lemma {:induction false} WalkExtracts(bytes: Bytes, off: nat, members: seq<Member>, top: Option<Bytes>, ops: seq<Op>)
    requires Archive(bytes, off, members)
    ensures var (result, made) := Walk(bytes, |bytes|, off, top, ops);
      var (expected, effects) := Extraction(members, top);
      result == expected && Effects(bytes, made) == Effects(bytes, ops) + effects
    decreases |bytes| - off
  {
    hide HeaderOf, AllZero, ChecksumHolds, HeaderAt, Blocks, HeaderFor, Begin, End, Asks, Rejects, TopAfter;
    if off == |bytes| && members == [] {
    } else if off + BLOCK <= |bytes| && AllZero(bytes[off..off + BLOCK]) && Archive(bytes, off + BLOCK, members) {
      WalkExtracts(bytes, off + BLOCK, members, top, ops);
    } else {
      var m := members[0];
      HeaderReads(bytes, off, m);
      SizeOf(m);
      var h := HeaderFor(m);
      if !Rejects(top, h) {
        WalkExtracts(bytes, off + Size(m), members[1..], TopAfter(top, h), ops + Begin(top, h) + End(h, off + BLOCK));
        MemberEffects(bytes, off, m, top, ops);
        var rest := Extraction(members[1..], TopAfter(top, h)).1;
        assert Effects(bytes, ops) + Asks(m, top) + rest == Effects(bytes, ops) + (Asks(m, top) + rest);
      }
    }
  }

  // ---- On any bytes ----

  // A write covers the data of a file as its header states it, starts at a
  // block, and ends less than a block beyond the archive.
  predicate WriteFits(bytes: Bytes, limit: nat, start: nat, size: nat)
    requires limit <= |bytes|
  {
    && start % BLOCK == 0 && BLOCK <= start < limit && size > 0
    && HeaderAt(bytes, start - BLOCK).size == size && HeaderAt(bytes, start - BLOCK).kind.File?
    && start + size < limit + BLOCK && (limit % BLOCK == 0 ==> start + size <= limit)
  }

  // Each write is made between the opening of its file and its closing.
  predicate Bracketed(bytes: Bytes, limit: nat, ops: seq<Op>, i: nat)
    requires limit <= |bytes| && i < |ops|
  {
    match ops[i]
    case Write(start, size) =>
      && WriteFits(bytes, limit, start, size)
      && 0 < i < |ops| - 1 && ops[i + 1].Close?
      && ops[i - 1] == Open(HeaderAt(bytes, start - BLOCK).path, HeaderAt(bytes, start - BLOCK).mode)
    case _ => true
  }

  ghost predicate AllBracketed(bytes: Bytes, limit: nat, ops: seq<Op>)
    requires limit <= |bytes|
  {
    forall i :: 0 <= i < |ops| ==> Bracketed(bytes, limit, ops, i)
  }

  lemma BlocksBound(limit: nat, off: nat, size: nat)
    requires off % BLOCK == 0 && limit - off - BLOCK * Blocks(size) > 0
    ensures off + BLOCK + size < limit + BLOCK
    ensures limit % BLOCK == 0 ==> off + BLOCK + size <= limit
    ensures (off + BLOCK + BLOCK * Blocks(size)) % BLOCK == 0
  {
    assert size <= BLOCK * Blocks(size);
    var q, b := off / BLOCK, Blocks(size);
    assert off == BLOCK * q && off + BLOCK + BLOCK * b == BLOCK * (q + 1 + b);
    if limit % BLOCK == 0 {
      assert limit == BLOCK * (limit / BLOCK);
    }
  }

  lemma MemberBracketed(bytes: Bytes, limit: nat, off: nat, top: Option<Bytes>, ops: seq<Op>)
    requires limit <= |bytes| && off + BLOCK <= limit && off % BLOCK == 0 && AllBracketed(bytes, limit, ops)
    requires limit - off - BLOCK * Blocks(HeaderAt(bytes, off).size) > 0
    ensures var h := HeaderAt(bytes, off);
      AllBracketed(bytes, limit, ops + Begin(top, h) + End(h, off + BLOCK))
  {
    hide HeaderAt, Blocks;
    var h := HeaderAt(bytes, off);
    BlocksBound(limit, off, h.size);
    var all := ops + Begin(top, h) + End(h, off + BLOCK);
    forall i | 0 <= i < |all| ensures Bracketed(bytes, limit, all, i) {
      if i < |ops| {
        assert Bracketed(bytes, limit, ops, i);
      }
    }
  }

  lemma BeginBracketed(bytes: Bytes, limit: nat, top: Option<Bytes>, h: Header, ops: seq<Op>)
    requires limit <= |bytes| && AllBracketed(bytes, limit, ops)
    ensures AllBracketed(bytes, limit, ops + Begin(top, h))
  {
    hide HeaderAt;
    var all := ops + Begin(top, h);
    forall i | 0 <= i < |all| ensures Bracketed(bytes, limit, all, i) {
      if i < |ops| {
        assert Bracketed(bytes, limit, ops, i);
      }
    }
  }

  // On any bytes whatever, well formed or not: every write belongs to the file
  // just opened, covers what its header states, and lies inside an archive of
  // whole blocks.
  lemma {:induction false} WritesFit(bytes: Bytes, limit: nat, off: nat, top: Option<Bytes>, ops: seq<Op>)
    requires limit <= |bytes| && off % BLOCK == 0 && AllBracketed(bytes, limit, ops)
    ensures AllBracketed(bytes, limit, Walk(bytes, limit, off, top, ops).1)
    decreases limit - off
  {
    hide AllBracketed, AllZero, ChecksumHolds, HeaderAt, Blocks, Begin, End, Rejects, TopAfter;
    if limit - off >= BLOCK {
      if AllZero(bytes[off..off + BLOCK]) {
        WritesFit(bytes, limit, off + BLOCK, top, ops);
      } else if ChecksumHolds(bytes[off..off + BLOCK]) {
        var h := HeaderAt(bytes, off);
        BeginBracketed(bytes, limit, top, h, ops);
        if limit - off - BLOCK * Blocks(h.size) > 0 && !Rejects(top, h) {
          MemberBracketed(bytes, limit, off, top, ops);
          BlocksBound(limit, off, h.size);
          WritesFit(bytes, limit, off + BLOCK + BLOCK * Blocks(h.size), TopAfter(top, h),
                    ops + Begin(top, h) + End(h, off + BLOCK));
        }
      }
    }
  }

  // ---- Cut archives ----

  // A member cut inside the last block of its data is still written whole
  // before the error.
  lemma CutMemberOverruns(bytes: Bytes, limit: nat, off: nat, m: Member)
    requires limit <= |bytes| && HeaderOf(bytes, off, m) && KindOf(m.flag).File? && m.data != []
    requires off + BLOCK * Blocks(|m.data|) < limit < off + BLOCK + |m.data|
    ensures Walk(bytes, limit, off, None, [])
         == (Err(BadSize), [Open(HeaderFor(m).path, m.mode), Write(off + BLOCK, |m.data|), Close])
  {
    HeaderReads(bytes, off, m);
    var h := HeaderFor(m);
    var ops := [] + Begin(None, h) + End(h, off + BLOCK);
    hide HeaderOf, HeaderAt, AllZero, ChecksumHolds, KindOf, Escape, Joined;
    assert ops == [Open(h.path, m.mode), Write(off + BLOCK, |m.data|), Close];
    assert 0 < |m.data| <= BLOCK * Blocks(|m.data|);
    assert Walk(bytes, limit, off, None, []) == Walk(bytes, limit, off + BLOCK + BLOCK * Blocks(|m.data|), None, ops);
  }

  // A header of a file called a, of mode 777 and 512 bytes, in octal: the name,
  // the mode, the size, the checksum and the type.
  function SampleByte(i: nat): Byte
  {
    if i == 0 then 97
    else if 100 <= i < 107 then if i < 104 then 48 else 55
    else if 124 <= i < 135 then if i == 131 then 49 else 48
    else if i == 150 then 50
    else if i == 151 then 52
    else if i == 153 then 55
    else if 148 <= i < 154 then 48
    else if i == 155 then 32
    else if i == 156 then 48
    else 0
  }

  function Sample(): (header: Bytes)
    ensures |header| == BLOCK
  {
    seq(BLOCK, i requires 0 <= i < BLOCK => SampleByte(i))
  }

  const SAMPLE: Member := Member([], [97], 511, 48, seq(BLOCK, _ => 1))

  // Equal weights in a row.
  predicate Run(block: Bytes, start: nat, end: nat, weight: nat)
  {
    start <= end <= |block| && forall i :: start <= i < end ==> Weight(block, i) == weight
  }

  lemma {:induction false} SumRun(block: Bytes, start: nat, end: nat, weight: nat)
    requires Run(block, start, end, weight)
    ensures Sum(block, end) == Sum(block, start) + (end - start) * weight
    decreases end - start
  {
    if start < end {
      hide Weight;
      SumRun(block, start, end - 1, weight);
      assert Sum(block, end) == Sum(block, end - 1) + Weight(block, end - 1);
      hide Sum;
      assert (end - start) * weight == (end - 1 - start) * weight + weight;
    }
  }

  // The checksum counts as spaces.
  function SampleWeight(i: nat): nat
  {
    if 148 <= i <= 155 then 32 else SampleByte(i)
  }

  predicate SampleWeighs(start: nat, end: nat, weight: nat)
  {
    start <= end <= BLOCK && forall i :: start <= i < end ==> SampleWeight(i) == weight
  }

  lemma SampleRun(start: nat, end: nat, weight: nat)
    requires SampleWeighs(start, end, weight)
    ensures Sum(Sample(), end) == Sum(Sample(), start) + (end - start) * weight
  {
    assert Run(Sample(), start, end, weight) by {
      hide Sum, SampleByte;
      forall i | start <= i < end ensures Weight(Sample(), i) == weight {
        assert SampleWeight(i) == weight;
      }
    }
    hide *;
    SumRun(Sample(), start, end, weight);
  }

  lemma SampleWeights()
    ensures SampleWeighs(0, 1, 97) && SampleWeighs(1, 100, 0) && SampleWeighs(100, 104, 48)
    ensures SampleWeighs(104, 107, 55) && SampleWeighs(107, 124, 0) && SampleWeighs(124, 131, 48)
    ensures SampleWeighs(131, 132, 49) && SampleWeighs(132, 135, 48) && SampleWeighs(135, 148, 0)
    ensures SampleWeighs(148, 156, 32) && SampleWeighs(156, 157, 48) && SampleWeighs(157, BLOCK, 0)
  {
  }

  lemma SumOfNothing(block: Bytes)
    ensures Sum(block, 0) == 0
  {
  }

  lemma SampleSum()
    ensures Sum(Sample(), BLOCK) == 1287
  {
    hide *;
    SumOfNothing(Sample());
    SampleWeights();
    SampleRun(0, 1, 97);
    SampleRun(1, 100, 0);
    SampleRun(100, 104, 48);
    SampleRun(104, 107, 55);
    SampleRun(107, 124, 0);
    SampleRun(124, 131, 48);
    SampleRun(131, 132, 49);
    SampleRun(132, 135, 48);
    SampleRun(135, 148, 0);
    SampleRun(148, 156, 32);
    SampleRun(156, 157, 48);
    SampleRun(157, BLOCK, 0);
  }

  // A numeric field without spaces, as its digits and what ends it.
  lemma PlainField(bytes: Bytes, at: nat, size: nat, digits: Bytes, n: nat)
    requires at + size <= |bytes| && 0 < |digits| < size && HasAt(bytes, at, digits)
    requires (forall i :: 0 <= i < |digits| ==> IsOctal(digits[i])) && OctalValue(digits) == n
    requires bytes[at + |digits|] in {0, 32}
    ensures NumberAt(bytes, at, size, n)
  {
    hide OctalValue;
    var text := bytes[at..at + size];
    assert text[0..0 + |digits|] == digits;
    assert NumberField(text, 0, digits, n);
  }

  // Leading zeros do not count.
  lemma {:induction false} LeadingZeros(zeros: nat, digits: Bytes)
    requires forall i :: 0 <= i < |digits| ==> IsOctal(digits[i])
    ensures OctalValue(seq(zeros, _ => 48) + digits) == OctalValue(digits)
  {
    var all: Bytes := seq(zeros, _ => 48) + digits;
    if zeros == 0 {
      assert all == digits;
    } else {
      hide OctalValue, Power8;
      var rest: Bytes := seq(zeros - 1, _ => 48) + digits;
      LeadingZeros(zeros - 1, digits);
      assert all[0] == 48 && all[1..] == rest;
      OctalFront(all);
    }
  }

  const MODE_DIGITS: Bytes := seq(4, _ => 48) + [55, 55, 55]
  const SIZE_DIGITS: Bytes := seq(7, _ => 48) + [49, 48, 48, 48]
  const SUM_DIGITS: Bytes := seq(2, _ => 48) + [50, 52, 48, 55]

  lemma SampleNumbers()
    ensures OctalValue(MODE_DIGITS) == 511 && OctalValue(SIZE_DIGITS) == 512 && OctalValue(SUM_DIGITS) == 1287
  {
    LeadingZeros(4, [55, 55, 55]);
    LeadingZeros(7, [49, 48, 48, 48]);
    LeadingZeros(2, [50, 52, 48, 55]);
    hide OctalValue;
    OctalOfThree(55, 55, 55);
    OctalOfThree(49, 48, 48);
    OctalStep([49, 48, 48], 48);
    OctalOfThree(50, 52, 48);
    OctalStep([50, 52, 48], 55);
    assert [49, 48, 48] + [48] == [49, 48, 48, 48] && [50, 52, 48] + [55] == [50, 52, 48, 55];
  }

  lemma OctalStep(digits: Bytes, last: Byte)
    requires (forall i :: 0 <= i < |digits| ==> IsOctal(digits[i])) && IsOctal(last)
    ensures OctalValue(digits + [last]) == 8 * OctalValue(digits) + (last as int - 48)
  {
    assert (digits + [last])[..|digits|] == digits;
  }

  lemma OctalOfThree(a: Byte, b: Byte, c: Byte)
    requires IsOctal(a) && IsOctal(b) && IsOctal(c)
    ensures OctalValue([a, b, c]) == 64 * (a as int - 48) + 8 * (b as int - 48) + (c as int - 48)
  {
    assert OctalValue([]) == 0;
    hide OctalValue;
    OctalStep([], a);
    OctalStep([a], b);
    OctalStep([a, b], c);
    assert [] + [a] == [a] && [a] + [b] == [a, b] && [a, b] + [c] == [a, b, c];
  }

  // Where the sample lies, its parts lie.
  lemma SampleAt(bytes: Bytes, off: nat, start: nat, part: Bytes)
    requires HasAt(bytes, off, Sample()) && start + |part| <= BLOCK
    requires forall i :: 0 <= i < |part| ==> SampleByte(start + i) == part[i]
    ensures HasAt(bytes, off + start, part)
  {
    hide SampleByte;
    assert Sample()[start..start + |part|] == part;
    hide Sample;
    SliceOfSlice(bytes, off, BLOCK, start, start + |part|);
  }

  lemma SampleByteAt(bytes: Bytes, off: nat, i: nat)
    requires HasAt(bytes, off, Sample()) && i < BLOCK
    ensures bytes[off + i] == SampleByte(i)
  {
    hide SampleByte;
    assert bytes[off..off + BLOCK][i] == bytes[off + i];
  }

  lemma SampleNumberFields(bytes: Bytes, off: nat)
    requires HasAt(bytes, off, Sample())
    ensures NumberAt(bytes, off + 100, 8, 511) && NumberAt(bytes, off + 124, 12, 512)
    ensures NumberAt(bytes, off + 148, 8, 1287)
  {
    hide HasAt, Sample, OctalValue, NumberAt;
    SampleNumbers();
    SampleAt(bytes, off, 100, MODE_DIGITS);
    SampleAt(bytes, off, 124, SIZE_DIGITS);
    SampleAt(bytes, off, 148, SUM_DIGITS);
    SampleByteAt(bytes, off, 107);
    SampleByteAt(bytes, off, 135);
    SampleByteAt(bytes, off, 154);
    SampleFits(bytes, off);
    PlainField(bytes, off + 100, 8, MODE_DIGITS, 511);
    PlainField(bytes, off + 124, 12, SIZE_DIGITS, 512);
    PlainField(bytes, off + 148, 8, SUM_DIGITS, 1287);
  }

  lemma SampleFits(bytes: Bytes, off: nat)
    requires HasAt(bytes, off, Sample())
    ensures off + BLOCK <= |bytes| && bytes[off..off + BLOCK] == Sample()
  {
  }

  // The sample is a valid header wherever it lies.
  lemma SampleHeader(bytes: Bytes, off: nat)
    requires HasAt(bytes, off, Sample())
    ensures HeaderOf(bytes, off, SAMPLE)
  {
    SampleNumberFields(bytes, off);
    SampleSum();
    SampleFits(bytes, off);
    SampleAt(bytes, off, 0, [97]);
    SampleAt(bytes, off, 345, []);
    SampleByteAt(bytes, off, 1);
    SampleByteAt(bytes, off, 345);
    SampleByteAt(bytes, off, 156);
    hide HasAt, Sample, NumberAt, Sum;
  }

  // Blocks of zeros are skipped.
  lemma {:induction false} ZerosSkipped(bytes: Bytes, limit: nat, blocks: nat)
    requires BLOCK * blocks <= limit <= |bytes| && forall i :: 0 <= i < BLOCK * blocks ==> bytes[i] == 0
    ensures Walk(bytes, limit, 0, None, []) == Walk(bytes, limit, BLOCK * blocks, None, [])
  {
    if blocks > 0 {
      ZerosSkipped(bytes, limit, blocks - 1);
      var off := BLOCK * (blocks - 1);
      assert AllZero(bytes[off..off + BLOCK]);
    }
  }

  // All writes of an extraction lie inside the archive.
  ghost predicate WritesInside(bytes: Bytes, limit: nat)
    requires limit <= |bytes|
  {
    forall op :: op in Walk(bytes, limit, 0, None, []).1 && op.Write? ==> op.start + op.size <= limit
  }

  // An archive of this length, not of whole blocks: zeros, the sample header in
  // the last whole block, and what is left.
  lemma CutArchive(limit: nat) returns (bytes: Bytes)
    requires limit % BLOCK != 0 && limit >= BLOCK
    ensures |bytes| == limit && !WritesInside(bytes, limit)
  {
    var blocks, rest := limit / BLOCK - 1, limit % BLOCK;
    var zeros: Bytes := seq(BLOCK * blocks, _ => 0);
    var off := |zeros|;
    bytes := zeros + Sample() + seq(rest, _ => 0);
    assert |bytes| == limit && HasAt(bytes, off, Sample()) && forall i :: 0 <= i < off ==> bytes[i] == 0 by {
      hide Sample;
      assert bytes[off..off + BLOCK] == Sample();
    }
    SampleIsFile();
    hide *;
    ZerosSkipped(bytes, limit, blocks);
    SampleHeader(bytes, off);
    CutMemberOverruns(bytes, limit, off, SAMPLE);
    Overruns(bytes, limit, off + BLOCK, BLOCK);
  }

  lemma SampleIsFile()
    ensures KindOf(SAMPLE.flag).File? && SAMPLE.data != [] && |SAMPLE.data| == BLOCK && Blocks(BLOCK) == 1
  {
  }

  lemma Overruns(bytes: Bytes, limit: nat, start: nat, size: nat)
    requires limit <= |bytes| && Write(start, size) in Walk(bytes, limit, 0, None, []).1 && start + size > limit
    ensures !WritesInside(bytes, limit)
  {
    hide Walk;
  }

  // Whatever the bytes are, extraction writes only what lies inside an archive
  // of this length, exactly when the length is in whole blocks or no block fits.
  lemma WritesInsideExactly(limit: nat)
    ensures (forall bytes: Bytes :: |bytes| >= limit ==> WritesInside(bytes, limit))
       <==> limit % 512 == 0 || limit < 512
  {
    if limit % BLOCK == 0 || limit < BLOCK {
      forall bytes: Bytes | |bytes| >= limit ensures WritesInside(bytes, limit) {
        WholeBlocksInside(bytes, limit);
      }
    } else {
      var bytes := CutArchive(limit);
    }
  }

  lemma WholeBlocksInside(bytes: Bytes, limit: nat)
    requires limit <= |bytes| && (limit % BLOCK == 0 || limit < BLOCK)
    ensures WritesInside(bytes, limit)
  {
    hide Walk;
    if limit >= BLOCK || limit == 0 {
      WritesFit(bytes, limit, 0, None, []);
      var ops := Walk(bytes, limit, 0, None, []).1;
      forall op | op in ops && op.Write? ensures op.start + op.size <= limit {
        var i :| 0 <= i < |ops| && ops[i] == op;
        assert Bracketed(bytes, limit, ops, i);
      }
    } else {
      ShortWalk(bytes, limit);
    }
  }

  lemma ShortWalk(bytes: Bytes, limit: nat)
    requires 0 < limit < BLOCK && limit <= |bytes|
    ensures Walk(bytes, limit, 0, None, []).1 == []
  {
  }

  // ---- The first directory ----

  // Files opened after the first directory are named under it.
  ghost predicate Under(ops: seq<Op>, top: Option<Bytes>)
  {
    && (forall i :: 0 <= i < |ops| && ops[i].MkDirAll? && ops[i].path != [] ==> top == Some(ops[i].path))
    && (forall i, j :: 0 <= i < j < |ops| && ops[i].MkDirAll? && ops[j].Open? ==> ops[i].path <= ops[j].path)
  }

  lemma MemberUnder(ops: seq<Op>, top: Option<Bytes>, h: Header, start: nat)
    requires Under(ops, top) && !Rejects(top, h)
    ensures Under(ops + Begin(top, h) + End(h, start), TopAfter(top, h)) && Under(ops + Begin(top, h), TopAfter(top, h))
  {
  }

  // On any bytes whatever: once a directory is named, every file opened later
  // starts with its name, and the result is that name.
  lemma {:induction false} FilesUnderTop(bytes: Bytes, limit: nat, off: nat, top: Option<Bytes>, ops: seq<Op>)
    returns (last: Option<Bytes>)
    requires limit <= |bytes| && Under(ops, top)
    ensures var (result, made) := Walk(bytes, limit, off, top, ops);
      Under(made, last) && (result.Ok? ==> result.value == last)
    decreases limit - off
  {
    hide Under, AllZero, ChecksumHolds, HeaderAt, Blocks, Begin, End, Rejects, TopAfter;
    last := top;
    if limit - off >= BLOCK {
      if AllZero(bytes[off..off + BLOCK]) {
        last := FilesUnderTop(bytes, limit, off + BLOCK, top, ops);
      } else if ChecksumHolds(bytes[off..off + BLOCK]) && !Rejects(top, HeaderAt(bytes, off)) {
        var h := HeaderAt(bytes, off);
        MemberUnder(ops, top, h, off + BLOCK);
        last := TopAfter(top, h);
        if limit - off - BLOCK * Blocks(h.size) > 0 {
          last := FilesUnderTop(bytes, limit, off + BLOCK + BLOCK * Blocks(h.size), TopAfter(top, h),
                                ops + Begin(top, h) + End(h, off + BLOCK));
        }
      }
    }
  }
}
