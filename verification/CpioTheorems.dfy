// Reading back what was written: parse_cpio of the sections of build_cpio.
module CpioTheorems {
  import opened Prelude
  import opened ByteText
  import opened Cpio

  // ---- Numbers ----

  function TextValue(text: Bytes): int
  {
    if text == [] then 0 else OrDigit(TextValue(text[..|text| - 1]), HexDigit(text[|text| - 1]))
  }

  lemma {:induction false} DigitsOfText(bytes: Bytes, off: nat, text: Bytes)
    requires HasAt(bytes, off, text)
    ensures DigitsAt(bytes, off, |text|) == TextValue(text)
  {
    if text != [] {
      var before := text[..|text| - 1];
      assert text == before + [text[|text| - 1]];
      HasAtParts(bytes, off, before, [text[|text| - 1]]);
      DigitsOfText(bytes, off, before);
      assert bytes[off + |text| - 1] == bytes[off..off + |text|][|text| - 1];
    }
  }

  lemma {:induction false} TextOfNumber(n: nat)
    ensures TextValue(ToText(n, 16)) == n
  {
    if n >= 16 {
      TextOfNumber(n / 16);
      var text := ToText(n, 16);
      assert text[..|text| - 1] == ToText(n / 16, 16);
    } else {
      assert [Digit(n)][..0] == [];
    }
  }

  lemma {:induction false} PaddedValue(k: nat, text: Bytes)
    ensures TextValue(Zeros(k) + text) == TextValue(text)
  {
    if text == [] {
      assert Zeros(k) + text == Zeros(k);
      if k > 0 {
        assert Zeros(k)[..k - 1] == Zeros(k - 1);
        PaddedValue(k - 1, []);
        assert Zeros(k - 1) + [] == Zeros(k - 1);
      }
    } else {
      assert (Zeros(k) + text)[..|Zeros(k) + text| - 1] == Zeros(k) + text[..|text| - 1];
      PaddedValue(k, text[..|text| - 1]);
    }
  }

  function Power(k: nat): nat
  {
    if k == 0 then 1 else 16 * Power(k - 1)
  }

  lemma PowerEight()
    ensures Power(8) == 0x1_0000_0000
  {
    assert Power(2) == 256;
    assert Power(4) == 65536;
    assert Power(6) == 0x100_0000;
  }

  lemma {:induction false} TextLength(n: nat, k: nat)
    requires k > 0 && n < Power(k)
    ensures |ToText(n, 16)| <= k
  {
    if n >= 16 {
      assert k > 1;
      TextLength(n / 16, k - 1);
    }
  }

  // A header field of a number below 2^32 has eight digits and reads back as
  // the number taken as a signed 32-bit integer.
  lemma HexField(bytes: Bytes, off: nat, n: nat)
    requires n < 0x1_0000_0000
    ensures |PadStart(ToText(n, 16), 8)| == 8
    ensures HasAt(bytes, off, PadStart(ToText(n, 16), 8)) ==> Hex8(bytes, off) == ToInt32(n)
  {
    hide ToText, TextValue, DigitsAt, Power, ToInt32;
    var text := ToText(n, 16);
    PowerEight();
    TextLength(n, 8);
    TextOfNumber(n);
    PaddedValue(8 - |text|, text);
    assert Zeros(0) + text == text;
    if HasAt(bytes, off, PadStart(text, 8)) {
      DigitsOfText(bytes, off, PadStart(text, 8));
    }
  }

  // A number below 2^32 survives exactly when it is below 2^31.
  lemma ToInt32Exactly(n: nat)
    requires n < 0x1_0000_0000
    ensures ToInt32(n) == n <==> n < 0x8000_0000
  {
  }

  lemma {:induction false} HexFieldsRead(bytes: Bytes, off: nat, fields: seq<nat>)
    requires forall i :: 0 <= i < |fields| ==> fields[i] < 0x1_0000_0000
    ensures |HexFields(fields)| == 8 * |fields|
    ensures HasAt(bytes, off, HexFields(fields)) ==>
      forall i :: 0 <= i < |fields| ==> FieldsAt(bytes, off, |fields|)[i] == ToInt32(fields[i])
  {
    if fields != [] {
      var before, last := fields[..|fields| - 1], fields[|fields| - 1];
      HexFieldsRead(bytes, off, before);
      HexField(bytes, off + |HexFields(before)|, last);
      if HasAt(bytes, off, HexFields(fields)) {
        HasAtParts(bytes, off, HexFields(before), PadStart(ToText(last, 16), 8));
      }
    }
  }

  const ID_TEXT: Bytes := [48, 55, 48, 55, 48, 49]

  lemma IdText()
    ensures PadStart(ToText(29121, 8), 6) == ID_TEXT
  {
    assert ToText(7, 8) == [55];
    assert ToText(56, 8) == [55, 48];
    assert ToText(455, 8) == [55, 48, 55];
    assert ToText(3640, 8) == [55, 48, 55, 48];
    assert ToText(29121, 8) == [55, 48, 55, 48, 49];
    assert Zeros(1) == [48];
  }

  function OctalBits(b: Byte): bv32
  {
    if b == 48 then 0 else if b == 49 then 1 else 7
  }

  lemma OctalTermIs(bytes: Bytes, i: nat)
    requires i < |bytes| && bytes[i] in {48, 49, 55}
    ensures OctalTerm(bytes, i) == OctalBits(bytes[i])
  {
  }

  lemma IdBits()
    ensures ((0 as bv32) << 15) | ((7 as bv32) << 12) | ((0 as bv32) << 9) |
            ((7 as bv32) << 6) | ((0 as bv32) << 3) | (1 as bv32) == 29121
  {
  }

  lemma IdRead(bytes: Bytes, off: nat)
    requires HasAt(bytes, off, ID_TEXT)
    ensures Octal6(bytes, off) == 29121
  {
    assert forall i :: 0 <= i < 6 ==> bytes[off + i] == bytes[off..off + 6][i] == ID_TEXT[i];
    OctalTermIs(bytes, off);
    OctalTermIs(bytes, off + 1);
    OctalTermIs(bytes, off + 2);
    OctalTermIs(bytes, off + 3);
    OctalTermIs(bytes, off + 4);
    OctalTermIs(bytes, off + 5);
    hide OctalTerm, HasAt;
    IdBits();
  }

  // ---- One file ----

  // The header numbers as signed 32-bit integers.
  function Decoded(e: Entry, inode: nat, now: nat): (fields: seq<int>)
    requires HasContent(e)
    ensures |fields| == 13
  {
    seq(13, i requires 0 <= i < 13 => ToInt32(Fields(e, inode, now)[i]))
  }

  lemma KeyFields(e: Entry, inode: nat, now: nat)
    requires HasContent(e) && Readable(e, inode, now)
    ensures Decoded(e, inode, now)[PATH_SIZE] == |e.path| + 1
    ensures Decoded(e, inode, now)[SIZE] == SizeOf(e)
    ensures Decoded(e, inode, now)[MODE] == PermissionsOf(e) + TypeOf(e)
  {
    ModeRead(e);
    hide PermissionsOf, TypeOf;
  }

  // The entry as it is read back, with the time in milliseconds.
  function FileOf(e: Entry, inode: nat, now: nat): File
    requires HasContent(e)
  {
    var fields := Decoded(e, inode, now);
    File(29121, fields[MOD := fields[MOD] * 1000], e.path, KindOfEntry(e), PermissionsOf(e), BodyOf(e))
  }

  function KindOfEntry(e: Entry): Kind
  {
    match e
    case Regular(_, _, _) => Plain
    case Directory(_) => Folder
    case Symlink(_, _, _) => Link
    case BlockDevice(_, _, _) => Block
    case CharacterDevice(_, _, _) => Character
    case Untyped(_) => Plain
  }

  function BodyOf(e: Entry): Body
    requires HasContent(e)
  {
    match e
    case Regular(_, _, content) => Data(content.value)
    case Symlink(_, _, target) => Source(target)
    case _ => Data([])
  }

  // The two sizes of a header are below 2^31.
  predicate Readable(e: Entry, inode: nat, now: nat)
    requires HasContent(e)
  {
    Fits(e, inode, now) && SizeOf(e) < 0x8000_0000 && |e.path| + 1 < 0x8000_0000
  }

  lemma HeaderRead(bytes: Bytes, off: nat, e: Entry, inode: nat, now: nat)
    requires HasContent(e) && Fits(e, inode, now) && HasAt(bytes, off, HeaderText(e, inode, now))
    ensures |HeaderText(e, inode, now)| == 110 + |e.path| + 1
    ensures Octal6(bytes, off) == 29121
    ensures forall i :: 0 <= i < 13 ==> FieldsAt(bytes, off + 6, 13)[i] == ToInt32(Fields(e, inode, now)[i])
    ensures HasAt(bytes, off + 110, e.path)
  {
    hide Octal6, Fields, ToInt32, HexFields, FieldsAt, ToText;
    var fields := Fields(e, inode, now);
    IdText();
    HexFieldsRead(bytes, off + 6, fields);
    HasAtParts(bytes, off, ID_TEXT + HexFields(fields) + e.path, [0]);
    HasAtParts(bytes, off, ID_TEXT + HexFields(fields), e.path);
    HasAtParts(bytes, off, ID_TEXT, HexFields(fields));
    IdRead(bytes, off);
  }

  lemma HeaderLength(e: Entry, inode: nat, now: nat)
    requires HasContent(e) && Fits(e, inode, now)
    ensures |HeaderText(e, inode, now)| == 110 + |e.path| + 1
  {
    var text := HeaderText(e, inode, now);
    assert text[0..|text|] == text;
    HeaderRead(text, 0, e, inode, now);
  }

  lemma ModeRead(e: Entry)
    ensures var mode := PermissionsOf(e) + TypeOf(e);
      && ToInt32(mode) == mode
      && PermissionBits(mode) == PermissionsOf(e)
      && KindOf(mode) == KindOfEntry(e)
  {
  }

  lemma AlignedSum(a: nat, b: nat)
    requires a % 4 == 0
    ensures Aligned(a + b) == a + Aligned(b)
  {
  }

  lemma SectionLength(e: Entry, inode: nat, now: nat)
    requires HasContent(e)
    ensures |Section(e, inode, now)| == Aligned(|HeaderText(e, inode, now)|) + Aligned(|Payload(e)|)
    ensures |Section(e, inode, now)| % 4 == 0
  {
    hide HeaderText;
  }

  // The payload lies where the reader looks for it.
  lemma PayloadRead(bytes: Bytes, off: nat, e: Entry, inode: nat, now: nat)
    requires HasContent(e) && off % 4 == 0 && HasAt(bytes, off, Section(e, inode, now))
    ensures HasAt(bytes, off, HeaderText(e, inode, now))
    ensures HasAt(bytes, Aligned(off + |HeaderText(e, inode, now)|), Payload(e))
    ensures Aligned(Aligned(off + |HeaderText(e, inode, now)|) + |Payload(e)|) == off + |Section(e, inode, now)|
    ensures off + |Section(e, inode, now)| <= |bytes|
  {
    hide HeaderText, Payload;
    var text, payload := HeaderText(e, inode, now), Payload(e);
    var gap, rest := Filler(|text|), Filler(|payload|);
    HasAtParts(bytes, off, text + gap + payload, rest);
    HasAtParts(bytes, off, text + gap, payload);
    HasAtParts(bytes, off, text, gap);
    AlignedSum(off, |text|);
    AlignedSum(off + Aligned(|text|), |payload|);
    SectionLength(e, inode, now);
  }

  lemma BodyRead(bytes: Bytes, start: nat, e: Entry)
    requires HasContent(e) && HasAt(bytes, start, Payload(e))
    ensures ReadBody(bytes, start, KindOfEntry(e), SizeOf(e)) == Ok((BodyOf(e), start + |Payload(e)|))
  {
    if e.Symlink? {
      HasAtParts(bytes, start, e.target, [0]);
    }
  }

  lemma SectionRead(bytes: Bytes, off: nat, e: Entry, inode: nat, now: nat)
    requires HasContent(e) && Readable(e, inode, now)
    requires off % 4 == 0 && HasAt(bytes, off, Section(e, inode, now))
    ensures ReadFile(bytes, off).Ok?
    ensures var step := ReadFile(bytes, off).value;
      if e.path == TRAILER then step.file == None
      else step == Step(Some(FileOf(e, inode, now)), off + |Section(e, inode, now)|)
  {
    hide HeaderText, Section, Octal6, HexFields, FieldsAt, Payload, ReadBody, BodyOf, KindOfEntry, SizeOf;
    PayloadRead(bytes, off, e, inode, now);
    HeaderRead(bytes, off, e, inode, now);
    ModeRead(e);
    KeyFields(e, inode, now);
    var fields := FieldsAt(bytes, off + 6, 13);
    assert fields == Decoded(e, inode, now);
    hide ToInt32, Fields, Decoded, KindOf, PermissionBits, TRAILER, Aligned, PermissionsOf, TypeOf;
    BodyRead(bytes, Aligned(off + 110 + |e.path| + 1), e);
  }

  // ---- Whole archives ----

  predicate AllReadable(entries: seq<Entry>, inode: nat, now: nat)
  {
    forall i :: 0 <= i < |entries| ==> HasContent(entries[i]) && Readable(entries[i], inode + i, now)
  }

  // The files read back from some entries, numbered from an inode on. An entry
  // that is called like the trailer ends the archive.
  function FilesOf(entries: seq<Entry>, inode: nat, now: nat): seq<File>
    requires forall e :: e in entries ==> HasContent(e)
  {
    if entries == [] || entries[0].path == TRAILER then []
    else [FileOf(entries[0], inode, now)] + FilesOf(entries[1..], inode + 1, now)
  }

  lemma ReadFilesNext(bytes: Bytes, off: int, file: File, next: int, files: seq<File>, rounds: nat)
    requires off < |bytes| && rounds > 0 && ReadFile(bytes, off) == Ok(Step(Some(file), next))
    ensures ReadFiles(bytes, off, files, rounds) == ReadFiles(bytes, next, files + [file], rounds - 1)
  {
    hide ReadFile;
  }

  lemma ReadFilesEnds(bytes: Bytes, off: int, files: seq<File>, rounds: nat)
    requires off >= |bytes| || (rounds > 0 && ReadFile(bytes, off).Ok? && ReadFile(bytes, off).value.file == None)
    ensures ReadFiles(bytes, off, files, rounds) == Some(Ok(files))
  {
    hide ReadFile;
  }

  lemma {:induction false} SectionsRead(bytes: Bytes, off: nat, entries: seq<Entry>, inode: nat, now: nat,
                                        files: seq<File>, rounds: nat)
    requires AllReadable(entries, inode, now) && rounds >= |entries|
    requires off % 4 == 0 && HasAt(bytes, off, Sections(entries, inode, now))
    requires off + |Sections(entries, inode, now)| == |bytes|
    ensures ReadFiles(bytes, off, files, rounds) == Some(Ok(files + FilesOf(entries, inode, now)))
    decreases |entries|
  {
    hide ReadFile, ReadFiles, Section, FileOf, HasAt, Readable, Fits, TRAILER, HeaderText, Payload;
    if entries == [] {
      ReadFilesEnds(bytes, off, files, rounds);
      assert files + [] == files;
    } else {
      var e, rest := entries[0], entries[1..];
      var section := Section(e, inode, now);
      HasAtParts(bytes, off, section, Sections(rest, inode + 1, now));
      SectionRead(bytes, off, e, inode, now);
      SectionLength(e, inode, now);
      HeaderIsLong(e, inode, now);
      if e.path == TRAILER {
        ReadFilesEnds(bytes, off, files, rounds);
        assert files + [] == files;
      } else {
        var file := FileOf(e, inode, now);
        ReadFilesNext(bytes, off, file, off + |section|, files, rounds);
        SectionsRead(bytes, off + |section|, rest, inode + 1, now, files + [file], rounds - 1);
        assert files + [file] + FilesOf(rest, inode + 1, now) == files + ([file] + FilesOf(rest, inode + 1, now));
      }
    }
  }

  lemma HeaderIsLong(e: Entry, inode: nat, now: nat)
    requires HasContent(e) && Readable(e, inode, now)
    ensures |HeaderText(e, inode, now)| >= 111
  {
    HeaderLength(e, inode, now);
  }

  lemma {:induction false} FilesBeforeTrailer(entries: seq<Entry>, inode: nat, now: nat)
    requires forall e :: e in entries ==> HasContent(e)
    ensures FilesOf(entries + [Untyped(TRAILER)], inode, now) == FilesOf(entries, inode, now)
  {
    hide FileOf, TRAILER;
    if entries == [] {
      assert entries + [Untyped(TRAILER)] == [Untyped(TRAILER)];
    } else {
      assert (entries + [Untyped(TRAILER)])[1..] == entries[1..] + [Untyped(TRAILER)];
      FilesBeforeTrailer(entries[1..], inode + 1, now);
    }
  }

  // Reading an archive gives back its entries, in order, numbered from 1, in a
  // round for each and one for the trailer.
  lemma RoundTrip(entries: seq<Entry>, now: nat, rounds: nat)
    requires forall e :: e in entries ==> HasContent(e)
    requires AllReadable(entries, 1, now) && Readable(Untyped(TRAILER), |entries| + 1, now)
    requires rounds > |entries|
    ensures ReadFiles(Archive(entries, now), 0, [], rounds) == Some(Ok(FilesOf(entries, 1, now)))
  {
    hide ReadFiles, Sections, FilesOf, Readable, TRAILER;
    var bytes := Archive(entries, now);
    assert bytes[0..|bytes|] == bytes;
    SectionsRead(bytes, 0, entries + [Untyped(TRAILER)], 1, now, [], rounds);
    FilesBeforeTrailer(entries, 1, now);
    assert [] + FilesOf(entries, 1, now) == FilesOf(entries, 1, now);
  }

  // The header numbers come back as they were written exactly when each of
  // them is below 2^31.
  lemma HeaderSurvivesExactly(e: Entry, inode: nat, now: nat)
    requires HasContent(e) && Fits(e, inode, now)
    ensures Decoded(e, inode, now) == Fields(e, inode, now) <==>
            forall i :: 0 <= i < 13 ==> Fields(e, inode, now)[i] < 0x8000_0000
  {
    forall i | 0 <= i < 13
      ensures Decoded(e, inode, now)[i] == Fields(e, inode, now)[i] <==> Fields(e, inode, now)[i] < 0x8000_0000
    {
      ToInt32Exactly(Fields(e, inode, now)[i]);
    }
  }

  // Where a file that is read ends, from the sizes in its header.
  lemma NextBound(bytes: Bytes, off: int)
    requires ReadFile(bytes, off).Ok? && ReadFile(bytes, off).value.file.Some?
    ensures var fields := FieldsAt(bytes, off + 6, 13);
      ReadFile(bytes, off).value.next < off + 110 + fields[PATH_SIZE] + fields[SIZE] + 17
  {
    hide FieldsAt, Octal6, TextAt, SubArray, KindOf, PermissionBits, TRAILER, Aligned;
  }

  lemma SectionIsLong(e: Entry, inode: nat, now: nat)
    requires HasContent(e) && Fits(e, inode, now)
    ensures |Section(e, inode, now)| >= 110 + Fields(e, inode, now)[PATH_SIZE] + Fields(e, inode, now)[SIZE]
  {
    HeaderLength(e, inode, now);
    SectionLength(e, inode, now);
    hide Section, HeaderText;
  }

  // A section is read as its entry, up to its end, exactly when its path and
  // its content are below 2^31 bytes. Beyond, the reader goes on before the end.
  lemma SectionReadExactly(bytes: Bytes, off: nat, e: Entry, inode: nat, now: nat)
    requires HasContent(e) && Fits(e, inode, now) && e.path != TRAILER
    requires off % 4 == 0 && HasAt(bytes, off, Section(e, inode, now))
    ensures ReadFile(bytes, off) == Ok(Step(Some(FileOf(e, inode, now)), off + |Section(e, inode, now)|))
       <==> SizeOf(e) < 0x8000_0000 && |e.path| + 1 < 0x8000_0000
  {
    if SizeOf(e) < 0x8000_0000 && |e.path| + 1 < 0x8000_0000 {
      assert Readable(e, inode, now) by {
        hide Fits;
      }
      hide *;
      SectionRead(bytes, off, e, inode, now);
    } else if ReadFile(bytes, off).Ok? && ReadFile(bytes, off).value.file.Some? {
      LargeSizes(bytes, off, e, inode, now);
      hide *;
      NextBound(bytes, off);
      SectionIsLong(e, inode, now);
    }
  }

  // The sizes and the mode of a section as they are read.
  lemma SizesRead(bytes: Bytes, off: nat, e: Entry, inode: nat, now: nat)
    requires HasContent(e) && Fits(e, inode, now) && off % 4 == 0 && HasAt(bytes, off, Section(e, inode, now))
    ensures Octal6(bytes, off) == 29121 && HasAt(bytes, off + 110, e.path)
    ensures var fields := FieldsAt(bytes, off + 6, 13);
      && fields[SIZE] == ToInt32(SizeOf(e)) && fields[PATH_SIZE] == ToInt32(|e.path| + 1)
      && fields[MODE] == ToInt32(PermissionsOf(e) + TypeOf(e))
  {
    hide Section, HeaderText, Octal6, FieldsAt, Payload, TRAILER, ToInt32, HexFields, SizeOf, PermissionsOf, TypeOf;
    PayloadRead(bytes, off, e, inode, now);
    HeaderRead(bytes, off, e, inode, now);
    var written := Fields(e, inode, now);
    assert written[SIZE] == SizeOf(e) && written[PATH_SIZE] == |e.path| + 1;
    assert written[MODE] == PermissionsOf(e) + TypeOf(e);
    hide Fields;
    assert forall i :: 0 <= i < 13 ==> FieldsAt(bytes, off + 6, 13)[i] == ToInt32(written[i]);
  }

  lemma ToInt32Is(n: nat)
    requires n < 0x1_0000_0000
    ensures ToInt32(n) == if n < 0x8000_0000 then n else n - 0x1_0000_0000
  {
  }

  lemma SizesFit(e: Entry, inode: nat, now: nat)
    requires HasContent(e) && Fits(e, inode, now)
    ensures Fields(e, inode, now)[SIZE] == SizeOf(e) < 0x1_0000_0000
    ensures Fields(e, inode, now)[PATH_SIZE] == |e.path| + 1 < 0x1_0000_0000
  {
    assert Fields(e, inode, now)[SIZE] < 0x1_0000_0000 && Fields(e, inode, now)[PATH_SIZE] < 0x1_0000_0000;
  }

  lemma LargeSizes(bytes: Bytes, off: nat, e: Entry, inode: nat, now: nat)
    requires HasContent(e) && Fits(e, inode, now) && off % 4 == 0 && HasAt(bytes, off, Section(e, inode, now))
    requires SizeOf(e) >= 0x8000_0000 || |e.path| + 1 >= 0x8000_0000
    ensures var fields, written := FieldsAt(bytes, off + 6, 13), Fields(e, inode, now);
      fields[PATH_SIZE] + fields[SIZE] + 0x1_0000_0000 <= written[PATH_SIZE] + written[SIZE]
  {
    hide *;
    SizesRead(bytes, off, e, inode, now);
    SizesFit(e, inode, now);
    ToInt32Is(SizeOf(e));
    ToInt32Is(|e.path| + 1);
  }

  // ---- Whether reading ends ----

  // Every header of the files read in these rounds has sizes that are not
  // negative, with room for the NUL of the path.
  predicate HeadersForward(bytes: Bytes, off: int, rounds: nat)
    decreases rounds
  {
    off >= |bytes| || rounds == 0 || ReadFile(bytes, off).Err? || ReadFile(bytes, off).value.file.None? ||
    (FieldsAt(bytes, off + 6, 13)[SIZE] >= 0 && FieldsAt(bytes, off + 6, 13)[PATH_SIZE] > 0 &&
     HeadersForward(bytes, ReadFile(bytes, off).value.next, rounds - 1))
  }

  lemma ForwardStep(bytes: Bytes, off: int)
    requires ReadFile(bytes, off).Ok? && ReadFile(bytes, off).value.file.Some?
    requires FieldsAt(bytes, off + 6, 13)[SIZE] >= 0 && FieldsAt(bytes, off + 6, 13)[PATH_SIZE] > 0
    ensures ReadFile(bytes, off).value.next > off
  {
    hide FieldsAt, Octal6, TextAt, SubArray, KindOf, PermissionBits, TRAILER, Aligned;
  }

  // Reading ends when no header has a negative size.
  lemma {:induction false} ReadingEnds(bytes: Bytes, off: int, files: seq<File>, rounds: nat)
    requires HeadersForward(bytes, off, rounds) && off + rounds >= |bytes|
    ensures ReadFiles(bytes, off, files, rounds).Some?
    decreases rounds
  {
    hide ReadFile, FieldsAt;
    if off < |bytes| && ReadFile(bytes, off).Ok? && ReadFile(bytes, off).value.file.Some? {
      var step := ReadFile(bytes, off).value;
      ForwardStep(bytes, off);
      ReadingEnds(bytes, step.next, files + [step.file.value], rounds - 1);
    }
  }

  lemma {:induction false} ReadingStays(bytes: Bytes, off: int, file: File, files: seq<File>, rounds: nat)
    requires off < |bytes| && ReadFile(bytes, off) == Ok(Step(Some(file), off))
    ensures ReadFiles(bytes, off, files, rounds) == None
    decreases rounds
  {
    hide ReadFile;
    if rounds > 0 {
      ReadFilesNext(bytes, off, file, off, files, rounds);
      ReadingStays(bytes, off, file, files + [file], rounds - 1);
    }
  }

  // Reading never ends on a regular file that fills up 2^32 bytes with its
  // header: its size leads back to where the section starts.
  lemma FullSectionNeverEnds(bytes: Bytes, off: nat, e: Entry, inode: nat, now: nat, files: seq<File>, rounds: nat)
    requires e.Regular? && HasContent(e) && Fits(e, inode, now) && e.path != TRAILER && |e.path| + 1 < 0x8000_0000
    requires off % 4 == 0 && HasAt(bytes, off, Section(e, inode, now))
    requires SizeOf(e) == 0x1_0000_0000 - Aligned(|HeaderText(e, inode, now)|) && SizeOf(e) >= 0x8000_0000
    ensures ReadFiles(bytes, off, files, rounds) == None
  {
    FullSectionStays(bytes, off, e, inode, now);
    hide *;
    ReadingStays(bytes, off, ReadFile(bytes, off).value.file.value, files, rounds);
  }

  lemma FullSectionStays(bytes: Bytes, off: nat, e: Entry, inode: nat, now: nat)
    requires e.Regular? && HasContent(e) && Fits(e, inode, now) && e.path != TRAILER && |e.path| + 1 < 0x8000_0000
    requires off % 4 == 0 && HasAt(bytes, off, Section(e, inode, now))
    requires SizeOf(e) == 0x1_0000_0000 - Aligned(|HeaderText(e, inode, now)|) && SizeOf(e) >= 0x8000_0000
    ensures off < |bytes| && ReadFile(bytes, off).Ok?
    ensures ReadFile(bytes, off).value.file.Some? && ReadFile(bytes, off).value.next == off
  {
    hide *;
    SizesRead(bytes, off, e, inode, now);
    SizesFit(e, inode, now);
    ToInt32Is(SizeOf(e));
    ToInt32Is(|e.path| + 1);
    RegularIsPlain(e);
    PathRead(bytes, off + 110, e.path);
    HeaderLength(e, inode, now);
    AlignedSum(off, |HeaderText(e, inode, now)|);
    PlainRead(bytes, off, e.path);
    AlignedStays(off);
  }

  lemma RegularIsPlain(e: Entry)
    requires e.Regular?
    ensures KindOf(ToInt32(PermissionsOf(e) + TypeOf(e))) != Link
  {
    ModeRead(e);
  }

  lemma PathRead(bytes: Bytes, off: nat, path: Bytes)
    requires HasAt(bytes, off, path)
    ensures TextAt(bytes, off, |path|) == Ok(path) && off <= |bytes|
  {
  }

  lemma AlignedStays(off: int)
    requires off % 4 == 0
    ensures Aligned(off) == off
  {
  }

  // Reading a file that is not a link.
  lemma PlainRead(bytes: Bytes, off: int, path: Bytes)
    requires Octal6(bytes, off) == 29121 && path != TRAILER
    requires TextAt(bytes, off + 110, FieldsAt(bytes, off + 6, 13)[PATH_SIZE] - 1) == Ok(path)
    requires KindOf(FieldsAt(bytes, off + 6, 13)[MODE]) != Link
    ensures ReadFile(bytes, off).Ok? && ReadFile(bytes, off).value.file.Some?
    ensures var fields := FieldsAt(bytes, off + 6, 13);
      ReadFile(bytes, off).value.next == Aligned(Aligned(off + 110 + fields[PATH_SIZE]) + fields[SIZE])
  {
    hide FieldsAt, Octal6, TextAt, SubArray, KindOf, PermissionBits, TRAILER, Aligned;
  }

  // Reading an archive comes to an end: to all its files, to an error, or to a
  // text that lies outside it.
  ghost predicate Ends(bytes: Bytes)
  {
    exists rounds: nat :: ReadFiles(bytes, 0, [], rounds).Some?
  }

  // An archive without room for a header ends in its first round.
  lemma ShortArchiveEnds(bytes: Bytes)
    requires |bytes| < 110
    ensures Ends(bytes)
  {
    hide Octal6, FieldsAt, KindOf, PermissionBits, ReadBody, TRAILER;
    assert ReadFiles(bytes, 0, [], 1).Some?;
  }

  const RETURNING: seq<nat> := [0, 0, 0, 0, 0, 0, 0x1_0000_0000 - 112, 0, 0, 0, 0, 1, 0]

  // A header whose size, -112, leads from behind it to its start, and zeros.
  function ReturningArchive(size: nat): Bytes
    requires size >= 110
  {
    ID_TEXT + HexFields(RETURNING) + seq(size - 110, _ => 0)
  }

  lemma ReturningFields(size: nat)
    requires size >= 110
    ensures |ReturningArchive(size)| == size && Octal6(ReturningArchive(size), 0) == 29121
    ensures var fields := FieldsAt(ReturningArchive(size), 6, 13);
      fields[SIZE] == -112 && fields[PATH_SIZE] == 1 && fields[MODE] == 0
  {
    var bytes := ReturningArchive(size);
    hide HexFields, FieldsAt, Octal6, ToInt32;
    HexFieldsRead(bytes, 6, RETURNING);
    assert bytes[0..6] == ID_TEXT && bytes[6..110] == HexFields(RETURNING);
    IdRead(bytes, 0);
    ToInt32Is(0x1_0000_0000 - 112);
    ToInt32Is(0);
    ToInt32Is(1);
  }

  lemma ReturningNeverEnds(size: nat)
    requires size >= 110
    ensures |ReturningArchive(size)| == size && !Ends(ReturningArchive(size))
  {
    var bytes := ReturningArchive(size);
    ReturningFields(size);
    assert TextAt(bytes, 110, 0) == Ok([]) && TRAILER != [] && KindOf(0) != Link;
    assert Aligned(111) == 112 && Aligned(0) == 0;
    hide *;
    PlainRead(bytes, 0, []);
    forall rounds: nat ensures ReadFiles(bytes, 0, [], rounds) == None {
      ReadingStays(bytes, 0, ReadFile(bytes, 0).value.file.value, [], rounds);
    }
    NeverMeansNot(bytes);
  }

  lemma NeverMeansNot(bytes: Bytes)
    requires forall rounds: nat :: ReadFiles(bytes, 0, [], rounds) == None
    ensures !Ends(bytes)
  {
    hide ReadFiles;
  }

  // All archives of a length are read to an end exactly when there is no room
  // for a header in it.
  lemma ReadingEndsExactly(size: nat)
    ensures (forall bytes: Bytes :: |bytes| == size ==> Ends(bytes)) <==> size < 110
  {
    hide *;
    if size < 110 {
      forall bytes: Bytes | |bytes| == size ensures Ends(bytes) {
        ShortArchiveEnds(bytes);
      }
    } else {
      ReturningNeverEnds(size);
    }
  }
}
