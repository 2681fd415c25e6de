// What a file read back from an archive says of the entry it was written for,
// bit by bit and number by number.
module CpioContents {
  import opened Prelude
  import opened ByteText
  import opened Cpio
  import opened CpioTheorems

  predicate IsText(bytes: Bytes, text: string)
  {
    |bytes| == |text| && forall i :: 0 <= i < |text| ==> bytes[i] == text[i] as int
  }

  // ---- One file ----

  predicate HasBit(n: int, bit: nat)
    requires bit > 0
  {
    n / bit % 2 == 1
  }

  predicate Executable(e: Entry)
  {
    ((e.Regular? || e.Symlink?) && e.exe) || e.Directory?
  }

  // Everyone may read and the owner may write what has a type. The group may
  // write what is executable, and character devices; only what is executable
  // can be executed, or searched, by anyone, and then by all.
  predicate PermissionsReflect(e: Entry, permissions: int)
  {
    && 0 <= permissions < 512
    && (HasBit(permissions, 256) <==> !e.Untyped?) // the owner: read, write, execute
    && (HasBit(permissions, 128) <==> !e.Untyped?)
    && (HasBit(permissions, 64) <==> Executable(e))
    && (HasBit(permissions, 32) <==> !e.Untyped?) // the group
    && (HasBit(permissions, 16) <==> Executable(e) || e.CharacterDevice?)
    && (HasBit(permissions, 8) <==> Executable(e))
    && (HasBit(permissions, 4) <==> !e.Untyped?) // others
    && !HasBit(permissions, 2)
    && (HasBit(permissions, 1) <==> Executable(e))
  }

  // The kind, and the digit above the permissions in the mode.
  predicate KindReflects(e: Entry, kind: Kind, digit: int)
  {
    match e
    case Regular(_, _, _) => kind == Plain && digit == 8
    case Directory(_) => kind == Folder && digit == 4
    case Symlink(_, _, _) => kind == Link && digit == 10
    case BlockDevice(_, _, _) => kind == Block && digit == 6
    case CharacterDevice(_, _, _) => kind == Character && digit == 2
    case Untyped(_) => kind == Plain && digit == 8
  }

  predicate BodyReflects(e: Entry, size: int, body: Body)
  {
    match e
    case Regular(_, _, content) => content.Some? && size == |content.value| && body == Data(content.value)
    case Symlink(_, _, target) => size == |target| && body == Source(target)
    case _ => size == 0 && body == Data([])
  }

  // A number below 2^32 as a signed 32-bit integer.
  function Signed(n: nat): int
  {
    if n < 0x8000_0000 then n else n - 0x1_0000_0000
  }

  // The file is the k-th entry, counted from 0, written at this time.
  predicate Reflects(e: Entry, k: nat, now: nat, f: File)
  {
    && f.id == 29121 && f.path == e.path && |f.fields| == 13
    && f.fields[0] == Signed(k + 1) // the inode
    && f.fields[1] == 4096 * (f.fields[1] / 4096) + f.permissions
    && KindReflects(e, f.kind, f.fields[1] / 4096) && PermissionsReflect(e, f.permissions)
    && f.fields[2] == f.fields[3] == f.fields[4] == 0 // the user, the group, the links
    && f.fields[5] == 1000 * Signed(now)
    && BodyReflects(e, f.fields[6], f.body)
    && f.fields[7] == 8 && f.fields[8] == 1 // the device of the file
    && f.fields[9] == (if e.BlockDevice? || e.CharacterDevice? then Signed(e.major) else 0)
    && f.fields[10] == (if e.BlockDevice? || e.CharacterDevice? then Signed(e.minor) else 0)
    && f.fields[11] == |e.path| + 1 && f.fields[12] == 0
  }

  lemma PermissionsHold(e: Entry)
    ensures PermissionsReflect(e, PermissionsOf(e))
    ensures KindReflects(e, KindOfEntry(e), TypeOf(e) / 4096)
    ensures TypeOf(e) % 4096 == 0
  {
  }

  lemma NumbersHold(e: Entry, inode: nat, now: nat)
    requires HasContent(e) && Readable(e, inode, now)
    ensures var d := Decoded(e, inode, now);
      && d[0] == Signed(inode) && d[1] == PermissionsOf(e) + TypeOf(e)
      && d[2] == d[3] == d[4] == 0 && d[5] == Signed(now) && d[6] == SizeOf(e) && d[7] == 8 && d[8] == 1
      && d[9] == Signed(Device(e).0) && d[10] == Signed(Device(e).1) && d[11] == |e.path| + 1 && d[12] == 0
  {
    var fields := Fields(e, inode, now);
    KeyFields(e, inode, now);
    ModeRead(e);
    hide PermissionsOf, TypeOf, Device, SizeOf, ToInt32;
    forall i | 0 <= i < 13 ensures Decoded(e, inode, now)[i] == Signed(fields[i]) {
      ToInt32Is(fields[i]);
    }
  }

  lemma FileReflects(e: Entry, k: nat, now: nat)
    requires HasContent(e) && Readable(e, k + 1, now)
    ensures Reflects(e, k, now, FileOf(e, k + 1, now))
  {
    NumbersHold(e, k + 1, now);
    PermissionsHold(e);
    hide PermissionsReflect, KindReflects, PermissionsOf, TypeOf, Decoded, KindOfEntry;
    assert (PermissionsOf(e) + TypeOf(e)) / 4096 == TypeOf(e) / 4096;
  }

  // ---- Whole archives ----

  lemma {:induction false} FilesReflect(entries: seq<Entry>, all: seq<Entry>, k: nat, now: nat)
    requires k <= |all| && entries == all[k..] && (forall e :: e in all ==> HasContent(e))
    requires AllReadable(all, 1, now)
    ensures var files := FilesOf(entries, k + 1, now);
      && |files| <= |entries| && (|files| < |entries| ==> entries[|files|].path == TRAILER)
      && forall i :: 0 <= i < |files| ==> entries[i].path != TRAILER && Reflects(entries[i], k + i, now, files[i])
    decreases |entries|
  {
    hide Reflects, FileOf, Readable;
    if entries != [] && entries[0].path != TRAILER {
      assert entries[0] == all[k] && Readable(all[k], k + 1, now);
      FileReflects(entries[0], k, now);
      FilesReflect(entries[1..], all, k + 1, now);
      var files, rest := FilesOf(entries, k + 1, now), FilesOf(entries[1..], k + 2, now);
      forall i | 0 <= i < |files| ensures entries[i].path != TRAILER && Reflects(entries[i], k + i, now, files[i]) {
        assert i > 0 ==> files[i] == rest[i - 1] && entries[i] == entries[1..][i - 1];
      }
    }
  }

  lemma TrailerText(path: Bytes)
    ensures path == TRAILER <==> IsText(path, "TRAILER!!!")
  {
    if IsText(path, "TRAILER!!!") {
      assert forall i :: 0 <= i < 10 ==> path[i] == TRAILER[i];
    }
  }

  // A file for every entry up to the first that is called like the trailer,
  // each with all that was archived of it.
  predicate Restores(entries: seq<Entry>, now: nat, files: seq<File>)
  {
    && |files| <= |entries|
    && (|files| < |entries| ==> IsText(entries[|files|].path, "TRAILER!!!"))
    && forall k :: 0 <= k < |files| ==>
         !IsText(entries[k].path, "TRAILER!!!") && Reflects(entries[k], k, now, files[k])
  }

  lemma FilesRestore(entries: seq<Entry>, now: nat)
    requires (forall e :: e in entries ==> HasContent(e)) && AllReadable(entries, 1, now)
    ensures Restores(entries, now, FilesOf(entries, 1, now))
  {
    assert entries[0..] == entries;
    FilesReflect(entries, entries, 0, now);
    hide IsText, Reflects, FilesOf, TRAILER, HasContent, AllReadable;
    forall k | 0 <= k < |entries| ensures entries[k].path == TRAILER <==> IsText(entries[k].path, "TRAILER!!!") {
      TrailerText(entries[k].path);
    }
  }

  // Reading an archive restores its entries.
  lemma ArchiveContents(entries: seq<Entry>, now: nat, rounds: nat)
    requires forall e :: e in entries ==> HasContent(e)
    requires AllReadable(entries, 1, now) && Readable(Untyped(TRAILER), |entries| + 1, now)
    requires rounds > |entries|
    ensures var r := ReadFiles(Archive(entries, now), 0, [], rounds);
      r.Some? && r.value.Ok? && Restores(entries, now, r.value.value)
  {
    RoundTrip(entries, now, rounds);
    FilesRestore(entries, now);
    hide *;
  }

  // ---- Digits ----

  // A number is written in lower-case digits; both cases are read, and no other
  // byte is a digit.
  lemma DigitsExactly(d: nat, b: Byte)
    requires d < 16
    ensures Digit(d) == "0123456789abcdef"[d] as int
    ensures HexDigit(b) == d <==> b == "0123456789abcdef"[d] as int || b == "0123456789ABCDEF"[d] as int
    ensures HexDigit(b) == -1 <==>
      forall i :: 0 <= i < 16 ==> b != "0123456789abcdef"[i] as int && b != "0123456789ABCDEF"[i] as int
  {
    assert "0123456789abcdef"[d] as int == if d < 10 then 48 + d else 87 + d;
    assert "0123456789ABCDEF"[d] as int == if d < 10 then 48 + d else 55 + d;
    var e := HexDigit(b);
    if e >= 0 {
      assert "0123456789abcdef"[e] as int == if e < 10 then 48 + e else 87 + e;
      assert "0123456789ABCDEF"[e] as int == if e < 10 then 48 + e else 55 + e;
    }
  }

  // The kinds of files by the digit above the permissions, and the nine bits
  // below it.
  lemma ModeExactly(mode: int)
    ensures 0 <= PermissionBits(mode) < 512 && (mode - PermissionBits(mode)) % 512 == 0
    ensures var digit := mode / 4096 % 16;
      && (KindOf(mode) == Pipe <==> digit == 1) && (KindOf(mode) == Character <==> digit == 2)
      && (KindOf(mode) == Folder <==> digit == 4) && (KindOf(mode) == Block <==> digit == 6)
      && (KindOf(mode) == Plain <==> digit == 8) && (KindOf(mode) == Link <==> digit == 10)
      && (KindOf(mode) == Socket <==> digit == 12)
  {
  }

  // ---- The id ----

  predicate IsOctal(b: Byte)
  {
    48 <= b < 56
  }

  // Six octal digits are taken for the start of a file exactly when they are
  // 070701 or 070702.
  lemma IdExactly(bytes: Bytes, off: nat)
    requires off + 6 <= |bytes| && forall i :: off <= i < off + 6 ==> IsOctal(bytes[i])
    ensures ReadFile(bytes, off) != Err(UnrecognizedId) <==>
            IsText(bytes[off..off + 6], "070701") || IsText(bytes[off..off + 6], "070702")
  {
    IdRecognized(bytes, off);
    IdIsText(bytes, off);
    hide *;
  }

  lemma IdRecognized(bytes: Bytes, off: int)
    ensures ReadFile(bytes, off) != Err(UnrecognizedId) <==> Octal6(bytes, off) == 29121 || Octal6(bytes, off) == 29122
  {
    hide Octal6, FieldsAt, SubArray, KindOf, PermissionBits, TRAILER, Aligned;
  }

  lemma IdIsText(bytes: Bytes, off: nat)
    requires off + 6 <= |bytes| && forall i :: off <= i < off + 6 ==> IsOctal(bytes[i])
    ensures Octal6(bytes, off) == 29121 || Octal6(bytes, off) == 29122 <==>
            IsText(bytes[off..off + 6], "070701") || IsText(bytes[off..off + 6], "070702")
  {
    OctalDigit(bytes, off);
    OctalDigit(bytes, off + 1);
    OctalDigit(bytes, off + 2);
    OctalDigit(bytes, off + 3);
    OctalDigit(bytes, off + 4);
    OctalDigit(bytes, off + 5);
    OctalParts(bytes, off);
    var text := bytes[off..off + 6];
    SixBytes(text);
    hide *;
    IdDigits(OctalTerm(bytes, off), OctalTerm(bytes, off + 1), OctalTerm(bytes, off + 2),
             OctalTerm(bytes, off + 3), OctalTerm(bytes, off + 4), OctalTerm(bytes, off + 5));
  }

  lemma OctalParts(bytes: Bytes, off: int)
    ensures Octal6(bytes, off) == IdOf(OctalTerm(bytes, off), OctalTerm(bytes, off + 1), OctalTerm(bytes, off + 2),
                                       OctalTerm(bytes, off + 3), OctalTerm(bytes, off + 4), OctalTerm(bytes, off + 5))
  {
    hide OctalTerm;
  }

  function IdOf(a: bv32, b: bv32, c: bv32, d: bv32, e: bv32, f: bv32): bv32
  {
    (a << 15) | (b << 12) | (c << 9) | (d << 6) | (e << 3) | f
  }

  lemma SixBytes(text: Bytes)
    requires |text| == 6
    ensures IsText(text, "070701") || IsText(text, "070702") <==>
      text[0] == 48 && text[1] == 55 && text[2] == 48 && text[3] == 55 && text[4] == 48 && text[5] in {49, 50}
  {
    if text[0] == 48 && text[1] == 55 && text[2] == 48 && text[3] == 55 && text[4] == 48 && text[5] in {49, 50} {
      var id := if text[5] == 49 then "070701" else "070702";
      assert forall i :: 0 <= i < 6 ==> text[i] == id[i] as int;
    }
  }

  lemma OctalDigit(bytes: Bytes, i: nat)
    requires i < |bytes| && IsOctal(bytes[i])
    ensures var d := OctalTerm(bytes, i);
      d < 8 && (d == 0 <==> bytes[i] == 48) && (d == 1 <==> bytes[i] == 49) && (d == 2 <==> bytes[i] == 50) &&
      (d == 7 <==> bytes[i] == 55)
  {
  }

  lemma IdDigits(a: bv32, b: bv32, c: bv32, d: bv32, e: bv32, f: bv32)
    requires a < 8 && b < 8 && c < 8 && d < 8 && e < 8 && f < 8
    ensures var id := IdOf(a, b, c, d, e, f);
      id == 29121 || id == 29122 <==> a == 0 && b == 7 && c == 0 && d == 7 && e == 0 && (f == 1 || f == 2)
  {
    var id := IdOf(a, b, c, d, e, f);
    HighDigits(a, b, c, d, e, f);
    LowDigits(a, b, c, d, e, f);
    if a == 0 && b == 7 && c == 0 && d == 7 && e == 0 {
      assert f == 1 ==> id == 29121;
      assert f == 2 ==> id == 29122;
    }
    hide IdOf;
  }

  lemma HighDigits(a: bv32, b: bv32, c: bv32, d: bv32, e: bv32, f: bv32)
    requires a < 8 && b < 8 && c < 8 && d < 8 && e < 8 && f < 8
    ensures var id := IdOf(a, b, c, d, e, f);
      (id >> 15) & 7 == a && (id >> 12) & 7 == b && (id >> 9) & 7 == c
  {
  }

  lemma LowDigits(a: bv32, b: bv32, c: bv32, d: bv32, e: bv32, f: bv32)
    requires a < 8 && b < 8 && c < 8 && d < 8 && e < 8 && f < 8
    ensures var id := IdOf(a, b, c, d, e, f);
      (id >> 6) & 7 == d && (id >> 3) & 7 == e && id & 7 == f
  {
  }

  // Other bytes are not refused as such: 068701 is taken too, because the 8 is
  // carried into the digit before it.
  lemma OtherIdTaken(bytes: Bytes, off: nat)
    requires off + 6 <= |bytes| && IsText(bytes[off..off + 6], "068701")
    ensures ReadFile(bytes, off) != Err(UnrecognizedId)
  {
    IdRecognized(bytes, off);
    var text, id := bytes[off..off + 6], "068701";
    assert text[0] == 48 && text[1] == 54 && text[2] == 56 && text[3] == 55 && text[4] == 48 && text[5] == 49 by {
      assert forall i :: 0 <= i < 6 ==> text[i] == id[i] as int;
    }
    OtherDigit(bytes, off);
    OtherDigit(bytes, off + 1);
    OtherDigit(bytes, off + 2);
    OtherDigit(bytes, off + 3);
    OtherDigit(bytes, off + 4);
    OtherDigit(bytes, off + 5);
    OctalParts(bytes, off);
    hide OctalTerm, Octal6, ReadFile, IsText;
    CarriedDigit();
  }

  lemma OtherDigit(bytes: Bytes, i: nat)
    requires i < |bytes|
    ensures bytes[i] == 48 ==> OctalTerm(bytes, i) == 0
    ensures bytes[i] == 49 ==> OctalTerm(bytes, i) == 1
    ensures bytes[i] == 54 ==> OctalTerm(bytes, i) == 6
    ensures bytes[i] == 55 ==> OctalTerm(bytes, i) == 7
    ensures bytes[i] == 56 ==> OctalTerm(bytes, i) == 8
  {
  }

  lemma CarriedDigit()
    ensures IdOf(0, 6, 8, 7, 0, 1) == 29121
  {
  }

  // The remainder of a negative number is negative, so that below zero the
  // reader aligns to the multiple of four after the next one.
  lemma AlignedExactly(off: int)
    ensures off % 4 == 0 ==> Aligned(off) == off
    ensures off >= 0 ==> off <= Aligned(off) < off + 4 && Aligned(off) % 4 == 0
    ensures off < 0 && off % 4 != 0 ==> off + 4 < Aligned(off) < off + 8 && Aligned(off) % 4 == 0
  {
  }

  // ---- Texts and views ----

  // A text is refused exactly when it would end beyond the archive. Inside, it
  // has its size; with a negative size it goes on to the next NUL, if there is one.
  lemma TextExactly(bytes: Bytes, start: nat, size: int)
    requires start <= |bytes| && size >= -0x8000_0000
    ensures TextAt(bytes, start, size) == Err(OutOfBounds) <==> start + size > |bytes|
    ensures 0 <= size <= |bytes| - start ==> TextAt(bytes, start, size) == Ok(bytes[start..start + size])
    ensures size < 0 ==> (TextAt(bytes, start, size).Ok? <==> 0 in bytes[start..])
    ensures size < 0 && TextAt(bytes, start, size).Ok? ==>
      var text := TextAt(bytes, start, size).value;
      0 !in text && text + [0] <= bytes[start..]
  {
    assert size == 0 ==> bytes[start..start + size] == [];
    if size < 0 {
      var nul := FirstNul(bytes, start);
      if nul.Some? {
        var text, rest := bytes[start..nul.value], bytes[start..];
        assert rest[|text|] == 0;
        assert rest[..|text| + 1] == text + [0];
      }
    }
  }

  // A view starts and ends where it is asked to, counted from the end of the
  // archive below zero, and is cut to what there is.
  lemma ViewExactly(bytes: Bytes, start: int, end: int)
    ensures 0 <= start <= end <= |bytes| ==> SubArray(bytes, start, end) == bytes[start..end]
    ensures -|bytes| <= start < 0 ==> SubArray(bytes, start, end) == SubArray(bytes, |bytes| + start, end)
    ensures -|bytes| <= end < 0 ==> SubArray(bytes, start, end) == SubArray(bytes, start, |bytes| + end)
    ensures start < -|bytes| ==> SubArray(bytes, start, end) == SubArray(bytes, 0, end)
    ensures end < -|bytes| ==> SubArray(bytes, start, end) == []
    ensures end > |bytes| ==> SubArray(bytes, start, end) == SubArray(bytes, start, |bytes|)
    ensures start >= |bytes| || 0 <= end <= start ==> SubArray(bytes, start, end) == []
  {
  }

  // A header number beyond the archive is 0, and one that ends in a byte that is
  // no digit is -1.
  lemma {:induction false} NoDigits(bytes: Bytes, off: int, n: nat)
    requires off >= |bytes|
    ensures DigitsAt(bytes, off, n) == 0
  {
    if n > 0 {
      NoDigits(bytes, off, n - 1);
    }
  }

  lemma OddNumbers(bytes: Bytes, off: nat)
    ensures off >= |bytes| ==> Hex8(bytes, off) == 0
    ensures off + 8 <= |bytes| && HexDigit(bytes[off + 7]) == -1 ==> Hex8(bytes, off) == -1
  {
    hide ToInt32, HexDigit;
    assert ToInt32(0) == 0 && ToInt32(-1) == -1 by {
      ToInt32Is(0);
      MinusOne();
    }
    if off >= |bytes| {
      NoDigits(bytes, off, 8);
    }
  }

  lemma MinusOne()
    ensures ToInt32(-1) == -1
  {
  }

  // ---- Padding ----

  // What is neither header nor content is zero.
  lemma PaddingIsZero(e: Entry, inode: nat, now: nat, i: nat)
    requires HasContent(e) && i < |Section(e, inode, now)|
    requires var text := HeaderText(e, inode, now);
      |text| <= i < Aligned(|text|) || i >= Aligned(|text|) + |Payload(e)|
    ensures Section(e, inode, now)[i] == 0
  {
    hide HeaderText, Payload, Aligned;
  }
}
