// The reader and writer of lib/cpio.js as they run: a cursor that every read
// advances, and a buffer that every section fills.
module CpioStreams {
  import opened Prelude
  import opened ByteText
  import opened Cpio
  import opened CpioTheorems

  // ---- parse_cpio ----

  class Reader {
    const bytes: Bytes
    var off: int

    constructor (bytes: Bytes)
      ensures this.bytes == bytes && off == 0
    {
      this.bytes := bytes;
      off := 0;
    }

    method ReadOctal6() returns (n: bv32)
      modifies this
      ensures off == old(off) + 6 && n == Octal6(bytes, old(off))
    {
      hide Octal6;
      off := off + 6;
      n := Octal6(bytes, off - 6);
    }

    method ReadHex8() returns (n: int)
      modifies this
      ensures off == old(off) + 8 && n == Hex8(bytes, old(off))
    {
      off := off + 8;
      n := Hex8(bytes, off - 8);
    }

    // A string of some bytes and the NUL after it.
    method ReadString(size: int) returns (text: Result<Bytes, ParseError>)
      modifies this
      ensures off == old(off) + size + 1 && text == TextAt(bytes, old(off), size)
    {
      off := off + size + 1;
      text := TextAt(bytes, off - size - 1, size);
    }

    method Align()
      modifies this
      ensures off == Aligned(old(off))
    {
      var over := Remainder4(off);
      if over == 0 {
        return;
      }
      off := off + 4 - over;
    }

    method ReadBuffer(size: int) returns (view: Bytes)
      modifies this
      ensures off == old(off) + size && view == SubArray(bytes, old(off), old(off) + size)
    {
      off := off + size;
      view := SubArray(bytes, off - size, off);
    }

    method ReadFields() returns (fields: seq<int>)
      modifies this
      ensures off == old(off) + 104 && fields == FieldsAt(bytes, old(off), 13)
    {
      fields := [];
      for i := 0 to 13
        invariant off == old(off) + 8 * i && fields == FieldsAt(bytes, old(off), i)
      {
        var n := ReadHex8();
        fields := fields + [n];
      }
    }

    method ReadNext() returns (r: Result<Option<File>, ParseError>)
      modifies this
      ensures var next := ReadFile(bytes, old(off));
        && (next.Err? ==> r == Err(next.error))
        && (next.Ok? ==> r == Ok(next.value.file) && off == next.value.next)
    {
      hide FieldsAt, Octal6, KindOf, PermissionBits, TRAILER, Aligned, TextAt, SubArray;
      var id := ReadOctal6();
      if id != 29121 && id != 29122 {
        return Err(UnrecognizedId);
      }
      var fields := ReadFields();
      var path := ReadString(fields[PATH_SIZE] - 1);
      if path.Err? {
        return Err(path.error);
      }
      if path.value == TRAILER {
        return Ok(None);
      }
      Align();
      var kind, permissions := KindOf(fields[MODE]), PermissionBits(fields[MODE]);
      var body: Body;
      if kind == Link {
        var target := ReadString(fields[SIZE]);
        if target.Err? {
          return Err(target.error);
        }
        body := Source(target.value);
      } else {
        var view := ReadBuffer(fields[SIZE]);
        body := Data(view);
      }
      Align();
      return Ok(Some(File(id, fields[MOD := fields[MOD] * 1000], path.value, kind, permissions, body)));
    }
  }

  // The reading loop, for at most this many rounds: None is a reader that has
  // not finished by then.
  method ParseCpio(bytes: Bytes, rounds: nat) returns (r: Option<Result<seq<File>, ParseError>>)
    ensures r == ReadFiles(bytes, 0, [], rounds)
  {
    hide ReadFile;
    var reader := new Reader(bytes);
    var files: seq<File> := [];
    var left := rounds;
    while reader.off < |bytes|
      invariant reader.bytes == bytes
      invariant ReadFiles(bytes, reader.off, files, left) == ReadFiles(bytes, 0, [], rounds)
      decreases left
    {
      if left == 0 {
        return None;
      }
      left := left - 1;
      var next := reader.ReadNext();
      if next.Err? {
        return Some(Err(next.error));
      }
      if next.value.None? {
        break;
      }
      files := files + [next.value.value];
    }
    return Some(Ok(files));
  }

  // ---- build_cpio ----

  class Writer {
    var off: nat
    var nextInode: nat

    constructor ()
      ensures off == 0 && nextInode == 1
    {
      off, nextInode := 0, 1;
    }

    method Number(n: nat, radix: nat, width: nat) returns (text: Bytes)
      requires 2 <= radix <= 16
      modifies `off
      ensures text == PadStart(ToText(n, radix), width) && off == old(off) + width
    {
      text := PadStart(ToText(n, radix), width);
      off := off + width;
    }

    method Align()
      modifies `off
      ensures off == Aligned(old(off))
    {
      var over := off % 4;
      if over == 0 {
        return;
      }
      off := off + 4 - over;
    }

    method FieldsText(fields: seq<nat>) returns (text: Bytes)
      modifies `off
      ensures text == HexFields(fields) && off == old(off) + 8 * |fields|
    {
      text := [];
      for i := 0 to |fields|
        invariant text == HexFields(fields[..i]) && off == old(off) + 8 * i
      {
        var number := Number(fields[i], 16, 8);
        assert fields[..i + 1][..i] == fields[..i];
        text := text + number;
      }
      assert fields[..|fields|] == fields;
    }

    // A zeroed buffer of the length added up so far, with the text at its start
    // and the payload after it at a multiple of four.
    method Fill(text: Bytes, payload: Bytes) returns (dest: array<Byte>)
      requires off == Aligned(Aligned(|text|) + |payload|)
      modifies `off
      ensures fresh(dest) && dest[..] == text + Filler(|text|) + payload + Filler(|payload|)
    {
      dest := new Byte[off](_ => 0);
      forall i | 0 <= i < |text| {
        dest[i] := text[i];
      }
      off := |text|;
      Align();
      forall i | 0 <= i < |payload| {
        dest[off + i] := payload[i];
      }
      FillerAfter(off, |payload|);
      Pieces(text, payload, dest[..], off);
    }

    // One section: the offset adds up its length before the buffer is filled.
    method CreateEntry(e: Entry, now: nat) returns (dest: array<Byte>)
      requires HasContent(e) && Fits(e, nextInode, now)
      modifies this
      ensures nextInode == old(nextInode) + 1
      ensures fresh(dest) && dest[..] == Section(e, old(nextInode), now)
    {
      hide Fields, HexFields, ToText, PadStart, Fits, Payload;
      off := 0;
      var id := Number(29121, 8, 6);
      var inode := nextInode;
      nextInode := nextInode + 1;
      HeaderLength(e, inode, now);
      var fields := FieldsText(Fields(e, inode, now));
      off := off + |e.path| + 1;
      Align();
      var payload := Payload(e);
      off := off + |payload|;
      Align();
      dest := Fill(id + fields + e.path + [0], payload);
    }

    // The sections of the entries and of the trailer, or an error when a
    // regular file has no content.
    method Build(entries: seq<Entry>, now: nat) returns (r: Result<seq<Bytes>, nat>)
      requires nextInode == 1
      requires forall i :: 0 <= i < |entries| && HasContent(entries[i]) ==> Fits(entries[i], i + 1, now)
      requires Fits(Untyped(TRAILER), |entries| + 1, now)
      modifies this
      ensures r.Ok? <==> forall i :: 0 <= i < |entries| ==> HasContent(entries[i])
      ensures r.Ok? ==> |r.value| == |entries| + 1
      ensures r.Ok? ==> (forall e :: e in entries ==> HasContent(e)) && Flatten(r.value) == Archive(entries, now)
      ensures r.Err? ==> r.error < |entries| && !HasContent(entries[r.error])
    {
      hide Section, HasContent, Fits, TRAILER;
      var sections: seq<Bytes> := [];
      for i := 0 to |entries|
        invariant nextInode == i + 1 && |sections| == i
        invariant forall j :: 0 <= j < i ==> HasContent(entries[j])
        invariant Flatten(sections) == Sections(entries[..i], 1, now)
      {
        if !HasContent(entries[i]) {
          return Err(i);
        }
        var section := CreateEntry(entries[i], now);
        sections := sections + [section[..]];
        assert entries[..i + 1] == entries[..i] + [entries[i]];
        SectionsSnoc(entries[..i], entries[i], 1, now);
        assert sections[..|sections| - 1] + [sections[|sections| - 1]] == sections;
      }
      assert entries[..|entries|] == entries;
      TrailerHasContent();
      var section := CreateEntry(Untyped(TRAILER), now);
      SectionsSnoc(entries, Untyped(TRAILER), 1, now);
      return Ok(sections + [section[..]]);
    }
  }

  lemma FillerAfter(start: nat, n: nat)
    requires start % 4 == 0
    ensures Filler(n) == seq(Aligned(start + n) - start - n, _ => 0)
  {
    AlignedSum(start, n);
    hide Aligned;
  }

  lemma Pieces(text: Bytes, payload: Bytes, dest: Bytes, start: nat)
    requires |text| <= start && start + |payload| <= |dest|
    requires forall i :: 0 <= i < |text| ==> dest[i] == text[i]
    requires forall i :: 0 <= i < |payload| ==> dest[start + i] == payload[i]
    requires forall i :: |text| <= i < |dest| && !(start <= i < start + |payload|) ==> dest[i] == 0
    ensures dest ==
      text + seq(start - |text|, _ => 0) + payload + seq(|dest| - start - |payload|, _ => 0)
  {
    var end := start + |payload|;
    assert dest[..|text|] == text;
    assert dest[|text|..start] == seq(start - |text|, _ => 0);
    assert dest[start..end] == payload;
    assert dest[end..] == seq(|dest| - end, _ => 0);
    assert dest[..|text|] + dest[|text|..start] == dest[..start];
    assert dest[..start] + dest[start..end] == dest[..end];
  }

  lemma TrailerHasContent()
    ensures HasContent(Untyped(TRAILER))
  {
  }

  lemma {:induction false} SectionsSnoc(entries: seq<Entry>, e: Entry, inode: nat, now: nat)
    requires forall i :: 0 <= i < |entries| ==> HasContent(entries[i])
    requires HasContent(e)
    ensures Sections(entries + [e], inode, now) == Sections(entries, inode, now) + Section(e, inode + |entries|, now)
  {
    hide Section, HasContent;
    if entries == [] {
      assert entries + [e] == [e];
    } else {
      assert (entries + [e])[1..] == entries[1..] + [e];
      SectionsSnoc(entries[1..], e, inode + 1, now);
    }
  }
}
