// The extractor of lib/untar.js: it walks a tar archive in blocks of 512 bytes.
// The system calls are logged and succeed.
module Untar {
  import opened Prelude
  import opened ByteText

  const BLOCK: nat := 512
  const NAME_MAX: nat := 255

  // ---- Fields ----

  predicate IsOctal(b: Byte)
  {
    48 <= b <= 55
  }

  // The text from its first octal digit on.
  function FromDigit(text: Bytes): Bytes
  {
    if text == [] || IsOctal(text[0]) then text else FromDigit(text[1..])
  }

  // The number read so far, continued by the digits at the front of the text.
  function Digits(n: nat, text: Bytes): nat
    decreases |text|
  {
    if text == [] || !IsOctal(text[0]) then n else Digits(n * 8 + text[0] - 48, text[1..])
  }

  function Octal(text: Bytes): nat
  {
    Digits(0, FromDigit(text))
  }

  // The source looks at the byte before the length; one past the end of the
  // buffer ends both loops there.
  method GetOctal(bytes: Bytes, start: nat, size: nat) returns (i: nat)
    requires start + size <= |bytes|
    ensures i == Octal(bytes[start..start + size])
  {
    var off: nat, len: nat := start, size;
    i := 0;
    ghost var text := bytes[start..start + size];
    while len > 0 && !IsOctal(bytes[off])
      invariant start <= off <= start + size && off + len == start + size
      invariant FromDigit(text) == FromDigit(bytes[off..start + size])
    {
      assert bytes[off..start + size][1..] == bytes[off + 1..start + size];
      len, off := len - 1, off + 1;
    }
    assert FromDigit(text) == bytes[off..start + size];
    while len > 0 && IsOctal(bytes[off])
      invariant start <= off <= start + size && off + len == start + size
      invariant Octal(text) == Digits(i, bytes[off..start + size])
    {
      assert bytes[off..start + size][1..] == bytes[off + 1..start + size];
      i := i * 8;
      i := i + (bytes[off] - 48);
      len, off := len - 1, off + 1;
    }
  }

  predicate AllZero(block: Bytes)
  {
    forall i :: 0 <= i < |block| ==> block[i] == 0
  }

  method IsLastBlock(bytes: Bytes, off: nat) returns (r: bool)
    requires off + BLOCK <= |bytes|
    ensures r == AllZero(bytes[off..off + BLOCK])
  {
    var n := off + BLOCK - 1;
    while n >= off
      invariant off - 1 <= n < off + BLOCK
      invariant forall i :: n < i < off + BLOCK ==> bytes[i] == 0
    {
      if bytes[n] != 0 {
        assert bytes[off..off + BLOCK][n - off] != 0;
        return false;
      }
      n := n - 1;
    }
    return true;
  }

  // What a byte of a header adds to its checksum: the checksum itself counts as
  // spaces.
  function Weight(block: Bytes, n: nat): nat
    requires n < |block|
  {
    if n < 148 || n > 155 then block[n] else 0x20
  }

  function Sum(block: Bytes, n: nat): nat
    requires n <= |block|
  {
    if n == 0 then 0 else Sum(block, n - 1) + Weight(block, n - 1)
  }

  predicate ChecksumHolds(block: Bytes)
    requires |block| == BLOCK
  {
    Sum(block, BLOCK) == Octal(block[148..156])
  }

  lemma SliceOfSlice(bytes: Bytes, off: nat, size: nat, start: nat, end: nat)
    requires off + size <= |bytes| && start <= end <= size
    ensures bytes[off..off + size][start..end] == bytes[off + start..off + end]
  {
    var block, part := bytes[off..off + size], bytes[off + start..off + end];
    forall i | 0 <= i < end - start ensures block[start..end][i] == part[i] {
      assert block[start + i] == bytes[off + (start + i)];
    }
  }

  method VerifyChecksum(bytes: Bytes, off: nat) returns (r: bool)
    requires off + BLOCK <= |bytes|
    ensures r == ChecksumHolds(bytes[off..off + BLOCK])
  {
    ghost var block := bytes[off..off + BLOCK];
    var u: nat := 0;
    for n := 0 to BLOCK
      invariant u == Sum(block, n)
    {
      if n < 148 || n > 155 {
        u := u + bytes[off + n];
      } else {
        u := u + 0x20;
      }
    }
    SliceOfSlice(bytes, off, BLOCK, 148, 156);
    var stated := GetOctal(bytes, off + 148, 8);
    r := u == stated;
  }

  // ---- Headers ----

  // What strnlen and the copy read.
  function UpToNul(text: Bytes): Bytes
  {
    if text == [] || text[0] == 0 then [] else [text[0]] + UpToNul(text[1..])
  }

  // Spaces get a backslash.
  function Escape(text: Bytes): Bytes
  {
    if text == [] then [] else (if text[0] == 32 then [92, 32] else [text[0]]) + Escape(text[1..])
  }

  function Min(a: nat, b: nat): nat
  {
    if a < b then a else b
  }

  function NameAt(bytes: Bytes, off: nat): Bytes
    requires off + BLOCK <= |bytes|
  {
    Escape(UpToNul(bytes[off..off + 100]))
  }

  // The prefix is read up to NAME_MAX bytes, beyond its field.
  function PrefixAt(bytes: Bytes, off: nat): Bytes
    requires off + BLOCK <= |bytes|
  {
    Escape(UpToNul(bytes[off + 345..Min(off + 345 + NAME_MAX, |bytes|)]))
  }

  function Joined(prefix: Bytes, name: Bytes): Bytes
  {
    if prefix == [] then name else prefix + [47] + name
  }

  datatype Kind = Directory | File | Skipped

  // Type 5 is a directory; of the others, those outside 1 to 6 that are not the
  // global header of pax are files.
  function KindOf(flag: Byte): Kind
  {
    var fileType := flag - 48;
    if fileType == 5 then Directory
    else if (fileType < 1 || fileType > 6) && fileType != 55 then File
    else Skipped
  }

  datatype Header = Header(path: Bytes, mode: nat, size: nat, kind: Kind)

  function HeaderAt(bytes: Bytes, off: nat): Header
    requires off + BLOCK <= |bytes|
  {
    Header(Joined(PrefixAt(bytes, off), NameAt(bytes, off)), Octal(bytes[off + 100..off + 108]),
           Octal(bytes[off + 124..off + 136]), KindOf(bytes[off + 156]))
  }

  // ---- The walk ----

  datatype Op =
    | MkDirAll(path: Bytes, mode: nat)
    | MkDir(path: Bytes, mode: nat)
    | Open(path: Bytes, mode: nat)
    | Write(start: nat, size: nat)
    | Close

  datatype Error = BadSize | ChecksumFailed | OutsideTop

  function Blocks(size: nat): nat
  {
    (size + BLOCK - 1) / BLOCK
  }

  // The first directory, unless its name is empty.
  predicate IsSet(top: Option<Bytes>)
  {
    top.Some? && top.value != []
  }

  predicate Rejects(top: Option<Bytes>, h: Header)
  {
    h.kind.File? && IsSet(top) && !(top.value <= h.path)
  }

  function TopAfter(top: Option<Bytes>, h: Header): Option<Bytes>
  {
    if h.kind.Directory? && !IsSet(top) then Some(h.path) else top
  }

  // The calls at the header, and those after the last block of the data.
  function Begin(top: Option<Bytes>, h: Header): seq<Op>
  {
    match h.kind
    case Directory => if IsSet(top) then [MkDir(h.path, h.mode)] else [MkDirAll(h.path, h.mode)]
    case File => [Open(h.path, h.mode)]
    case Skipped => []
  }

  function End(h: Header, start: nat): seq<Op>
  {
    if h.kind.File? && h.size > 0 then [Write(start, h.size), Close] else []
  }

  type Outcome = (Result<Option<Bytes>, Error>, seq<Op>)

  // The walk from a block on: the result, and the calls made.
  function Walk(bytes: Bytes, limit: nat, off: nat, top: Option<Bytes>, ops: seq<Op>): Outcome
    requires limit <= |bytes|
    decreases limit - off
  {
    var size := limit - off;
    if size == 0 then (Ok(top), ops)
    else if size < BLOCK then (Err(BadSize), ops)
    else if AllZero(bytes[off..off + BLOCK]) then Walk(bytes, limit, off + BLOCK, top, ops)
    else if !ChecksumHolds(bytes[off..off + BLOCK]) then (Err(ChecksumFailed), ops)
    else
      var h := HeaderAt(bytes, off);
      if Rejects(top, h) then (Err(OutsideTop), ops)
      else if size - BLOCK * Blocks(h.size) <= 0 then (Err(BadSize), ops + Begin(top, h))
      else Walk(bytes, limit, off + BLOCK + BLOCK * Blocks(h.size), TopAfter(top, h),
                ops + Begin(top, h) + End(h, off + BLOCK))
  }

  // The loop over the data of one file; it fails when the archive ends before
  // the data does.
  method WalkData(limit: nat, start: nat, h: Header) returns (ok: bool, off: nat, size: int, ops: seq<Op>)
    requires start + BLOCK <= limit
    ensures ok <==> limit - start - BLOCK * Blocks(h.size) > 0
    ensures ok ==> off == start + BLOCK * Blocks(h.size) && off + size == limit && ops == End(h, start + BLOCK)
    ensures !ok ==> ops == []
  {
    var fd, todo: nat, file_size := h.kind.File?, h.size, 0;
    off, size, ok, ops := start, limit - start, true, [];
    var file_start := off + BLOCK;
    while todo > 0
      invariant ok && off + size == limit && size > 0
      invariant off == start + BLOCK * (Blocks(h.size) - Blocks(todo)) && todo <= h.size
      invariant todo > 0 ==> fd == h.kind.File? && ops == [] && (fd ==> file_size == h.size - todo)
      invariant todo == 0 ==> ops == End(h, start + BLOCK)
    {
      BlocksStep(todo);
      off := off + BLOCK;
      size := size - BLOCK;
      if size <= 0 {
        BlocksMore(h.size, todo);
        ok := false;
        return;
      }
      var count := BLOCK;
      if todo < BLOCK {
        count := todo;
      }
      if fd {
        file_size := file_size + count;
      }
      todo := todo - count;
      if fd && todo == 0 {
        ops := ops + [Write(file_start, file_size)];
        ops := ops + [Close];
        fd := false;
      }
    }
  }

  lemma BlocksStep(todo: nat)
    requires todo > 0
    ensures Blocks(todo) == 1 + Blocks(if todo < BLOCK then 0 else todo - BLOCK)
  {
  }

  lemma BlocksMore(size: nat, todo: nat)
    requires todo <= size
    ensures Blocks(todo) <= Blocks(size)
  {
  }

  method ReadHeader(bytes: Bytes, off: nat) returns (h: Header)
    requires off + BLOCK <= |bytes|
    ensures h == HeaderAt(bytes, off)
  {
    hide Octal, Escape, UpToNul;
    var fileName := NameAt(bytes, off);
    var prefix := PrefixAt(bytes, off);
    var fileSize := GetOctal(bytes, off + 124, 12);
    var fileMode := GetOctal(bytes, off + 100, 8);
    if |prefix| > 0 {
      fileName := prefix + [47] + fileName;
    }
    h := Header(fileName, fileMode, fileSize, KindOf(bytes[off + 156]));
  }

  method Untar(bytes: Bytes, limit: nat) returns (result: Result<Option<Bytes>, Error>, ops: seq<Op>)
    requires limit <= |bytes|
    ensures (result, ops) == Walk(bytes, limit, 0, None, [])
  {
    hide ChecksumHolds, HeaderAt, Blocks, Begin, End;
    var size: int, off, top: Option<Bytes> := limit, 0, None;
    ops := [];
    while size != 0
      invariant off + size == limit
      invariant Walk(bytes, limit, off, top, ops) == Walk(bytes, limit, 0, None, [])
      decreases size
    {
      if size < BLOCK {
        return Err(BadSize), ops;
      }
      var last := IsLastBlock(bytes, off);
      if last {
        off := off + BLOCK;
        size := size - BLOCK;
        continue;
      }
      var verified := VerifyChecksum(bytes, off);
      if !verified {
        return Err(ChecksumFailed), ops;
      }
      var h := ReadHeader(bytes, off);
      if Rejects(top, h) {
        return Err(OutsideTop), ops;
      }
      ops := ops + Begin(top, h);
      top := TopAfter(top, h);
      var complete, more;
      complete, off, size, more := WalkData(limit, off, h);
      if !complete {
        return Err(BadSize), ops;
      }
      ops := ops + more;
      size := size - BLOCK;
      off := off + BLOCK;
    }
    return Ok(top), ops;
  }
}
