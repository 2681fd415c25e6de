// The cpio writer and reader of lib/cpio.js: the SVR4 "newc" ASCII format, as
// bytes. Text is ASCII, one byte a character.
module Cpio {
  import opened Prelude
  import opened ByteText

  // ---- Numbers as text ----

  function Digit(d: nat): Byte
    requires d < 16
  {
    if d < 10 then 48 + d else 87 + d
  }

  // toString(radix) for a radix of 8 or 16.
  function ToText(n: nat, radix: nat): (text: Bytes)
    requires 2 <= radix <= 16
    ensures text != []
  {
    if n < radix then [Digit(n)] else ToText(n / radix, radix) + [Digit(n % radix)]
  }

  function Zeros(n: nat): (zeros: Bytes)
    ensures |zeros| == n
  {
    seq(n, _ => 48)
  }

  function PadStart(text: Bytes, width: nat): Bytes
  {
    if |text| < width then Zeros(width - |text|) + text else text
  }

  // The table H: the value of a hexadecimal digit of either case, else -1.
  function HexDigit(b: Byte): (d: int)
    ensures -1 <= d < 16
  {
    if 48 <= b <= 57 then b - 48
    else if 65 <= b <= 70 then b - 55
    else if 97 <= b <= 102 then b - 87
    else -1
  }

  // A byte outside the archive reads as undefined, which counts as 0 in a shift.
  function DigitAt(bytes: Bytes, i: int): int
  {
    if 0 <= i < |bytes| then HexDigit(bytes[i]) else 0
  }

  // A digit joined to the ones above it by shifting and or-ing. The shift of -1
  // sets every bit above, so whatever came before is lost.
  function OrDigit(above: int, digit: int): int
  {
    if digit == -1 then -1 else above * 16 + digit
  }

  function DigitsAt(bytes: Bytes, off: int, n: nat): int
  {
    if n == 0 then 0 else OrDigit(DigitsAt(bytes, off, n - 1), DigitAt(bytes, off + n - 1))
  }

  function ToInt32(n: int): int
  {
    (n + 0x8000_0000) % 0x1_0000_0000 - 0x8000_0000
  }

  function Hex8(bytes: Bytes, off: int): int
  {
    ToInt32(DigitsAt(bytes, off, 8))
  }

  function OctalTerm(bytes: Bytes, i: int): bv32
  {
    if 0 <= i < |bytes| then bytes[i] as bv32 - 48 else 0
  }

  function Octal6(bytes: Bytes, off: int): bv32
  {
    (OctalTerm(bytes, off) << 15) | (OctalTerm(bytes, off + 1) << 12) | (OctalTerm(bytes, off + 2) << 9) |
    (OctalTerm(bytes, off + 3) << 6) | (OctalTerm(bytes, off + 4) << 3) | OctalTerm(bytes, off + 5)
  }

  // ---- Modes ----

  datatype Kind = Socket | Link | Plain | Block | Folder | Character | Pipe | NoKind

  // The type bits of a mode: val & 0170000.
  function TypeBits(mode: int): int
  {
    mode / 4096 % 16 * 4096
  }

  function KindOf(mode: int): Kind
  {
    var bits := TypeBits(mode);
    if bits == 49152 then Socket
    else if bits == 40960 then Link
    else if bits == 32768 then Plain
    else if bits == 24576 then Block
    else if bits == 16384 then Folder
    else if bits == 8192 then Character
    else if bits == 4096 then Pipe
    else NoKind
  }

  // The permission bits of a mode: mode & 0777.
  function PermissionBits(mode: int): int
  {
    mode % 512
  }

  // ---- Entries ----

  // What is archived. A regular file without content is an error; Untyped is
  // an entry whose type the writer does not know.
  datatype Entry =
    | Regular(path: Bytes, exe: bool, content: Option<Bytes>)
    | Directory(path: Bytes)
    | Symlink(path: Bytes, exe: bool, target: Bytes)
    | BlockDevice(path: Bytes, major: nat, minor: nat)
    | CharacterDevice(path: Bytes, major: nat, minor: nat)
    | Untyped(path: Bytes)

  // "TRAILER!!!"
  const TRAILER: Bytes := [84, 82, 65, 73, 76, 69, 82, 33, 33, 33]

  function TypeOf(e: Entry): nat
  {
    match e
    case Regular(_, _, _) => 32768
    case Directory(_) => 16384
    case Symlink(_, _, _) => 40960
    case BlockDevice(_, _, _) => 24576
    case CharacterDevice(_, _, _) => 8192
    case Untyped(_) => 32768
  }

  function PermissionsOf(e: Entry): nat
  {
    match e
    case Regular(_, exe, _) => if exe then 509 else 420
    case Directory(_) => 509
    case Symlink(_, exe, _) => if exe then 509 else 420
    case BlockDevice(_, _, _) => 420
    case CharacterDevice(_, _, _) => 436
    case Untyped(_) => 0
  }

  predicate HasContent(e: Entry)
  {
    e.Regular? ==> e.content.Some?
  }

  function SizeOf(e: Entry): nat
    requires HasContent(e)
  {
    if e.Regular? then |e.content.value| else if e.Symlink? then |e.target| else 0
  }

  function Payload(e: Entry): Bytes
    requires HasContent(e)
  {
    if e.Regular? then e.content.value else if e.Symlink? then e.target + [0] else []
  }

  function Device(e: Entry): (nat, nat)
  {
    if e.BlockDevice? || e.CharacterDevice? then (e.major, e.minor) else (0, 0)
  }

  // The thirteen numbers of a header, in order.
  function Fields(e: Entry, inode: nat, now: nat): (fields: seq<nat>)
    requires HasContent(e)
    ensures |fields| == 13
  {
    [inode, PermissionsOf(e) + TypeOf(e), 0, 0, 0, now, SizeOf(e), 8, 1,
     Device(e).0, Device(e).1, |e.path| + 1, 0]
  }

  // An eight-digit field holds every number of the header.
  predicate Fits(e: Entry, inode: nat, now: nat)
    requires HasContent(e)
  {
    forall i :: 0 <= i < 13 ==> Fields(e, inode, now)[i] < 0x1_0000_0000
  }

  function HexFields(fields: seq<nat>): Bytes
  {
    if fields == [] then []
    else HexFields(fields[..|fields| - 1]) + PadStart(ToText(fields[|fields| - 1], 16), 8)
  }

  // The remainder that takes its sign from the number.
  function Remainder4(n: int): int
  {
    if n >= 0 then n % 4 else -(-n % 4)
  }

  // The next multiple of four; below zero it can be the one after.
  function Aligned(off: int): (aligned: int)
    ensures off <= aligned < off + 8 && aligned % 4 == 0
    ensures off >= 0 ==> aligned < off + 4
  {
    var over := Remainder4(off);
    if over == 0 then off else off + 4 - over
  }

  function Filler(off: nat): Bytes
  {
    seq(Aligned(off) - off, _ => 0)
  }

  function HeaderText(e: Entry, inode: nat, now: nat): Bytes
    requires HasContent(e)
  {
    PadStart(ToText(29121, 8), 6) + HexFields(Fields(e, inode, now)) + e.path + [0]
  }

  // One section of the archive.
  function Section(e: Entry, inode: nat, now: nat): Bytes
    requires HasContent(e)
  {
    var text := HeaderText(e, inode, now);
    text + Filler(|text|) + Payload(e) + Filler(|Payload(e)|)
  }

  function Sections(entries: seq<Entry>, inode: nat, now: nat): Bytes
    requires forall e :: e in entries ==> HasContent(e)
  {
    if entries == [] then [] else Section(entries[0], inode, now) + Sections(entries[1..], inode + 1, now)
  }

  // The archive of some entries, written at a time in seconds.
  function Archive(entries: seq<Entry>, now: nat): Bytes
    requires forall e :: e in entries ==> HasContent(e)
  {
    Sections(entries + [Untyped(TRAILER)], 1, now)
  }

  // ---- Reading ----

  datatype Body = Source(target: Bytes) | Data(bytes: Bytes)

  // A file read from an archive: the header numbers as the reader decodes them,
  // with the time in milliseconds.
  datatype File = File(id: bv32, fields: seq<int>, path: Bytes, kind: Kind, permissions: int, body: Body)

  // OutOfBounds is the error for a text that ends beyond the archive.
  // Undetermined is a text that comes from memory outside the archive.
  datatype ParseError = UnrecognizedId | OutOfBounds | Undetermined

  const MODE := 1
  const MOD := 5
  const SIZE := 6
  const PATH_SIZE := 11

  function FieldsAt(bytes: Bytes, off: int, n: nat): (fields: seq<int>)
    ensures |fields| == n
  {
    if n == 0 then [] else FieldsAt(bytes, off, n - 1) + [Hex8(bytes, off + 8 * (n - 1))]
  }

  function FirstNul(bytes: Bytes, start: nat): (nul: Option<nat>)
    requires start <= |bytes|
    ensures nul.Some? ==> start <= nul.value < |bytes| && bytes[nul.value] == 0 && 0 !in bytes[start..nul.value]
    ensures nul.None? ==> 0 !in bytes[start..]
    decreases |bytes| - start
  {
    if start == |bytes| then None else if bytes[start] == 0 then Some(start) else FirstNul(bytes, start + 1)
  }

  // A text of this size, as decode_latin1 reads it: with a negative size it goes
  // on to the first NUL. The size passes through 32 bits.
  function TextAt(bytes: Bytes, start: int, size: int): Result<Bytes, ParseError>
  {
    if start + size > |bytes| then Err(OutOfBounds)
    else if size == 0 then Ok([])
    else if start < 0 || start > |bytes| || size < -0x8000_0000 then Err(Undetermined)
    else if size > 0 then Ok(bytes[start..start + size])
    else
      var nul := FirstNul(bytes, start);
      if nul.None? then Err(Undetermined) else Ok(bytes[start..nul.value])
  }

  // A position in a typed array, counted from its end when negative.
  function Position(i: int, n: nat): (position: nat)
    ensures position <= n
  {
    if i < 0 then if n + i < 0 then 0 else n + i else if i < n then i else n
  }

  function SubArray(bytes: Bytes, start: int, end: int): Bytes
  {
    var (first, last) := (Position(start, |bytes|), Position(end, |bytes|));
    if first < last then bytes[first..last] else []
  }

  // The content of a file of this kind and size, from where it starts, and
  // where it ends: the target of a link is a string, with a NUL after it.
  function ReadBody(bytes: Bytes, start: int, kind: Kind, size: int): (r: Result<(Body, int), ParseError>)
    ensures r.Ok? ==> r.value.1 == start + size + if kind == Link then 1 else 0
  {
    if kind == Link then
      var target := TextAt(bytes, start, size);
      if target.Err? then Err(target.error) else Ok((Source(target.value), start + size + 1))
    else
      Ok((Data(SubArray(bytes, start, start + size)), start + size))
  }

  // A file, or None at the trailer, and where the next header starts.
  datatype Step = Step(file: Option<File>, next: int)

  function ReadFile(bytes: Bytes, off: int): Result<Step, ParseError>
  {
    var id := Octal6(bytes, off);
    if id != 29121 && id != 29122 then Err(UnrecognizedId)
    else
      var fields := FieldsAt(bytes, off + 6, 13);
      var pathSize, start := fields[PATH_SIZE], off + 110;
      var path := TextAt(bytes, start, pathSize - 1);
      if path.Err? then Err(path.error)
      else if path.value == TRAILER then Ok(Step(None, start + pathSize))
      else
        var kind := KindOf(fields[MODE]);
        var body := ReadBody(bytes, Aligned(start + pathSize), kind, fields[SIZE]);
        if body.Err? then Err(body.error)
        else
          var permissions := PermissionBits(fields[MODE]);
          Ok(Step(Some(File(id, fields[MOD := fields[MOD] * 1000], path.value, kind, permissions, body.value.0)),
                  Aligned(body.value.1)))
  }

  // The files read in at most this many rounds, or None when more are needed.
  function ReadFiles(bytes: Bytes, off: int, files: seq<File>, rounds: nat): Option<Result<seq<File>, ParseError>>
    decreases rounds
  {
    if off >= |bytes| then Some(Ok(files))
    else if rounds == 0 then None
    else
      var r := ReadFile(bytes, off);
      if r.Err? then Some(Err(r.error))
      else if r.value.file.None? then Some(Ok(files))
      else ReadFiles(bytes, r.value.next, files + [r.value.file.value], rounds - 1)
  }
}
