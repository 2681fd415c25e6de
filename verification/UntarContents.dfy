// What lib/untar.js makes of headers and of whole lists of members, spelled out
// in the bytes of the ustar format.
module UntarContents {
  import opened Prelude
  import opened ByteText
  import opened Untar
  import opened UntarTheorems

  // ---- Types ----

  // Types 0 (or NUL), 7 and everything unknown are files, 5 is a directory, and
  // links, devices, pipes and the global header of pax are skipped.
  lemma KindExactly(flag: Byte)
    ensures KindOf(flag) == Directory <==> flag == '5' as int
    ensures KindOf(flag) == Skipped <==>
      flag in {'1' as int, '2' as int, '3' as int, '4' as int, '6' as int, 'g' as int}
  {
  }

  // ---- Numbers ----

  predicate IsDigit(b: Byte)
  {
    '0' as int <= b <= '7' as int
  }

  // On any text a number is what its first run of digits stands for.
  lemma OctalExactly(front: Bytes, digits: Bytes, rest: Bytes)
    requires forall i :: 0 <= i < |front| ==> !IsDigit(front[i])
    requires forall i :: 0 <= i < |digits| ==> IsDigit(digits[i])
    requires digits == [] ==> rest == []
    requires rest != [] ==> !IsDigit(rest[0])
    ensures (forall i :: 0 <= i < |digits| ==> IsOctal(digits[i])) && Octal(front + digits + rest) == OctalValue(digits)
  {
    assert front + digits + rest == front + (digits + rest);
    FrontSkipped(front, digits + rest);
    if rest == [] {
      assert digits + rest == digits;
      assert Digits(0, digits + [0]) == OctalValue(digits) by {
        DigitsRead(0, digits, [0]);
        hide OctalValue, Power8;
      }
      DigitsEnd(0, digits);
    } else {
      DigitsRead(0, digits, rest);
      hide OctalValue, Power8;
    }
  }

  lemma {:induction false} FrontSkipped(front: Bytes, text: Bytes)
    requires (forall i :: 0 <= i < |front| ==> !IsDigit(front[i])) && (text == [] || IsDigit(text[0]))
    ensures FromDigit(front + text) == text
  {
    if front == [] {
      assert front + text == text;
    } else {
      assert (front + text)[1..] == front[1..] + text;
      FrontSkipped(front[1..], text);
    }
  }

  lemma {:induction false} DigitsEnd(n: nat, digits: Bytes)
    requires forall i :: 0 <= i < |digits| ==> IsDigit(digits[i])
    ensures Digits(n, digits + [0]) == Digits(n, digits)
    decreases |digits|
  {
    if digits == [] {
      assert digits + [0] == [0];
    } else {
      assert (digits + [0])[1..] == digits[1..] + [0];
      DigitsEnd(n * 8 + digits[0] - 48, digits[1..]);
    }
  }

  // ---- Checksums ----

  function Total(bytes: Bytes): nat
  {
    if bytes == [] then 0 else bytes[0] + Total(bytes[1..])
  }

  lemma {:induction false} TotalSnoc(bytes: Bytes)
    requires bytes != []
    ensures Total(bytes) == Total(bytes[..|bytes| - 1]) + bytes[|bytes| - 1]
  {
    if |bytes| > 1 {
      TotalSnoc(bytes[1..]);
      assert bytes[1..][..|bytes| - 2] == bytes[..|bytes| - 1][1..];
    }
  }

  lemma {:induction false} SumTotal(block: Bytes, n: nat)
    requires |block| == 512 && n <= 512
    ensures n <= 148 ==> Sum(block, n) == Total(block[..n])
    ensures 148 <= n <= 156 ==> Sum(block, n) == Total(block[..148]) + 32 * (n - 148)
    ensures 156 <= n ==> Sum(block, n) == Total(block[..148]) + 256 + Total(block[156..n])
  {
    if n > 0 {
      SumTotal(block, n - 1);
      var start := if n <= 148 then 0 else 156;
      if n <= 148 || n > 156 {
        TotalNext(block, start, n);
      }
      hide Total;
    }
  }

  lemma TotalNext(block: Bytes, start: nat, n: nat)
    requires start < n <= |block|
    ensures Total(block[start..n]) == Total(block[start..n - 1]) + block[n - 1]
  {
    TotalSnoc(block[start..n]);
    assert block[start..n][..n - 1 - start] == block[start..n - 1];
  }

  // A header is taken exactly when its checksum is the sum of all other bytes
  // and of eight spaces.
  lemma ChecksumExactly(block: Bytes)
    requires |block| == 512
    ensures ChecksumHolds(block) <==> Octal(block[148..156]) == Total(block[..148]) + 8 * 32 + Total(block[156..])
  {
    SumTotal(block, 512);
    assert block[156..512] == block[156..];
    hide Sum, Octal, Total;
  }

  lemma {:induction false} TotalChanged(bytes: Bytes, i: nat, b: Byte)
    requires i < |bytes|
    ensures Total(bytes[i := b]) == Total(bytes) - bytes[i] + b
  {
    if i == 0 {
      assert bytes[i := b][1..] == bytes[1..];
    } else {
      assert bytes[i := b][1..] == bytes[1..][i - 1 := b];
      TotalChanged(bytes[1..], i - 1, b);
    }
  }

  // A block with a checksum that holds is no longer taken when one byte outside
  // the checksum is changed.
  lemma ChangeDetected(block: Bytes, i: nat, b: Byte)
    requires |block| == 512 && ChecksumHolds(block) && i < 512 && !(148 <= i < 156) && b != block[i]
    ensures !ChecksumHolds(block[i := b])
  {
    var changed := block[i := b];
    ChecksumExactly(block);
    ChecksumExactly(changed);
    assert changed[148..156] == block[148..156];
    if i < 148 {
      assert changed[..148] == block[..148][i := b] && changed[156..] == block[156..];
      TotalChanged(block[..148], i, b);
    } else {
      assert changed[156..] == block[156..][i - 156 := b] && changed[..148] == block[..148];
      TotalChanged(block[156..], i - 156, b);
    }
    hide Total, Octal, ChecksumHolds;
  }

  // Extraction stops, with nothing done for it, at a valid header in which one
  // byte outside the checksum was changed.
  lemma CorruptHeaderRefused(bytes: Bytes, off: nat, m: Member, i: nat, b: Byte, limit: nat, top: Option<Bytes>,
                             ops: seq<Op>)
    requires HeaderOf(bytes, off, m) && off + 512 <= limit <= |bytes|
    requires i < 512 && !(148 <= i < 156) && b != bytes[off + i]
    ensures Walk(bytes[off + i := b], limit, off, top, ops) == (Err(ChecksumFailed), ops)
  {
    HeaderReads(bytes, off, m);
    var block, changed := bytes[off..off + 512], bytes[off + i := b];
    ChangeDetected(block, i, b);
    assert changed[off..off + 512] == block[i := b];
    NumberReads(bytes, off + 148, 8, Sum(block, 512));
    var k :| off + 148 <= k < off + 156 && bytes[k] != 0;
    assert block[i := b][k - off] != 0;
    hide HeaderOf, ChecksumHolds, HeaderAt;
  }

  // ---- Paths ----

  // A backslash is put before every space, and nothing else changes.
  lemma EscapeExactly(a: Bytes, b: Bytes)
    ensures Escape(a + [' ' as int] + b) == Escape(a) + ['\\' as int, ' ' as int] + Escape(b)
    ensures 32 !in a ==> Escape(a) == a
  {
    EscapeConcat(a + [32], b);
    EscapeConcat(a, [32]);
    assert [32][1..] == [] && Escape([32]) == [92, 32];
    hide Escape;
    if 32 !in a {
      PlainStays(a);
    }
  }

  lemma {:induction false} EscapeConcat(a: Bytes, b: Bytes)
    ensures Escape(a + b) == Escape(a) + Escape(b)
  {
    if a == [] {
      assert a + b == b;
    } else {
      assert (a + b)[1..] == a[1..] + b;
      EscapeConcat(a[1..], b);
    }
  }

  lemma {:induction false} PlainStays(a: Bytes)
    requires 32 !in a
    ensures Escape(a) == a
  {
    if a != [] {
      PlainStays(a[1..]);
      assert a == [a[0]] + a[1..];
    }
  }

  // The path of a member: its name, after the prefix and a slash if there is one.
  function PathOf(m: Member): Bytes
  {
    if m.prefix == [] then Escape(m.name) else Escape(m.prefix) + ['/' as int] + Escape(m.name)
  }

  lemma PathSpelled(m: Member)
    ensures HeaderFor(m).path == PathOf(m)
  {
    if m.prefix != [] {
      assert Escape(m.prefix) != [];
    }
  }

  // ---- Whole archives ----

  predicate IsFile(m: Member)
  {
    m.flag !in {'1' as int, '2' as int, '3' as int, '4' as int, '5' as int, '6' as int, 'g' as int}
  }

  predicate IsDirectory(m: Member)
  {
    m.flag == '5' as int
  }

  // The d-th member is the first directory that has a name.
  predicate IsTop(members: seq<Member>, d: nat)
    requires d < |members|
  {
    && IsDirectory(members[d]) && PathOf(members[d]) != []
    && forall c :: 0 <= c < d ==> !(IsDirectory(members[c]) && PathOf(members[c]) != [])
  }

  predicate Strays(members: seq<Member>, top: Bytes)
  {
    exists j :: 0 <= j < |members| && IsFile(members[j]) && !(top <= PathOf(members[j]))
  }

  lemma {:induction false} ExtractionUnder(members: seq<Member>, top: Bytes)
    requires top != []
    ensures Extraction(members, Some(top)).0 == if Strays(members, top) then Err(OutsideTop) else Ok(Some(top))
  {
    if members != [] {
      PathSpelled(members[0]);
      KindExactly(members[0].flag);
      ExtractionUnder(members[1..], top);
      hide HeaderFor, Asks, PathOf;
    }
  }

  // Extraction goes wrong exactly when a file after the first directory with a
  // name has a path that does not start with that name; else it returns the name.
  lemma {:induction false} ExtractionExactly(members: seq<Member>, top: Option<Bytes>)
    requires !IsSet(top)
    ensures (forall d :: 0 <= d < |members| ==> !IsTop(members, d)) ==>
      Extraction(members, top).0.Ok? && !IsSet(Extraction(members, top).0.value)
    ensures forall d :: 0 <= d < |members| && IsTop(members, d) ==>
      var name := PathOf(members[d]);
      Extraction(members, top).0 == if Strays(members[d + 1..], name) then Err(OutsideTop) else Ok(Some(name))
  {
    if members != [] {
      var m, rest := members[0], members[1..];
      PathSpelled(m);
      KindExactly(m.flag);
      if IsDirectory(m) && PathOf(m) != [] {
        ExtractionUnder(rest, PathOf(m));
        assert IsTop(members, 0);
      } else {
        ExtractionExactly(rest, TopAfter(top, HeaderFor(m)));
        hide PathOf, HeaderFor, Asks;
        forall d | 0 <= d < |rest| ensures IsTop(rest, d) <==> IsTop(members, d + 1) {
          TopOfRest(members, d);
        }
        assert !IsTop(members, 0);
        forall d | 0 < d < |members| ensures members[d + 1..] == rest[d..] {
        }
      }
    }
  }

  lemma TopOfRest(members: seq<Member>, d: nat)
    requires d + 1 < |members| && !(IsDirectory(members[0]) && PathOf(members[0]) != [])
    ensures IsTop(members[1..], d) <==> IsTop(members, d + 1)
  {
    hide PathOf;
    if IsTop(members[1..], d) {
      forall c | 0 <= c < d + 1 ensures !(IsDirectory(members[c]) && PathOf(members[c]) != []) {
        assert c > 0 ==> members[c] == members[1..][c - 1];
      }
    }
    if IsTop(members, d + 1) {
      forall c | 0 <= c < d ensures !(IsDirectory(members[1..][c]) && PathOf(members[1..][c]) != []) {
        assert members[1..][c] == members[c + 1];
      }
    }
  }
}
