// Byte sequences, shared by the formats.
module ByteText {
  type Byte = b: int | 0 <= b < 256
  type Bytes = seq<Byte>

  // The text lies at this offset.
  predicate HasAt(bytes: Bytes, off: nat, text: Bytes)
  {
    off + |text| <= |bytes| && bytes[off..off + |text|] == text
  }

  lemma HasAtParts(bytes: Bytes, off: nat, a: Bytes, b: Bytes)
    requires HasAt(bytes, off, a + b)
    ensures HasAt(bytes, off, a) && HasAt(bytes, off + |a|, b)
  {
    assert a == (a + b)[..|a|] && b == (a + b)[|a|..];
    assert bytes[off..off + |a|] == bytes[off..off + |a + b|][..|a|];
    assert bytes[off + |a|..off + |a| + |b|] == bytes[off..off + |a + b|][|a|..];
  }

  function Flatten(parts: seq<Bytes>): Bytes
  {
    if parts == [] then [] else Flatten(parts[..|parts| - 1]) + parts[|parts| - 1]
  }
}
