/** Bytes, little-endian numbers, and the searches that the framers use. */
module ByteStrings {

  newtype Byte = x: int | 0 <= x < 256
  type Bytes = seq<Byte>

  function Pow256(width: nat): nat {
    if width == 0 then 1 else 256 * Pow256(width - 1)
  }

  /** The width-byte little-endian form of n; n must be below 256^width to be recovered. */
  function LittleEndian(n: nat, width: nat): (r: Bytes)
    ensures |r| == width
  {
    if width == 0 then [] else [(n % 256) as Byte] + LittleEndian(n / 256, width - 1)
  }

  function FromLittleEndian(b: Bytes): nat {
    if b == [] then 0 else b[0] as int + 256 * FromLittleEndian(b[1..])
  }

  lemma {:induction false} LittleEndianInverse(n: nat, width: nat)
    requires n < Pow256(width)
    ensures FromLittleEndian(LittleEndian(n, width)) == n
  {
    if width > 0 {
      LittleEndianInverse(n / 256, width - 1);
    }
  }

  /** Every string of bytes is the little-endian form of the number it decodes to. */
  lemma {:induction false} LittleEndianOnto(b: Bytes)
    ensures FromLittleEndian(b) < Pow256(|b|) && LittleEndian(FromLittleEndian(b), |b|) == b
  {
    if b != [] {
      LittleEndianOnto(b[1..]);
      var n := FromLittleEndian(b);
      assert n % 256 == b[0] as int && n / 256 == FromLittleEndian(b[1..]);
    }
  }

  predicate MatchesAt(data: Bytes, pat: Bytes, i: int) {
    0 <= i && i + |pat| <= |data| && data[i..i + |pat|] == pat
  }

  /** First position at or after `from` where the byte occurs, or -1. */
  function FindByte(data: Bytes, b: Byte, from: nat): (r: int)
    ensures r == -1 || (from <= r < |data| && data[r] == b)
    ensures forall i :: from <= i < (if r == -1 then |data| else r) ==> data[i] != b
    decreases |data| - from
  {
    if from >= |data| then -1
    else if data[from] == b then from
    else FindByte(data, b, from + 1)
  }

  /** Last position below `below` where the pattern occurs, or -1. */
  function FindLast(data: Bytes, pat: Bytes, below: nat): (r: int)
    ensures r == -1 || (0 <= r < below && MatchesAt(data, pat, r))
    ensures forall i :: r < i < below ==> !MatchesAt(data, pat, i)
  {
    if below == 0 then -1
    else if MatchesAt(data, pat, below - 1) then below - 1
    else FindLast(data, pat, below - 1)
  }

  function CountByte(data: Bytes, b: Byte): nat {
    if data == [] then 0
    else (if data[0] == b then 1 else 0) + CountByte(data[1..], b)
  }

  lemma {:induction false} CountAppend(x: Bytes, y: Bytes, b: Byte)
    ensures CountByte(x + y, b) == CountByte(x, b) + CountByte(y, b)
    decreases |x|
  {
    if x == [] {
      assert x + y == y;
    } else {
      assert (x + y)[1..] == x[1..] + y;
      CountAppend(x[1..], y, b);
    }
  }

  lemma DropBoth(s: Bytes, a: Bytes, b: Bytes)
    ensures (s + (a + b))[|s| + |a|..] == b && (s + (a + b))[..|s| + |a|] == s + a
  {
  }

  lemma PrefixOfBoth(data: Bytes, s: Bytes, b: Bytes)
    requires data <= s + b && |data| >= |s|
    ensures data[..|s|] == s && data[|s|..] <= b
  {
    assert data == (s + b)[..|data|];
  }

  lemma BytesAt(data: Bytes, idx: nat, line: Bytes)
    requires idx <= |data| && line <= data[idx..]
    ensures idx + |line| <= |data| && data[idx..idx + |line|] == line
    ensures forall i :: idx <= i < idx + |line| ==> data[i] == line[i - idx]
  {
    forall i | idx <= i < idx + |line| ensures data[i] == line[i - idx] {
      assert data[idx..][i - idx] == data[i];
    }
  }

  lemma RestAfter(data: Bytes, idx: nat, line: Bytes, rest: Bytes)
    requires idx <= |data| && data[idx..] == line + rest
    ensures idx + |line| <= |data| && data[idx + |line|..] == rest && line <= data[idx..]
  {
    assert data[idx + |line|..] == data[idx..][|line|..];
  }
}
