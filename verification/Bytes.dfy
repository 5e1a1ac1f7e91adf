/** Byte strings, C's fixed-width unsigned arithmetic, and the integer encodings
    that the packet formats use. */
module Bytes {
  type byte = b: int | 0 <= b < 256

  const TWO16 := 0x1_0000
  const TWO31 := 0x8000_0000
  const TWO32 := 0x1_0000_0000
  const TWO64 := 0x1_0000_0000_0000_0000

  /** Reduction to a uint32_t. */
  function U32(x: int): (r: nat)
    ensures r < TWO32
    ensures 0 <= x < TWO32 ==> r == x
  {
    x % TWO32
  }

  /** Reduction to a uint_fast64_t counter. */
  function U64(x: int): nat {
    x % TWO64
  }

  lemma U64Add(a: nat, b: nat)
    ensures U64(U64(a) + b) == U64(a + b)
  {
  }

  function Le32(s: seq<byte>): (v: nat)
    requires |s| == 4
    ensures v < TWO32
  {
    var b0: int, b1: int, b2: int, b3: int := s[0], s[1], s[2], s[3];
    b0 + 0x100 * b1 + 0x1_0000 * b2 + 0x100_0000 * b3
  }

  function ToLe32(v: nat): (s: seq<byte>)
    requires v < TWO32
    ensures |s| == 4
    ensures Le32(s) == v
  {
    var v1 := v / 0x100;
    var v2 := v1 / 0x100;
    [v % 0x100, v1 % 0x100, v2 % 0x100, v2 / 0x100]
  }

  function Be16(s: seq<byte>): (v: nat)
    requires |s| == 2
    ensures v < TWO16
  {
    var b0: int, b1: int := s[0], s[1];
    0x100 * b0 + b1
  }

  function ToBe16(v: nat): (s: seq<byte>)
    requires v < TWO16
    ensures |s| == 2
    ensures Be16(s) == v
  {
    [v / 0x100, v % 0x100]
  }

  function ToBe32(v: nat): (s: seq<byte>)
    requires v < TWO32
    ensures |s| == 4
  {
    [v / 0x100_0000, v / 0x1_0000 % 0x100, v / 0x100 % 0x100, v % 0x100]
  }

  function Be32(s: seq<byte>): (v: nat)
    requires |s| == 4
    ensures v < TWO32
    ensures ToBe32(v) == s
  {
    var b0: int, b1: int, b2: int, b3: int := s[0], s[1], s[2], s[3];
    var v := 0x100_0000 * b0 + 0x1_0000 * b1 + 0x100 * b2 + b3;
    assert v / 0x100_0000 == b0;
    assert v / 0x1_0000 == 0x100 * b0 + b1;
    assert v / 0x100 == 0x1_0000 * b0 + 0x100 * b1 + b2;
    v
  }

  function Repeat(b: byte, n: nat): (s: seq<byte>)
    ensures |s| == n
    ensures forall i :: 0 <= i < n ==> s[i] == b
  {
    seq(n, _ => b)
  }

  function Zeros(n: nat): (s: seq<byte>)
    ensures |s| == n
    ensures forall i :: 0 <= i < n ==> s[i] == 0
  {
    Repeat(0, n)
  }

  /** The buffer s after bytes have been copied over it at offset off. */
  function Splice(s: seq<byte>, off: nat, bytes: seq<byte>): (r: seq<byte>)
    requires off + |bytes| <= |s|
    ensures |r| == |s|
  {
    s[..off] + bytes + s[off + |bytes|..]
  }

  lemma SplicePrefix(s: seq<byte>, bytes: seq<byte>)
    requires |bytes| <= |s|
    ensures Splice(s, 0, bytes)[..|bytes|] == bytes
  {
  }

  lemma SpliceNothing(s: seq<byte>)
    ensures Splice(s, 0, []) == s
  {
  }

  /** memcpy(buf + off, bytes, |bytes|). */
  method Put(buf: array<byte>, off: nat, bytes: seq<byte>)
    requires off + |bytes| <= buf.Length
    modifies buf
    ensures buf[..] == Splice(old(buf[..]), off, bytes)
  {
    hide Splice;
    ghost var s := buf[..];
    SpliceStart(s, off, bytes);
    for i := 0 to |bytes|
      invariant buf[..] == Splice(s, off, bytes[..i])
    {
      SpliceStep(s, off, bytes, i);
      buf[off + i] := bytes[i];
    }
    assert bytes[..|bytes|] == bytes;
  }

  lemma SpliceStart(s: seq<byte>, off: nat, bytes: seq<byte>)
    requires off + |bytes| <= |s|
    ensures Splice(s, off, bytes[..0]) == s
  {
  }

  lemma SpliceStep(s: seq<byte>, off: nat, bytes: seq<byte>, i: nat)
    requires off + |bytes| <= |s| && i < |bytes|
    ensures Splice(s, off, bytes[..i])[off + i := bytes[i]] == Splice(s, off, bytes[..i + 1])
  {
  }

  /** The next step of filling a buffer front to back: base is its contents before the first
      step and done what has been written since. */
  method Append(buf: array<byte>, ghost base: seq<byte>, ghost done: seq<byte>, off: nat, bytes: seq<byte>)
      returns (ghost done': seq<byte>)
    requires off == |done| && off + |bytes| <= |base|
    requires buf[..] == Splice(base, 0, done)
    modifies buf
    ensures done' == done + bytes
    ensures buf[..] == Splice(base, 0, done')
  {
    Put(buf, off, bytes);
    done' := done + bytes;
  }

  /** Writing done over the front of a cleared region of n bytes. */
  lemma SpliceIntoZeros(s: seq<byte>, n: nat, done: seq<byte>)
    requires |done| <= n <= |s|
    ensures Splice(Splice(s, 0, Zeros(n)), 0, done) == Splice(s, 0, done + Zeros(n - |done|))
  {
  }
}
