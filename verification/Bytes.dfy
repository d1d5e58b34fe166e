/** Bytes and the two fixed-width integer layouts the program uses: the host's
    little-endian order for the length word of the internal queue and for the
    kernel's notification records, and XDR's big-endian order on the wire. */
module Bytes {
  newtype byte = x: int | 0 <= x < 256

  /** 256 to the power w: the number of values that fit into w bytes. */
  function Values(w: nat): (v: nat)
    ensures v > 0
  {
    if w == 0 then 1 else 256 * Values(w - 1)
  }

  function LittleEndian(n: nat, w: nat): (s: seq<byte>)
    ensures |s| == w
    decreases w
  {
    if w == 0 then [] else [(n % 256) as byte] + LittleEndian(n / 256, w - 1)
  }

  function FromLittleEndian(s: seq<byte>): (n: nat)
    ensures n < Values(|s|)
  {
    if s == [] then 0 else s[0] as int + 256 * FromLittleEndian(s[1..])
  }

  lemma {:induction false} LittleEndianInverse(n: nat, w: nat)
    requires n < Values(w)
    ensures FromLittleEndian(LittleEndian(n, w)) == n
    decreases w
  {
    if w > 0 {
      LittleEndianInverse(n / 256, w - 1);
      assert LittleEndian(n, w)[1..] == LittleEndian(n / 256, w - 1);
    }
  }

  function BigEndian(n: nat, w: nat): (s: seq<byte>)
    ensures |s| == w
    decreases w
  {
    if w == 0 then [] else BigEndian(n / 256, w - 1) + [(n % 256) as byte]
  }

  function FromBigEndian(s: seq<byte>): (n: nat)
    ensures n < Values(|s|)
  {
    if s == [] then 0 else 256 * FromBigEndian(s[..|s| - 1]) + s[|s| - 1] as int
  }

  lemma {:induction false} BigEndianInverse(n: nat, w: nat)
    requires n < Values(w)
    ensures FromBigEndian(BigEndian(n, w)) == n
    decreases w
  {
    if w > 0 {
      BigEndianInverse(n / 256, w - 1);
      assert BigEndian(n, w)[..w - 1] == BigEndian(n / 256, w - 1);
    }
  }

  /** Two's complement, the way a 32-bit word is read back as a signed int. */
  function ToSigned32(u: nat): (i: int)
    requires u < 0x1_0000_0000
    ensures -0x8000_0000 <= i < 0x8000_0000 && (i - u) % 0x1_0000_0000 == 0
  {
    if u < 0x8000_0000 then u else u - 0x1_0000_0000
  }

  function FromSigned32(i: int): (u: nat)
    requires -0x8000_0000 <= i < 0x8000_0000
    ensures u < 0x1_0000_0000 && ToSigned32(u) == i
  {
    if i >= 0 then i else i + 0x1_0000_0000
  }

  lemma ValuesOf()
    ensures Values(4) == 0x1_0000_0000 && Values(8) == 0x1_0000_0000_0000_0000
  {
  }

  lemma Join(a: seq<byte>, b: seq<byte>, c: seq<byte>)
    ensures (a + b) + c == a + (b + c)
  {
  }

  lemma Halves(s: seq<byte>, n: nat)
    requires n <= |s|
    ensures s[..n] + s[n..] == s
  {
  }

  lemma Parts(a: seq<byte>, b: seq<byte>)
    ensures (a + b)[..|a|] == a && (a + b)[|a|..] == b
  {
  }

  /** The beginning of two pieces ends in the first or in the second. */
  lemma CutPair(p: seq<byte>, a: seq<byte>, b: seq<byte>)
    requires p <= a + b
    ensures |p| < |a| ==> p < a
    ensures |p| >= |a| ==> p == a + p[|a|..] && p[|a|..] <= b
  {
  }
}
