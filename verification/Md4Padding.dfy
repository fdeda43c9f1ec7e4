/** The end of an MD4 message: sections 3.1 and 3.2 of RFC 1320. */
module Md4Padding {
  import opened Octets

  /** The n lowest octets of a number, the lowest first. */
  function LowOctets(value: nat, n: nat): (r: Bytes)
    ensures |r| == n
  {
    if n == 0 then [] else [value % 256] + LowOctets(value / 256, n - 1)
  }

  // ---------------------------------------------------------- a whole message

  lemma PaddingFills(n: nat)
    ensures var rest := n % 64; var zeros := (119 - rest) % 64;
            rest + zeros + 9 == 64 || rest + zeros + 9 == 128
  {
  }

  /** What fills a message of length `n` up to whole blocks: sections 3.1 and 3.2, a
      one bit, zeros up to eight octets short of a block, and the length in bits,
      modulo 2^64. */
  function Padding(n: nat): Bytes {
    var zeros := (119 - n % 64) % 64;
    [0x80] + seq(zeros, i => 0) + LowOctets(8 * n, 8)
  }

  lemma Divisions(v: nat)
    ensures v / 256 / 256 == v / 0x1_0000 && v / 0x1_0000 / 256 == v / 0x100_0000
    ensures v / 0x100_0000 / 256 == v / 0x1_0000_0000
  {
  }

  lemma Remainder32(v: nat)
    ensures v % 0x1_0000_0000 % 256 == v % 256 && v % 0x1_0000_0000 / 256 == v / 256 % 0x100_0000
  {
  }

  lemma Remainder24(v: nat)
    ensures v % 0x100_0000 % 256 == v % 256 && v % 0x100_0000 / 256 == v / 256 % 0x1_0000
  {
  }

  lemma Remainder16(v: nat)
    ensures v % 0x1_0000 % 256 == v % 256 && v % 0x1_0000 / 256 == v / 256 % 256
  {
  }

  lemma FourOctets(v: nat)
    ensures LowOctets(v, 4) == [v % 256, v / 256 % 256, v / 0x1_0000 % 256, v / 0x100_0000 % 256]
  {
    Divisions(v);
    assert LowOctets(v / 0x1_0000_0000, 0) == [];
    assert LowOctets(v / 0x100_0000, 1) == [v / 0x100_0000 % 256];
    assert LowOctets(v / 0x1_0000, 2) == [v / 0x1_0000 % 256, v / 0x100_0000 % 256];
    assert LowOctets(v / 256, 3) == [v / 256 % 256, v / 0x1_0000 % 256, v / 0x100_0000 % 256];
  }

  lemma FourOfRest(v: nat)
    ensures LowOctets(v % 0x1_0000_0000, 4) == LowOctets(v, 4)
  {
    Remainder32(v);
    Remainder24(v / 256);
    Remainder16(v / 256 / 256);
    var w := v % 0x1_0000_0000;
    FourSteps(v);
    FourSteps(w);
    assert w / 256 == v / 256 % 0x100_0000;
    assert w / 256 / 256 == v / 256 / 256 % 0x1_0000;
    assert w / 256 / 256 / 256 == v / 256 / 256 / 256 % 256;
    hide LowOctets;
  }

  lemma FourSteps(v: nat)
    ensures LowOctets(v, 4) == [v % 256, v / 256 % 256, v / 256 / 256 % 256, v / 256 / 256 / 256 % 256]
  {
    FourOctets(v);
    Divisions(v);
    hide LowOctets;
  }

  lemma EightOctets(v: nat)
    ensures LowOctets(v, 8) == LowOctets(v, 4) + LowOctets(v / 0x1_0000_0000, 4)
  {
    Divisions(v);
    FourOctets(v);
    var high := LowOctets(v / 0x1_0000_0000, 4);
    assert LowOctets(v / 0x100_0000, 5) == [v / 0x100_0000 % 256] + high;
    assert LowOctets(v / 0x1_0000, 6) == [v / 0x1_0000 % 256] + LowOctets(v / 0x100_0000, 5);
    assert LowOctets(v / 256, 7) == [v / 256 % 256] + LowOctets(v / 0x1_0000, 6);
    assert LowOctets(v, 8) == [v % 256] + LowOctets(v / 256, 7);
    hide LowOctets;
  }

  /** The two words of the length are its eight octets. */
  lemma LengthOctets(bits: nat)
    ensures LowOctets(bits % 0x1_0000_0000, 4) + LowOctets(bits / 0x1_0000_0000 % 0x1_0000_0000, 4) ==
              LowOctets(bits, 8)
  {
    hide LowOctets;
    FourOfRest(bits);
    FourOfRest(bits / 0x1_0000_0000);
    EightOctets(bits);
  }

  /** What is processed last: what is left over, and the padding. */
  function Tail(count: nat, buf: Bytes): Bytes {
    var bits := count * 512 + |buf| * 8;
    buf + [0x80] + seq((119 - |buf| % 64) % 64, i => 0) +
    (LowOctets(bits % 0x1_0000_0000, 4) + LowOctets(bits / 0x1_0000_0000 % 0x1_0000_0000, 4))
  }

  lemma Rest(count: nat, n: nat)
    requires n < 64
    ensures (count * 64 + n) % 64 == n == n % 64
  {
  }

  lemma TailIs(count: nat, buf: Bytes)
    requires |buf| < 64
    ensures Tail(count, buf) == buf + Padding(count * 64 + |buf|)
  {
    var n := count * 64 + |buf|;
    Rest(count, |buf|);
    LengthOctets(8 * n);
    hide LowOctets;
    Regroup(buf, [0x80], seq((119 - |buf|) % 64, i => 0), LowOctets(8 * n, 8));
  }

  lemma PaddingLength(n: nat)
    ensures n % 64 + |Padding(n)| == 64 || n % 64 + |Padding(n)| == 128
  {
    PaddingFills(n);
  }

  lemma Regroup(a: Bytes, b: Bytes, c: Bytes, d: Bytes)
    ensures a + b + c + d == a + (b + c + d)
  {
  }
}
