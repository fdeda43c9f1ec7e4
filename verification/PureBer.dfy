/** pureber.py: integers, lengths and the framing of one BER object. */
module PureBer {
  import opened Octets

  // ---------------------------------------------------------------- integers

  /** int2ber. */
  function Int2Ber(i: int, signed: bool): (r: Bytes)
    ensures r != []
    decreases if i < 0 then -i else i
  {
    if (signed && (i > 127 || i < -128)) || (!signed && i > 255) then Int2Ber(i / 256, signed) + [i % 256]
    else [i % 256]
  }

  /** ber2int, on at least one octet. */
  function Ber2Int(e: Bytes, signed: bool): int
    requires e != []
    decreases |e|
  {
    if |e| == 1 then (if signed && e[0] >= 128 then e[0] - 256 else e[0])
    else Ber2Int(e[..|e| - 1], signed) * 256 + e[|e| - 1]
  }

  method Int2BerLoop(value: int, signed: bool) returns (encoded: Bytes)
    ensures encoded == Int2Ber(value, signed)
  {
    var i := value;
    encoded := [];
    while (signed && (i > 127 || i < -128)) || (!signed && i > 255)
      invariant Int2Ber(value, signed) == Int2Ber(i, signed) + encoded
      decreases if i < 0 then -i else i
    {
      assert Int2Ber(i / 256, signed) + [i % 256] + encoded == Int2Ber(i / 256, signed) + ([i % 256] + encoded);
      encoded := [i % 256] + encoded;
      i := i / 256;
    }
    encoded := [i % 256] + encoded;
  }

  method Ber2IntLoop(e: Bytes, signed: bool) returns (v: int)
    requires e != []
    ensures v == Ber2Int(e, signed)
  {
    v := e[0];
    if v >= 128 && signed {
      v := v - 256;
    }
    for i := 1 to |e|
      invariant v == Ber2Int(e[..i], signed)
    {
      assert e[..i + 1][..i] == e[..i];
      v := v * 256 + e[i];
    }
    assert e[..|e|] == e;
  }

  /** Every integer comes back, and in no fewer octets could it have been sent. */
  lemma {:induction false} IntegerBack(i: int, signed: bool)
    requires signed || i >= 0
    ensures Ber2Int(Int2Ber(i, signed), signed) == i
    decreases if i < 0 then -i else i
  {
    if (signed && (i > 127 || i < -128)) || (!signed && i > 255) {
      IntegerBack(i / 256, signed);
      var e := Int2Ber(i, signed);
      assert e[..|e| - 1] == Int2Ber(i / 256, signed);
    }
  }

  lemma {:induction false} IntegerShortest(e: Bytes, signed: bool)
    requires e != []
    ensures |Int2Ber(Ber2Int(e, signed), signed)| <= |e|
    ensures |Int2Ber(Ber2Int(e, signed), signed)| == |e| ==> e == Int2Ber(Ber2Int(e, signed), signed)
    decreases |e|
  {
    if |e| > 1 {
      var n := |e| - 1;
      var i, high := Ber2Int(e, signed), Ber2Int(e[..n], signed);
      assert i / 256 == high && i % 256 == e[n];
      IntegerShortest(e[..n], signed);
      assert e == e[..n] + [e[n]];
    }
  }

  function Pow256(n: nat): nat {
    if n == 0 then 1 else 256 * Pow256(n - 1)
  }

  lemma {:induction false} UnsignedSize(i: nat, n: nat)
    requires n > 0
    ensures |Int2Ber(i, false)| <= n <==> i < Pow256(n)
    decreases n
  {
    if n == 1 {
      assert Pow256(1) == 256 * Pow256(0);
    } else if i > 255 {
      UnsignedSize(i / 256, n - 1);
      assert i < 256 * Pow256(n - 1) <==> i / 256 < Pow256(n - 1);
    } else {
      PowGrows(n);
    }
  }

  lemma {:induction false} PowGrows(n: nat)
    requires n > 0
    ensures Pow256(n) >= 256
  {
    if n > 1 { PowGrows(n - 1); }
  }

  /** The k octets that stand for n, the highest first. */
  function BigEndian(n: nat, k: nat): Bytes {
    if k == 0 then [] else BigEndian(n / 256, k - 1) + [n % 256]
  }

  lemma UpperHalf(n: nat, half: nat)
    ensures 2 * n >= 256 * (2 * half) <==> 2 * (n / 256) >= 2 * half
  {
  }

  /** Any octets read as the number that they stand for: from half their range on
      less by the whole of it, where they are signed. */
  lemma {:induction false} OctetsRead(n: nat, k: nat, signed: bool)
    requires k > 0 && n < Pow256(k)
    ensures |BigEndian(n, k)| == k
    ensures Ber2Int(BigEndian(n, k), signed) == if signed && 2 * n >= Pow256(k) then n - Pow256(k) else n
    decreases k
  {
    if k == 1 {
      assert BigEndian(n, 1) == [n] by { assert BigEndian(n / 256, 0) == []; }
      assert Pow256(1) == 256 * Pow256(0);
    } else {
      OctetsRead(n / 256, k - 1, signed);
      var e := BigEndian(n, k);
      assert e[..k - 1] == BigEndian(n / 256, k - 1) && e[k - 1] == n % 256;
      UpperHalf(n, 128 * Pow256(k - 2));
      assert Pow256(k - 1) == 256 * Pow256(k - 2);
    }
  }

  /** What int2ber writes unsigned is the shortest of these. */
  lemma {:induction false} UnsignedIs(n: nat)
    ensures Int2Ber(n, false) == BigEndian(n, |Int2Ber(n, false)|)
    decreases n
  {
    if n > 255 {
      UnsignedIs(n / 256);
    } else {
      assert BigEndian(n / 256, 0) == [];
    }
  }

  // ----------------------------------------------------------------- lengths

  /** The assertion int2berlen makes: the number of length octets fits in seven
      bits. */
  predicate Fits(n: nat) {
    |Int2Ber(n, false)| <= 127
  }

  lemma FitsMeans(n: nat)
    ensures Fits(n) <==> n < Pow256(127)
  {
    hide Pow256;
    UnsignedSize(n, 127);
  }

  lemma {:induction false} SizeGrows(m: nat, n: nat)
    requires m <= n
    ensures |Int2Ber(m, false)| <= |Int2Ber(n, false)|
    decreases n
  {
    if m > 255 { SizeGrows(m / 256, n / 256); }
  }

  /** int2berlen. */
  function LengthBytes(n: nat): (r: Bytes)
    requires Fits(n)
    ensures r != []
  {
    var e := Int2Ber(n, false);
    if n <= 127 then e else [128 + |e|] + e
  }

  datatype Length = Length(length: nat, used: nat) | Missing(count: nat)

  lemma {:induction false} UnsignedIsNat(e: Bytes)
    requires e != []
    ensures Ber2Int(e, false) >= 0
    decreases |e|
  {
    if |e| > 1 { UnsignedIsNat(e[..|e| - 1]); }
  }

  /** berDecodeLength on what starts with a length. A length octet of 0x80, the
      indefinite form, leaves ber2int without an octet: it is taken for data
      still to come. */
  function DecodeLength(m: Bytes): Length
    requires m != []
  {
    if m[0] < 128 then Length(m[0], 1)
    else
      var ll := 1 + (m[0] - 128);
      if |m| < ll then Missing(ll - |m|)
      else if ll == 1 then Missing(1)
      else
        UnsignedIsNat(m[1..ll]);
        Length(Ber2Int(m[1..ll], false), ll)
  }

  /** The octets of a length: one octet below 128, or 128 and how many octets follow,
      which need not be as few as possible. */
  ghost predicate IsLength(l: Bytes, n: nat) {
    (n < 128 && l == [n]) || exists k :: IsLongLength(l, n, k)
  }

  predicate IsLongLength(l: Bytes, n: nat, k: nat) {
    1 <= k <= 127 && n < Pow256(k) && l == [128 + k] + BigEndian(n, k)
  }

  /** A length in any of its forms is read, whatever comes after it. */
  lemma LengthReads(l: Bytes, n: nat, rest: Bytes)
    requires IsLength(l, n)
    ensures l != [] && DecodeLength(l + rest) == Length(n, |l|)
  {
    if !(n < 128 && l == [n]) {
      var k :| IsLongLength(l, n, k);
      OctetsRead(n, k, false);
      assert (l + rest)[1..1 + k] == BigEndian(n, k);
    }
  }

  /** What int2berlen writes is such a length. */
  lemma LengthBytesAre(n: nat)
    requires Fits(n)
    ensures IsLength(LengthBytes(n), n)
  {
    if n > 127 {
      var k := |Int2Ber(n, false)|;
      UnsignedIs(n);
      UnsignedSize(n, k);
      assert IsLongLength(LengthBytes(n), n, k);
    }
  }

  /** A length reads back, whatever comes after it. */
  lemma LengthBack(n: nat, rest: Bytes)
    requires Fits(n)
    ensures DecodeLength(LengthBytes(n) + rest) == Length(n, |LengthBytes(n)|)
  {
    var e := Int2Ber(n, false);
    IntegerBack(n, false);
    if n > 127 {
      var m := LengthBytes(n) + rest;
      assert m[0] == 128 + |e|;
      assert m[1..1 + |e|] == e;
    }
  }

  /** A length cut short is seen to be, and no more octets are asked for than it
      still has. */
  lemma LengthCut(n: nat, k: nat)
    requires Fits(n) && 0 < k < |LengthBytes(n)|
    ensures DecodeLength(LengthBytes(n)[..k]) == Missing(|LengthBytes(n)| - k)
  {
  }

  lemma LengthMore(m: Bytes, more: Bytes)
    requires m != []
    ensures DecodeLength(m).Length? ==> DecodeLength(m + more) == DecodeLength(m) && DecodeLength(m).used <= |m|
  {
    if DecodeLength(m).Length? && m[0] >= 128 {
      var ll := 1 + (m[0] - 128);
      assert (m + more)[1..ll] == m[1..ll];
    }
  }

  // ------------------------------------------------------------------ frames

  /** The first octet without the constructed bit, as tags are looked up. */
  function Masked(b: Byte): Byte {
    if b / 32 % 2 == 1 then b - 32 else b
  }

  /** An object's identification, length and content. */
  function Tlv(id: Byte, content: Bytes): Bytes
    requires Fits(|content|)
  {
    [id] + LengthBytes(|content|) + content
  }

  datatype Framed =
    | Frame(tag: Byte, content: Bytes, used: nat)
    | NoData
    | Incomplete(missing: nat)

  /** What berDecodeObject does before it looks the tag up. */
  function ReadFrame(m: Bytes): (r: Framed)
    ensures r.Frame? ==> 2 <= r.used <= |m| && |r.content| + 2 <= r.used
  {
    if m == [] then NoData
    else if |m| < 2 then Incomplete(2 - |m|)
    else
      match DecodeLength(m[1..])
      case Missing(count) => Incomplete(count)
      case Length(length, ll) =>
        if |m| < 1 + ll + length then Incomplete(1 + ll + length - |m|)
        else Frame(Masked(m[0]), m[1 + ll..1 + ll + length], 1 + ll + length)
  }

  /** Tags are looked up without the bit of value 32, with the two above and the five
      below it. */
  lemma MaskedIs(b: Byte)
    ensures Masked(b) == b / 64 * 64 + b % 32
  {
  }

  /** A whole frame whose length is in any of its forms is read, whatever follows. */
  lemma FrameReads(id: Byte, l: Bytes, content: Bytes, rest: Bytes)
    requires IsLength(l, |content|)
    ensures ReadFrame([id] + l + content + rest) == Frame(Masked(id), content, 1 + |l| + |content|)
  {
    hide DecodeLength;
    hide Masked;
    var m := [id] + l + content + rest;
    assert m[1..] == l + (content + rest);
    LengthReads(l, |content|, content + rest);
    hide IsLength;
    assert m[1 + |l|..1 + |l| + |content|] == content;
  }

  /** And no strict prefix of it is. */
  lemma FrameCutAnywhere(id: Byte, l: Bytes, content: Bytes, k: nat)
    requires IsLength(l, |content|) && 0 < k < 1 + |l| + |content|
    ensures ReadFrame(([id] + l + content)[..k]).Incomplete?
  {
    var m := [id] + l + content;
    FrameReads(id, l, content, []);
    assert m + [] == m && m[..k] + m[k..] == m;
    FrameMore(m[..k], m[k..]);
    hide DecodeLength;
  }

  /** A whole frame is read, whatever follows it. */
  lemma FrameBack(id: Byte, content: Bytes, rest: Bytes)
    requires Fits(|content|)
    ensures ReadFrame(Tlv(id, content) + rest) == Frame(Masked(id), content, |Tlv(id, content)|)
  {
    hide LengthBytes;
    hide DecodeLength;
    hide Masked;
    var l := LengthBytes(|content|);
    var m := Tlv(id, content) + rest;
    assert m[1..] == l + (content + rest);
    LengthBack(|content|, content + rest);
    assert m[1 + |l|..1 + |l| + |content|] == content;
  }

  /** Every non-empty strict prefix of a frame is seen to be one: octets are
      missing, and not more are asked for than the frame still has. */
  lemma FrameCut(id: Byte, content: Bytes, k: nat)
    requires Fits(|content|) && 0 < k < |Tlv(id, content)|
    ensures var r := ReadFrame(Tlv(id, content)[..k]);
            r.Incomplete? && 0 < r.missing <= |Tlv(id, content)| - k
  {
    hide LengthBytes;
    hide DecodeLength;
    hide Masked;
    var l := LengthBytes(|content|);
    var t := Tlv(id, content);
    var m := t[..k];
    if k >= 2 {
      if k - 1 < |l| {
        assert m[1..] == l[..k - 1];
        LengthCut(|content|, k - 1);
      } else {
        assert m[1..] == l + content[..k - 1 - |l|];
        LengthBack(|content|, content[..k - 1 - |l|]);
      }
    }
  }

  /** Data that comes later makes no difference to a frame that is there. */
  lemma FrameMore(m: Bytes, more: Bytes)
    ensures ReadFrame(m).Frame? ==> ReadFrame(m + more) == ReadFrame(m)
  {
    hide DecodeLength;
    hide Masked;
    if ReadFrame(m).Frame? {
      LengthMore(m[1..], more);
      assert (m + more)[1..] == m[1..] + more;
      var n := DecodeLength(m[1..]);
      assert (m + more)[1 + n.used..1 + n.used + n.length] == m[1 + n.used..1 + n.used + n.length];
    }
  }

  /** And a frame is there as soon as its last octet is. */
  lemma FrameEnough(m: Bytes, n: nat)
    requires ReadFrame(m).Frame? && ReadFrame(m).used <= n <= |m|
    ensures ReadFrame(m[..n]) == ReadFrame(m)
  {
    hide Masked;
    var l := DecodeLength(m[1..]);
    LengthEnough(m[1..], n - 1);
    assert m[..n][1..] == m[1..][..n - 1];
    assert m[..n][1 + l.used..1 + l.used + l.length] == m[1 + l.used..1 + l.used + l.length];
  }

  lemma LengthEnough(m: Bytes, n: nat)
    requires m != [] && DecodeLength(m).Length? && DecodeLength(m).used <= n <= |m|
    ensures n > 0 && DecodeLength(m[..n]) == DecodeLength(m)
  {
    if m[0] >= 128 {
      assert m[..n][1..DecodeLength(m).used] == m[1..DecodeLength(m).used];
    }
  }
}
