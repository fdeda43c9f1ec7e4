/** Base64 as the two LDIF printers write it and the two parsers read it: no
    line breaks, padded with '='. A character stands for an octet. */
module Base64 {
  import opened Options
  import opened NameText

  /** Every character is an octet. */
  ghost predicate Octets(s: string) {
    forall i :: 0 <= i < |s| ==> s[i] as int < 256
  }

  function Digit(d: nat): (c: char)
    requires d < 64
    ensures IsDigit(c) && DigitValue(c) == d
  {
    if d < 26 then (65 + d) as char
    else if d < 52 then (97 + d - 26) as char
    else if d < 62 then (48 + d - 52) as char
    else if d == 62 then '+' else '/'
  }

  predicate IsDigit(c: char) {
    'A' <= c <= 'Z' || 'a' <= c <= 'z' || '0' <= c <= '9' || c == '+' || c == '/'
  }

  function DigitValue(c: char): (d: nat)
    requires IsDigit(c)
    ensures d < 64
  {
    if 'A' <= c <= 'Z' then c as int - 65
    else if 'a' <= c <= 'z' then c as int - 97 + 26
    else if '0' <= c <= '9' then c as int - 48 + 52
    else if c == '+' then 62 else 63
  }

  /** Three octets as four digits. */
  function Quad(a: nat, b: nat, c: nat): (q: string)
    requires a < 256 && b < 256 && c < 256
    ensures |q| == 4
  {
    [Digit(a / 4), Digit(a % 4 * 16 + b / 16), Digit(b % 16 * 4 + c / 64), Digit(c % 64)]
  }

  function Octet(c: char): nat {
    c as int % 256
  }

  function Encode(s: string): string {
    if s == [] then []
    else if |s| == 1 then Quad(Octet(s[0]), 0, 0)[..2] + "=="
    else if |s| == 2 then Quad(Octet(s[0]), Octet(s[1]), 0)[..3] + "="
    else Quad(Octet(s[0]), Octet(s[1]), Octet(s[2])) + Encode(s[3..])
  }

  type Sextet = d: nat | d < 64

  /** The three octets that four digits make up. */
  function First(a: Sextet, b: Sextet): char {
    (a * 4 + b / 16) as char
  }

  function Second(b: Sextet, c: Sextet): char {
    (b % 16 * 16 + c / 4) as char
  }

  function Third(c: Sextet, d: Sextet): char {
    (c % 4 * 64 + d) as char
  }

  predicate SpareBits(d: Sextet, n: nat)
    requires n > 0
  {
    d % n != 0
  }

  /** None for anything that Encode does not write. */
  function Decode(s: string): Option<string> {
    if s == [] then Some([])
    else if |s| < 4 || !IsDigit(s[0]) || !IsDigit(s[1]) then None
    else
      var a, b := DigitValue(s[0]), DigitValue(s[1]);
      if s[2..] == "==" then (if SpareBits(b, 16) then None else Some([First(a, b)]))
      else if !IsDigit(s[2]) then None
      else
        var c := DigitValue(s[2]);
        if s[3..] == "=" then (if SpareBits(c, 4) then None else Some([First(a, b), Second(b, c)]))
        else if !IsDigit(s[3]) then None
        else Then([First(a, b), Second(b, c), Third(c, DigitValue(s[3]))], Decode(s[4..]))
  }

  /** The digits of a quad give its octets back. */
  lemma QuadValues(a: char, b: char, c: char)
    requires a as int < 256 && b as int < 256 && c as int < 256
    ensures var q := Quad(Octet(a), Octet(b), Octet(c));
            && IsDigit(q[0]) && IsDigit(q[1]) && IsDigit(q[2]) && IsDigit(q[3])
            && First(DigitValue(q[0]), DigitValue(q[1])) == a
            && Second(DigitValue(q[1]), DigitValue(q[2])) == b
            && Third(DigitValue(q[2]), DigitValue(q[3])) == c
            && (b == '\0' && c == '\0' ==> !SpareBits(DigitValue(q[1]), 16))
            && (c == '\0' ==> !SpareBits(DigitValue(q[2]), 4))
  {
    hide IsDigit;
    hide DigitValue;
    hide Digit;
    By16(Octet(a) % 4, Octet(b) / 16);
    By4(Octet(b) % 16, Octet(c) / 64);
  }

  lemma By16(x: nat, y: nat)
    requires y < 16
    ensures (x * 16 + y) / 16 == x && (x * 16 + y) % 16 == y
  {
  }

  lemma By4(x: nat, y: nat)
    requires y < 4
    ensures (x * 4 + y) / 4 == x && (x * 4 + y) % 4 == y
  {
  }

  lemma DecodeQuad(a: char, b: char, c: char, rest: string)
    requires a as int < 256 && b as int < 256 && c as int < 256
    ensures Decode(Quad(Octet(a), Octet(b), Octet(c)) + rest) == Then([a, b, c], Decode(rest))
  {
    var q := Quad(Octet(a), Octet(b), Octet(c));
    var e := q + rest;
    QuadValues(a, b, c);
    assert !IsDigit('=');
    hide IsDigit;
    hide Quad;
    hide DigitValue;
    hide First;
    hide Second;
    hide Third;
    assert e[4..] == rest;
    assert e[2..][0] == e[2] && e[3..][0] == e[3];
  }

  lemma DecodeTwo(a: char, b: char)
    requires a as int < 256 && b as int < 256
    ensures Decode(Encode([a, b])) == Some([a, b])
  {
    var q := Quad(Octet(a), Octet(b), 0);
    var e := q[..3] + "=";
    QuadValues(a, b, '\0');
    assert !IsDigit('=');
    assert Encode([a, b]) == e;
    hide IsDigit;
    hide Quad;
    hide DigitValue;
    hide Encode;
    hide First;
    hide Second;
    hide SpareBits;
    assert e[3..] == "=" && e[2..][0] == e[2];
  }

  lemma DecodeOne(a: char)
    requires a as int < 256
    ensures Decode(Encode([a])) == Some([a])
  {
    var q := Quad(Octet(a), 0, 0);
    var e := q[..2] + "==";
    QuadValues(a, '\0', '\0');
    assert Encode([a]) == e;
    hide IsDigit;
    hide Quad;
    hide DigitValue;
    hide Encode;
    hide First;
    hide Second;
    hide SpareBits;
    assert e[2..] == "==";
  }

  lemma {:induction false} DecodeEncode(s: string)
    requires Octets(s)
    ensures Decode(Encode(s)) == Some(s)
    decreases |s|
  {
    hide Decode;
    hide Quad;
    if s == [] {
      DecodeNothing();
    } else if |s| == 1 {
      assert s == [s[0]];
      DecodeOne(s[0]);
    } else if |s| == 2 {
      assert s == [s[0], s[1]];
      DecodeTwo(s[0], s[1]);
    } else {
      DecodeQuad(s[0], s[1], s[2], Encode(s[3..]));
      DecodeEncode(s[3..]);
      assert s == [s[0], s[1], s[2]] + s[3..];
    }
  }

  lemma DecodeNothing()
    ensures Decode([]) == Some([])
  {
  }

  /** Only digits and padding are written. */
  lemma {:induction false} EncodeAlphabet(s: string)
    ensures forall i :: 0 <= i < |Encode(s)| ==> IsDigit(Encode(s)[i]) || Encode(s)[i] == '='
    ensures s != [] ==> Encode(s) != []
    decreases |s|
  {
    if |s| > 2 {
      EncodeAlphabet(s[3..]);
    }
  }
}
