/** ldap/dn.py: the python-ldap spelling of distinguished names. Text is read as
    its UTF-8 octets, each a character; that a value's octets are UTF-8, which
    the source checks last, is not looked into. */
module PyDn {
  import opened Options
  import opened DistinguishedName
  import opened NameText

  const AVA_STRING := 1
  const AVA_NONPRINTABLE := 4

  datatype PyAva = PyAva(attribute: string, value: string, flag: int)
  type PyRdn = seq<PyAva>
  type PyDN = seq<PyRdn>

  predicate IsAlpha(c: char) {
    'a' <= c <= 'z' || 'A' <= c <= 'Z'
  }

  predicate IsDigit(c: char) {
    '0' <= c <= '9'
  }

  /** [0-9]+ and then, if `dots` is still to come or not, (\.[0-9]+) again. */
  predicate IsNumericOid(s: string, dotSeen: bool) {
    if s == [] then false
    else if !IsDigit(s[0]) then false
    else if |s| == 1 then dotSeen
    else if s[1] == '.' then IsNumericOid(s[2..], true)
    else IsNumericOid(s[1..], dotSeen)
  }

  /** The regular expression that an attribute type has to match. */
  predicate IsType(s: string) {
    || (s != [] && IsAlpha(s[0]) && forall i :: 0 <= i < |s| ==> IsAlpha(s[i]) || IsDigit(s[i]) || s[i] == '-')
    || IsNumericOid(s, false)
  }

  function Flag(value: string): int {
    if forall i :: 0 <= i < |value| ==> 32 <= value[i] as int < 127 then AVA_STRING else AVA_NONPRINTABLE
  }

  /** How _unescape reads the escape at the start of `s`. */
  function UnescapeOctets(s: string): Option<string> {
    if s == [] then Some([])
    else if s[0] != '\\' then Then([s[0]], UnescapeOctets(s[1..]))
    else if |s| >= 3 && IsHex(s[1]) && IsHex(s[2]) then
      Then([(HexValue(s[1]) * 16 + HexValue(s[2])) as char], UnescapeOctets(s[3..]))
    else if |s| >= 2 then Then([s[1]], UnescapeOctets(s[2..]))
    else None
  }

  /** _unescape, as it is written, up to the UTF-8 decoding at its end. */
  method UnescapeOctetsLoop(text: string) returns (r: Option<string>)
    ensures r == UnescapeOctets(text)
  {
    var raw, index := "", 0;
    ThenNothing(UnescapeOctets(text));
    assert text[0..] == text;
    while index < |text|
      invariant 0 <= index <= |text|
      invariant UnescapeOctets(text) == Then(raw, UnescapeOctets(text[index..]))
      decreases |text| - index
    {
      var c := text[index];
      var n := 1;
      if c == '\\' {
        if index + 3 <= |text| && IsHex(text[index + 1]) && IsHex(text[index + 2]) {
          c, n := (HexValue(text[index + 1]) * 16 + HexValue(text[index + 2])) as char, 3;
        } else if |text| > index + 1 {
          c, n := text[index + 1], 2;
        } else {
          return None;
        }
      }
      ThenThen(raw, [c], UnescapeOctets(text[index + n..]));
      assert text[index..][n..] == text[index + n..];
      raw, index := raw + [c], index + n;
    }
    assert raw + [] == raw;
    r := Some(raw);
  }

  function ParsePyAva(text: string): Parsed<PyAva> {
    if '=' !in text then Invalid
    else
      var i := IndexOf(text, '=');
      var value := UnescapeOctets(text[i + 1..]);
      if IsType(text[..i]) && value.Some? then Good(PyAva(text[..i], value.value, Flag(value.value))) else Invalid
  }

  /** _split: the parts must make up the whole text again. */
  function Parts(text: string, separator: char): Parsed<seq<string>> {
    var parts := Split(text, separator);
    if parts == [] || Join(parts, separator) != text then Invalid else Good(parts)
  }

  function ParsePyRdn(text: string): Parsed<PyRdn> {
    var parts := Parts(text, '+');
    if parts.Good? then ParseAll(parts.value, ParsePyAva) else Invalid
  }

  function Str2dn(text: string): Parsed<PyDN> {
    if text == [] then Good([])
    else
      var parts := Parts(text, ',');
      if parts.Good? then ParseAll(parts.value, ParsePyRdn) else Invalid
  }

  function PyAvaText(x: PyAva): string {
    AvaText(Ava(x.attribute, x.value))
  }

  function PyRdnText(r: PyRdn): string {
    Join(seq(|r|, i requires 0 <= i < |r| => PyAvaText(r[i])), '+')
  }

  function Dn2str(d: PyDN): string {
    Join(seq(|d|, i requires 0 <= i < |d| => PyRdnText(d[i])), ',')
  }

  // ------------------------------------------------ _unescape undoes escape

  lemma OctetsOfChar(c: char, t: string)
    ensures UnescapeOctets(EscapeChar(c) + t) == Then([c], UnescapeOctets(t))
  {
    var e := EscapeChar(c);
    assert (e + t)[|e|..] == t;
    if c !in SPECIALS && c as int <= 31 {
      HexDigits(c as int / 16);
      HexDigits(c as int % 16);
    }
  }

  lemma {:induction false} OctetsOfMiddle(s: string, t: string)
    ensures UnescapeOctets(EscapeMiddle(s) + t) == Then(s, UnescapeOctets(t))
  {
    hide UnescapeOctets;
    hide EscapeChar;
    hide Then;
    if s == [] {
      assert EscapeMiddle(s) + t == t;
      ThenNothing(UnescapeOctets(t));
    } else {
      assert EscapeMiddle(s) + t == EscapeChar(s[0]) + (EscapeMiddle(s[1..]) + t);
      OctetsOfChar(s[0], EscapeMiddle(s[1..]) + t);
      OctetsOfMiddle(s[1..], t);
      ThenThen([s[0]], s[1..], UnescapeOctets(t));
      assert [s[0]] + s[1..] == s;
    }
  }

  lemma OctetsOfQuoted(q: string, t: string)
    requires q == [] || (|q| == 1 && Edge(q[0]))
    ensures UnescapeOctets(Quoted(q) + t) == Then(q, UnescapeOctets(t))
  {
    if q == [] {
      assert Quoted(q) + t == t;
      ThenNothing(UnescapeOctets(t));
    } else {
      assert (Quoted(q) + t)[2..] == t;
      assert [(Quoted(q) + t)[1]] == q;
    }
  }

  lemma OctetsOfEscape(s: string)
    ensures UnescapeOctets(Escape(s)) == Some(s)
  {
    var h, m, e := Head(s), Middle(s), Tail(s);
    SplitInThree(s);
    hide *;
    assert UnescapeOctets([]) == Some([]) by { EmptyOctets(); }
    assert Escape(s) == Quoted(h) + (EscapeMiddle(m) + (Quoted(e) + [])) by { EscapeParts(s); }
    OctetsOfQuoted(e, []);
    OctetsOfMiddle(m, Quoted(e) + []);
    OctetsOfQuoted(h, EscapeMiddle(m) + (Quoted(e) + []));
    ThenThen(m, e, UnescapeOctets([]));
    ThenThen(h, m + e, UnescapeOctets([]));
    ThenEmpty(s);
  }

  lemma EmptyOctets()
    ensures UnescapeOctets([]) == Some([])
  {
  }

  lemma EscapeParts(s: string)
    ensures Escape(s) == Quoted(Head(s)) + (EscapeMiddle(Middle(s)) + (Quoted(Tail(s)) + []))
  {
  }

  lemma ThenEmpty(s: string)
    ensures Then(s, Some([])) == Some(s)
  {
    assert s + [] == s;
  }

  // ------------------------------------------------------ parsing what printed

  /** A string of letters, digits, hyphens and dots. */
  ghost predicate TypeChars(s: string) {
    forall i :: 0 <= i < |s| ==> IsAlpha(s[i]) || IsDigit(s[i]) || s[i] == '-' || s[i] == '.'
  }

  lemma {:induction false} OidChars(s: string, dotSeen: bool)
    requires IsNumericOid(s, dotSeen)
    ensures TypeChars(s)
    decreases |s|
  {
    if |s| > 1 {
      var n := if s[1] == '.' then 2 else 1;
      OidChars(s[n..], if n == 2 then true else dotSeen);
      assert s == s[..n] + s[n..];
    }
  }

  lemma {:induction false} MiddleOfType(s: string)
    requires TypeChars(s)
    ensures EscapeMiddle(s) == s
  {
    if s != [] {
      assert EscapeChar(s[0]) == [s[0]];
      MiddleOfType(s[1..]);
    }
  }

  lemma TypeIsPlain(s: string)
    requires IsType(s)
    ensures TypeChars(s)
  {
    if IsNumericOid(s, false) {
      OidChars(s, false);
    }
  }

  lemma PlainEdges(s: string)
    requires TypeChars(s)
    ensures Head(s) == [] && Tail(s) == [] && Middle(s) == s && '=' !in s
  {
    assert s[0..] == s && s[0..|s|] == s;
  }

  /** An attribute type is written as it is. */
  lemma EscapeOfType(s: string)
    requires IsType(s)
    ensures Escape(s) == s && '=' !in s
  {
    TypeIsPlain(s);
    PlainEdges(s);
    hide IsType;
    hide Head;
    hide Tail;
    hide Middle;
    MiddleOfType(s);
    assert [] + s + [] == s;
  }

  predicate GoodAva(x: PyAva) {
    IsType(x.attribute) && x.flag == Flag(x.value)
  }

  lemma FirstEquals(ty: string, rest: string)
    requires '=' !in ty
    ensures var s := ty + ['='] + rest;
            '=' in s && IndexOf(s, '=') == |ty| && s[..|ty|] == ty && s[|ty| + 1..] == rest
  {
    IndexOfConcat(ty, rest, '=');
  }

  lemma ParsePyAvaText(x: PyAva)
    ensures ParsePyAva(PyAvaText(x)) == Good(x) <==> GoodAva(x)
  {
    hide IsType;
    hide UnescapeOctets;
    hide Flag;
    hide Escape;
    hide IndexOf;
    if IsType(x.attribute) {
      EscapeOfType(x.attribute);
      OctetsOfEscape(x.value);
      FirstEquals(x.attribute, Escape(x.value));
    }
  }

  predicate GoodRdn(r: PyRdn) {
    r != [] && forall i :: 0 <= i < |r| ==> GoodAva(r[i])
  }

  /** Parts as the printers make them are split apart again, unless there are
      none or there is one and it is empty. */
  lemma PartsBack(parts: seq<string>, separator: char)
    requires separator != '\\' && separator != ' '
    requires forall p :: p in parts ==> Part(p, separator)
    ensures Parts(Join(parts, separator), separator) == if parts == [] || parts == [""] then Invalid else Good(parts)
  {
    SplitsBack(parts, separator);
    assert Join([""], separator) == "";
  }

  lemma PyAvaTexts(r: PyRdn, separator: char)
    requires separator == ',' || separator == '+'
    ensures var parts := seq(|r|, i requires 0 <= i < |r| => PyAvaText(r[i]));
            forall p :: p in parts ==> Part(p, separator) && p != []
  {
    var parts := seq(|r|, i requires 0 <= i < |r| => PyAvaText(r[i]));
    forall p | p in parts ensures Part(p, separator) && p != [] {
      var i :| 0 <= i < |r| && p == PyAvaText(r[i]);
      AvaTextPart(Ava(r[i].attribute, r[i].value), separator);
    }
  }

  lemma ParsePyRdnText(r: PyRdn)
    ensures ParsePyRdn(PyRdnText(r)) == Good(r) <==> GoodRdn(r)
  {
    var parts := seq(|r|, i requires 0 <= i < |r| => PyAvaText(r[i]));
    PyAvaTexts(r, '+');
    assert "" !in parts && "" in [""];
    PartsBack(parts, '+');
    ParseAllBack(parts, ParsePyAva, r);
    forall i | 0 <= i < |r| ensures ParsePyAva(parts[i]) == Good(r[i]) <==> GoodAva(r[i]) {
      ParsePyAvaText(r[i]);
    }
  }

  lemma PyRdnTextPart(r: PyRdn)
    ensures Part(PyRdnText(r), ',') && (PyRdnText(r) == [] <==> r == [])
  {
    PyAvaTexts(r, ',');
    JoinPart(seq(|r|, i requires 0 <= i < |r| => PyAvaText(r[i])));
  }

  /** str2dn undoes dn2str exactly on the names whose RDNs all hold something,
      whose types are attribute types, and whose flags are what str2dn says. */
  lemma Str2dnText(d: PyDN)
    ensures Str2dn(Dn2str(d)) == Good(d) <==> forall i :: 0 <= i < |d| ==> GoodRdn(d[i])
  {
    var parts := seq(|d|, i requires 0 <= i < |d| => PyRdnText(d[i]));
    forall p | p in parts ensures Part(p, ',') {
      var i :| 0 <= i < |d| && p == PyRdnText(d[i]);
      PyRdnTextPart(d[i]);
    }
    PartsBack(parts, ',');
    SplitsBack(parts, ',');
    assert parts == [""] <==> d == [[]] by {
      if |d| == 1 { PyRdnTextPart(d[0]); assert d == [d[0]] && parts == [PyRdnText(d[0])]; }
    }
    ParseAllBack(parts, ParsePyRdn, d);
    forall i | 0 <= i < |d| ensures ParsePyRdn(parts[i]) == Good(d[i]) <==> GoodRdn(d[i]) {
      ParsePyRdnText(d[i]);
    }
    if d == [[]] {
      assert !GoodRdn(d[0]);
      assert Dn2str(d) == "";
    }
  }
}
