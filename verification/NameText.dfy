/** Distinguished names as text: the escaping, splitting, printing and parsing
    of distinguishedname.py. Text is a string of code points; what is escaped
    and split on is ASCII, so it may as well be read as UTF-8 octets. */
module NameText {
  import opened Options
  import opened Sequences
  import opened DistinguishedName

  const SPECIALS := ",+\"\\<>;="
  const HEX_UPPER := "0123456789ABCDEF"

  // ---------------------------------------------------------------- escaping

  function EscapeChar(c: char): string {
    if c in SPECIALS then ['\\', c]
    else if c as int <= 31 then ['\\', HEX_UPPER[c as int / 16], HEX_UPPER[c as int % 16]]
    else [c]
  }

  function EscapeMiddle(s: string): string {
    if s == [] then [] else EscapeChar(s[0]) + EscapeMiddle(s[1..])
  }

  predicate Edge(c: char) {
    c == ' ' || c == '#'
  }

  /** The three parts that escape() treats apart. */
  function Head(s: string): string {
    if s != [] && Edge(s[0]) then s[..1] else []
  }

  function Tail(s: string): string {
    var rest := s[|Head(s)|..];
    if rest != [] && Edge(rest[|rest| - 1]) then rest[|rest| - 1..] else []
  }

  function Middle(s: string): string {
    s[|Head(s)|..|s| - |Tail(s)|]
  }

  function Quoted(s: string): string {
    if s == [] then [] else ['\\'] + s
  }

  function Escape(s: string): string {
    Quoted(Head(s)) + EscapeMiddle(Middle(s)) + Quoted(Tail(s))
  }

  lemma {:induction false} EscapeMiddleSnoc(s: string, c: char)
    ensures EscapeMiddle(s + [c]) == EscapeMiddle(s) + EscapeChar(c)
  {
    if s == [] {
      assert [c][1..] == [];
      assert s + [c] == [c];
    } else {
      assert (s + [c])[1..] == s[1..] + [c];
      EscapeMiddleSnoc(s[1..], c);
    }
  }

  /** escape(), as it is written. */
  method EscapeLoop(text: string) returns (r: string)
    ensures r == Escape(text)
  {
    var s, trailer := text, "";
    r := "";
    if s != "" && Edge(s[0]) {
      r := ['\\', s[0]];
      s := s[1..];
    }
    assert r == Quoted(Head(text)) && s == text[|Head(text)|..];
    if s != "" && Edge(s[|s| - 1]) {
      trailer := ['\\', s[|s| - 1]];
      s := s[..|s| - 1];
    }
    assert trailer == Quoted(Tail(text));
    assert s == Middle(text);
    var middle := EscapeEach(s);
    r := r + middle + trailer;
  }

  method EscapeEach(s: string) returns (r: string)
    ensures r == EscapeMiddle(s)
  {
    r := "";
    for i := 0 to |s|
      invariant r == EscapeMiddle(s[..i])
    {
      assert s[..i + 1] == s[..i] + [s[i]];
      EscapeMiddleSnoc(s[..i], s[i]);
      var c := s[i];
      if c in SPECIALS {
        r := r + ['\\', c];
      } else if c as int <= 31 {
        r := r + ['\\', HEX_UPPER[c as int / 16], HEX_UPPER[c as int % 16]];
      } else {
        r := r + [c];
      }
    }
    assert s[..|s|] == s;
  }

  // -------------------------------------------------------------- unescaping

  predicate IsHex(c: char) {
    '0' <= c <= '9' || 'a' <= c <= 'f' || 'A' <= c <= 'F'
  }

  function HexValue(c: char): (v: nat)
    requires IsHex(c)
    ensures v < 16
  {
    if c <= '9' then c as int - '0' as int
    else if c <= 'F' then c as int - 'A' as int + 10
    else c as int - 'a' as int + 10
  }

  predicate IsHexLower(c: char) {
    '0' <= c <= '9' || 'a' <= c <= 'f'
  }

  /** int(pair, 16) on the one or two characters after a backslash, the first of
      them a lower-case digit; white space around a number is no matter. */
  function PairValue(pair: string): Option<char>
    requires 1 <= |pair| <= 2 && IsHexLower(pair[0])
  {
    if |pair| == 2 && IsHex(pair[1]) then Some((HexValue(pair[0]) * 16 + HexValue(pair[1])) as char)
    else if |pair| == 2 && !IsSpace(pair[1]) then None
    else Some(HexValue(pair[0]) as char)
  }

  /** unescape(); None where the source raises: a backslash at the end, or one
      before a lower-case hexadecimal digit and something else. */
  function Unescape(s: string): Option<string> {
    if s == [] then Some([])
    else if s[0] != '\\' then Then([s[0]], Unescape(s[1..]))
    else if |s| < 2 then None
    else if !IsHexLower(s[1]) then Then([s[1]], Unescape(s[2..]))
    else
      var n := Min(3, |s|);
      var c := PairValue(s[1..n]);
      if c.Some? then Then([c.value], Unescape(s[n..])) else None
  }

  function Then(c: string, rest: Option<string>): Option<string> {
    if rest.Some? then Some(c + rest.value) else None
  }

  lemma ThenNothing(rest: Option<string>)
    ensures Then([], rest) == rest
  {
    if rest.Some? {
      assert [] + rest.value == rest.value;
    }
  }

  lemma ThenThen(a: string, b: string, rest: Option<string>)
    ensures Then(a, Then(b, rest)) == Then(a + b, rest)
  {
    if rest.Some? {
      assert a + (b + rest.value) == a + b + rest.value;
    }
  }

  /** unescape(), as it is written. */
  method UnescapeLoop(text: string) returns (r: Option<string>)
    ensures r == Unescape(text)
  {
    var s, done := text, "";
    ThenNothing(Unescape(text));
    while s != ""
      invariant Unescape(text) == Then(done, Unescape(s))
      decreases |s|
    {
      var c: char, n: nat;
      if s[0] != '\\' {
        c, n := s[0], 1;
      } else if |s| < 2 {
        return None;
      } else if IsHexLower(s[1]) {
        n := Min(3, |s|);
        var pair := PairValue(s[1..n]);
        if pair.None? {
          return None;
        }
        c := pair.value;
      } else {
        c, n := s[1], 2;
      }
      ThenThen(done, [c], Unescape(s[n..]));
      done, s := done + [c], s[n..];
    }
    assert done + [] == done;
    r := Some(done);
  }

  // --------------------------------------------- unescape undoes escape

  lemma UnescapeChar(c: char, t: string)
    ensures Unescape(EscapeChar(c) + t) == Then([c], Unescape(t))
  {
    var e := EscapeChar(c);
    assert (e + t)[|e|..] == t;
    if c !in SPECIALS && c as int <= 31 {
      HexDigits(c as int / 16);
      HexDigits(c as int % 16);
      assert (e + t)[1..3] == e[1..3];
    }
  }

  lemma HexDigits(d: nat)
    requires d < 16
    ensures IsHex(HEX_UPPER[d]) && HexValue(HEX_UPPER[d]) == d && (d < 10 ==> IsHexLower(HEX_UPPER[d]))
  {
  }

  lemma {:induction false} UnescapeMiddle(s: string, t: string)
    ensures Unescape(EscapeMiddle(s) + t) == Then(s, Unescape(t))
  {
    hide Unescape;
    hide EscapeChar;
    hide Then;
    if s == [] {
      assert EscapeMiddle(s) + t == t;
      ThenNothing(Unescape(t));
    } else {
      assert EscapeMiddle(s) + t == EscapeChar(s[0]) + (EscapeMiddle(s[1..]) + t);
      UnescapeChar(s[0], EscapeMiddle(s[1..]) + t);
      UnescapeMiddle(s[1..], t);
      ThenThen([s[0]], s[1..], Unescape(t));
      assert [s[0]] + s[1..] == s;
    }
  }

  lemma UnescapeQuoted(q: string, t: string)
    requires q == [] || (|q| == 1 && Edge(q[0]))
    ensures Unescape(Quoted(q) + t) == Then(q, Unescape(t))
  {
    if q == [] {
      assert Quoted(q) + t == t;
      ThenNothing(Unescape(t));
    } else {
      assert (Quoted(q) + t)[2..] == t;
      assert [(Quoted(q) + t)[1]] == q;
    }
  }

  lemma SplitInThree(s: string)
    ensures s == Head(s) + (Middle(s) + Tail(s))
    ensures Head(s) == [] || (|Head(s)| == 1 && Edge(Head(s)[0]))
    ensures Tail(s) == [] || (|Tail(s)| == 1 && Edge(Tail(s)[0]))
  {
  }

  /** Escaped text unescapes to what it was, whatever comes after it. */
  lemma UnescapeEscape(s: string, t: string)
    ensures Unescape(Escape(s) + t) == Then(s, Unescape(t))
  {
    hide Unescape;
    hide EscapeMiddle;
    hide Then;
    var h, m, e := Head(s), Middle(s), Tail(s);
    SplitInThree(s);
    hide Head;
    hide Middle;
    hide Tail;
    hide Quoted;
    assert Escape(s) + t == Quoted(h) + (EscapeMiddle(m) + (Quoted(e) + t));
    UnescapeQuoted(e, t);
    UnescapeMiddle(m, Quoted(e) + t);
    UnescapeQuoted(h, EscapeMiddle(m) + (Quoted(e) + t));
    ThenThen(m, e, Unescape(t));
    ThenThen(h, m + e, Unescape(t));
  }

  // --------------------------------------------------------------- splitting

  function SkipSpaces(s: string): string {
    if s != [] && s[0] == ' ' then SkipSpaces(s[1..]) else s
  }

  lemma {:induction false} SkipSpacesLength(s: string)
    ensures |SkipSpaces(s)| <= |s|
  {
    if s != [] { SkipSpacesLength(s[1..]); }
  }

  /** The parts of `cur + s`, where no separator is looked for in `cur`. */
  function SplitFrom(cur: string, s: string, separator: char): (r: seq<string>)
    ensures r != []
    decreases |s|
  {
    if s == [] then [cur]
    else if s[0] == '\\' then SplitFrom(cur + s[..Min(2, |s|)], s[Min(2, |s|)..], separator)
    else if s[0] == separator then
      SkipSpacesLength(s[1..]);
      [cur] + SplitFrom([], SkipSpaces(s[1..]), separator)
    else SplitFrom(cur + s[..1], s[1..], separator)
  }

  function Split(s: string, separator: char): seq<string> {
    if s == [] then [] else SplitFrom([], s, separator)
  }

  /** _splitOnNotEscaped, as it is written. */
  method SplitLoop(text: string, separator: char) returns (r: seq<string>)
    ensures r == Split(text, separator)
  {
    if text == "" {
      return [];
    }
    var s, done, cur := text, [], "";
    assert [] + SplitFrom([], text, separator) == SplitFrom([], text, separator);
    while s != ""
      invariant done + SplitFrom(cur, s, separator) == SplitFrom([], text, separator)
      decreases |s|
    {
      if s[0] == '\\' {
        cur, s := cur + s[..Min(2, |s|)], s[Min(2, |s|)..];
      } else if s[0] == separator {
        SkipSpacesLength(s[1..]);
        ghost var rest := SkipSpaces(s[1..]);
        assert done + ([cur] + SplitFrom([], rest, separator)) == done + [cur] + SplitFrom([], rest, separator);
        done, cur := done + [cur], "";
        ghost var bound := |s|;
        s := s[1..];
        while s != "" && s[0] == ' '
          invariant SkipSpaces(s) == rest && |s| < bound
          decreases |s|
        {
          s := s[1..];
        }
      } else {
        cur, s := cur + s[..1], s[1..];
      }
    }
    r := done + [cur];
  }

  /** No separator outside the escapes, and every escape complete. */
  predicate Quiet(x: string, separator: char) {
    if x == [] then true
    else if x[0] == '\\' then |x| >= 2 && Quiet(x[2..], separator)
    else x[0] != separator && Quiet(x[1..], separator)
  }

  lemma {:induction false} QuietConcat(x: string, y: string, separator: char)
    requires Quiet(x, separator) && Quiet(y, separator)
    ensures Quiet(x + y, separator)
    decreases |x|
  {
    if x == [] {
      assert x + y == y;
    } else {
      var n := if x[0] == '\\' then 2 else 1;
      assert (x + y)[n..] == x[n..] + y;
      QuietConcat(x[n..], y, separator);
    }
  }

  lemma {:induction false} SplitQuiet(cur: string, x: string, t: string, separator: char)
    requires Quiet(x, separator) && separator != '\\'
    ensures SplitFrom(cur, x + t, separator) == SplitFrom(cur + x, t, separator)
    decreases |x|
  {
    if x == [] {
      assert x + t == t && cur + x == cur;
    } else {
      var n := if x[0] == '\\' then 2 else 1;
      assert (x + t)[n..] == x[n..] + t && (x + t)[..n] == x[..n];
      SplitQuiet(cur + x[..n], x[n..], t, separator);
      assert cur + x[..n] + x[n..] == cur + x;
    }
  }

  function Join(parts: seq<string>, separator: char): string {
    if parts == [] then [] else if |parts| == 1 then parts[0] else parts[0] + [separator] + Join(parts[1..], separator)
  }

  /** A part as the printers make it. */
  predicate Part(p: string, separator: char) {
    Quiet(p, separator) && (p == [] || p[0] != ' ')
  }

  lemma {:induction false} SplitJoin(parts: seq<string>, separator: char)
    requires parts != [] && separator != '\\' && separator != ' '
    requires forall p :: p in parts ==> Part(p, separator)
    ensures SplitFrom([], Join(parts, separator), separator) == parts
    ensures SkipSpaces(Join(parts, separator)) == Join(parts, separator)
  {
    var p := parts[0];
    assert p in parts && Part(p, separator);
    if |parts| == 1 {
      assert p + [] == p;
      SplitQuiet([], p, [], separator);
      assert [] + p == p && parts == [p];
    } else {
      var rest := Join(parts[1..], separator);
      SplitJoin(parts[1..], separator);
      assert p + [separator] + rest == p + ([separator] + rest);
      SplitQuiet([], p, [separator] + rest, separator);
      assert [] + p == p;
      assert ([separator] + rest)[1..] == rest;
      assert parts == [p] + parts[1..];
    }
  }

  /** Only a single empty part is lost. */
  lemma SplitsBack(parts: seq<string>, separator: char)
    requires separator != '\\' && separator != ' '
    requires forall p :: p in parts ==> Part(p, separator)
    ensures Split(Join(parts, separator), separator) == parts <==> parts != [[]]
  {
    if parts != [] {
      SplitJoin(parts, separator);
    }
  }

  // ---------------------------------------------------- printing and parsing

  function AvaText(x: Ava): string {
    Escape(x.attributeType) + ['='] + Escape(x.value)
  }

  function RdnText(r: Rdn): string {
    Join(seq(|r|, i requires 0 <= i < |r| => AvaText(r[i])), '+')
  }

  function Text(d: DN): string {
    Join(seq(|d|, i requires 0 <= i < |d| => RdnText(d[i])), ',')
  }

  datatype Parsed<T> = Good(value: T) | Invalid

  /** The text up to the first '=' and the text after it. */
  function ParseAva(text: string): Parsed<Ava> {
    var s := Unescape(text);
    if s.None? || '=' !in s.value then Invalid
    else
      var i := IndexOf(s.value, '=');
      Good(Ava(s.value[..i], s.value[i + 1..]))
  }

  function IndexOf(s: string, c: char): (i: nat)
    requires c in s
    ensures i < |s| && s[i] == c && c !in s[..i]
  {
    if s[0] == c then 0 else
      assert s[0] !in [c];
      var j := IndexOf(s[1..], c);
      assert s[..j + 1] == [s[0]] + s[1..][..j];
      j + 1
  }

  function ParseAll<T>(parts: seq<string>, parse: string -> Parsed<T>): Parsed<seq<T>> {
    if parts == [] then Good([])
    else
      var first, rest := parse(parts[0]), ParseAll(parts[1..], parse);
      if first.Good? && rest.Good? then Good([first.value] + rest.value) else Invalid
  }

  function ParseRdn(text: string): Parsed<Rdn> {
    ParseAll(Split(text, '+'), ParseAva)
  }

  function Parse(text: string): Parsed<DN> {
    ParseAll(Split(text, ','), ParseRdn)
  }

  // ------------------------------------------------------ parsing what printed

  lemma {:induction false} EscapeMiddleQuiet(s: string, separator: char)
    requires separator in SPECIALS
    ensures Quiet(EscapeMiddle(s), separator)
  {
    if s != [] {
      EscapeMiddleQuiet(s[1..], separator);
      var e := EscapeChar(s[0]);
      if s[0] !in SPECIALS && s[0] as int <= 31 {
        HexDigits(s[0] as int / 16);
        HexDigits(s[0] as int % 16);
        assert e[2..] == [e[2]] && e[2..][1..] == [];
      } else if |e| == 2 {
        assert e[2..] == [];
      } else {
        assert e[1..] == [];
      }
      QuietConcat(e, EscapeMiddle(s[1..]), separator);
    }
  }

  lemma EscapeQuiet(s: string, separator: char)
    requires separator in SPECIALS
    ensures Quiet(Escape(s), separator)
  {
    EscapeMiddleQuiet(Middle(s), separator);
    assert Head(s) != [] ==> Quoted(Head(s))[2..] == [];
    assert Tail(s) != [] ==> Quoted(Tail(s))[2..] == [];
    QuietConcat(Quoted(Head(s)), EscapeMiddle(Middle(s)), separator);
    QuietConcat(Quoted(Head(s)) + EscapeMiddle(Middle(s)), Quoted(Tail(s)), separator);
  }

  /** Escaped text does not start with a space. */
  lemma EscapeStart(s: string)
    ensures Escape(s) == [] || Escape(s)[0] as int > 32
  {
    if Head(s) == [] && Middle(s) != [] {
      assert Middle(s)[0] == s[0] && !Edge(s[0]);
      assert EscapeMiddle(Middle(s))[0] == EscapeChar(s[0])[0];
    }
  }

  lemma QuietOne(c: char, separator: char)
    requires c != '\\' && c != separator
    ensures Quiet([c], separator)
  {
    assert [c][1..] == [];
  }

  lemma AvaTextQuiet(x: Ava, separator: char)
    requires separator == ',' || separator == '+'
    ensures Quiet(AvaText(x), separator)
  {
    hide Escape;
    hide Quiet;
    EscapeQuiet(x.attributeType, separator);
    EscapeQuiet(x.value, separator);
    QuietOne('=', separator);
    QuietConcat(Escape(x.attributeType), ['='], separator);
    QuietConcat(Escape(x.attributeType) + ['='], Escape(x.value), separator);
  }

  lemma AvaTextPart(x: Ava, separator: char)
    requires separator == ',' || separator == '+'
    ensures AvaText(x) != [] && AvaText(x)[0] as int > 32
    ensures Part(AvaText(x), separator)
  {
    hide Escape;
    hide Quiet;
    AvaTextQuiet(x, separator);
    EscapeStart(x.attributeType);
  }

  lemma {:induction false} IndexOfConcat(a: string, b: string, c: char)
    requires c !in a
    ensures c in a + [c] + b && IndexOf(a + [c] + b, c) == |a|
    decreases |a|
  {
    var s := a + [c] + b;
    assert s[|a|] == c;
    if a != [] {
      assert s[0] == a[0];
      assert s[1..] == a[1..] + [c] + b;
      IndexOfConcat(a[1..], b, c);
    }
  }

  lemma UnescapeAvaText(x: Ava)
    ensures Unescape(AvaText(x)) == Some(x.attributeType + ['='] + x.value)
  {
    hide Escape;
    var ty, va := x.attributeType, x.value;
    assert AvaText(x) == Escape(ty) + (['='] + Escape(va));
    UnescapeEscape(va, []);
    assert Escape(va) + [] == Escape(va) && va + [] == va;
    UnescapeEscape(ty, ['='] + Escape(va));
    assert (['='] + Escape(va))[1..] == Escape(va);
    assert Unescape(['='] + Escape(va)) == Some(['='] + va);
    assert ty + (['='] + va) == ty + ['='] + va;
  }

  /** One attribute and value: recovered exactly when its type has no '='. */
  lemma ParseAvaText(x: Ava)
    ensures ParseAva(AvaText(x)).Good?
    ensures ParseAva(AvaText(x)) == Good(x) <==> '=' !in x.attributeType
  {
    hide AvaText;
    hide Unescape;
    UnescapeAvaText(x);
    var ty, va := x.attributeType, x.value;
    var s := ty + ['='] + va;
    assert s[|ty|] == '=';
    if '=' !in ty {
      IndexOfConcat(ty, va, '=');
      assert s[..|ty|] == ty && s[|ty| + 1..] == va;
    }
  }

  lemma {:induction false} ParseAllBack<T>(parts: seq<string>, parse: string -> Parsed<T>, xs: seq<T>)
    requires |parts| == |xs|
    ensures ParseAll(parts, parse) == Good(xs) <==> forall i :: 0 <= i < |xs| ==> parse(parts[i]) == Good(xs[i])
  {
    if xs != [] {
      ParseAllBack(parts[1..], parse, xs[1..]);
      assert xs == [xs[0]] + xs[1..];
      assert forall i :: 1 <= i < |xs| ==> parts[i] == parts[1..][i - 1] && xs[i] == xs[1..][i - 1];
      if ParseAll(parts, parse) == Good(xs) {
        assert ParseAll(parts[1..], parse).value == xs[1..];
      }
    }
  }

  predicate PlainTypes(r: Rdn) {
    forall x :: x in r ==> '=' !in x.attributeType
  }

  lemma ParseRdnText(r: Rdn)
    ensures ParseRdn(RdnText(r)) == Good(r) <==> PlainTypes(r)
  {
    var parts := seq(|r|, i requires 0 <= i < |r| => AvaText(r[i]));
    forall p | p in parts ensures Part(p, '+') && p != [] {
      var i :| 0 <= i < |r| && p == AvaText(r[i]);
      AvaTextPart(r[i], '+');
    }
    assert "" !in parts && "" in [""];
    SplitsBack(parts, '+');
    ParseAllBack(parts, ParseAva, r);
    forall i | 0 <= i < |r| ensures ParseAva(parts[i]) == Good(r[i]) <==> '=' !in r[i].attributeType {
      ParseAvaText(r[i]);
    }
  }

  lemma {:induction false} JoinPart(parts: seq<string>)
    requires forall p :: p in parts ==> Part(p, ',') && p != []
    ensures Part(Join(parts, '+'), ',') && (parts != [] ==> Join(parts, '+') != [])
  {
    if parts != [] {
      assert parts[0] in parts;
      if |parts| > 1 {
        assert forall p :: p in parts[1..] ==> p in parts;
        JoinPart(parts[1..]);
        assert ['+'][1..] == [];
        QuietConcat(parts[0], ['+'], ',');
        QuietConcat(parts[0] + ['+'], Join(parts[1..], '+'), ',');
      }
    }
  }

  lemma RdnTextPart(r: Rdn)
    ensures Part(RdnText(r), ',') && (RdnText(r) == [] <==> r == [])
  {
    var parts := seq(|r|, i requires 0 <= i < |r| => AvaText(r[i]));
    forall p | p in parts ensures Part(p, ',') && p != [] {
      var i :| 0 <= i < |r| && p == AvaText(r[i]);
      AvaTextPart(r[i], ',');
    }
    JoinPart(parts);
  }

  /** A name is recovered from its text exactly when no attribute type in it has
      an '=' and it is not the name of a single empty RDN, which prints like the
      name of no RDN at all. Values may be anything. */
  lemma ParseText(d: DN)
    ensures Parse(Text(d)) == Good(d) <==> d != [[]] && forall r :: r in d ==> PlainTypes(r)
  {
    var parts := seq(|d|, i requires 0 <= i < |d| => RdnText(d[i]));
    forall p | p in parts ensures Part(p, ',') {
      var i :| 0 <= i < |d| && p == RdnText(d[i]);
      RdnTextPart(d[i]);
    }
    assert parts == [[]] <==> d == [[]] by {
      if |d| == 1 { RdnTextPart(d[0]); assert d == [d[0]] && parts == [RdnText(d[0])]; }
    }
    SplitsBack(parts, ',');
    ParseAllBack(parts, ParseRdn, d);
    forall i | 0 <= i < |d| ensures ParseRdn(parts[i]) == Good(d[i]) <==> PlainTypes(d[i]) {
      ParseRdnText(d[i]);
    }
    if d == [[]] {
      assert Text(d) == [];
    }
  }

  /** So no two such names have the same text. */
  lemma TextInjective(d: DN, e: DN)
    requires d != [[]] && forall r :: r in d ==> PlainTypes(r)
    requires e != [[]] && forall r :: r in e ==> PlainTypes(r)
    requires Text(d) == Text(e)
    ensures d == e
  {
    ParseText(d);
    ParseText(e);
  }

  lemma RdnTextInjective(r: Rdn, q: Rdn)
    requires PlainTypes(r) && PlainTypes(q) && RdnText(r) == RdnText(q)
    ensures r == q
  {
    ParseRdnText(r);
    ParseRdnText(q);
  }

  // ------------------------------------------------- what a printed name holds

  /** No control character, and no space or '#' at the start. */
  ghost predicate Printed(s: string) {
    NoControl(s) && (s == [] || s[0] as int > 32)
  }

  ghost predicate NoControl(s: string) {
    forall i :: 0 <= i < |s| ==> s[i] as int > 31
  }

  lemma NoControlConcat(s: string, t: string)
    requires NoControl(s) && NoControl(t)
    ensures NoControl(s + t)
  {
  }

  lemma {:induction false} EscapeMiddleNoControl(s: string)
    ensures NoControl(EscapeMiddle(s))
  {
    if s != [] {
      EscapeMiddleNoControl(s[1..]);
      NoControlConcat(EscapeChar(s[0]), EscapeMiddle(s[1..]));
    }
  }

  lemma EscapeNoControl(s: string)
    ensures NoControl(Escape(s))
  {
    EscapeMiddleNoControl(Middle(s));
    hide EscapeMiddle;
    assert NoControl(Quoted(Head(s))) && NoControl(Quoted(Tail(s)));
    hide Quoted;
    hide Head;
    hide Tail;
    NoControlConcat(Quoted(Head(s)), EscapeMiddle(Middle(s)));
    NoControlConcat(Quoted(Head(s)) + EscapeMiddle(Middle(s)), Quoted(Tail(s)));
  }

  lemma AvaTextPrinted(x: Ava)
    ensures Printed(AvaText(x)) && AvaText(x) != []
  {
    AvaTextPart(x, ',');
    EscapeNoControl(x.attributeType);
    EscapeNoControl(x.value);
    hide Escape;
    NoControlConcat(Escape(x.attributeType), ['=']);
    NoControlConcat(Escape(x.attributeType) + ['='], Escape(x.value));
  }

  lemma {:induction false} JoinPrinted(parts: seq<string>, separator: char)
    requires separator as int > 32
    requires forall i :: 0 <= i < |parts| ==> Printed(parts[i])
    ensures Printed(Join(parts, separator))
  {
    if |parts| == 1 {
      assert Printed(parts[0]);
    } else if |parts| > 1 {
      assert Printed(parts[0]);
      JoinPrinted(parts[1..], separator);
      NoControlConcat(parts[0], [separator]);
      NoControlConcat(parts[0] + [separator], Join(parts[1..], separator));
    }
  }

  lemma RdnTextPrinted(r: Rdn)
    ensures Printed(RdnText(r))
  {
    hide Printed;
    forall j | 0 <= j < |r| ensures Printed(AvaText(r[j])) {
      AvaTextPrinted(r[j]);
    }
    JoinPrinted(seq(|r|, i requires 0 <= i < |r| => AvaText(r[i])), '+');
  }

  /** A name's text can stand on an LDIF line as it is. */
  lemma TextPrinted(d: DN)
    ensures Printed(Text(d))
  {
    hide Printed;
    forall j | 0 <= j < |d| ensures Printed(RdnText(d[j])) {
      RdnTextPrinted(d[j]);
    }
    JoinPrinted(seq(|d|, i requires 0 <= i < |d| => RdnText(d[i])), ',');
  }
}
