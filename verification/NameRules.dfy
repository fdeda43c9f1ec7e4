/** What distinguishedname.py and ldap/dn.py make of text, character by character:
    sections 2.4 and 3 of RFC 4514 and the regular expression for attribute types. */
module NameRules {
  import opened Options
  import opened Sequences
  import opened DistinguishedName
  import opened NameText
  import PyDn

  const DIGITS := "0123456789abcdef"
  const UPPER_DIGITS := "0123456789ABCDEF"

  // ---------------------------------------------------------------- escaping

  /** What the character at a position is written as: a space or a '#' at either end,
      and the specials anywhere, behind a backslash; a control character as its two
      hexadecimal digits. */
  function WrittenAs(s: string, i: nat): string
    requires i < |s|
  {
    var c := s[i];
    if (i == 0 || i == |s| - 1) && (c == ' ' || c == '#') then ['\\', c]
    else if c in {',', '+', '"', '\\', '<', '>', ';', '='} then ['\\', c]
    else if c as int < 32 then ['\\', UPPER_DIGITS[c as int / 16], UPPER_DIGITS[c as int % 16]]
    else [c]
  }

  function AllWritten(s: string): seq<string> {
    seq(|s|, i requires 0 <= i < |s| => WrittenAs(s, i))
  }

  /** A character that is at neither end, or is neither a space nor a '#'. */
  lemma InTheMiddle(s: string, i: nat)
    requires i < |s| && ((0 < i < |s| - 1) || !Edge(s[i]))
    ensures EscapeChar(s[i]) == WrittenAs(s, i)
  {
  }

  lemma {:induction false} FlattenConcat<T>(a: seq<seq<T>>, b: seq<seq<T>>)
    ensures Flatten(a + b) == Flatten(a) + Flatten(b)
  {
    if a == [] {
      assert a + b == b;
    } else {
      assert (a + b)[1..] == a[1..] + b;
      FlattenConcat(a[1..], b);
    }
  }

  lemma FlattenOne<T>(a: seq<T>)
    ensures Flatten([a]) == a
  {
    assert [a][1..] == [];
  }

  /** From one position to another, none of them an edge that is written as one. */
  lemma {:induction false} MiddleWritten(s: string, lo: nat, hi: nat)
    requires lo <= hi <= |s|
    requires forall i :: lo <= i < hi ==> (0 < i < |s| - 1) || !Edge(s[i])
    ensures EscapeMiddle(s[lo..hi]) == Flatten(AllWritten(s)[lo..hi])
    decreases hi - lo
  {
    if lo < hi {
      InTheMiddle(s, lo);
      assert s[lo..hi][1..] == s[lo + 1..hi];
      assert AllWritten(s)[lo..hi][1..] == AllWritten(s)[lo + 1..hi];
      MiddleWritten(s, lo + 1, hi);
    }
  }

  lemma HeadWritten(s: string)
    ensures |Head(s)| + |Tail(s)| <= |s|
    ensures Quoted(Head(s)) == Flatten(AllWritten(s)[..|Head(s)|])
  {
    if |Head(s)| == 1 {
      assert AllWritten(s)[..1] == [Quoted(Head(s))] by { assert Quoted(Head(s)) == ['\\', s[0]]; }
      FlattenOne(Quoted(Head(s)));
    }
  }

  lemma TailWritten(s: string)
    ensures Quoted(Tail(s)) == Flatten(AllWritten(s)[|s| - |Tail(s)|..])
  {
    if |Tail(s)| == 1 {
      var n := |s| - 1;
      assert AllWritten(s)[n..] == [Quoted(Tail(s))] by { assert Quoted(Tail(s)) == ['\\', s[n]]; }
      FlattenOne(Quoted(Tail(s)));
    }
  }

  lemma NoEdgesBetween(s: string)
    ensures forall i :: |Head(s)| <= i < |s| - |Tail(s)| ==> (0 < i < |s| - 1) || !Edge(s[i])
  {
    forall i | |Head(s)| <= i < |s| - |Tail(s)| ensures (0 < i < |s| - 1) || !Edge(s[i]) {
      var rest := s[|Head(s)|..];
      assert rest[|rest| - 1] == s[|s| - 1];
      hide Edge;
    }
  }

  lemma ThreeParts<T>(w: seq<seq<T>>, h: nat, hi: nat)
    requires h <= hi <= |w|
    ensures Flatten(w) == Flatten(w[..h]) + Flatten(w[h..hi]) + Flatten(w[hi..])
  {
    hide Flatten;
    InThree(w, h, hi);
    FlattenConcat(w[..h] + w[h..hi], w[hi..]);
    FlattenConcat(w[..h], w[h..hi]);
  }

  lemma InThree<T>(w: seq<T>, h: nat, hi: nat)
    requires h <= hi <= |w|
    ensures w == w[..h] + w[h..hi] + w[hi..]
  {
  }

  /** escape writes every character as its place in the text asks for. */
  lemma EscapeByPlace(s: string)
    ensures Escape(s) == Flatten(AllWritten(s))
  {
    HeadWritten(s);
    TailWritten(s);
    NoEdgesBetween(s);
    var h, hi := |Head(s)|, |s| - |Tail(s)|;
    MiddleWritten(s, h, hi);
    ThreeParts(AllWritten(s), h, hi);
    hide Head;
    hide Tail;
    hide Flatten;
    hide AllWritten;
    hide EscapeMiddle;
  }

  // -------------------------------------------------------------- unescaping

  /** A pair of digits is the character of that number, unless the first of them is a
      capital letter, which stands for itself. */
  lemma PairRead(i: nat, j: nat, low: char, t: string)
    requires i < 16 && j < 16 && (low == DIGITS[j] || low == UPPER_DIGITS[j])
    ensures Unescape(['\\', DIGITS[i], low] + t) == Then([(16 * i + j) as char], Unescape(t))
  {
    var s := ['\\', DIGITS[i], low] + t;
    assert s[1..3] == [DIGITS[i], low] && s[3..] == t;
    DigitIs(i);
    DigitIs(j);
  }

  lemma DigitIs(i: nat)
    requires i < 16
    ensures IsHexLower(DIGITS[i]) && IsHex(DIGITS[i]) && IsHex(UPPER_DIGITS[i])
    ensures HexValue(DIGITS[i]) == i && HexValue(UPPER_DIGITS[i]) == i
  {
  }

  lemma HexAreDigits(c: char)
    ensures IsHexLower(c) ==> c in DIGITS
  {
    if IsHexLower(c) {
      var i := if c <= '9' then c as int - '0' as int else c as int - 'a' as int + 10;
      assert DIGITS[i] == c;
    }
  }

  /** Any other character behind a backslash is itself, and a backslash at the end is
      refused. */
  lemma QuotedRead(c: char, t: string)
    requires c !in DIGITS
    ensures Unescape(['\\', c] + t) == Then([c], Unescape(t))
    ensures Unescape("\\") == None
  {
    HexAreDigits(c);
    assert (['\\', c] + t)[2..] == t;
  }

  /** What is not behind a backslash is itself. */
  lemma PlainRead(c: char, t: string)
    requires c != '\\'
    ensures Unescape([c] + t) == Then([c], Unescape(t))
  {
    assert ([c] + t)[1..] == t;
  }

  /** ldap/dn.py reads a pair of digits in either case, as one octet. */
  lemma PyPairRead(i: nat, j: nat, high: char, low: char, t: string)
    requires i < 16 && j < 16
    requires (high == DIGITS[i] || high == UPPER_DIGITS[i]) && (low == DIGITS[j] || low == UPPER_DIGITS[j])
    ensures PyDn.UnescapeOctets(['\\', high, low] + t) == Then([(16 * i + j) as char], PyDn.UnescapeOctets(t))
  {
    assert (['\\', high, low] + t)[3..] == t;
    DigitIs(i);
    DigitIs(j);
  }

  // ------------------------------------------------- spaces behind separators

  function Spaces(n: nat): string {
    seq(n, i => ' ')
  }

  /** Parts with spaces behind the separators between them. */
  function JoinSpaced(parts: seq<string>, gaps: seq<nat>, separator: char): string
    requires |gaps| == |parts|
  {
    if parts == [] then []
    else if |parts| == 1 then parts[0]
    else parts[0] + ([separator] + Spaces(gaps[0]) + JoinSpaced(parts[1..], gaps[1..], separator))
  }

  lemma {:induction false} SpacesSkipped(n: nat, s: string)
    requires s == "" || s[0] != ' '
    ensures SkipSpaces(Spaces(n) + s) == s
  {
    if n == 0 {
      assert Spaces(n) + s == s;
      assert s != "" ==> SkipSpaces(s) == s;
    } else {
      assert (Spaces(n) + s)[1..] == Spaces(n - 1) + s;
      SpacesSkipped(n - 1, s);
    }
  }

  /** Spaces behind a separator are not looked at. */
  lemma {:induction false} SplitSpaced(parts: seq<string>, gaps: seq<nat>, separator: char)
    requires |gaps| == |parts| && parts != [] && separator != '\\' && separator != ' '
    requires forall p :: p in parts ==> Part(p, separator)
    ensures SplitFrom([], JoinSpaced(parts, gaps, separator), separator) == parts
    ensures JoinSpaced(parts, gaps, separator) == "" || JoinSpaced(parts, gaps, separator)[0] != ' '
    decreases |parts|
  {
    var p := parts[0];
    assert p in parts && Part(p, separator);
    assert [] + p == p;
    if |parts| == 1 {
      assert p + [] == p;
      SplitQuiet([], p, [], separator);
      assert parts == [p];
    } else {
      var rest := JoinSpaced(parts[1..], gaps[1..], separator);
      SplitSpaced(parts[1..], gaps[1..], separator);
      var tail := [separator] + Spaces(gaps[0]) + rest;
      SplitQuiet([], p, tail, separator);
      assert tail[1..] == Spaces(gaps[0]) + rest;
      SpacesSkipped(gaps[0], rest);
      assert parts == [p] + parts[1..];
    }
  }

  /** A name is read the same with spaces behind the commas between its RDNs. */
  lemma NameSpaced(d: DN, gaps: seq<nat>)
    requires |gaps| == |d| && d != [[]] && forall r :: r in d ==> PlainTypes(r)
    ensures Parse(JoinSpaced(seq(|d|, i requires 0 <= i < |d| => RdnText(d[i])), gaps, ',')) == Good(d)
  {
    var parts := seq(|d|, i requires 0 <= i < |d| => RdnText(d[i]));
    forall p | p in parts ensures Part(p, ',') {
      var i :| 0 <= i < |d| && p == RdnText(d[i]);
      RdnTextPart(d[i]);
    }
    ParseText(d);
    SplitsBack(parts, ',');
    hide RdnText;
    if d != [] {
      assert parts != [[]] by {
        if |d| == 1 { RdnTextPart(d[0]); assert d == [d[0]]; }
      }
      SplitSpaced(parts, gaps, ',');
      NotEmpty(parts, gaps);
    }
  }

  lemma NotEmpty(parts: seq<string>, gaps: seq<nat>)
    requires |gaps| == |parts| && parts != [] && parts != [[]]
    ensures JoinSpaced(parts, gaps, ',') != ""
  {
    if |parts| == 1 { assert parts == [parts[0]]; }
  }

  // ---------------------------------------------------------- attribute types

  predicate AllDigits(s: string) {
    s != "" && forall i :: 0 <= i < |s| ==> s[i] in "0123456789"
  }

  /** Numbers with dots between them, as the expression has it. */
  lemma {:induction false} OidIs(s: string, dotSeen: bool)
    ensures PyDn.IsNumericOid(s, dotSeen) <==> exists arcs :: IsOidOf(s, arcs, dotSeen)
    decreases |s|
  {
    if PyDn.IsNumericOid(s, dotSeen) {
      var arcs := Arcs(s, dotSeen);
    }
    forall arcs | IsOidOf(s, arcs, dotSeen) ensures PyDn.IsNumericOid(s, dotSeen) {
      FromArcs(s, arcs, dotSeen);
    }
  }

  /** At least two of them, or one where a dot came before. */
  predicate IsOidOf(s: string, arcs: seq<string>, dotSeen: bool) {
    && (|arcs| >= 2 || (|arcs| == 1 && dotSeen)) && s == Join(arcs, '.')
    && forall i :: 0 <= i < |arcs| ==> AllDigits(arcs[i])
  }

  lemma {:induction false} Arcs(s: string, dotSeen: bool) returns (arcs: seq<string>)
    requires PyDn.IsNumericOid(s, dotSeen)
    ensures IsOidOf(s, arcs, dotSeen) && s[0] in "0123456789"
    decreases |s|
  {
    OneDigit(s[0]);
    if |s| == 1 {
      arcs := [s];
    } else if s[1] == '.' {
      var rest := Arcs(s[2..], true);
      arcs := [s[..1]] + rest;
      assert arcs[1..] == rest;
      assert s == s[..1] + ['.'] + s[2..];
    } else {
      var rest := Arcs(s[1..], dotSeen);
      var first := [s[0]] + rest[0];
      arcs := [first] + rest[1..];
      assert s == [s[0]] + s[1..];
      if |rest| > 1 {
        assert arcs[1..] == rest[1..];
        assert [s[0]] + (rest[0] + ['.'] + Join(rest[1..], '.')) == first + ['.'] + Join(rest[1..], '.');
      }
      assert AllDigits(first);
    }
  }

  lemma OneDigit(c: char)
    ensures PyDn.IsDigit(c) <==> c in "0123456789"
  {
    if PyDn.IsDigit(c) { assert "0123456789"[c as int - '0' as int] == c; }
  }

  lemma {:induction false} FromArcs(s: string, arcs: seq<string>, dotSeen: bool)
    requires IsOidOf(s, arcs, dotSeen)
    ensures PyDn.IsNumericOid(s, dotSeen)
    decreases |s|
  {
    var first := arcs[0];
    assert AllDigits(first);
    OneDigit(first[0]);
    if |arcs| == 1 {
      assert s == first;
      if |s| > 1 {
        OneDigit(s[1]);
        assert IsOidOf(s[1..], [s[1..]], dotSeen);
        FromArcs(s[1..], [s[1..]], dotSeen);
      }
    } else {
      var rest := Join(arcs[1..], '.');
      assert s == first + ['.'] + rest;
      if |first| == 1 {
        assert s[1] == '.' && s[2..] == rest;
        assert IsOidOf(rest, arcs[1..], true);
        FromArcs(rest, arcs[1..], true);
      } else {
        OneDigit(first[1]);
        var fewer := [first[1..]] + arcs[1..];
        assert fewer[1..] == arcs[1..];
        assert s[1..] == first[1..] + ['.'] + rest;
        assert IsOidOf(s[1..], fewer, dotSeen);
        FromArcs(s[1..], fewer, dotSeen);
      }
    }
  }

  /** An attribute type is a letter with letters, digits and hyphens behind it, or at
      least two numbers with dots between them. */
  lemma TypeIs(s: string)
    ensures PyDn.IsType(s) <==>
            || (s != "" && ('a' <= s[0] <= 'z' || 'A' <= s[0] <= 'Z')
                && forall i :: 0 <= i < |s| ==>
                     'a' <= s[i] <= 'z' || 'A' <= s[i] <= 'Z' || s[i] in "0123456789" || s[i] == '-')
            || exists arcs :: IsOidOf(s, arcs, false)
  {
    OidIs(s, false);
    forall i | 0 <= i < |s| ensures PyDn.IsDigit(s[i]) <==> s[i] in "0123456789" { OneDigit(s[i]); }
    hide IsOidOf;
    hide PyDn.IsNumericOid;
  }

  /** A value is flagged as a string when all of it is ASCII that can be printed. */
  lemma FlagIs(value: string)
    ensures PyDn.Flag(value) == 1 <==> forall c :: c in value ==> ' ' <= c <= '~'
    ensures PyDn.Flag(value) == 1 || PyDn.Flag(value) == 4
  {
    if forall c :: c in value ==> ' ' <= c <= '~' {
      forall i | 0 <= i < |value| ensures 32 <= value[i] as int < 127 { assert value[i] in value; }
    }
  }
}
