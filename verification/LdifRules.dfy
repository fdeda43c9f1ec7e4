/** How a line of LDIF is written and read, character by character: RFC 2849, and
    section 4 of RFC 4648 for base64; and what the change parser refuses. */
module LdifRules {
  import opened Options
  import opened Sequences
  import opened DistinguishedName
  import opened NameText
  import opened Base64
  import opened Ldif
  import opened Attributes
  import opened Operations
  import opened LdifDelta

  // ------------------------------------------------------------------ base64

  /** Table 1 of RFC 4648. */
  function Alphabet(d: nat): char
    requires d < 64
  {
    if d <= 25 then 'A' + d as char
    else if d <= 51 then 'a' + (d - 26) as char
    else if d <= 61 then '0' + (d - 52) as char
    else if d == 62 then '+' else '/'
  }

  lemma DigitIs(d: nat)
    requires d < 64
    ensures Digit(d) == Alphabet(d)
  {
  }

  /** Three octets and four digits stand for the same number. */
  lemma QuadIs(a: nat, b: nat, c: nat) returns (d: seq<nat>)
    requires a < 256 && b < 256 && c < 256
    ensures |d| == 4 && d[0] < 64 && d[1] < 64 && d[2] < 64 && d[3] < 64
    ensures 65536 * a + 256 * b + c == 262144 * d[0] + 4096 * d[1] + 64 * d[2] + d[3]
    ensures Quad(a, b, c) == [Alphabet(d[0]), Alphabet(d[1]), Alphabet(d[2]), Alphabet(d[3])]
  {
    d := [a / 4, a % 4 * 16 + b / 16, b % 16 * 4 + c / 64, c % 64];
    DigitIs(d[0]);
    DigitIs(d[1]);
    DigitIs(d[2]);
    DigitIs(d[3]);
    hide Digit;
  }

  /** Three octets at a time; one or two that are left over as if zeros followed, with
      an equals sign for each digit that is not needed. */
  lemma EncodeIs(a: char, b: char, c: char, rest: string)
    requires a as int < 256 && b as int < 256 && c as int < 256
    ensures Encode([a, b, c] + rest) == Quad(a as nat, b as nat, c as nat) + Encode(rest)
    ensures Encode([a, b]) == Quad(a as nat, b as nat, 0)[..3] + "="
    ensures Encode([a]) == Quad(a as nat, 0, 0)[..2] + "=="
    ensures Encode("") == ""
  {
    hide Quad;
    var s := [a, b, c] + rest;
    assert s[3..] == rest && s[0] == a && s[1] == b && s[2] == c;
  }

  // ----------------------------------------------------------- lines as written

  /** SAFE-STRING, with no space at the end. */
  predicate Safe(v: string) {
    && (forall i :: 0 <= i < |v| ==> 0 < v[i] as int < 128 && v[i] != '\n' && v[i] != '\r')
    && (v != "" ==> v[0] != ' ' && v[0] != ':' && v[0] != '<' && v[|v| - 1] != ' ')
  }

  /** A value is written as it is exactly when it is a safe string, and else encoded. */
  lemma WrittenRaw(attribute: string, v: string)
    ensures Safe(v) ==> Line(attribute, v) == attribute + ": " + v
    ensures !Safe(v) ==> Line(attribute, v) == attribute + ":: " + Encode(v)
  {
    SafeIs(v);
    hide NeedsBase64;
    hide Safe;
    assert attribute + (": " + v) == attribute + ": " + v;
    assert attribute + (":: " + Encode(v)) == attribute + ":: " + Encode(v);
  }

  lemma SafeIs(v: string)
    ensures NeedsBase64(v) <==> !Safe(v)
  {
    if ContainsNonprintable(v) {
      var i :| 0 <= i < |v| && Nonprintable(v[i]);
      assert !Safe(v);
    } else {
      forall i | 0 <= i < |v| ensures 0 < v[i] as int < 128 && v[i] != '\n' && v[i] != '\r' {
        assert !Nonprintable(v[i]);
      }
    }
  }

  // -------------------------------------------------------------- lines as read

  function Spaces(n: nat): string {
    seq(n, i => ' ')
  }

  lemma {:induction false} SpacesSkipped(n: nat, s: string)
    requires s == "" || s[0] != ' '
    ensures SkipSpaces(Spaces(n) + s) == s
  {
    if n == 0 {
      assert Spaces(n) + s == s;
    } else {
      assert (Spaces(n) + s)[1..] == Spaces(n - 1) + s;
      SpacesSkipped(n - 1, s);
    }
  }

  /** Behind the colon any number of spaces, or none. */
  lemma ReadRaw(k: string, n: nat, v: string)
    requires ':' !in k && (v == "" || (v[0] != ' ' && (n == 0 ==> v[0] != ':' && v[0] != '<')))
    ensures ParseLine(k + [':'] + (Spaces(n) + v)) == Pair(k, v)
  {
    var rest := Spaces(n) + v;
    ColonFirst(k, rest);
    SpacesSkipped(n, v);
    assert rest != "" ==> rest[0] == if n > 0 then ' ' else v[0];
    hide SkipSpaces;
    hide IndexOf;
  }

  /** Behind two colons base64, after any number of spaces. */
  lemma ReadEncodedValue(k: string, n: nat, v: string)
    requires ':' !in k && Octets(v)
    ensures ParseLine(k + [':'] + ([':'] + (Spaces(n) + Encode(v)))) == Pair(k, v)
  {
    var rest := [':'] + (Spaces(n) + Encode(v));
    ColonFirst(k, rest);
    EncodeAlphabet(v);
    assert Encode(v) == "" || Encode(v)[0] != ' ';
    SpacesSkipped(n, Encode(v));
    DecodeEncode(v);
    assert rest[0] == ':' && rest[1..] == Spaces(n) + Encode(v);
    hide SkipSpaces;
    hide IndexOf;
    hide Encode;
    hide Decode;
  }

  /** A URL is not read, nor is a line without a colon. */
  lemma NotRead(k: string, url: string)
    requires ':' !in k
    ensures ParseLine(k + [':'] + (['<'] + url)) == UrlNotImplemented && ParseLine(k) == WithoutColon
  {
    ColonFirst(k, ['<'] + url);
    hide IndexOf;
  }

  // ---------------------------------------------------------------- the header

  /** A digit behind a number is its last one, and nothing but digits is a number. */
  lemma {:induction false} NumberSnoc(s: string, d: nat)
    requires s != "" && Number(s).Some? && d < 10
    ensures Number(["0123456789"[d]]) == Some(d)
    ensures Number(s + ["0123456789"[d]]) == Some(10 * Number(s).value + d)
  {
    var c := "0123456789"[d];
    assert c as int == '0' as int + d;
    assert [c][1..] == "" && NumberFrom(d, "") == Some(d);
    NumberFromSnoc(0, s, d);
  }

  lemma {:induction false} NumberFromSnoc(n: nat, s: string, d: nat)
    requires NumberFrom(n, s).Some? && d < 10
    ensures NumberFrom(n, s + ["0123456789"[d]]) == Some(10 * NumberFrom(n, s).value + d)
    decreases |s|
  {
    var c := "0123456789"[d];
    assert c as int == '0' as int + d;
    if s == "" {
      assert s + [c] == [c] && [c][1..] == "";
    } else {
      assert (s + [c])[1..] == s[1..] + [c];
      NumberFromSnoc(n * 10 + (s[0] as int - '0' as int), s[1..], d);
    }
  }

  lemma AmongDigits(c: char)
    ensures '0' <= c <= '9' ==> c in "0123456789"
  {
    if '0' <= c <= '9' { assert "0123456789"[c as int - '0' as int] == c; }
  }

  lemma {:induction false} NotANumber(n: nat, s: string, i: nat)
    requires i < |s| && s[i] !in "0123456789"
    ensures NumberFrom(n, s) == None && Number(s) == None
    decreases |s|
  {
    if i == 0 {
      AmongDigits(s[0]);
    } else if '0' <= s[0] <= '9' {
      NotANumber(n * 10 + (s[0] as int - '0' as int), s[1..], i - 1);
      NotANumber(s[0] as int - '0' as int, s[1..], i - 1);
    }
  }

  // ----------------------------------------------------------------- refusals

  /** A line that is neither blank nor a comment, and reads as this. */
  ghost predicate Says(line: string, key: string, val: string) {
    line != "" && line[0] != '#' && ParseLine(line) == Pair(key, val)
  }

  /** The version that is taken, and those that are not. */
  lemma VersionRefused(st: State, line: string, val: string)
    requires st.mode == HEADER && Says(line, "version", val)
    ensures Number(val) == None ==> Logical(st, line) == Raise(VersionNotANumber)
    ensures Number(val).Some? && Number(val).value >= 2 ==> Logical(st, line) == Raise(UnsupportedVersion)
    ensures Number(val).Some? && Number(val).value <= 1 ==>
              Logical(st, line) == Next(st.(mode := WAIT_FOR_DN, version := Number(val)))
  {
    hide ParseLine;
    hide Number;
  }

  /** What stands where a name or a changetype is due. */
  lemma StartRefused(st: State, line: string, key: string, val: string)
    requires Says(line, key, val)
    ensures st.mode == WAIT_FOR_DN && key !in {"dn", "dN", "Dn", "DN"} ==>
              Logical(st, line) == Raise(EntryStartsWithNonDN)
    ensures st.mode == WAIT_FOR_CHANGETYPE && key != "changetype" ==> Logical(st, line) == Raise(MissingChangeType)
    ensures st.mode == WAIT_FOR_CHANGETYPE && key == "changetype" ==>
              (val in {"modrdn", "moddn"} ==> Logical(st, line) == Raise(NotImplemented))
              && (val !in {"add", "delete", "modify", "modrdn", "moddn"} ==>
                   Logical(st, line) == Raise(UnknownChangeType))
  {
    hide ParseLine;
    if !(key !in {"dn", "dN", "Dn", "DN"}) {} else { NotDn(key); }
  }

  lemma NotDn(key: string)
    ensures IsDnKey(key) ==> key in {"dn", "dN", "Dn", "DN"}
  {
    if IsDnKey(key) { assert key == [key[0], key[1]]; }
  }

  /** What stands inside a record where it does not belong. */
  lemma InsideRefused(st: State, line: string, key: string, val: string)
    requires Says(line, key, val)
    ensures st.mode == WAIT_FOR_MOD_SPEC && key !in {"add", "delete", "replace"} ==>
              Logical(st, line) == Raise(UnknownModification)
    ensures st.mode == IN_MOD_SPEC && line != "-" && key != st.spec.attribute ==>
              Logical(st, line) == Raise(DifferentAttributeType)
    ensures st.mode == IN_DELETE ==> Logical(st, line) == Raise(DeleteHasJunk)
  {
    hide ParseLine;
  }

  /** Where a record must not end. */
  lemma EndRefused(st: State)
    ensures st.mode == WAIT_FOR_CHANGETYPE ==> Logical(st, "") == Raise(MissingChangeType)
    ensures st.mode == IN_MOD_SPEC ==> Logical(st, "") == Raise(MissingEndDash)
    ensures st.mode == IN_ADD_ENTRY && st.data == map[] ==> Logical(st, "") == Raise(AddMissingAttributes)
    ensures st.mode == WAIT_FOR_DN ==> Logical(st, "") == Next(st)
  {
    hide Parse;
  }

  /** A line that goes on with the one before it, where there is none. */
  lemma NothingToGoOnWith(st: State, line: string)
    requires st.lastLine == None && line != "" && line[0] == ' '
    ensures Received(st, line) == Raise(EntryStartsWithSpace)
  {
  }

  /** What the kinds of modification are called. */
  lemma KindsAre(s: string)
    ensures ModKind("add") == Some(Attributes.Add) && ModKind("delete") == Some(Delete)
              && ModKind("replace") == Some(Replace)
    ensures s !in {"add", "delete", "replace"} ==> ModKind(s) == None
  {
  }
}
