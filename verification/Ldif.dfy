/** One line of LDIF: how protocols/ldap/ldif.py writes an attribute and its
    value, and how ldifprotocol.py reads a line back. */
module Ldif {
  import opened Options
  import opened NameText
  import opened Base64

  // ---------------------------------------------------------------- printing

  predicate Nonprintable(c: char) {
    c as int > 127 || c == '\0' || c == '\n' || c == '\r'
  }

  predicate ContainsNonprintable(s: string) {
    exists i :: 0 <= i < |s| && Nonprintable(s[i])
  }

  /** containsNonprintable, as it is written. */
  method ContainsNonprintableLoop(s: string) returns (r: bool)
    ensures r == ContainsNonprintable(s)
  {
    for i := 0 to |s|
      invariant forall j :: 0 <= j < i ==> !Nonprintable(s[j])
    {
      if s[i] as int > 127 || s[i] == '\0' || s[i] == '\n' || s[i] == '\r' {
        return true;
      }
    }
    r := false;
  }

  predicate NeedsBase64(v: string) {
    || (v != [] && (v[0] == '\0' || v[0] == '\n' || v[0] == '\r' || v[0] == ' ' || v[0] == ':' || v[0] == '<'
                    || v[|v| - 1] == ' '))
    || ContainsNonprintable(v)
  }

  /** attributeAsLDIF, without the newline it ends the line with. */
  function Line(attribute: string, v: string): string {
    attribute + (if NeedsBase64(v) then ":: " + Encode(v) else ": " + v)
  }

  // ----------------------------------------------------------------- parsing

  datatype ParsedLine =
    | Pair(key: string, val: string)
    | WithoutColon
    | UrlNotImplemented
    | BadBase64

  /** parseValue, on what follows the colon. */
  function ParseValue(val: string): Option<string> {
    if val != [] && val[0] == ':' then Decode(SkipSpaces(val[1..])) else Some(SkipSpaces(val))
  }

  function ParseLine(line: string): ParsedLine {
    if ':' !in line then WithoutColon
    else
      var i := IndexOf(line, ':');
      var rest := line[i + 1..];
      if rest != [] && rest[0] == '<' then UrlNotImplemented
      else
        var v := ParseValue(rest);
        if v.Some? then Pair(line[..i], v.value) else BadBase64
  }

  /** A line reads back as what was printed exactly when the attribute's name has
      no colon, whatever octets its value holds. */
  lemma ParseLineBack(attribute: string, v: string)
    requires Octets(v)
    ensures ParseLine(Line(attribute, v)) == Pair(attribute, v) <==> ':' !in attribute
  {
    hide NeedsBase64;
    hide Encode;
    hide Decode;
    var rest := if NeedsBase64(v) then ": " + Encode(v) else " " + v;
    assert Line(attribute, v) == attribute + [':'] + rest;
    if ':' !in attribute {
      ColonFirst(attribute, rest);
      ParseValueBack(v);
      hide Line;
      hide IndexOf;
      hide ParseValue;
      assert rest[0] == ':' || rest[0] == ' ';
    } else {
      assert Line(attribute, v) != [];
    }
  }

  lemma ColonFirst(attribute: string, rest: string)
    requires ':' !in attribute
    ensures var s := attribute + [':'] + rest;
            ':' in s && IndexOf(s, ':') == |attribute| && s[..|attribute|] == attribute && s[|attribute| + 1..] == rest
  {
    IndexOfConcat(attribute, rest, ':');
  }

  lemma SkipOne(s: string)
    requires s == [] || s[0] != ' '
    ensures SkipSpaces([' '] + s) == s
  {
    assert ([' '] + s)[1..] == s;
  }

  lemma ParseValueBack(v: string)
    requires Octets(v)
    ensures ParseValue(if NeedsBase64(v) then ": " + Encode(v) else " " + v) == Some(v)
  {
    if NeedsBase64(v) {
      var e := Encode(v);
      DecodeEncode(v);
      EncodeAlphabet(v);
      assert e == [] || e[0] != ' ';
      hide *;
      SkipOne(e);
      ReadEncoded(e);
    } else {
      assert v == [] || v[0] != ' ';
      hide NeedsBase64;
      SkipOne(v);
      assert " " + v == [' '] + v;
    }
  }

  lemma ReadEncoded(e: string)
    ensures ParseValue(": " + e) == Decode(SkipSpaces([' '] + e))
  {
    assert (": " + e)[1..] == [' '] + e;
  }

  /** A name that can start a line: no colon or line break in it, and neither a
      space nor a '#' in front. */
  predicate PlainName(k: string) {
    && (forall i :: 0 <= i < |k| ==> k[i] != ':' && k[i] != '\n' && k[i] != '\r')
    && (k == [] || (k[0] != ' ' && k[0] != '#'))
  }

  /** A line that stands alone: nothing in it ends it, and it is not taken for a
      continuation, a comment or the end of a record. */
  predicate Standing(line: string) {
    line != [] && line[0] != ' ' && line[0] != '#' && NoBreak(line)
  }

  predicate NoBreak(line: string) {
    forall i :: 0 <= i < |line| ==> line[i] != '\n' && line[i] != '\r'
  }

  lemma LineStands(attribute: string, v: string)
    requires PlainName(attribute)
    ensures Standing(Line(attribute, v))
  {
    if NeedsBase64(v) {
      EncodeAlphabet(v);
      assert NoBreak(Encode(v));
      hide Encode;
    } else {
      assert NoBreak(v) by {
        forall i | 0 <= i < |v| ensures v[i] != '\n' && v[i] != '\r' {
          assert !Nonprintable(v[i]);
        }
      }
    }
  }
}
