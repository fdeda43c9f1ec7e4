/** Which octets stand for what: the tags and the order of the fields in sections 4.1.11,
    4.5.1 and 4.1.1 of RFC 4511, for what pureldap.py writes. */
module LdapWire {
  import opened Options
  import opened Sequences
  import opened Octets
  import opened PureBer
  import opened PureLdap

  /** An object's identification, then its length in one octet if it is short. */
  lemma ShortWire(id: Byte, content: Bytes)
    requires |content| < 128
    ensures Wire(id, content) == [id, |content|] + content
  {
    var n: Byte := |content|;
    var l: Bytes := [n];
    assert Int2Ber(n, false) == [n % 256];
    assert Fits(n) && LengthBytes(n) == l;
    Joins(id, n, content);
    assert Wire(id, content) == [id] + l + content;
  }

  lemma Joins(id: Byte, n: Byte, content: Bytes)
    ensures [id] + [n] + content == [id, n] + content
  {
    assert [id] + [n] == [id, n];
  }

  lemma TwoParts(a: Bytes, b: Bytes)
    ensures Flatten([a, b]) == a + b
  {
    assert [a, b][1..] == [b];
    OnePart(b);
  }

  lemma {:induction false} PartsConcat(a: seq<Bytes>, b: seq<Bytes>)
    ensures Flatten(a + b) == Flatten(a) + Flatten(b)
  {
    if a == [] {
      assert a + b == b;
    } else {
      assert (a + b)[1..] == a[1..] + b;
      PartsConcat(a[1..], b);
    }
  }

  lemma OnePart(a: Bytes)
    ensures Flatten([a]) == a
  {
    assert [a][1..] == [];
    assert a + [] == a;
  }

  /** The choice of a filter: context-specific tags in the order of section 4.5.1, with
      the constructed bit but for a presence test. */
  lemma FilterTags(items: seq<Ber>, item: Ber, attribute: Bytes)
    ensures Encode(And(items)) == Wire(0xA0, Content(And(items)))
    ensures Encode(Or(items)) == Wire(0xA1, Content(Or(items)))
    ensures Encode(Not(item)) == Wire(0xA2, Encode(item))
    ensures Encode(Present(attribute)) == Wire(0x87, attribute)
  {
    hide Wire;
  }

  lemma AssertionTags(desc: Ber, value: Ber)
    ensures Encode(Assertion(EqualityMatch, desc, value)) == Wire(0xA3, Encode(desc) + Encode(value))
    ensures Encode(Assertion(GreaterOrEqual, desc, value)) == Wire(0xA5, Encode(desc) + Encode(value))
    ensures Encode(Assertion(LessOrEqual, desc, value)) == Wire(0xA6, Encode(desc) + Encode(value))
    ensures Encode(Assertion(ApproxMatch, desc, value)) == Wire(0xA8, Encode(desc) + Encode(value))
  {
    AssertionIs(EqualityMatch, desc, value);
    AssertionIs(GreaterOrEqual, desc, value);
    AssertionIs(LessOrEqual, desc, value);
    AssertionIs(ApproxMatch, desc, value);
    hide Encode;
    hide Wire;
  }

  lemma AssertionIs(kind: AssertionKind, desc: Ber, value: Ber)
    ensures Encode(Assertion(kind, desc, value)) == Wire(Id(Assertion(kind, desc, value)), Encode(desc) + Encode(value))
  {
    TwoParts(Encode(desc), Encode(value));
    hide Wire;
    hide Id;
    hide Flatten;
  }

  /** The pieces of a substrings filter, behind the attribute. */
  lemma SubstringsOnWire(attribute: Bytes, parts: seq<Ber>)
    ensures Encode(Substrings(attribute, parts)) ==
            Wire(0xA4, Wire(0x04, attribute) +
                Wire(0x30, Flatten(seq(|parts|, i requires 0 <= i < |parts| => Encode(parts[i])))))
    ensures forall v: Bytes ::
              Encode(Initial(v)) == Wire(0x80, v) && Encode(Any(v)) == Wire(0x81, v)
                  && Encode(Final(v)) == Wire(0x82, v)
  {
    hide Wire;
    var pieces := seq(|parts|, i requires 0 <= i < |parts| => Encode(parts[i]));
    TwoParts(Wire(0x04, attribute), Wire(0x30, Flatten(pieces)));
    var f := Substrings(attribute, parts);
    assert Encode(f) == Wire(0xA4, Content(f));
    assert Content(f) == Flatten([Wire(0x04, attribute), Wire(0x30, Flatten(pieces))]);
    forall v: Bytes
      ensures Encode(Initial(v)) == Wire(0x80, v) && Encode(Any(v)) == Wire(0x81, v)
                  && Encode(Final(v)) == Wire(0x82, v)
    {
      PiecesOnWire(v);
    }
    hide Encode;
    hide Flatten;
  }

  lemma PiecesOnWire(v: Bytes)
    ensures Encode(Initial(v)) == Wire(0x80, v) && Encode(Any(v)) == Wire(0x81, v)
                && Encode(Final(v)) == Wire(0x82, v)
  {
    hide Wire;
  }

  function Optionally(id: Byte, v: Option<Bytes>): Bytes {
    if v.Some? then Wire(id, v.value) else []
  }

  /** The fields of a matching rule assertion. */
  lemma ExtensibleOnWire(f: Ber)
    requires f.Extensible?
    ensures Encode(f) ==
            Wire(0xA9, Optionally(0x81, f.rule) + Optionally(0x82, f.ruleType) + Wire(0x83, f.matchValue) +
                       (if f.dnAttributes.Some? then Wire(0x84, [if f.dnAttributes.value == 0 then 0 else 255])
                           else []))
  {
    hide Wire;
    var rule, ty := OptionalWire(0x81, f.rule), OptionalWire(0x82, f.ruleType);
    var dn := if f.dnAttributes.Some? then [Wire(0x84, [Flag(f.dnAttributes.value)])] else [];
    var value := [Wire(0x83, f.matchValue)];
    PartsConcat(rule + ty + value, dn);
    PartsConcat(rule + ty, value);
    PartsConcat(rule, ty);
    OnePart(Wire(0x83, f.matchValue));
    if f.rule.Some? { OnePart(Wire(0x81, f.rule.value)); }
    if f.ruleType.Some? { OnePart(Wire(0x82, f.ruleType.value)); }
    if f.dnAttributes.Some? { OnePart(Wire(0x84, [Flag(f.dnAttributes.value)])); }
    hide Flatten;
  }

  /** The eight fields of a search request. */
  lemma RequestOnWire(base: Bytes, scope: int, deref: int, sizeLimit: int, timeLimit: int, typesOnly: int, filter: Ber,
                      attributes: seq<Bytes>)
    ensures Encode(SearchRequest(base, scope, deref, sizeLimit, timeLimit, typesOnly, filter, attributes)) ==
            Wire(0x63, Wire(0x04, base) + Wire(0x0A, Int2Ber(scope, true)) + Wire(0x0A, Int2Ber(deref, true)) +
                       Wire(0x02, Int2Ber(sizeLimit, true)) + Wire(0x02, Int2Ber(timeLimit, true)) +
                       Wire(0x01, [if typesOnly == 0 then 0 else 255]) + Encode(filter) +
                       Wire(0x30, Flatten(seq(|attributes|,
                           i requires 0 <= i < |attributes| => Wire(0x04, attributes[i])))))
  {
    hide Wire;
    var names := seq(|attributes|, i requires 0 <= i < |attributes| => OctetsWire(attributes[i]));
    assert names == seq(|attributes|, i requires 0 <= i < |attributes| => Wire(0x04, attributes[i]));
    EightParts(OctetsWire(base), Wire(0x0A, Int2Ber(scope, true)), Wire(0x0A, Int2Ber(deref, true)),
               Wire(0x02, Int2Ber(sizeLimit, true)), Wire(0x02, Int2Ber(timeLimit, true)),
                   Wire(0x01, [Flag(typesOnly)]),
               Encode(filter), Wire(0x30, Flatten(names)));
    hide Int2Ber;
    hide Flatten;
  }

  lemma EightParts(a: Bytes, b: Bytes, c: Bytes, d: Bytes, e: Bytes, f: Bytes, g: Bytes, h: Bytes)
    ensures Flatten([a, b, c, d, e, f, g, h]) == a + b + c + d + e + f + g + h
  {
    PartsConcat([a, b, c, d], [e, f, g, h]);
    FourParts(a, b, c, d);
    FourParts(e, f, g, h);
    hide Flatten;
    assert [a, b, c, d] + [e, f, g, h] == [a, b, c, d, e, f, g, h];
  }

  lemma FourParts(a: Bytes, b: Bytes, c: Bytes, d: Bytes)
    ensures Flatten([a, b, c, d]) == a + b + c + d
  {
    PartsConcat([a, b], [c, d]);
    TwoParts(a, b);
    TwoParts(c, d);
    hide Flatten;
    assert [a, b] + [c, d] == [a, b, c, d];
  }

  /** A message: its id, the operation, and behind them the controls, if there are. */
  lemma MessageOnWire(id: int, op: Ber, controls: Option<seq<Control>>)
    ensures Encode(Message(id, op, controls)) ==
            Wire(0x30, Wire(0x02, Int2Ber(id, true)) + Encode(op) +
                       (if controls.None? then []
                        else Wire(0xA0, Flatten(seq(|controls.value|, i requires 0 <= i < |controls.value| =>
                                                      Wire(0x30, ControlContent(controls.value[i])))))))
  {
    hide Wire;
    hide Int2Ber;
    hide ControlContent;
    var m := Message(id, op, controls);
    var front := [Wire(0x02, Int2Ber(id, true)), Encode(op)];
    assert Encode(m) == Wire(0x30, Content(m));
    TwoParts(front[0], front[1]);
    if controls.Some? {
      var all := Wire(0xA0, Flatten(seq(|controls.value|, i requires 0 <= i < |controls.value| =>
                                          Wire(0x30, ControlContent(controls.value[i])))));
      PartsConcat(front, [all]);
      OnePart(all);
      assert Content(m) == Flatten(front + [all]);
    } else {
      var none: seq<Bytes> := [];
      assert front + none == front;
      assert Content(m) == Flatten(front + none);
      var rest: Bytes := [];
      assert Flatten(front) + rest == Flatten(front);
    }
    hide Flatten;
  }

  /** A control: its type, whether it is critical if that is said, and its value. */
  lemma ControlOnWire(c: Control)
    ensures ControlContent(c) ==
            Wire(0x04, c.controlType) +
            (if c.criticality.Some? then Wire(0x01, [if c.criticality.value == 0 then 0 else 255]) else []) +
            Optionally(0x04, c.controlValue)
  {
    hide Wire;
    var ty := [OctetsWire(c.controlType)];
    var critical := if c.criticality.Some? then [Wire(0x01, [Flag(c.criticality.value)])] else [];
    var value := OptionalWire(0x04, c.controlValue);
    PartsConcat(ty + critical, value);
    PartsConcat(ty, critical);
    OnePart(OctetsWire(c.controlType));
    if c.criticality.Some? { OnePart(Wire(0x01, [Flag(c.criticality.value)])); }
    if c.controlValue.Some? { OnePart(Wire(0x04, c.controlValue.value)); }
    hide Flatten;
  }
}
