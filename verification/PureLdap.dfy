/** pureldap.py: search requests, filters and controls on the wire. A tag means
    one class or another depending on the chain of decoder contexts in which it
    is looked up, and it is looked up without the constructed bit. */
module PureLdap {
  import opened Options
  import opened Sequences
  import opened Octets
  import opened PureBer

  // -------------------------------------------------------- decoder contexts

  datatype Class =
    | BooleanClass | IntegerClass | OctetStringClass | NullClass | EnumeratedClass | SequenceClass | SetClass
    | MessageClass | ControlsClass | ControlClass | SearchRequestClass
    | AndClass | OrClass | NotClass | AssertionClass(kind: AssertionKind) | SubstringsClass | PresentClass
    | ExtensibleClass
    | InitialClass | AnyClass | FinalClass
    | MatchingRuleClass | RuleTypeClass | MatchValueClass | DnAttributesClass
    | OtherClass

  datatype AssertionKind = EqualityMatch | GreaterOrEqual | LessOrEqual | ApproxMatch

  /** The contexts' dictionaries of identities. */
  datatype Table = UNIVERSAL | TOP_LEVEL | MESSAGE | CONTROLS | LDAP | FILTER | SUBSTRINGS | MATCHING_RULE

  /** BERDecoderContext: what it knows itself, where it looks next, and the
      context that what it decodes is decoded in. */
  datatype Context = Context(table: Table, fallback: Option<Context>, inherited: Option<Context>)

  function Identity(table: Table, tag: Byte): Option<Class> {
    match table
    case UNIVERSAL =>
      if tag == 0x01 then Some(BooleanClass) else if tag == 0x02 then Some(IntegerClass)
      else if tag == 0x04 then Some(OctetStringClass) else if tag == 0x05 then Some(NullClass)
      else if tag == 0x0A then Some(EnumeratedClass) else if tag == 0x10 then Some(SequenceClass)
      else if tag == 0x11 then Some(SetClass) else None
    case TOP_LEVEL => if tag == 0x10 then Some(MessageClass) else None
    case MESSAGE =>
      if tag == 0x80 then Some(ControlsClass) else if tag == 0x53 || tag == 0x59 then Some(OtherClass) else None
    case CONTROLS => if tag == 0x10 then Some(ControlClass) else None
    case LDAP =>
      if tag == 0x43 then Some(SearchRequestClass)
      else if 0x40 <= tag <= 0x50 || tag == 0x53 || tag == 0x57 || tag == 0x58 || tag == 0x83 then Some(OtherClass)
      else None
    case FILTER =>
      if tag == 0x80 then Some(AndClass) else if tag == 0x81 then Some(OrClass)
      else if tag == 0x82 then Some(NotClass) else if tag == 0x83 then Some(AssertionClass(EqualityMatch))
      else if tag == 0x84 then Some(SubstringsClass) else if tag == 0x85 then Some(AssertionClass(GreaterOrEqual))
      else if tag == 0x86 then Some(AssertionClass(LessOrEqual)) else if tag == 0x87 then Some(PresentClass)
      else if tag == 0x88 then Some(AssertionClass(ApproxMatch)) else if tag == 0x89 then Some(ExtensibleClass)
      else None
    case SUBSTRINGS =>
      if tag == 0x80 then Some(InitialClass) else if tag == 0x81 then Some(AnyClass)
      else if tag == 0x82 then Some(FinalClass) else None
    case MATCHING_RULE =>
      if tag == 0x81 then Some(MatchingRuleClass) else if tag == 0x82 then Some(RuleTypeClass)
      else if tag == 0x83 then Some(MatchValueClass) else if tag == 0x84 then Some(DnAttributesClass) else None
  }

  function Lookup(ctx: Context, tag: Byte): Option<Class> {
    if Identity(ctx.table, tag).Some? then Identity(ctx.table, tag)
    else if ctx.fallback.Some? then Lookup(ctx.fallback.value, tag)
    else None
  }

  function Inherit(ctx: Context): Context {
    if ctx.inherited.Some? then ctx.inherited.value else ctx
  }

  const LDAP_CONTEXT := Context(LDAP, Some(Context(UNIVERSAL, None, None)), None)

  /** The context that the server decodes what it receives in. */
  const SERVER := Context(TOP_LEVEL, None, Some(Context(MESSAGE, Some(LDAP_CONTEXT), Some(LDAP_CONTEXT))))

  // ------------------------------------------------------------- BER objects

  datatype Control = Control(controlType: Bytes, criticality: Option<int>, controlValue: Option<Bytes>)

  datatype Ber =
    | Boolean(value: int)
    | Integer(value: int)
    | Enumerated(value: int)
    | Null
    | OctetString(octets: Bytes)
    | Initial(octets: Bytes)
    | Any(octets: Bytes)
    | Final(octets: Bytes)
    | MatchingRule(octets: Bytes)
    | RuleType(octets: Bytes)
    | MatchValue(octets: Bytes)
    | DnAttributes(value: int)
    | Present(octets: Bytes)
    | Sequence(items: seq<Ber>)
    | Set(items: seq<Ber>)
    | And(items: seq<Ber>)
    | Or(items: seq<Ber>)
    | Not(item: Ber)
    | Assertion(kind: AssertionKind, desc: Ber, assertion: Ber)
    | Substrings(attribute: Bytes, parts: seq<Ber>)
    | Extensible(rule: Option<Bytes>, ruleType: Option<Bytes>, matchValue: Bytes, dnAttributes: Option<int>)
    | SearchRequest(base: Bytes, scope: int, deref: int, sizeLimit: int, timeLimit: int, typesOnly: int,
                    filter: Ber, attributes: seq<Bytes>)
    | Message(id: int, op: Ber, controls: Option<seq<Control>>)
    | Controls(items: seq<Ber>)
    | ControlObject(control: Control)

  /** The value a BERBoolean made of `v` has. */
  function Flag(v: int): int {
    if v == 0 then 0 else 0xFF
  }

  predicate IsOctetString(b: Ber) {
    b.OctetString? || b.Initial? || b.Any? || b.Final? || b.MatchingRule? || b.RuleType? || b.MatchValue? || b.Present?
  }

  predicate IsInteger(b: Ber) {
    b.Integer? || b.Enumerated?
  }

  predicate IsBoolean(b: Ber) {
    b.Boolean? || b.DnAttributes?
  }

  /** The members of an instance of BERSequence. */
  function Members(b: Ber): Option<seq<Ber>> {
    match b
    case Sequence(items) => Some(items)
    case Set(items) => Some(items)
    case And(items) => Some(items)
    case Or(items) => Some(items)
    case Controls(items) => Some(items)
    case Assertion(_, _, _) => Some([])
    case Substrings(_, _) => Some([])
    case Extensible(_, _, _, _) => Some([])
    case SearchRequest(_, _, _, _, _, _, _, _) => Some([])
    case Message(_, _, _) => Some([])
    case ControlObject(_) => Some([])
    case _ => None
  }

  // ---------------------------------------------------------------- encoding

  /** The first octet of an object, constructed bit and all. */
  function Id(b: Ber): Byte {
    match b
    case Boolean(_) => 0x01
    case Integer(_) => 0x02
    case Enumerated(_) => 0x0A
    case Null => 0x05
    case OctetString(_) => 0x04
    case Initial(_) => 0x80
    case Any(_) => 0x81
    case Final(_) => 0x82
    case MatchingRule(_) => 0x81
    case RuleType(_) => 0x82
    case MatchValue(_) => 0x83
    case DnAttributes(_) => 0x84
    case Present(_) => 0x87
    case Sequence(_) => 0x30
    case Set(_) => 0x31
    case And(_) => 0xA0
    case Or(_) => 0xA1
    case Not(_) => 0xA2
    case Assertion(EqualityMatch, _, _) => 0xA3
    case Assertion(GreaterOrEqual, _, _) => 0xA5
    case Assertion(LessOrEqual, _, _) => 0xA6
    case Assertion(ApproxMatch, _, _) => 0xA8
    case Substrings(_, _) => 0xA4
    case Extensible(_, _, _, _) => 0xA9
    case SearchRequest(_, _, _, _, _, _, _, _) => 0x63
    case Message(_, _, _) => 0x30
    case Controls(_) => 0xA0
    case ControlObject(_) => 0x30
  }

  /** Identification, length and content. Content too long for a length makes
      int2berlen raise, so that nothing is sent. */
  function Wire(id: Byte, content: Bytes): Bytes {
    if Fits(|content|) then Tlv(id, content) else [id] + content
  }

  function OctetsWire(v: Bytes): Bytes {
    Wire(0x04, v)
  }

  function OptionalWire(id: Byte, v: Option<Bytes>): seq<Bytes> {
    if v.Some? then [Wire(id, v.value)] else []
  }

  function ControlContent(c: Control): Bytes {
    Flatten([OctetsWire(c.controlType)] +
            (if c.criticality.Some? then [Wire(0x01, [Flag(c.criticality.value)])] else []) +
            OptionalWire(0x04, c.controlValue))
  }

  /** toWire, without the identification and the length. */
  function Content(b: Ber): Bytes
    decreases b, 0
  {
    match b
    case Boolean(v) => [Flag(v)]
    case DnAttributes(v) => [Flag(v)]
    case Integer(v) => Int2Ber(v, true)
    case Enumerated(v) => Int2Ber(v, true)
    case Null => []
    case OctetString(v) => v
    case Initial(v) => v
    case Any(v) => v
    case Final(v) => v
    case MatchingRule(v) => v
    case RuleType(v) => v
    case MatchValue(v) => v
    case Present(v) => v
    case Sequence(items) => Flatten(seq(|items|, i requires 0 <= i < |items| => Encode(items[i])))
    case Set(items) => Flatten(seq(|items|, i requires 0 <= i < |items| => Encode(items[i])))
    case And(items) => Flatten(seq(|items|, i requires 0 <= i < |items| => Encode(items[i])))
    case Or(items) => Flatten(seq(|items|, i requires 0 <= i < |items| => Encode(items[i])))
    case Controls(items) => Flatten(seq(|items|, i requires 0 <= i < |items| => Encode(items[i])))
    case Not(item) => Encode(item)
    case Assertion(_, desc, assertion) => Flatten([Encode(desc), Encode(assertion)])
    case Substrings(attribute, parts) =>
      Flatten([OctetsWire(attribute),
               Wire(0x30, Flatten(seq(|parts|, i requires 0 <= i < |parts| => Encode(parts[i]))))])
    case Extensible(rule, ruleType, matchValue, dnAttributes) =>
      Flatten(OptionalWire(0x81, rule) + OptionalWire(0x82, ruleType) + [Wire(0x83, matchValue)] +
              (if dnAttributes.Some? then [Wire(0x84, [Flag(dnAttributes.value)])] else []))
    case SearchRequest(base, scope, deref, sizeLimit, timeLimit, typesOnly, filter, attributes) =>
      Flatten([OctetsWire(base), Wire(0x0A, Int2Ber(scope, true)), Wire(0x0A, Int2Ber(deref, true)),
               Wire(0x02, Int2Ber(sizeLimit, true)), Wire(0x02, Int2Ber(timeLimit, true)),
               Wire(0x01, [Flag(typesOnly)]), Encode(filter),
               Wire(0x30, Flatten(seq(|attributes|, i requires 0 <= i < |attributes| => OctetsWire(attributes[i]))))])
    case Message(id, op, controls) =>
      Flatten([Wire(0x02, Int2Ber(id, true)), Encode(op)] +
              (if controls.Some? then
                 [Wire(0xA0, Flatten(seq(|controls.value|, i requires 0 <= i < |controls.value| =>
                                           Wire(0x30, ControlContent(controls.value[i])))))]
               else []))
    case ControlObject(c) => ControlContent(c)
  }

  /** toWire. */
  function Encode(b: Ber): Bytes
    decreases b, 1
  {
    Wire(Id(b), Content(b))
  }

  // ---------------------------------------------------------------- decoding

  /** What a decoder does: it returns, finds octets missing, fails an assertion
      or an unpacking, or meets a class that is not part of this model. */
  datatype Decoded<T> = Done(value: T) | Insufficient(missing: nat) | Rejected | Beyond

  /** An object that was decoded, if its tag is known, and the octets it took. */
  datatype Taken = Taken(found: Option<Ber>, used: nat)

  function Objects(one: Taken): seq<Ber> {
    if one.found.Some? then [one.found.value] else []
  }

  /** berDecodeObject: an object, or none where the tag is unknown or there is
      nothing to decode, and how many octets it took. */
  function DecodeObject(ctx: Context, m: Bytes): Decoded<Taken>
    decreases |m|, 0
  {
    match ReadFrame(m)
    case NoData => Done(Taken(None, 0))
    case Incomplete(missing) => Insufficient(missing)
    case Frame(tag, content, used) =>
      var c := Lookup(ctx, tag);
      if c.None? then Done(Taken(None, used))
      else
        match FromBer(c.value, content, Inherit(ctx))
        case Done(b) => Done(Taken(Some(b), used))
        case Insufficient(missing) => Insufficient(missing)
        case Rejected => Rejected
        case Beyond => Beyond
  }

  /** Objects decoded, and what decoding goes on to. */
  function After(l: seq<Ber>, r: Decoded<seq<Ber>>): Decoded<seq<Ber>> {
    if r.Done? then Done(l + r.value) else r
  }

  /** berDecodeMultiple. Objects with an unknown tag are left out. */
  function DecodeMultiple(content: Bytes, ctx: Context): Decoded<seq<Ber>>
    decreases |content|, 1
  {
    if content == [] then Done([])
    else
      match DecodeObject(ctx, content)
      case Done(one) =>
        if one.used == 0 || one.used > |content| then Rejected
        else After(Objects(one), DecodeMultiple(content[one.used..], ctx))
      case Insufficient(missing) => Insufficient(missing)
      case Rejected => Rejected
      case Beyond => Beyond
  }

  function FilterContext(inh: Context): Context {
    Context(FILTER, Some(inh), Some(inh))
  }

  /** The members of an and or an or inherit the context they are decoded in. */
  function FilterSetContext(inh: Context): Context {
    Context(FILTER, Some(inh), None)
  }

  function SubstringsContext(inh: Context): Context {
    Context(SUBSTRINGS, Some(inh), None)
  }

  function MatchingRuleContext(inh: Context): Context {
    Context(MATCHING_RULE, Some(inh), Some(inh))
  }

  function ControlsContext(inh: Context): Context {
    Context(CONTROLS, None, Some(inh))
  }

  /** The class's fromBER. */
  function FromBer(c: Class, content: Bytes, inh: Context): Decoded<Ber>
    decreases |content|, 2
  {
    match c
    case BooleanClass => if content == [] then Rejected else Done(Boolean(Flag(Ber2Int(content, true))))
    case DnAttributesClass => if content == [] then Rejected else Done(DnAttributes(Flag(Ber2Int(content, true))))
    case IntegerClass => if content == [] then Rejected else Done(Integer(Ber2Int(content, true)))
    case EnumeratedClass => if content == [] then Rejected else Done(Enumerated(Ber2Int(content, true)))
    case OctetStringClass => Done(OctetString(content))
    case InitialClass => Done(Initial(content))
    case AnyClass => Done(Any(content))
    case FinalClass => Done(Final(content))
    case MatchingRuleClass => Done(MatchingRule(content))
    case RuleTypeClass => Done(RuleType(content))
    case MatchValueClass => Done(MatchValue(content))
    case PresentClass => Done(Present(content))
    case NullClass => if content == [] then Done(Null) else Rejected
    case SequenceClass =>
      (match DecodeMultiple(content, inh)
       case Done(l) => Done(Sequence(l)) case Insufficient(n) => Insufficient(n)
       case Rejected => Rejected case Beyond => Beyond)
    case SetClass =>
      (match DecodeMultiple(content, inh)
       case Done(l) => Done(Set(l)) case Insufficient(n) => Insufficient(n)
       case Rejected => Rejected case Beyond => Beyond)
    case AndClass =>
      (match DecodeMultiple(content, FilterSetContext(inh))
       case Done(l) => Done(And(l)) case Insufficient(n) => Insufficient(n)
       case Rejected => Rejected case Beyond => Beyond)
    case OrClass =>
      (match DecodeMultiple(content, FilterSetContext(inh))
       case Done(l) => Done(Or(l)) case Insufficient(n) => Insufficient(n)
       case Rejected => Rejected case Beyond => Beyond)
    case NotClass =>
      (match DecodeObject(FilterContext(inh), content)
       case Done(one) => if one.used == |content| && one.found.Some? then Done(Not(one.found.value)) else Rejected
       case Insufficient(n) => Insufficient(n)
       case Rejected => Rejected case Beyond => Beyond)
    case AssertionClass(kind) =>
      (match DecodeMultiple(content, inh)
       case Done(l) => MakeAssertion(kind, l) case Insufficient(n) => Insufficient(n)
       case Rejected => Rejected case Beyond => Beyond)
    case SubstringsClass =>
      (match DecodeMultiple(content, SubstringsContext(inh))
       case Done(l) => MakeSubstrings(l) case Insufficient(n) => Insufficient(n)
       case Rejected => Rejected case Beyond => Beyond)
    case ExtensibleClass =>
      (match DecodeMultiple(content, MatchingRuleContext(inh))
       case Done(l) => MakeExtensible(l) case Insufficient(n) => Insufficient(n)
       case Rejected => Rejected case Beyond => Beyond)
    case SearchRequestClass =>
      (match DecodeMultiple(content, FilterContext(inh))
       case Done(l) => MakeSearchRequest(l) case Insufficient(n) => Insufficient(n)
       case Rejected => Rejected case Beyond => Beyond)
    case MessageClass =>
      (match DecodeMultiple(content, inh)
       case Done(l) => MakeMessage(l) case Insufficient(n) => Insufficient(n)
       case Rejected => Rejected case Beyond => Beyond)
    case ControlsClass =>
      (match DecodeMultiple(content, ControlsContext(inh))
       case Done(l) => Done(Controls(l)) case Insufficient(n) => Insufficient(n)
       case Rejected => Rejected case Beyond => Beyond)
    case ControlClass =>
      (match DecodeMultiple(content, inh)
       case Done(l) => MakeControl(l) case Insufficient(n) => Insufficient(n)
       case Rejected => Rejected case Beyond => Beyond)
    case OtherClass => Beyond
  }

  function MakeAssertion(kind: AssertionKind, l: seq<Ber>): Decoded<Ber> {
    if |l| == 2 && IsOctetString(l[0]) && IsOctetString(l[1]) then Done(Assertion(kind, l[0], l[1])) else Rejected
  }

  function MakeSubstrings(l: seq<Ber>): Decoded<Ber> {
    if |l| == 2 && IsOctetString(l[0]) && Members(l[1]).Some? && |Members(l[1]).value| >= 1
    then Done(Substrings(l[0].octets, Members(l[1]).value)) else Rejected
  }

  /** LDAPMatchingRuleAssertion.fromBER takes its parts off the front of the
      list, each if it is there; what is left over it does not look at. */
  function MakeExtensible(l: seq<Ber>): Decoded<Ber> {
    if !(1 <= |l| <= 4) then Rejected
    else
      var rule := if l[0].MatchingRule? then Some(l[0].octets) else None;
      var l1 := if rule.Some? then l[1..] else l;
      var ruleType := if l1 != [] && l1[0].RuleType? then Some(l1[0].octets) else None;
      var l2 := if ruleType.Some? then l1[1..] else l1;
      if l2 == [] || !l2[0].MatchValue? then Rejected
      else
        var l3 := l2[1..];
        var dnAttributes := if l3 != [] && l3[0].DnAttributes? then Some(l3[0].value) else None;
        Done(Extensible(rule, ruleType, l2[0].octets, dnAttributes))
  }

  function MakeSearchRequest(l: seq<Ber>): Decoded<Ber> {
    if |l| == 8 && IsOctetString(l[0]) && IsInteger(l[1]) && IsInteger(l[2]) && IsInteger(l[3]) && IsInteger(l[4])
       && IsBoolean(l[5]) && Members(l[7]).Some?
       && (forall i :: 0 <= i < |Members(l[7]).value| ==> IsOctetString(Members(l[7]).value[i]))
    then
      var attributes := Members(l[7]).value;
      Done(SearchRequest(l[0].octets, l[1].value, l[2].value, l[3].value, l[4].value, l[5].value, l[6],
                         seq(|attributes|, i requires 0 <= i < |attributes| => attributes[i].octets)))
    else Rejected
  }

  function MakeMessage(l: seq<Ber>): Decoded<Ber> {
    if |l| < 2 || !IsInteger(l[0]) then Rejected
    else if |l| == 2 then Done(Message(l[0].value, l[1], None))
    else if |l| == 3 && l[2].Controls? && (forall i :: 0 <= i < |l[2].items| ==> l[2].items[i].ControlObject?) then
      Done(Message(l[0].value, l[1],
                   Some(seq(|l[2].items|, i requires 0 <= i < |l[2].items| => l[2].items[i].control))))
    else Rejected
  }

  function MakeControl(l: seq<Ber>): Decoded<Ber> {
    if !(1 <= |l| <= 3) || !IsOctetString(l[0]) then Rejected
    else if |l| == 1 then Done(ControlObject(Control(l[0].octets, None, None)))
    else if |l| == 2 then
      Done(ControlObject(Control(l[0].octets,
                                 if IsBoolean(l[1]) then Some(l[1].value) else None,
                                 if IsOctetString(l[1]) then Some(l[1].octets) else None)))
    else if IsBoolean(l[1]) && IsOctetString(l[2]) then
      Done(ControlObject(Control(l[0].octets, Some(l[1].value), Some(l[2].octets))))
    else Rejected
  }

  lemma AfterNone(r: Decoded<seq<Ber>>)
    ensures After([], r) == r
  {
    if r.Done? {
      assert [] + r.value == r.value;
    }
  }

  lemma AfterOne(l: seq<Ber>, more: seq<Ber>, r: Decoded<seq<Ber>>)
    ensures After(l, After(more, r)) == After(l + more, r)
  {
    if r.Done? {
      assert l + (more + r.value) == l + more + r.value;
    }
  }

  lemma DecodeMultipleStep(content: Bytes, ctx: Context)
    requires content != []
    ensures var r := DecodeObject(ctx, content);
            && (r.Insufficient? ==> DecodeMultiple(content, ctx) == Insufficient(r.missing))
            && (r.Rejected? ==> DecodeMultiple(content, ctx) == Rejected)
            && (r.Beyond? ==> DecodeMultiple(content, ctx) == Beyond)
            && (r.Done? ==> DecodeMultiple(content, ctx) ==
                            if r.value.used == 0 || r.value.used > |content| then Rejected
                            else After(Objects(r.value), DecodeMultiple(content[r.value.used..], ctx)))
  {
    hide DecodeObject;
  }

  /** berDecodeMultiple, as it is written. */
  method DecodeMultipleLoop(content: Bytes, ctx: Context) returns (r: Decoded<seq<Ber>>)
    ensures r == DecodeMultiple(content, ctx)
  {
    var l: seq<Ber> := [];
    var rest := content;
    AfterNone(DecodeMultiple(content, ctx));
    hide DecodeObject;
    while rest != []
      invariant DecodeMultiple(content, ctx) == After(l, DecodeMultiple(rest, ctx))
      decreases |rest|
    {
      var r1 := DecodeObject(ctx, rest);
      DecodeMultipleStep(rest, ctx);
      match r1
      case Done(one) =>
        if one.used == 0 || one.used > |rest| {
          return Rejected;
        }
        AfterOne(l, Objects(one), DecodeMultiple(rest[one.used..], ctx));
        l := l + Objects(one);
        rest := rest[one.used..];
      case Insufficient(missing) => return Insufficient(missing);
      case Rejected => return Rejected;
      case Beyond => return Beyond;
    }
    assert l + [] == l;
    r := Done(l);
  }

  // -------------------------------------------------- one object, and several

  /** The octets `w` are read as the object `b`, whatever follows them. */
  ghost predicate Reads(ctx: Context, w: Bytes, b: Ber) {
    w != [] && forall rest :: DecodeObject(ctx, w + rest) == Done(Taken(Some(b), |w|))
  }

  /** An object reads back when its tag, as masked, means its class here and the
      class makes the same object of its content. */
  lemma ObjectBack(ctx: Context, id: Byte, content: Bytes, c: Class, b: Ber)
    requires Fits(|content|) && Lookup(ctx, Masked(id)) == Some(c)
    requires FromBer(c, content, Inherit(ctx)) == Done(b)
    ensures Reads(ctx, Wire(id, content), b)
  {
    forall rest ensures DecodeObject(ctx, Wire(id, content) + rest) == Done(Taken(Some(b), |Wire(id, content)|)) {
      FrameBack(id, content, rest);
      hide ReadFrame;
      hide Masked;
      hide Tlv;
      hide Lookup;
      hide FromBer;
    }
  }

  /** The same with the length in any of its forms. */
  lemma SpelledBack(ctx: Context, id: Byte, l: Bytes, content: Bytes, c: Class, b: Ber)
    requires IsLength(l, |content|) && Lookup(ctx, Masked(id)) == Some(c)
    requires FromBer(c, content, Inherit(ctx)) == Done(b)
    ensures Reads(ctx, [id] + l + content, b)
  {
    var w := [id] + l + content;
    forall rest ensures DecodeObject(ctx, w + rest) == Done(Taken(Some(b), |w|)) {
      FrameReads(id, l, content, rest);
      hide ReadFrame;
      hide Masked;
      hide IsLength;
      hide Lookup;
      hide FromBer;
    }
  }

  lemma {:induction false} AllRead(ctx: Context, ws: seq<Bytes>, bs: seq<Ber>)
    requires |ws| == |bs| && forall i :: 0 <= i < |ws| ==> Reads(ctx, ws[i], bs[i])
    ensures DecodeMultiple(Flatten(ws), ctx) == Done(bs)
    decreases |ws|
  {
    if ws == [] {
      assert bs == [];
    } else {
      var w, rest := ws[0], Flatten(ws[1..]);
      assert Reads(ctx, w, bs[0]);
      AllRead(ctx, ws[1..], bs[1..]);
      var content := w + rest;
      assert content == Flatten(ws) && content[|w|..] == rest;
      DecodeMultipleStep(content, ctx);
      assert bs == [bs[0]] + bs[1..];
    }
  }

  lemma {:induction false} PartShorter(ws: seq<Bytes>, i: nat)
    requires i < |ws|
    ensures |ws[i]| <= |Flatten(ws)|
    decreases |ws|
  {
    if i > 0 { PartShorter(ws[1..], i - 1); }
  }

  /** What is inside content that fits a length fits one too. */
  lemma PartFits(ws: seq<Bytes>, i: nat, id: Byte, content: Bytes)
    requires i < |ws| && ws[i] == Wire(id, content) && Fits(|Flatten(ws)|)
    ensures Fits(|content|)
  {
    PartShorter(ws, i);
    WireLonger(id, content);
    SizeGrows(|content|, |Flatten(ws)|);
  }

  lemma WireLonger(id: Byte, content: Bytes)
    ensures |Wire(id, content)| > |content|
  {
    hide Int2Ber;
  }

  // What a class makes of its content, once that was decoded.

  lemma FromItems(c: Class, content: Bytes, inh: Context, l: seq<Ber>)
    requires DecodeMultiple(content, if c.AndClass? || c.OrClass? then FilterSetContext(inh) else inh) == Done(l)
    ensures c.SequenceClass? ==> FromBer(c, content, inh) == Done(Sequence(l))
    ensures c.SetClass? ==> FromBer(c, content, inh) == Done(Set(l))
    ensures c.AndClass? ==> FromBer(c, content, inh) == Done(And(l))
    ensures c.OrClass? ==> FromBer(c, content, inh) == Done(Or(l))
    ensures c.AssertionClass? ==> FromBer(c, content, inh) == MakeAssertion(c.kind, l)
    ensures c.MessageClass? ==> FromBer(c, content, inh) == MakeMessage(l)
    ensures c.ControlClass? ==> FromBer(c, content, inh) == MakeControl(l)
  {
    hide DecodeMultiple;
    hide MakeAssertion;
    hide MakeMessage;
    hide MakeControl;
  }

  lemma FromParts(c: Class, content: Bytes, inh: Context, ctx: Context, l: seq<Ber>)
    requires DecodeMultiple(content, ctx) == Done(l)
    ensures c.SubstringsClass? && ctx == SubstringsContext(inh) ==> FromBer(c, content, inh) == MakeSubstrings(l)
    ensures c.ExtensibleClass? && ctx == MatchingRuleContext(inh) ==> FromBer(c, content, inh) == MakeExtensible(l)
    ensures c.SearchRequestClass? && ctx == FilterContext(inh) ==> FromBer(c, content, inh) == MakeSearchRequest(l)
    ensures c.ControlsClass? && ctx == ControlsContext(inh) ==> FromBer(c, content, inh) == Done(Controls(l))
  {
    hide DecodeMultiple;
    hide MakeSubstrings;
    hide MakeExtensible;
    hide MakeSearchRequest;
  }

  lemma EncodeOctetString(v: Bytes)
    ensures Encode(OctetString(v)) == OctetsWire(v)
  {
    hide Wire;
  }

  // ----------------------------------------------------- universal BER objects

  /** A context, and those inherited from it, in which the universal tags mean
      the universal classes. */
  predicate Grounded(ctx: Context) {
    && Lookup(ctx, 0x01) == Some(BooleanClass)
    && Lookup(ctx, 0x02) == Some(IntegerClass)
    && Lookup(ctx, 0x04) == Some(OctetStringClass)
    && Lookup(ctx, 0x05) == Some(NullClass)
    && Lookup(ctx, 0x0A) == Some(EnumeratedClass)
    && Lookup(ctx, 0x10) == Some(SequenceClass)
    && Lookup(ctx, 0x11) == Some(SetClass)
    && (ctx.inherited.Some? ==> Grounded(ctx.inherited.value))
  }

  /** The contexts made for the parts of filters are grounded with the one they
      are made from. */
  lemma StaysGrounded(inh: Context)
    requires Grounded(inh)
    ensures Grounded(Inherit(inh))
    ensures Grounded(FilterContext(inh)) && Grounded(FilterSetContext(inh))
    ensures Grounded(SubstringsContext(inh)) && Grounded(MatchingRuleContext(inh))
  {
  }

  function ClassOf(b: Ber): Class {
    match b
    case Boolean(_) => BooleanClass
    case Integer(_) => IntegerClass
    case Enumerated(_) => EnumeratedClass
    case Null => NullClass
    case OctetString(_) => OctetStringClass
    case Initial(_) => InitialClass
    case Any(_) => AnyClass
    case Final(_) => FinalClass
    case MatchingRule(_) => MatchingRuleClass
    case RuleType(_) => RuleTypeClass
    case MatchValue(_) => MatchValueClass
    case DnAttributes(_) => DnAttributesClass
    case Present(_) => PresentClass
    case Sequence(_) => SequenceClass
    case Set(_) => SetClass
    case And(_) => AndClass
    case Or(_) => OrClass
    case Not(_) => NotClass
    case Assertion(kind, _, _) => AssertionClass(kind)
    case Substrings(_, _) => SubstringsClass
    case Extensible(_, _, _, _) => ExtensibleClass
    case SearchRequest(_, _, _, _, _, _, _, _) => SearchRequestClass
    case Message(_, _, _) => MessageClass
    case Controls(_) => ControlsClass
    case ControlObject(_) => ControlClass
  }

  /** Built of universal objects, nested in any way. */
  predicate IsPlain(b: Ber) {
    match b
    case Boolean(v) => v == 0 || v == 0xFF
    case Integer(_) => true
    case Enumerated(_) => true
    case Null => true
    case OctetString(_) => true
    case Sequence(items) => forall i :: 0 <= i < |items| ==> IsPlain(items[i])
    case Set(items) => forall i :: 0 <= i < |items| ==> IsPlain(items[i])
    case _ => false
  }

  lemma FlagBack(v: int)
    ensures Ber2Int([Flag(v)], true) == (if v == 0 then 0 else -1)
    ensures Flag(Ber2Int([Flag(v)], true)) == Flag(v)
  {
  }

  lemma {:induction false} PlainBack(b: Ber, inh: Context)
    requires IsPlain(b) && Grounded(inh) && Fits(|Content(b)|)
    ensures FromBer(ClassOf(b), Content(b), inh) == Done(b)
    decreases b, 0
  {
    if b.Sequence? || b.Set? {
      PlainItems(b, b.items, inh);
      hide Content;
      FromItems(ClassOf(b), Content(b), inh, b.items);
      hide FromBer;
    } else {
      PlainLeaf(b, inh);
      hide FromBer;
    }
  }

  lemma PlainLeaf(b: Ber, inh: Context)
    requires IsPlain(b) && !b.Sequence? && !b.Set?
    ensures FromBer(ClassOf(b), Content(b), inh) == Done(b)
  {
    if b.Boolean? {
      FlagBack(b.value);
    } else if b.Integer? || b.Enumerated? {
      IntegerBack(b.value, true);
    }
  }

  /** Every universal object, however deep, is read back from its octets. */
  lemma {:induction false} PlainReads(b: Ber, ctx: Context)
    requires IsPlain(b) && Grounded(ctx) && Fits(|Content(b)|)
    ensures Reads(ctx, Encode(b), b)
    decreases b, 1
  {
    assert Grounded(Inherit(ctx));
    PlainBack(b, Inherit(ctx));
    PlainLookup(b, ctx);
    hide Content;
    hide FromBer;
    ObjectBack(ctx, Id(b), Content(b), ClassOf(b), b);
  }

  lemma PlainLookup(b: Ber, ctx: Context)
    requires IsPlain(b) && Grounded(ctx)
    ensures Lookup(ctx, Masked(Id(b))) == Some(ClassOf(b))
  {
    hide Lookup;
  }

  ghost function Encoded(items: seq<Ber>): seq<Bytes> {
    seq(|items|, i requires 0 <= i < |items| => Encode(items[i]))
  }

  lemma {:induction false} PlainItems(b: Ber, items: seq<Ber>, ctx: Context)
    requires (b.Sequence? || b.Set?) && items == b.items && IsPlain(b) && Grounded(ctx) && Fits(|Content(b)|)
    ensures DecodeMultiple(Flatten(Encoded(items)), ctx) == Done(items)
    ensures Content(b) == Flatten(Encoded(items))
    decreases b, 0, 0
  {
    var ws := Encoded(items);
    assert Content(b) == Flatten(ws) by {
      assert ws == seq(|items|, i requires 0 <= i < |items| => Encode(items[i]));
    }
    forall i | 0 <= i < |items| ensures Reads(ctx, ws[i], items[i]) {
      assert IsPlain(items[i]);
      PartFits(ws, i, Id(items[i]), Content(items[i]));
      PlainReads(items[i], ctx);
    }
    AllRead(ctx, ws, items);
  }

  // ----------------------------------------------------------------- filters

  predicate IsPart(b: Ber) {
    b.Initial? || b.Any? || b.Final?
  }

  /** A filter, nested in any way. */
  predicate IsFilter(b: Ber) {
    match b
    case And(items) => forall i :: 0 <= i < |items| ==> IsFilter(items[i])
    case Or(items) => forall i :: 0 <= i < |items| ==> IsFilter(items[i])
    case Not(item) => IsFilter(item)
    case Assertion(_, desc, assertion) => desc.OctetString? && assertion.OctetString?
    case Substrings(_, parts) => parts != [] && forall i :: 0 <= i < |parts| ==> IsPart(parts[i])
    case Present(_) => true
    case Extensible(_, _, _, dnAttributes) =>
      dnAttributes.Some? ==> dnAttributes.value == 0 || dnAttributes.value == 0xFF
    case _ => false
  }

  lemma FilterLookup(f: Ber, ctx: Context)
    requires IsFilter(f) && ctx.table == FILTER
    ensures Lookup(ctx, Masked(Id(f))) == Some(ClassOf(f))
  {
    hide IsFilter;
    assert f.And? || f.Or? || f.Not? || f.Assertion? || f.Substrings? || f.Present? || f.Extensible? by {
      FilterKinds(f);
    }
  }

  lemma FilterKinds(f: Ber)
    requires IsFilter(f)
    ensures f.And? || f.Or? || f.Not? || f.Assertion? || f.Substrings? || f.Present? || f.Extensible?
  {
  }

  /** A filter's class makes the filter of its content, in any grounded context. */
  lemma {:induction false} FilterBack(f: Ber, inh: Context)
    requires IsFilter(f) && Grounded(inh) && Fits(|Content(f)|)
    ensures FromBer(ClassOf(f), Content(f), inh) == Done(f)
    decreases f, 0
  {
    FilterKinds(f);
    if f.And? || f.Or? {
      FilterSetBack(f, inh);
    } else if f.Not? {
      NotBack(f, inh);
    } else if f.Assertion? {
      AssertionBack(f, inh);
    } else if f.Substrings? {
      SubstringsBack(f, inh);
    } else if f.Present? {
      PresentBack(f, inh);
    } else {
      ExtensibleBack(f, inh);
    }
    hide *;
  }

  lemma PresentBack(f: Ber, inh: Context)
    requires f.Present?
    ensures FromBer(ClassOf(f), Content(f), inh) == Done(f)
  {
  }

  lemma {:induction false} FilterSetBack(f: Ber, inh: Context)
    requires (f.And? || f.Or?) && IsFilter(f) && Grounded(inh) && Fits(|Content(f)|)
    ensures FromBer(ClassOf(f), Content(f), inh) == Done(f)
    decreases f, 0, 1
  {
    var ctx := FilterSetContext(inh);
    FilterItems(f, f.items, ctx);
    hide Content;
    FromItems(ClassOf(f), Content(f), inh, f.items);
    hide FromBer;
  }

  /** Every filter is read back where filters are looked for. */
  lemma {:induction false} FilterReads(f: Ber, ctx: Context)
    requires IsFilter(f) && ctx.table == FILTER && Grounded(Inherit(ctx)) && Fits(|Content(f)|)
    ensures Reads(ctx, Encode(f), f)
    decreases f, 1
  {
    FilterBack(f, Inherit(ctx));
    FilterLookup(f, ctx);
    hide Content;
    hide FromBer;
    ObjectBack(ctx, Id(f), Content(f), ClassOf(f), f);
  }

  lemma {:induction false} FilterItems(f: Ber, items: seq<Ber>, ctx: Context)
    requires (f.And? || f.Or?) && items == f.items && IsFilter(f) && Fits(|Content(f)|)
    requires ctx.table == FILTER && Grounded(Inherit(ctx))
    ensures DecodeMultiple(Flatten(Encoded(items)), ctx) == Done(items)
    ensures Content(f) == Flatten(Encoded(items))
    decreases f, 0, 0
  {
    var ws := Encoded(items);
    assert ws == seq(|items|, i requires 0 <= i < |items| => Encode(items[i]));
    forall i | 0 <= i < |items| ensures Reads(ctx, ws[i], items[i]) {
      assert IsFilter(items[i]);
      PartFits(ws, i, Id(items[i]), Content(items[i]));
      FilterReads(items[i], ctx);
    }
    AllRead(ctx, ws, items);
  }

  lemma FlattenOne(w: Bytes)
    ensures Flatten([w]) == w
  {
    var none: seq<Bytes> := [];
    assert [w][1..] == none;
    assert w + Flatten(none) == w;
  }

  lemma {:induction false} NotBack(f: Ber, inh: Context)
    requires f.Not? && IsFilter(f) && Grounded(inh) && Fits(|Content(f)|)
    ensures FromBer(NotClass, Content(f), inh) == Done(f)
    decreases f, 0, 0
  {
    var w := Encode(f.item);
    FlattenOne(w);
    PartFits([w], 0, Id(f.item), Content(f.item));
    FilterReads(f.item, FilterContext(inh));
    assert w + [] == w;
    assert DecodeObject(FilterContext(inh), w + []) == Done(Taken(Some(f.item), |w|));
  }

  lemma OctetStringReads(ctx: Context, v: Bytes)
    requires Grounded(ctx) && Fits(|v|)
    ensures Reads(ctx, OctetsWire(v), OctetString(v))
  {
    ObjectBack(ctx, 0x04, v, OctetStringClass, OctetString(v));
  }

  lemma AssertionContent(f: Ber)
    requires f.Assertion? && IsFilter(f)
    ensures Content(f) == Flatten([OctetsWire(f.desc.octets), OctetsWire(f.assertion.octets)])
  {
    EncodeOctetString(f.desc.octets);
    EncodeOctetString(f.assertion.octets);
    hide Encode;
    hide Flatten;
  }

  lemma AssertionBack(f: Ber, inh: Context)
    requires f.Assertion? && IsFilter(f) && Grounded(inh) && Fits(|Content(f)|)
    ensures FromBer(ClassOf(f), Content(f), inh) == Done(f)
  {
    AssertionContent(f);
    hide Content;
    hide FromBer;
    var ws := [OctetsWire(f.desc.octets), OctetsWire(f.assertion.octets)];
    TwoOctetStrings(inh, f.desc.octets, f.assertion.octets);
    FromItems(ClassOf(f), Content(f), inh, [f.desc, f.assertion]);
  }

  lemma TwoOctetStrings(ctx: Context, a: Bytes, b: Bytes)
    requires Grounded(ctx) && Fits(|Flatten([OctetsWire(a), OctetsWire(b)])|)
    ensures DecodeMultiple(Flatten([OctetsWire(a), OctetsWire(b)]), ctx) == Done([OctetString(a), OctetString(b)])
  {
    hide Wire;
    hide Flatten;
    hide Fits;
    hide Lookup;
    var ws := [OctetsWire(a), OctetsWire(b)];
    PartFits(ws, 0, 0x04, a);
    PartFits(ws, 1, 0x04, b);
    OctetStringReads(ctx, a);
    OctetStringReads(ctx, b);
    hide OctetsWire;
    AllRead(ctx, ws, [OctetString(a), OctetString(b)]);
  }

  lemma PartReads(p: Ber, ctx: Context)
    requires IsPart(p) && ctx.table == SUBSTRINGS && Fits(|Content(p)|)
    ensures Reads(ctx, Encode(p), p)
  {
    ObjectBack(ctx, Id(p), Content(p), ClassOf(p), p);
  }

  lemma PartsReads(parts: seq<Ber>, ctx: Context)
    requires forall i :: 0 <= i < |parts| ==> IsPart(parts[i])
    requires ctx.table == SUBSTRINGS && ctx.inherited == None && Grounded(ctx) && Fits(|Flatten(Encoded(parts))|)
    ensures Reads(ctx, Wire(0x30, Flatten(Encoded(parts))), Sequence(parts))
  {
    hide Content;
    hide FromBer;
    hide Flatten;
    hide Fits;
    hide Wire;
    hide IsPart;
    var ws := Encoded(parts);
    forall i | 0 <= i < |parts| ensures Reads(ctx, ws[i], parts[i]) {
      PartFits(ws, i, Id(parts[i]), Content(parts[i]));
      PartReads(parts[i], ctx);
    }
    AllRead(ctx, ws, parts);
    SequenceReads(ctx, ws, parts);
  }

  lemma SequenceReads(ctx: Context, ws: seq<Bytes>, items: seq<Ber>)
    requires DecodeMultiple(Flatten(ws), Inherit(ctx)) == Done(items)
    requires Grounded(ctx) && Fits(|Flatten(ws)|)
    ensures Reads(ctx, Wire(0x30, Flatten(ws)), Sequence(items))
  {
    FromItems(SequenceClass, Flatten(ws), Inherit(ctx), items);
    hide FromBer;
    hide Flatten;
    hide Reads;
    ObjectBack(ctx, 0x30, Flatten(ws), SequenceClass, Sequence(items));
  }

  lemma SubstringsContent(f: Ber)
    requires f.Substrings?
    ensures Content(f) == Flatten([OctetsWire(f.attribute), Wire(0x30, Flatten(Encoded(f.parts)))])
  {
    hide Flatten;
    hide Wire;
    assert Encoded(f.parts) == seq(|f.parts|, i requires 0 <= i < |f.parts| => Encode(f.parts[i]));
  }

  lemma SubstringsBack(f: Ber, inh: Context)
    requires f.Substrings? && IsFilter(f) && Grounded(inh) && Fits(|Content(f)|)
    ensures FromBer(SubstringsClass, Content(f), inh) == Done(f)
  {
    var ctx := SubstringsContext(inh);
    SubstringsContent(f);
    StaysGrounded(inh);
    hide Content;
    hide FromBer;
    SubstringsDecoded(f.attribute, f.parts, ctx);
    FromParts(SubstringsClass, Content(f), inh, ctx, [OctetString(f.attribute), Sequence(f.parts)]);
  }

  lemma SubstringsDecoded(attribute: Bytes, parts: seq<Ber>, ctx: Context)
    requires forall i :: 0 <= i < |parts| ==> IsPart(parts[i])
    requires ctx.table == SUBSTRINGS && ctx.inherited == None && Grounded(ctx)
    requires Fits(|Flatten([OctetsWire(attribute), Wire(0x30, Flatten(Encoded(parts)))])|)
    ensures DecodeMultiple(Flatten([OctetsWire(attribute), Wire(0x30, Flatten(Encoded(parts)))]), ctx) ==
            Done([OctetString(attribute), Sequence(parts)])
  {
    var inner := Flatten(Encoded(parts));
    var ws := [OctetsWire(attribute), Wire(0x30, inner)];
    hide *;
    assert OctetsWire(attribute) == Wire(0x04, attribute) by { OctetsAre(attribute); }
    PartFits(ws, 0, 0x04, attribute);
    PartFits(ws, 1, 0x30, inner);
    OctetStringReads(ctx, attribute);
    PartsReads(parts, ctx);
    AllRead(ctx, ws, [OctetString(attribute), Sequence(parts)]);
  }

  lemma OctetsAre(v: Bytes)
    ensures OctetsWire(v) == Wire(0x04, v)
  {
  }

  // -------------------------------------------------------- extensible match

  /** The parts of an extensible match, as objects. */
  ghost function ExtensibleParts(f: Ber): seq<Ber>
    requires f.Extensible?
  {
    (if f.rule.Some? then [MatchingRule(f.rule.value)] else []) +
    (if f.ruleType.Some? then [RuleType(f.ruleType.value)] else []) +
    [MatchValue(f.matchValue)] +
    (if f.dnAttributes.Some? then [DnAttributes(f.dnAttributes.value)] else [])
  }

  lemma EncodePart(p: Ber)
    requires p.MatchingRule? || p.RuleType? || p.MatchValue? || p.DnAttributes?
    ensures Encode(p) == Wire(Id(p), if p.DnAttributes? then [Flag(p.value)] else p.octets)
  {
    hide Wire;
  }

  lemma EncodedConcat(a: seq<Ber>, b: seq<Ber>)
    ensures Encoded(a + b) == Encoded(a) + Encoded(b)
  {
    hide Encode;
  }

  lemma EncodedOptional(p: Option<Ber>)
    requires p.Some? ==> p.value.MatchingRule? || p.value.RuleType? || p.value.MatchValue? || p.value.DnAttributes?
    ensures Encoded(if p.Some? then [p.value] else []) ==
            if p.None? then []
            else [Wire(Id(p.value), if p.value.DnAttributes? then [Flag(p.value.value)] else p.value.octets)]
  {
    hide Wire;
    hide Encode;
    if p.Some? { EncodePart(p.value); }
  }

  lemma ExtensibleWires(f: Ber)
    requires f.Extensible?
    ensures Encoded(ExtensibleParts(f)) ==
            OptionalWire(0x81, f.rule) + OptionalWire(0x82, f.ruleType) + [Wire(0x83, f.matchValue)] +
            (if f.dnAttributes.Some? then [Wire(0x84, [Flag(f.dnAttributes.value)])] else [])
  {
    hide Wire;
    hide Encode;
    hide Encoded;
    var rule := if f.rule.Some? then [MatchingRule(f.rule.value)] else [];
    var ruleType := if f.ruleType.Some? then [RuleType(f.ruleType.value)] else [];
    var value := [MatchValue(f.matchValue)];
    var dn := if f.dnAttributes.Some? then [DnAttributes(f.dnAttributes.value)] else [];
    EncodedConcat(rule + ruleType + value, dn);
    EncodedConcat(rule + ruleType, value);
    EncodedConcat(rule, ruleType);
    EncodedOptional(if f.rule.Some? then Some(MatchingRule(f.rule.value)) else None);
    EncodedOptional(if f.ruleType.Some? then Some(RuleType(f.ruleType.value)) else None);
    EncodedOptional(Some(MatchValue(f.matchValue)));
    EncodedOptional(if f.dnAttributes.Some? then Some(DnAttributes(f.dnAttributes.value)) else None);
  }

  lemma ExtensibleContent(f: Ber)
    requires f.Extensible?
    ensures Content(f) == Flatten(Encoded(ExtensibleParts(f)))
  {
    ExtensibleWires(f);
    hide Flatten;
    hide Wire;
    hide Encoded;
    hide OptionalWire;
    hide ExtensibleParts;
  }

  lemma ExtensiblePart(p: Ber, ctx: Context)
    requires p.MatchingRule? || p.RuleType? || p.MatchValue? || (p.DnAttributes? && (p.value == 0 || p.value == 0xFF))
    requires ctx.table == MATCHING_RULE && Fits(|Content(p)|)
    ensures Reads(ctx, Encode(p), p)
  {
    ExtensiblePartBack(p, Inherit(ctx));
    assert Lookup(ctx, Masked(Id(p))) == Some(ClassOf(p));
    hide Content;
    hide FromBer;
    ObjectBack(ctx, Id(p), Content(p), ClassOf(p), p);
  }

  lemma ExtensiblePartBack(p: Ber, inh: Context)
    requires p.MatchingRule? || p.RuleType? || p.MatchValue? || (p.DnAttributes? && (p.value == 0 || p.value == 0xFF))
    ensures FromBer(ClassOf(p), Content(p), inh) == Done(p)
  {
    if p.DnAttributes? { FlagBack(p.value); }
  }

  lemma ExtensibleBack(f: Ber, inh: Context)
    requires f.Extensible? && IsFilter(f) && Fits(|Content(f)|)
    ensures FromBer(ExtensibleClass, Content(f), inh) == Done(f)
  {
    var ctx, parts := MatchingRuleContext(inh), ExtensibleParts(f);
    var ws := Encoded(parts);
    ExtensibleContent(f);
    ExtensibleMade(f);
    hide Content;
    hide Flatten;
    hide Fits;
    hide MakeExtensible;
    forall i | 0 <= i < |parts| ensures Reads(ctx, ws[i], parts[i]) {
      PartFits(ws, i, Id(parts[i]), Content(parts[i]));
      ExtensiblePart(parts[i], ctx);
    }
    AllRead(ctx, ws, parts);
    FromParts(ExtensibleClass, Content(f), inh, ctx, parts);
    hide FromBer;
  }

  /** Which parts are there is seen from their classes. */
  lemma ExtensibleMade(f: Ber)
    requires f.Extensible?
    ensures MakeExtensible(ExtensibleParts(f)) == Done(f)
  {
    var l := ExtensibleParts(f);
    var l1 := if f.rule.Some? then l[1..] else l;
    assert l1 == (if f.ruleType.Some? then [RuleType(f.ruleType.value)] else []) +
                 [MatchValue(f.matchValue)] +
                 (if f.dnAttributes.Some? then [DnAttributes(f.dnAttributes.value)] else []);
    var l2 := if f.ruleType.Some? then l1[1..] else l1;
    assert l2 == [MatchValue(f.matchValue)] +
                 (if f.dnAttributes.Some? then [DnAttributes(f.dnAttributes.value)] else []);
  }

  // --------------------------------------------------------- search requests

  function OctetStrings(vs: seq<Bytes>): seq<Ber> {
    seq(|vs|, i requires 0 <= i < |vs| => OctetString(vs[i]))
  }

  /** The members of a search request, as objects. */
  function RequestParts(r: Ber): seq<Ber>
    requires r.SearchRequest?
  {
    [OctetString(r.base), Enumerated(r.scope), Enumerated(r.deref), Integer(r.sizeLimit), Integer(r.timeLimit),
     Boolean(Flag(r.typesOnly)), r.filter, Sequence(OctetStrings(r.attributes))]
  }

  lemma AttributesWire(vs: seq<Bytes>)
    ensures Encode(Sequence(OctetStrings(vs))) ==
            Wire(0x30, Flatten(seq(|vs|, i requires 0 <= i < |vs| => OctetsWire(vs[i]))))
  {
    hide Flatten;
    hide Wire;
    var bs := OctetStrings(vs);
    forall i | 0 <= i < |vs| ensures Encode(bs[i]) == OctetsWire(vs[i]) {
      EncodeOctetString(vs[i]);
    }
    hide OctetsWire;
    assert seq(|bs|, i requires 0 <= i < |bs| => Encode(bs[i])) ==
           seq(|vs|, i requires 0 <= i < |vs| => OctetsWire(vs[i]));
  }

  lemma EncodeScalar(b: Ber)
    requires b.Integer? || b.Enumerated? || b.Boolean?
    ensures Encode(b) == Wire(Id(b), if b.Boolean? then [Flag(b.value)] else Int2Ber(b.value, true))
  {
    hide Wire;
    hide Int2Ber;
  }

  lemma RequestContent(r: Ber)
    requires r.SearchRequest?
    ensures Content(r) == Flatten(Encoded(RequestParts(r)))
  {
    hide Wire;
    hide Flatten;
    hide Int2Ber;
    EncodeOctetString(r.base);
    EncodeScalar(Enumerated(r.scope));
    EncodeScalar(Enumerated(r.deref));
    EncodeScalar(Integer(r.sizeLimit));
    EncodeScalar(Integer(r.timeLimit));
    EncodeScalar(Boolean(Flag(r.typesOnly)));
    AttributesWire(r.attributes);
    hide OctetStrings;
    hide Encode;
    hide OctetsWire;
    assert Encoded(RequestParts(r)) ==
           [OctetsWire(r.base), Wire(0x0A, Int2Ber(r.scope, true)), Wire(0x0A, Int2Ber(r.deref, true)),
            Wire(0x02, Int2Ber(r.sizeLimit, true)), Wire(0x02, Int2Ber(r.timeLimit, true)),
            Wire(0x01, [Flag(r.typesOnly)]), Encode(r.filter), Encode(Sequence(OctetStrings(r.attributes)))];
  }

  lemma RequestMade(r: Ber)
    requires r.SearchRequest?
    ensures MakeSearchRequest(RequestParts(r)) == Done(r.(typesOnly := Flag(r.typesOnly)))
  {
    var attributes := OctetStrings(r.attributes);
    assert seq(|attributes|, i requires 0 <= i < |attributes| => attributes[i].octets) == r.attributes;
  }

  lemma RequestPlain(r: Ber, i: nat)
    requires r.SearchRequest? && i < 8 && i != 6
    ensures IsPlain(RequestParts(r)[i])
  {
  }

  /** A search request reads back; its typesOnly comes back as a flag. */
  lemma RequestBack(r: Ber, inh: Context)
    requires r.SearchRequest? && IsFilter(r.filter) && Grounded(inh) && Fits(|Content(r)|)
    ensures FromBer(SearchRequestClass, Content(r), inh) == Done(r.(typesOnly := Flag(r.typesOnly)))
  {
    var ctx, parts := FilterContext(inh), RequestParts(r);
    var ws := Encoded(parts);
    RequestContent(r);
    RequestMade(r);
    StaysGrounded(inh);
    assert |parts| == 8 && parts[6] == r.filter;
    hide *;
    forall i | 0 <= i < |parts| ensures i < |ws| && Reads(ctx, ws[i], parts[i]) {
      EncodedAt(parts, i);
      PartFits(ws, i, Id(parts[i]), Content(parts[i]));
      if i == 6 {
        FilterTable(inh);
        FilterReads(r.filter, ctx);
      } else {
        RequestPlain(r, i);
        PlainReads(parts[i], ctx);
      }
    }
    EncodedAt(parts, 0);
    AllRead(ctx, ws, parts);
    FromParts(SearchRequestClass, Content(r), inh, ctx, parts);
  }

  lemma FilterTable(inh: Context)
    ensures FilterContext(inh).table == FILTER && Inherit(FilterContext(inh)) == inh
  {
  }

  lemma EncodedAt(items: seq<Ber>, i: nat)
    requires i < |items|
    ensures |Encoded(items)| == |items|
              && Encoded(items)[i] == Encode(items[i]) == Wire(Id(items[i]), Content(items[i]))
  {
    hide Content;
    hide Wire;
  }

  // ---------------------------------------------------------------- controls

  /** A control as it comes back: its criticality a flag. */
  function Settled(c: Control): Control {
    Control(c.controlType, if c.criticality.Some? then Some(Flag(c.criticality.value)) else None, c.controlValue)
  }

  function ControlParts(c: Control): seq<Ber> {
    [OctetString(c.controlType)] +
    (if c.criticality.Some? then [Boolean(Flag(c.criticality.value))] else []) +
    (if c.controlValue.Some? then [OctetString(c.controlValue.value)] else [])
  }

  lemma ControlMade(c: Control)
    ensures MakeControl(ControlParts(c)) == Done(ControlObject(Settled(c)))
  {
  }

  lemma ControlWires(c: Control)
    ensures ControlContent(c) == Flatten(Encoded(ControlParts(c)))
  {
    hide Wire;
    hide Flatten;
    hide Encode;
    var crit := if c.criticality.Some? then [Boolean(Flag(c.criticality.value))] else [];
    var value := if c.controlValue.Some? then [OctetString(c.controlValue.value)] else [];
    EncodedConcat([OctetString(c.controlType)] + crit, value);
    EncodedConcat([OctetString(c.controlType)], crit);
    EncodeOctetString(c.controlType);
    if c.criticality.Some? { EncodeScalar(Boolean(Flag(c.criticality.value))); }
    if c.controlValue.Some? { EncodeOctetString(c.controlValue.value); }
    assert Encoded([OctetString(c.controlType)]) == [OctetsWire(c.controlType)];
    assert Encoded(crit) == if c.criticality.Some? then [Wire(0x01, [Flag(c.criticality.value)])] else [];
    assert Encoded(value) == OptionalWire(0x04, c.controlValue);
  }

  lemma PlainList(items: seq<Ber>, ctx: Context)
    requires Grounded(ctx) && Fits(|Flatten(Encoded(items))|)
    requires forall i :: 0 <= i < |items| ==> IsPlain(items[i])
    ensures DecodeMultiple(Flatten(Encoded(items)), ctx) == Done(items)
  {
    var ws := Encoded(items);
    hide *;
    if items == [] {
      NoneEncoded(items);
    } else {
      EncodedAt(items, 0);
    }
    forall i | 0 <= i < |items| ensures i < |ws| && Reads(ctx, ws[i], items[i]) {
      EncodedAt(items, i);
      PartFits(ws, i, Id(items[i]), Content(items[i]));
      PlainReads(items[i], ctx);
    }
    AllRead(ctx, ws, items);
  }

  lemma NoneEncoded(items: seq<Ber>)
    requires items == []
    ensures |Encoded(items)| == 0
  {
  }

  lemma ControlBack(c: Control, inh: Context)
    requires Grounded(inh) && Fits(|ControlContent(c)|)
    ensures FromBer(ControlClass, ControlContent(c), inh) == Done(ControlObject(Settled(c)))
  {
    var parts := ControlParts(c);
    assert forall i :: 0 <= i < |parts| ==> IsPlain(parts[i]);
    ControlWires(c);
    ControlMade(c);
    hide *;
    PlainList(parts, inh);
    FromItems(ControlClass, ControlContent(c), inh, parts);
  }

  function ControlsWires(cs: seq<Control>): seq<Bytes> {
    seq(|cs|, i requires 0 <= i < |cs| => Wire(0x30, ControlContent(cs[i])))
  }

  function SettledAll(cs: seq<Control>): seq<Control> {
    seq(|cs|, i requires 0 <= i < |cs| => Settled(cs[i]))
  }

  function ControlObjects(cs: seq<Control>): seq<Ber> {
    seq(|cs|, i requires 0 <= i < |cs| => ControlObject(cs[i]))
  }

  lemma ControlReads(c: Control, inh: Context)
    requires Grounded(inh) && Fits(|ControlContent(c)|)
    ensures Reads(ControlsContext(inh), Wire(0x30, ControlContent(c)), ControlObject(Settled(c)))
  {
    ControlBack(c, inh);
    hide Reads;
    hide FromBer;
    hide Settled;
    hide ControlContent;
    ObjectBack(ControlsContext(inh), 0x30, ControlContent(c), ControlClass, ControlObject(Settled(c)));
  }

  lemma ControlsBack(cs: seq<Control>, inh: Context)
    requires Grounded(inh) && Fits(|Flatten(ControlsWires(cs))|)
    ensures FromBer(ControlsClass, Flatten(ControlsWires(cs)), inh) == Done(Controls(ControlObjects(SettledAll(cs))))
  {
    var ctx, ws, bs := ControlsContext(inh), ControlsWires(cs), ControlObjects(SettledAll(cs));
    hide Wire;
    hide Flatten;
    hide Fits;
    hide Settled;
    hide ControlContent;
    hide Reads;
    forall i | 0 <= i < |cs| ensures Reads(ctx, ws[i], bs[i]) {
      PartFits(ws, i, 0x30, ControlContent(cs[i]));
      ControlReads(cs[i], inh);
    }
    AllRead(ctx, ws, bs);
    FromParts(ControlsClass, Flatten(ws), inh, ctx, bs);
    hide FromBer;
  }

  // ---------------------------------------------------------------- messages

  /** A message as it comes back: flags for whatever integers stood for truth. */
  function Canonical(m: Ber): Ber {
    if !m.Message? || !m.op.SearchRequest? then m
    else
      Message(m.id, m.op.(typesOnly := Flag(m.op.typesOnly)),
              if m.controls.Some? then Some(SettledAll(m.controls.value)) else None)
  }

  lemma CanonicalIs(m: Ber)
    requires m.Message? && m.op.SearchRequest?
    ensures Canonical(m) == m <==>
            && (m.op.typesOnly == 0 || m.op.typesOnly == 0xFF)
            && (m.controls.Some? ==>
                  forall i :: 0 <= i < |m.controls.value| && m.controls.value[i].criticality.Some? ==>
                    m.controls.value[i].criticality.value == 0 || m.controls.value[i].criticality.value == 0xFF)
  {
    if m.controls.Some? {
      var cs := m.controls.value;
      assert forall i :: 0 <= i < |cs| ==>
        (SettledAll(cs)[i] == cs[i] <==>
         (cs[i].criticality.Some? ==> cs[i].criticality.value == 0 || cs[i].criticality.value == 0xFF));
      assert SettledAll(cs) == cs <==> forall i :: 0 <= i < |cs| ==> SettledAll(cs)[i] == cs[i];
    }
  }

  const MESSAGE_CONTEXT := SERVER.inherited.value

  lemma MessageContexts()
    ensures Grounded(LDAP_CONTEXT) && Grounded(MESSAGE_CONTEXT) && Inherit(MESSAGE_CONTEXT) == LDAP_CONTEXT
    ensures Lookup(MESSAGE_CONTEXT, 0x43) == Some(SearchRequestClass)
    ensures Lookup(MESSAGE_CONTEXT, 0x80) == Some(ControlsClass)
    ensures Lookup(SERVER, 0x10) == Some(MessageClass) && Inherit(SERVER) == MESSAGE_CONTEXT
  {
    var universal := Context(UNIVERSAL, None, None);
    assert forall t :: Lookup(universal, t) == Identity(UNIVERSAL, t);
    assert forall t :: Lookup(LDAP_CONTEXT, t) ==
                       if Identity(LDAP, t).Some? then Identity(LDAP, t) else Identity(UNIVERSAL, t);
    assert forall t :: Lookup(MESSAGE_CONTEXT, t) ==
                       if Identity(MESSAGE, t).Some? then Identity(MESSAGE, t) else Lookup(LDAP_CONTEXT, t);
  }

  function MessageWires(m: Ber): seq<Bytes>
    requires m.Message?
  {
    [Wire(0x02, Int2Ber(m.id, true)), Encode(m.op)] +
    (if m.controls.Some? then [Wire(0xA0, Flatten(ControlsWires(m.controls.value)))] else [])
  }

  /** The members of a message as they come back. */
  function MessageParts(m: Ber): seq<Ber>
    requires m.Message? && m.op.SearchRequest?
  {
    [Integer(m.id), m.op.(typesOnly := Flag(m.op.typesOnly))] +
    (if m.controls.Some? then [Controls(ControlObjects(SettledAll(m.controls.value)))] else [])
  }

  lemma MessageContent(m: Ber)
    requires m.Message?
    ensures Content(m) == Flatten(MessageWires(m))
  {
    hide Wire;
    hide Flatten;
    hide Encode;
    hide Int2Ber;
    hide ControlContent;
    if m.controls.Some? {
      var cs := m.controls.value;
      assert ControlsWires(cs) == seq(|cs|, i requires 0 <= i < |cs| => Wire(0x30, ControlContent(cs[i])));
    }
  }

  lemma MessageMade(m: Ber)
    requires m.Message? && m.op.SearchRequest?
    ensures MakeMessage(MessageParts(m)) == Done(Canonical(m))
  {
    hide Settled;
    if m.controls.Some? {
      var cs := SettledAll(m.controls.value);
      var items := ControlObjects(cs);
      assert seq(|items|, i requires 0 <= i < |items| => items[i].control) == cs;
    }
  }

  lemma IdReads(id: int)
    requires Fits(|Int2Ber(id, true)|)
    ensures Reads(MESSAGE_CONTEXT, Wire(0x02, Int2Ber(id, true)), Integer(id))
  {
    MessageContexts();
    IntegerBack(id, true);
    hide Int2Ber;
    hide Lookup;
    hide Ber2Int;
    ObjectBack(MESSAGE_CONTEXT, 0x02, Int2Ber(id, true), IntegerClass, Integer(id));
  }

  lemma WireOfRequest(r: Ber)
    requires r.SearchRequest?
    ensures Encode(r) == Wire(0x63, Content(r)) && Masked(0x63) == 0x43
  {
    hide Content;
    hide Wire;
  }

  lemma WireOfMessage(m: Ber)
    requires m.Message?
    ensures Encode(m) == Wire(0x30, Content(m)) && Masked(0x30) == 0x10
  {
    hide Content;
    hide Wire;
  }

  lemma OpReads(r: Ber)
    requires r.SearchRequest? && IsFilter(r.filter) && Fits(|Content(r)|)
    ensures Reads(MESSAGE_CONTEXT, Encode(r), r.(typesOnly := Flag(r.typesOnly)))
  {
    MessageContexts();
    WireOfRequest(r);
    RequestBack(r, LDAP_CONTEXT);
    hide *;
    ObjectBack(MESSAGE_CONTEXT, 0x63, Content(r), SearchRequestClass, r.(typesOnly := Flag(r.typesOnly)));
  }

  lemma ControlsRead(cs: seq<Control>)
    requires Fits(|Flatten(ControlsWires(cs))|)
    ensures Reads(MESSAGE_CONTEXT, Wire(0xA0, Flatten(ControlsWires(cs))), Controls(ControlObjects(SettledAll(cs))))
  {
    MessageContexts();
    ControlsBack(cs, LDAP_CONTEXT);
    hide Lookup;
    hide FromBer;
    hide ControlsWires;
    ObjectBack(MESSAGE_CONTEXT, 0xA0, Flatten(ControlsWires(cs)), ControlsClass,
               Controls(ControlObjects(SettledAll(cs))));
  }

  lemma MessageDecoded(m: Ber)
    requires m.Message? && m.op.SearchRequest? && IsFilter(m.op.filter) && Fits(|Flatten(MessageWires(m))|)
    ensures DecodeMultiple(Flatten(MessageWires(m)), MESSAGE_CONTEXT) == Done(MessageParts(m))
  {
    var ws, parts := MessageWires(m), MessageParts(m);
    hide Wire;
    hide Flatten;
    hide Fits;
    hide Content;
    hide Int2Ber;
    hide ControlsWires;
    hide ControlObjects;
    hide Reads;
    hide IsFilter;
    PartFits(ws, 0, 0x02, Int2Ber(m.id, true));
    PartFits(ws, 1, 0x63, Content(m.op));
    IdReads(m.id);
    OpReads(m.op);
    if m.controls.Some? {
      PartFits(ws, 2, 0xA0, Flatten(ControlsWires(m.controls.value)));
      ControlsRead(m.controls.value);
    }
    hide Encode;
    AllRead(MESSAGE_CONTEXT, ws, parts);
  }

  /** Every search request message, with any filter and any controls, is read
      back by the server from its own octets, whatever follows them; only the
      integers that stand for truth come back as flags. */
  lemma MessageReads(m: Ber)
    requires m.Message? && m.op.SearchRequest? && IsFilter(m.op.filter) && Fits(|Content(m)|)
    ensures Reads(SERVER, Encode(m), Canonical(m))
  {
    MessageContexts();
    MessageContent(m);
    MessageMade(m);
    WireOfMessage(m);
    hide *;
    MessageDecoded(m);
    FromItems(MessageClass, Content(m), MESSAGE_CONTEXT, MessageParts(m));
    ObjectBack(SERVER, 0x30, Content(m), MessageClass, Canonical(m));
  }

  /** The same with the message's length in any of its forms. */
  lemma MessageSpelled(m: Ber, l: Bytes)
    requires m.Message? && m.op.SearchRequest? && IsFilter(m.op.filter) && Fits(|Content(m)|)
    requires IsLength(l, |Content(m)|)
    ensures Reads(SERVER, [0x30] + l + Content(m), Canonical(m))
  {
    MessageContexts();
    MessageContent(m);
    MessageMade(m);
    WireOfMessage(m);
    hide *;
    MessageDecoded(m);
    FromItems(MessageClass, Content(m), MESSAGE_CONTEXT, MessageParts(m));
    SpelledBack(SERVER, 0x30, l, Content(m), MessageClass, Canonical(m));
  }
}
