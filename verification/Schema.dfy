/** ldap/schema/subentry.py: names and OIDs, the object classes that some are built
    on, and the attribute types that their entries must and may have. */
module Schema {
  import opened Options
  import opened Sequences

  type Oid = string

  datatype ObjectClass = ObjectClass(oid: Oid, sup: seq<string>, must: seq<string>, may: seq<string>)

  datatype AttributeType = AttributeType(oid: Oid, syntax: string)

  /** Elements of one kind by their OID, and where their names point. */
  datatype Elements<E> = Elements(sed: map<Oid, E>, name2oid: map<string, Oid>)

  datatype SubSchema = SubSchema(classes: Elements<ObjectClass>, attributes: Elements<AttributeType>)

  // -------------------------------------------------------------- names and OIDs

  function UpToSemicolon(s: string): string {
    if s == [] || s[0] == ';' then [] else [s[0]] + UpToSemicolon(s[1..])
  }

  function RStrip(s: string): string {
    if s != [] && IsSpace(s[|s| - 1]) then RStrip(s[..|s| - 1]) else s
  }

  /** A name without its sub-types and the white space around it. */
  function Stripped(name: string): string {
    RStrip(LStrip(UpToSemicolon(name)))
  }

  predicate Plain(s: string) {
    ';' !in s && (s == [] || (!IsSpace(s[0]) && !IsSpace(s[|s| - 1])))
  }

  lemma {:induction false} UpToIsPlain(s: string)
    ensures ';' !in UpToSemicolon(s) && (';' !in s ==> UpToSemicolon(s) == s)
  {
    if s != [] { UpToIsPlain(s[1..]); }
  }

  lemma {:induction false} LStripped(s: string)
    ensures LStrip(s) == [] || !IsSpace(LStrip(s)[0])
    ensures forall c :: c in LStrip(s) ==> c in s
  {
    if s != [] { LStripped(s[1..]); }
  }

  lemma {:induction false} RStripped(s: string)
    requires s == [] || !IsSpace(s[0])
    ensures var r := RStrip(s); r == [] || (!IsSpace(r[0]) && !IsSpace(r[|r| - 1]))
    ensures forall c :: c in RStrip(s) ==> c in s
    decreases |s|
  {
    if s != [] && IsSpace(s[|s| - 1]) { RStripped(s[..|s| - 1]); }
  }

  /** Stripping a name leaves nothing more to strip. */
  lemma StrippedIsPlain(name: string)
    ensures Plain(Stripped(name))
    ensures Plain(name) ==> Stripped(name) == name
  {
    UpToIsPlain(name);
    LStripped(UpToSemicolon(name));
    RStripped(LStrip(UpToSemicolon(name)));
  }

  /** getoid, without raise_keyerror: a name that is not known comes back stripped. */
  function GetOid<E>(es: Elements<E>, name: string): Oid {
    var s := Stripped(name);
    if s in es.sed then s else if s in es.name2oid then es.name2oid[s] else s
  }

  /** get_obj. */
  function GetObj<E>(es: Elements<E>, name: string): Option<E> {
    if GetOid(es, name) in es.sed then Some(es.sed[GetOid(es, name)]) else None
  }

  /** Every name points at an element, and the OIDs are as such. */
  ghost predicate WellNamed<E>(es: Elements<E>) {
    && (forall o :: o in es.sed ==> Plain(o))
    && (forall n :: n in es.name2oid ==> es.name2oid[n] in es.sed)
  }

  ghost predicate Valid(schema: SubSchema) {
    && WellNamed(schema.classes) && WellNamed(schema.attributes)
    && (forall o :: o in schema.classes.sed ==> schema.classes.sed[o].oid == o)
    && (forall o :: o in schema.attributes.sed ==> schema.attributes.sed[o].oid == o)
  }

  /** An OID that a name stood for stands for itself. */
  lemma OidIsFixed<E>(es: Elements<E>, name: string)
    requires WellNamed(es)
    ensures GetOid(es, GetOid(es, name)) == GetOid(es, name)
  {
    StrippedIsPlain(name);
    StrippedIsPlain(GetOid(es, name));
  }

  // ------------------------------------------------- what a name stands for

  /** The white space that strip() takes off. */
  predicate WhiteSpace(s: string) {
    forall i :: 0 <= i < |s| ==> s[i] as int in {9, 10, 11, 12, 13, 28, 29, 30, 31, 32}
  }

  /** A name as it may be written: white space around the name itself, and behind it
      sub-types, each after a semicolon. */
  predicate Written(name: string, before: string, core: string, after: string, subTypes: string) {
    && name == before + core + after + subTypes
    && WhiteSpace(before) && WhiteSpace(after)
    && ';' !in core && (subTypes == "" || subTypes[0] == ';')
    && (core == "" || (!WhiteSpace([core[0]]) && !WhiteSpace([core[|core| - 1]])))
  }

  /** A described OID stands for itself, any other name that was published for the
      OID it points at, and anything else for itself. */
  predicate PointsAt<E>(es: Elements<E>, core: string, oid: Oid) {
    || (core in es.sed && oid == core)
    || (core !in es.sed && core in es.name2oid && oid == es.name2oid[core])
    || (core !in es.sed && core !in es.name2oid && oid == core)
  }

  ghost predicate StandsFor<E>(es: Elements<E>, name: string, oid: Oid) {
    exists before, core, after, subTypes :: Written(name, before, core, after, subTypes) && PointsAt(es, core, oid)
  }

  lemma SpaceIs(s: string, i: nat)
    requires i < |s|
    ensures WhiteSpace([s[i]]) <==> IsSpace(s[i])
    ensures WhiteSpace(s) ==> IsSpace(s[i])
  {
    assert [s[i]][0] == s[i];
  }

  lemma {:induction false} UpToIs(a: string, rest: string)
    requires ';' !in a && (rest == "" || rest[0] == ';')
    ensures UpToSemicolon(a + rest) == a
  {
    if a == "" {
      assert a + rest == rest;
    } else {
      assert (a + rest)[1..] == a[1..] + rest;
      UpToIs(a[1..], rest);
    }
  }

  lemma {:induction false} LStripIs(before: string, s: string)
    requires WhiteSpace(before) && (s == "" || !IsSpace(s[0]))
    ensures LStrip(before + s) == s
  {
    if before == "" {
      assert before + s == s;
    } else {
      SpaceIs(before, 0);
      assert (before + s)[1..] == before[1..] + s;
      LStripIs(before[1..], s);
    }
  }

  lemma {:induction false} RStripIs(s: string, after: string)
    requires WhiteSpace(after) && (s == "" || !IsSpace(s[|s| - 1]))
    ensures RStrip(s + after) == s
    decreases |after|
  {
    if after == "" {
      assert s + after == s;
    } else {
      var n := |after| - 1;
      SpaceIs(after, n);
      assert (s + after)[..|s + after| - 1] == s + after[..n];
      RStripIs(s, after[..n]);
    }
  }

  lemma NoSemicolon(s: string)
    requires WhiteSpace(s)
    ensures ';' !in s
  {
  }

  /** However a name is written, stripping leaves the name itself. */
  lemma WrittenStrips(name: string, before: string, core: string, after: string, subTypes: string)
    requires Written(name, before, core, after, subTypes)
    ensures Stripped(name) == core
  {
    NoSemicolon(before);
    NoSemicolon(after);
    UpToIs(before + core + after, subTypes);
    if core == "" {
      assert before + core + after == before + after + "";
      LStripIs(before + after, "");
    } else {
      SpaceIs(core, 0);
      SpaceIs(core, |core| - 1);
      assert before + core + after == before + (core + after);
      LStripIs(before, core + after);
      RStripIs(core, after);
    }
  }

  lemma {:induction false} UpToCuts(s: string) returns (rest: string)
    ensures s == UpToSemicolon(s) + rest && (rest == "" || rest[0] == ';')
  {
    if s == "" || s[0] == ';' {
      rest := s;
    } else {
      rest := UpToCuts(s[1..]);
      assert s == [s[0]] + s[1..];
    }
  }

  lemma {:induction false} LStripCuts(s: string) returns (before: string)
    ensures s == before + LStrip(s) && WhiteSpace(before)
  {
    if s != "" && IsSpace(s[0]) {
      var b := LStripCuts(s[1..]);
      before := [s[0]] + b;
      SpaceIs(s, 0);
      assert s == [s[0]] + s[1..];
    } else {
      before := "";
    }
  }

  lemma {:induction false} RStripCuts(s: string) returns (after: string)
    ensures s == RStrip(s) + after && WhiteSpace(after)
    decreases |s|
  {
    if s != "" && IsSpace(s[|s| - 1]) {
      var a := RStripCuts(s[..|s| - 1]);
      after := a + [s[|s| - 1]];
      SpaceIs(s, |s| - 1);
      assert s == s[..|s| - 1] + [s[|s| - 1]];
    } else {
      after := "";
    }
  }

  lemma AnyIsWritten(name: string) returns (before: string, after: string, subTypes: string)
    ensures Written(name, before, Stripped(name), after, subTypes)
  {
    StrippedIsPlain(name);
    subTypes := UpToCuts(name);
    before := LStripCuts(UpToSemicolon(name));
    after := RStripCuts(LStrip(UpToSemicolon(name)));
    var core := Stripped(name);
    if core != "" {
      SpaceIs(core, 0);
      SpaceIs(core, |core| - 1);
    }
    hide LStrip;
    hide RStrip;
    hide UpToSemicolon;
    hide WhiteSpace;
    Regroup(before, core, after);
  }

  /** getoid gives what a name stands for, and nothing else. */
  lemma GetOidIs<E>(es: Elements<E>, name: string, oid: Oid)
    ensures StandsFor(es, name, oid) <==> oid == GetOid(es, name)
  {
    if StandsFor(es, name, oid) {
      var before, core, after, subTypes :| Written(name, before, core, after, subTypes) && PointsAt(es, core, oid);
      WrittenStrips(name, before, core, after, subTypes);
    }
    if oid == GetOid(es, name) {
      var before, after, subTypes := AnyIsWritten(name);
      hide Written;
      hide Stripped;
      assert PointsAt(es, Stripped(name), oid);
    }
  }

  // --------------------------------------- the superiors, by what names stand for

  /** One of the names stands for it. */
  ghost predicate Named<E>(es: Elements<E>, names: seq<string>, oid: Oid) {
    exists n :: n in names && StandsFor(es, n, oid)
  }

  ghost predicate DirectlyOn(schema: SubSchema, o: Oid, s: Oid) {
    o in schema.classes.sed && Named(schema.classes, schema.classes.sed[o].sup, s)
  }

  /** From one of the named object classes to `oid`, each built directly on the next. */
  ghost predicate Chain(schema: SubSchema, names: seq<string>, p: seq<Oid>, oid: Oid) {
    && p != [] && Named(schema.classes, names, p[0]) && p[|p| - 1] == oid
    && forall i :: 0 <= i < |p| - 1 ==> DirectlyOn(schema, p[i], p[i + 1])
  }

  ghost predicate BuiltOn(schema: SubSchema, names: seq<string>, oid: Oid) {
    exists p :: Chain(schema, names, p, oid)
  }

  // ------------------------------------------------------------------ superiors

  function OidsOf(schema: SubSchema, names: seq<string>): set<Oid> {
    set n | n in names :: GetOid(schema.classes, n)
  }

  /** The object classes that one is directly built on. */
  function Superiors(schema: SubSchema, oid: Oid): set<Oid> {
    if oid in schema.classes.sed then OidsOf(schema, schema.classes.sed[oid].sup) else {}
  }

  /** A way up from one object class, each step to a superior of the last. */
  predicate Path(schema: SubSchema, p: seq<Oid>) {
    p != [] && forall i :: 0 <= i < |p| - 1 ==> p[i + 1] in Superiors(schema, p[i])
  }

  ghost predicate Reachable(schema: SubSchema, start: set<Oid>, oid: Oid) {
    exists p :: Path(schema, p) && p[0] in start && p[|p| - 1] == oid
  }

  /** All OIDs that can come up. */
  function Universe(schema: SubSchema, names: seq<string>): set<Oid> {
    OidsOf(schema, names) + set o, s | o in schema.classes.sed && s in schema.classes.sed[o].sup ::
                              GetOid(schema.classes, s)
  }

  predicate Distinct(s: seq<Oid>) {
    forall i, j :: 0 <= i < j < |s| ==> s[i] != s[j]
  }

  /** An OID that can be reached, and can come up. */
  ghost predicate Due(schema: SubSchema, names: seq<string>, oid: Oid) {
    Reachable(schema, OidsOf(schema, names), oid) && oid in Universe(schema, names)
  }

  /** Only what can be reached was seen or is pending. */
  ghost predicate Sound(schema: SubSchema, names: seq<string>, seen: seq<Oid>, pending: seq<string>) {
    && (forall o :: o in seen ==> Due(schema, names, o))
    && (forall n :: n in pending ==> Due(schema, names, GetOid(schema.classes, n)))
  }

  /** The names, and what is built on by something seen, were seen or are pending. */
  ghost predicate Covered(schema: SubSchema, names: seq<string>, seen: seq<Oid>, pending: seq<string>) {
    && (forall o :: o in OidsOf(schema, names) ==> o in seen || o in OidsOf(schema, pending))
    && (forall o, s :: o in seen && s in Superiors(schema, o) ==> s in seen || s in OidsOf(schema, pending))
  }

  ghost predicate Closed(schema: SubSchema, names: seq<string>, seen: seq<Oid>, pending: seq<string>) {
    Sound(schema, names, seen, pending) && Covered(schema, names, seen, pending)
  }

  lemma OidsFirst(schema: SubSchema, names: seq<string>)
    requires names != []
    ensures OidsOf(schema, names) == {GetOid(schema.classes, names[0])} + OidsOf(schema, names[1..])
  {
    assert forall n :: n in names <==> n == names[0] || n in names[1..];
    hide GetOid;
  }

  lemma OidsConcat(schema: SubSchema, a: seq<string>, b: seq<string>)
    ensures OidsOf(schema, a + b) == OidsOf(schema, a) + OidsOf(schema, b)
  {
    hide GetOid;
  }

  lemma Extend(schema: SubSchema, start: set<Oid>, o: Oid, s: Oid)
    requires Reachable(schema, start, o) && s in Superiors(schema, o)
    ensures Reachable(schema, start, s)
  {
    var p :| Path(schema, p) && p[0] in start && p[|p| - 1] == o;
    var q := p + [s];
    forall i | 0 <= i < |q| - 1 ensures q[i + 1] in Superiors(schema, q[i]) {
      if i < |p| - 1 { assert p[i + 1] in Superiors(schema, p[i]); }
    }
    assert Path(schema, q) && q[0] in start && q[|q| - 1] == s;
  }

  lemma StartReachable(schema: SubSchema, start: set<Oid>, o: Oid)
    requires o in start
    ensures Reachable(schema, start, o)
  {
    var p := [o];
    assert Path(schema, p) && p[0] in start && p[|p| - 1] == o;
  }

  lemma ClosedAtFirst(schema: SubSchema, names: seq<string>)
    ensures Closed(schema, names, [], names)
  {
    forall n | n in names ensures Due(schema, names, GetOid(schema.classes, n)) {
      StartReachable(schema, OidsOf(schema, names), GetOid(schema.classes, n));
    }
    hide Due;
    hide GetOid;
  }

  lemma ClosedSkip(schema: SubSchema, names: seq<string>, seen: seq<Oid>, pending: seq<string>)
    requires pending != [] && Closed(schema, names, seen, pending) && GetOid(schema.classes, pending[0]) in seen
    ensures Closed(schema, names, seen, pending[1..])
  {
    OidsFirst(schema, pending);
    hide Due;
    hide OidsOf;
    hide Superiors;
    hide GetOid;
  }

  /** What is pending for an object class once it was seen. */
  function SupOf(schema: SubSchema, oid: Oid): seq<string> {
    if oid in schema.classes.sed then schema.classes.sed[oid].sup else []
  }

  lemma SuperiorsAre(schema: SubSchema, oid: Oid)
    ensures Superiors(schema, oid) == OidsOf(schema, SupOf(schema, oid))
  {
    hide GetOid;
  }

  lemma SuperiorDue(schema: SubSchema, names: seq<string>, o: Oid, n: string)
    requires Due(schema, names, o) && n in SupOf(schema, o)
    ensures Due(schema, names, GetOid(schema.classes, n))
  {
    SuperiorsAre(schema, o);
    assert GetOid(schema.classes, n) in Superiors(schema, o);
    Extend(schema, OidsOf(schema, names), o, GetOid(schema.classes, n));
    hide GetOid;
    hide Reachable;
  }

  lemma SoundVisit(schema: SubSchema, names: seq<string>, seen: seq<Oid>, pending: seq<string>)
    requires pending != [] && Sound(schema, names, seen, pending)
    ensures var o := GetOid(schema.classes, pending[0]);
            Sound(schema, names, seen + [o], pending[1..] + SupOf(schema, o))
  {
    hide Due;
    hide GetOid;
    hide SupOf;
    var o := GetOid(schema.classes, pending[0]);
    assert pending[0] in pending;
    forall n | n in SupOf(schema, o) ensures Due(schema, names, GetOid(schema.classes, n)) {
      SuperiorDue(schema, names, o, n);
    }
  }

  lemma CoveredVisit(schema: SubSchema, names: seq<string>, seen: seq<Oid>, pending: seq<string>)
    requires pending != [] && Covered(schema, names, seen, pending)
    ensures var o := GetOid(schema.classes, pending[0]);
            Covered(schema, names, seen + [o], pending[1..] + SupOf(schema, o))
  {
    var o := GetOid(schema.classes, pending[0]);
    OidsFirst(schema, pending);
    OidsConcat(schema, pending[1..], SupOf(schema, o));
    SuperiorsAre(schema, o);
    hide OidsOf;
    hide GetOid;
    hide SupOf;
    hide Superiors;
  }

  lemma ClosedVisit(schema: SubSchema, names: seq<string>, seen: seq<Oid>, pending: seq<string>)
    requires pending != [] && Closed(schema, names, seen, pending)
    ensures var o := GetOid(schema.classes, pending[0]);
            Closed(schema, names, seen + [o], pending[1..] + SupOf(schema, o))
  {
    SoundVisit(schema, names, seen, pending);
    CoveredVisit(schema, names, seen, pending);
    hide Sound;
    hide Covered;
  }

  /** What nothing is pending for is closed: whatever can be reached was seen. */
  lemma ClosedIsAll(schema: SubSchema, names: seq<string>, seen: seq<Oid>)
    requires Closed(schema, names, seen, [])
    ensures forall o :: o in seen <==> Reachable(schema, OidsOf(schema, names), o)
  {
    NothingPending(schema);
    forall o | Reachable(schema, OidsOf(schema, names), o) ensures o in seen {
      var p :| Path(schema, p) && p[0] in OidsOf(schema, names) && p[|p| - 1] == o;
      PathSeen(schema, names, seen, p, |p| - 1);
    }
    forall o | o in seen ensures Reachable(schema, OidsOf(schema, names), o) {
      assert Due(schema, names, o);
    }
    hide *;
  }

  lemma NothingPending(schema: SubSchema)
    ensures OidsOf(schema, []) == {}
  {
  }

  lemma {:induction false} PathSeen(schema: SubSchema, names: seq<string>, seen: seq<Oid>, p: seq<Oid>, i: nat)
    requires Covered(schema, names, seen, []) && Path(schema, p) && p[0] in OidsOf(schema, names) && i < |p|
    ensures p[i] in seen
  {
    NothingPending(schema);
    hide OidsOf;
    hide Superiors;
    if i > 0 {
      PathSeen(schema, names, seen, p, i - 1);
      var j := i - 1;
      assert p[j + 1] in Superiors(schema, p[j]);
    }
  }

  /** _with_superiors: it ends, whatever cycles there are, with the object classes
      that can be reached from the names, each once. */
  method WithSuperiors(schema: SubSchema, names: seq<string>) returns (seen: seq<Oid>)
    ensures Distinct(seen)
    ensures forall o :: o in seen <==> BuiltOn(schema, names, o)
  {
    seen := [];
    var pending := names;
    ghost var left := Universe(schema, names);
    ClosedAtFirst(schema, names);
    hide *;
    assert Distinct(seen) by { NoneDistinct(); }
    while pending != []
      invariant Closed(schema, names, seen, pending) && Distinct(seen)
      invariant forall o :: o in left <==> o in Universe(schema, names) && o !in seen
      decreases |left|, |pending|
    {
      var name := pending[0];
      var oid := GetOid(schema.classes, name);
      InUniverse(schema, names, seen, pending);
      if oid in seen {
        ClosedSkip(schema, names, seen, pending);
        pending := pending[1..];
        continue;
      }
      ClosedVisit(schema, names, seen, pending);
      OneMoreDistinct(seen, oid);
      Smaller(left, oid);
      var objectClass := GetObj(schema.classes, name);
      ObjectIs(schema.classes, name);
      seen, left := seen + [oid], left - {oid};
      pending := pending[1..] + (if objectClass.Some? then objectClass.value.sup else []);
      SupIs(schema, oid, objectClass);
    }
    ClosedIsAll(schema, names, seen);
    ReachedIsBuilt(schema, names);
  }

  lemma NamedIs<E>(es: Elements<E>, names: seq<string>, oid: Oid)
    ensures Named(es, names, oid) <==> exists n :: n in names && GetOid(es, n) == oid
  {
    hide StandsFor;
    hide GetOid;
    forall n | n in names ensures StandsFor(es, n, oid) <==> oid == GetOid(es, n) {
      GetOidIs(es, n, oid);
    }
  }

  lemma OnIs(schema: SubSchema, o: Oid, s: Oid)
    ensures DirectlyOn(schema, o, s) <==> s in Superiors(schema, o)
  {
    if o in schema.classes.sed { NamedIs(schema.classes, schema.classes.sed[o].sup, s); }
    hide Named;
    hide GetOid;
  }

  lemma ChainIs(schema: SubSchema, names: seq<string>, p: seq<Oid>, oid: Oid)
    ensures Chain(schema, names, p, oid) <==> Path(schema, p) && p[0] in OidsOf(schema, names) && p[|p| - 1] == oid
  {
    if p != [] { NamedIs(schema.classes, names, p[0]); }
    hide Named;
    hide GetOid;
    forall i | 0 <= i < |p| - 1 ensures DirectlyOn(schema, p[i], p[i + 1]) <==> p[i + 1] in Superiors(schema, p[i]) {
      OnIs(schema, p[i], p[i + 1]);
    }
    hide DirectlyOn;
    hide Superiors;
  }

  lemma ReachedIsBuilt(schema: SubSchema, names: seq<string>)
    ensures forall o :: Reachable(schema, OidsOf(schema, names), o) <==> BuiltOn(schema, names, o)
  {
    hide Chain;
    hide OidsOf;
    hide Superiors;
    forall o ensures Reachable(schema, OidsOf(schema, names), o) <==> BuiltOn(schema, names, o) {
      if Reachable(schema, OidsOf(schema, names), o) {
        var p :| Path(schema, p) && p[0] in OidsOf(schema, names) && p[|p| - 1] == o;
        ChainIs(schema, names, p, o);
      }
      if BuiltOn(schema, names, o) {
        var p :| Chain(schema, names, p, o);
        ChainIs(schema, names, p, o);
      }
    }
  }

  lemma NoneDistinct()
    ensures Distinct([])
  {
  }

  lemma OneMoreDistinct(seen: seq<Oid>, oid: Oid)
    requires Distinct(seen) && oid !in seen
    ensures Distinct(seen + [oid])
  {
  }

  lemma Smaller(left: set<Oid>, oid: Oid)
    requires oid in left
    ensures |left - {oid}| < |left|
  {
  }

  lemma ObjectIs<E>(es: Elements<E>, name: string)
    ensures GetObj(es, name) == if GetOid(es, name) in es.sed then Some(es.sed[GetOid(es, name)]) else None
  {
  }

  lemma SupIs(schema: SubSchema, oid: Oid, objectClass: Option<ObjectClass>)
    requires objectClass == if oid in schema.classes.sed then Some(schema.classes.sed[oid]) else None
    ensures SupOf(schema, oid) == if objectClass.Some? then objectClass.value.sup else []
  {
  }

  lemma InUniverse(schema: SubSchema, names: seq<string>, seen: seq<Oid>, pending: seq<string>)
    requires Closed(schema, names, seen, pending) && pending != []
    ensures GetOid(schema.classes, pending[0]) in Universe(schema, names)
  {
    assert pending[0] in pending;
  }

  // ------------------------------------------------------------ attribute types

  datatype Types = Types(must: map<Oid, AttributeType>, may: map<Oid, AttributeType>)

  /** What raises KeyError when names have to be known. */
  predicate AllKnown<E>(es: Elements<E>, names: seq<string>) {
    forall n :: n in names ==> GetOid(es, n) in es.sed
  }

  /** The known elements that some names stand for. */
  function Described<E>(es: Elements<E>, names: seq<string>): set<Oid> {
    set n | n in names && GetOid(es, n) in es.sed :: GetOid(es, n)
  }

  ghost predicate Holds<E>(es: Elements<E>, m: map<Oid, E>, oids: set<Oid>) {
    m.Keys == oids && forall o :: o in m ==> o in es.sed && m[o] == es.sed[o]
  }

  function MustOf(schema: SubSchema, oid: Oid): seq<string> {
    if oid in schema.classes.sed then schema.classes.sed[oid].must else []
  }

  function MayOf(schema: SubSchema, oid: Oid): seq<string> {
    if oid in schema.classes.sed then schema.classes.sed[oid].may else []
  }

  /** The known attribute types that some reachable object class requires. */
  ghost predicate IsMust(schema: SubSchema, names: seq<string>, t: Oid) {
    exists o :: Reachable(schema, OidsOf(schema, names), o) && t in Described(schema.attributes, MustOf(schema, o))
  }

  ghost predicate IsMay(schema: SubSchema, names: seq<string>, t: Oid) {
    exists o :: Reachable(schema, OidsOf(schema, names), o) && t in Described(schema.attributes, MayOf(schema, o))
  }

  /** One object class is known, with every attribute that it names. */
  predicate Resolved(schema: SubSchema, o: Oid) {
    && o in schema.classes.sed
    && AllKnown(schema.attributes, MustOf(schema, o)) && AllKnown(schema.attributes, MayOf(schema, o))
  }

  ghost predicate Resolves(schema: SubSchema, names: seq<string>) {
    forall o :: Reachable(schema, OidsOf(schema, names), o) ==> Resolved(schema, o)
  }

  function MustOfAll(schema: SubSchema, seen: seq<Oid>): set<Oid> {
    set o, t | o in seen && t in Described(schema.attributes, MustOf(schema, o)) :: t
  }

  function MayOfAll(schema: SubSchema, seen: seq<Oid>): set<Oid> {
    set o, t | o in seen && t in Described(schema.attributes, MayOf(schema, o)) :: t
  }

  lemma DescribedNext<E>(es: Elements<E>, names: seq<string>, i: nat)
    requires i < |names|
    ensures Described(es, names[..i + 1]) ==
            Described(es, names[..i]) + if GetOid(es, names[i]) in es.sed then {GetOid(es, names[i])} else {}
  {
    assert names[..i + 1] == names[..i] + [names[i]];
    hide GetOid;
  }

  lemma AllOfNext(schema: SubSchema, seen: seq<Oid>, i: nat)
    requires i < |seen|
    ensures MustOfAll(schema, seen[..i + 1]) ==
              MustOfAll(schema, seen[..i]) + Described(schema.attributes, MustOf(schema, seen[i]))
    ensures MayOfAll(schema, seen[..i + 1]) ==
              MayOfAll(schema, seen[..i]) + Described(schema.attributes, MayOf(schema, seen[i]))
  {
    assert seen[..i + 1] == seen[..i] + [seen[i]];
    hide Described;
    hide MustOf;
    hide MayOf;
  }

  lemma KnownObject<E>(es: Elements<E>, name: string)
    ensures var o := GetObj(es, name); o.Some? <==> GetOid(es, name) in es.sed
    ensures var o := GetObj(es, name); o.Some? ==> o.value == es.sed[GetOid(es, name)]
  {
    hide GetOid;
  }

  /** The attribute types that one list names, stored by OID beside those before. */
  method Collect(schema: SubSchema, names: seq<string>, into: map<Oid, AttributeType>, raiseKeyError: bool,
                 ghost before: set<Oid>)
    returns (r: Option<map<Oid, AttributeType>>)
    requires Valid(schema) && Holds(schema.attributes, into, before)
    ensures r.Some? <==> !raiseKeyError || AllKnown(schema.attributes, names)
    ensures r.Some? ==> Holds(schema.attributes, r.value, before + Described(schema.attributes, names))
  {
    var m := into;
    hide GetOid;
    hide GetObj;
    for i := 0 to |names|
      invariant Holds(schema.attributes, m, before + Described(schema.attributes, names[..i]))
      invariant raiseKeyError ==> AllKnown(schema.attributes, names[..i])
    {
      DescribedNext(schema.attributes, names, i);
      KnownObject(schema.attributes, names[i]);
      var attributeType := GetObj(schema.attributes, names[i]);
      if attributeType.Some? {
        m := m[attributeType.value.oid := attributeType.value];
      } else if raiseKeyError {
        assert names[i] in names;
        return None;
      }
    }
    assert names[..|names|] == names;
    return Some(m);
  }

  lemma SeenAre(schema: SubSchema, names: seq<string>, seen: seq<Oid>)
    requires forall o :: o in seen <==> Reachable(schema, OidsOf(schema, names), o)
    ensures forall t :: t in MustOfAll(schema, seen) <==> IsMust(schema, names, t)
    ensures forall t :: t in MayOfAll(schema, seen) <==> IsMay(schema, names, t)
    ensures Resolves(schema, names) <==> forall o :: o in seen ==> Resolved(schema, o)
  {
    hide Reachable;
    hide Described;
    hide Resolved;
    hide OidsOf;
  }

  lemma SeenFixed(schema: SubSchema, names: seq<string>, seen: seq<Oid>, i: nat)
    requires Valid(schema) && i < |seen|
    requires forall o :: o in seen <==> Reachable(schema, OidsOf(schema, names), o)
    ensures GetOid(schema.classes, seen[i]) == seen[i]
  {
    assert seen[i] in seen;
    var p :| Path(schema, p) && p[0] in OidsOf(schema, names) && p[|p| - 1] == seen[i];
    var n: string;
    if |p| == 1 {
      n :| n in names && GetOid(schema.classes, n) == seen[i];
    } else {
      var k := |p| - 2;
      assert p[k + 1] in Superiors(schema, p[k]);
      n :| n in SupOf(schema, p[k]) && GetOid(schema.classes, n) == seen[i];
    }
    OidIsFixed(schema.classes, n);
  }

  /** What one object class names, stored beside what was stored before. */
  method CollectClass(schema: SubSchema, oid: Oid, so: Types, raiseKeyError: bool, ghost must: set<Oid>,
                      ghost may: set<Oid>)
    returns (r: Option<Types>)
    requires Valid(schema) && GetOid(schema.classes, oid) == oid
    requires Holds(schema.attributes, so.must, must) && Holds(schema.attributes, so.may, may)
    ensures r.Some? <==> !raiseKeyError || Resolved(schema, oid)
    ensures r.Some? ==> Holds(schema.attributes, r.value.must, must + Described(schema.attributes, MustOf(schema, oid)))
    ensures r.Some? ==> Holds(schema.attributes, r.value.may, may + Described(schema.attributes, MayOf(schema, oid)))
  {
    hide GetOid;
    hide GetObj;
    hide Described;
    hide Holds;
    hide Valid;
    hide AllKnown;
    KnownObject(schema.classes, oid);
    var objectClass := GetObj(schema.classes, oid);
    if objectClass.None? {
      NothingNamed(schema, oid);
      UnionWithNone(must);
      UnionWithNone(may);
      return if raiseKeyError then None else Some(so);
    }
    var required := Collect(schema, objectClass.value.must, so.must, raiseKeyError, must);
    if required.None? { return None; }
    var allowed := Collect(schema, objectClass.value.may, so.may, raiseKeyError, may);
    if allowed.None? { return None; }
    return Some(Types(required.value, allowed.value));
  }

  lemma UnionWithNone(s: set<Oid>)
    ensures s + {} == s
  {
  }

  /** An attribute that is required is not merely allowed. */
  method PopAll(m: map<Oid, AttributeType>, oids: set<Oid>) returns (r: map<Oid, AttributeType>)
    ensures r.Keys == m.Keys - oids && forall o :: o in r ==> r[o] == m[o]
  {
    r := m;
    var left := oids;
    while left != {}
      invariant left <= oids
      invariant forall t :: t in r <==> t in m && (t in oids ==> t in left)
      invariant forall t :: t in r ==> r[t] == m[t]
      decreases |left|
    {
      var oid :| oid in left;
      Smaller(left, oid);
      r, left := r - {oid}, left - {oid};
    }
  }

  /** What is due once the object classes of `seen` were gone through. */
  ghost predicate Gathered(schema: SubSchema, types: Types, seen: seq<Oid>) {
    && Holds(schema.attributes, types.must, MustOfAll(schema, seen))
    && Holds(schema.attributes, types.may, MayOfAll(schema, seen))
  }

  lemma GatheredNext(schema: SubSchema, types: Types, seen: seq<Oid>, i: nat)
    requires i < |seen|
    requires Holds(schema.attributes, types.must,
                   MustOfAll(schema, seen[..i]) + Described(schema.attributes, MustOf(schema, seen[i])))
    requires Holds(schema.attributes, types.may,
                   MayOfAll(schema, seen[..i]) + Described(schema.attributes, MayOf(schema, seen[i])))
    ensures Gathered(schema, types, seen[..i + 1])
  {
    AllOfNext(schema, seen, i);
    hide MustOfAll;
    hide MayOfAll;
    hide Described;
    hide Holds;
  }

  predicate ResolvedAll(schema: SubSchema, seen: seq<Oid>) {
    forall o :: o in seen ==> Resolved(schema, o)
  }

  lemma ResolvedNext(schema: SubSchema, seen: seq<Oid>, i: nat)
    requires i < |seen|
    ensures ResolvedAll(schema, seen[..i + 1]) <==> ResolvedAll(schema, seen[..i]) && Resolved(schema, seen[i])
    ensures ResolvedAll(schema, seen) ==> Resolved(schema, seen[i])
  {
    assert seen[..i + 1] == seen[..i] + [seen[i]];
    assert seen[i] in seen;
    hide Resolved;
  }

  /** A known attribute type that one of the names stands for. */
  ghost predicate Lists(schema: SubSchema, names: seq<string>, t: Oid) {
    t in schema.attributes.sed && Named(schema.attributes, names, t)
  }

  ghost predicate Required(schema: SubSchema, names: seq<string>, t: Oid) {
    exists o :: BuiltOn(schema, names, o) && o in schema.classes.sed && Lists(schema, schema.classes.sed[o].must, t)
  }

  ghost predicate Allowed(schema: SubSchema, names: seq<string>, t: Oid) {
    exists o :: BuiltOn(schema, names, o) && o in schema.classes.sed && Lists(schema, schema.classes.sed[o].may, t)
  }

  /** Every name stands for a known attribute type. */
  ghost predicate AllListed(schema: SubSchema, names: seq<string>) {
    forall n, t :: n in names && StandsFor(schema.attributes, n, t) ==> t in schema.attributes.sed
  }

  /** Every object class that the named ones are built on is known, and so is every
      attribute type that it names. */
  ghost predicate AllFound(schema: SubSchema, names: seq<string>) {
    forall o :: BuiltOn(schema, names, o) ==>
      && o in schema.classes.sed
      && AllListed(schema, schema.classes.sed[o].must) && AllListed(schema, schema.classes.sed[o].may)
  }

  lemma ListsIs(schema: SubSchema, names: seq<string>, t: Oid)
    ensures Lists(schema, names, t) <==> t in Described(schema.attributes, names)
  {
    NamedIs(schema.attributes, names, t);
    hide Named;
    hide GetOid;
  }

  lemma AllListedIs(schema: SubSchema, names: seq<string>)
    ensures AllListed(schema, names) <==> AllKnown(schema.attributes, names)
  {
    forall n, t ensures StandsFor(schema.attributes, n, t) <==> t == GetOid(schema.attributes, n) {
      GetOidIs(schema.attributes, n, t);
    }
    hide StandsFor;
    hide GetOid;
  }

  lemma AnswersAre(schema: SubSchema, names: seq<string>)
    ensures forall t :: IsMust(schema, names, t) <==> Required(schema, names, t)
    ensures forall t :: IsMay(schema, names, t) <==> Allowed(schema, names, t)
    ensures Resolves(schema, names) <==> AllFound(schema, names)
  {
    ReachedIsBuilt(schema, names);
    hide Reachable;
    hide BuiltOn;
    hide OidsOf;
    forall o | o in schema.classes.sed
      ensures forall t :: ListedIn(schema, o, t)
      ensures Resolved(schema, o) <==>
              AllListed(schema, schema.classes.sed[o].must) && AllListed(schema, schema.classes.sed[o].may)
    {
      forall t ensures ListedIn(schema, o, t) {
        ListsIs(schema, MustOf(schema, o), t);
        ListsIs(schema, MayOf(schema, o), t);
      }
      AllListedIs(schema, MustOf(schema, o));
      AllListedIs(schema, MayOf(schema, o));
    }
    forall o | o !in schema.classes.sed
      ensures Described(schema.attributes, MustOf(schema, o)) == {}
                && Described(schema.attributes, MayOf(schema, o)) == {}
    {
      NothingNamed(schema, o);
    }
    hide AllListed;
    hide AllKnown;
    MustIs(schema, names);
  }

  ghost predicate ListedIn(schema: SubSchema, o: Oid, t: Oid)
    requires o in schema.classes.sed
  {
    && (Lists(schema, schema.classes.sed[o].must, t) <==> t in Described(schema.attributes, MustOf(schema, o)))
    && (Lists(schema, schema.classes.sed[o].may, t) <==> t in Described(schema.attributes, MayOf(schema, o)))
  }

  lemma MustIs(schema: SubSchema, names: seq<string>)
    requires forall o :: Reachable(schema, OidsOf(schema, names), o) <==> BuiltOn(schema, names, o)
    requires forall o, t :: o in schema.classes.sed ==> ListedIn(schema, o, t)
    requires forall o :: o !in schema.classes.sed ==>
               Described(schema.attributes, MustOf(schema, o)) == {}
                   && Described(schema.attributes, MayOf(schema, o)) == {}
    ensures forall t :: IsMust(schema, names, t) <==> Required(schema, names, t)
    ensures forall t :: IsMay(schema, names, t) <==> Allowed(schema, names, t)
  {
    hide Reachable;
    hide BuiltOn;
    hide OidsOf;
    hide Lists;
    hide Described;
    hide MustOf;
    hide MayOf;
    forall t ensures IsMust(schema, names, t) <==> Required(schema, names, t) {
      if IsMust(schema, names, t) {
        var o :| Reachable(schema, OidsOf(schema, names), o) && t in Described(schema.attributes, MustOf(schema, o));
        assert ListedIn(schema, o, t);
      }
      if Required(schema, names, t) {
        var o :| BuiltOn(schema, names, o) && o in schema.classes.sed && Lists(schema, schema.classes.sed[o].must, t);
        assert ListedIn(schema, o, t);
      }
    }
    forall t ensures IsMay(schema, names, t) <==> Allowed(schema, names, t) {
      if IsMay(schema, names, t) {
        var o :| Reachable(schema, OidsOf(schema, names), o) && t in Described(schema.attributes, MayOf(schema, o));
        assert ListedIn(schema, o, t);
      }
      if Allowed(schema, names, t) {
        var o :| BuiltOn(schema, names, o) && o in schema.classes.sed && Lists(schema, schema.classes.sed[o].may, t);
        assert ListedIn(schema, o, t);
      }
    }
  }

  /** attribute_types: it raises KeyError exactly when asked to and something is not
      known; otherwise it gives all that the reachable object classes require, and
      all that they allow and none of them requires. */
  method AttributeTypes(schema: SubSchema, names: seq<string>, raiseKeyError: bool) returns (r: Option<Types>)
    requires Valid(schema)
    ensures r.Some? <==> !raiseKeyError || AllFound(schema, names)
    ensures r.Some? ==> forall t :: t in r.value.must <==> Required(schema, names, t)
    ensures r.Some? ==> forall t :: t in r.value.may <==> Allowed(schema, names, t) && !Required(schema, names, t)
    ensures r.Some? ==> forall t :: t in r.value.must ==>
              t in schema.attributes.sed && r.value.must[t] == schema.attributes.sed[t]
    ensures r.Some? ==> forall t :: t in r.value.may ==>
              t in schema.attributes.sed && r.value.may[t] == schema.attributes.sed[t]
  {
    var types := Types(map[], map[]);
    hide *;
    var seen := WithSuperiors(schema, names);
    ReachedIsBuilt(schema, names);
    AnswersAre(schema, names);
    SeenAre(schema, names, seen);
    NoneYet(schema);
    assert seen[..0] == [];
    for i := 0 to |seen|
      invariant Gathered(schema, types, seen[..i])
      invariant raiseKeyError ==> ResolvedAll(schema, seen[..i])
    {
      SeenFixed(schema, names, seen, i);
      ResolvedNext(schema, seen, i);
      GatheredIs(schema, types, seen[..i]);
      var next := CollectClass(schema, seen[i], types, raiseKeyError,
                               MustOfAll(schema, seen[..i]), MayOfAll(schema, seen[..i]));
      if next.None? {
        ResolvesIs(schema, names, seen);
        return None;
      }
      types := next.value;
      GatheredNext(schema, types, seen, i);
    }
    assert seen[..|seen|] == seen;
    ResolvesIs(schema, names, seen);
    GatheredIs(schema, types, seen);
    HeldAre(schema.attributes, types.must, MustOfAll(schema, seen));
    HeldAre(schema.attributes, types.may, MayOfAll(schema, seen));
    var may := PopAll(types.may, types.must.Keys);
    return Some(Types(types.must, may));
  }

  lemma GatheredIs(schema: SubSchema, types: Types, seen: seq<Oid>)
    requires Gathered(schema, types, seen)
    ensures Holds(schema.attributes, types.must, MustOfAll(schema, seen))
    ensures Holds(schema.attributes, types.may, MayOfAll(schema, seen))
  {
  }

  lemma HeldAre<E>(es: Elements<E>, m: map<Oid, E>, oids: set<Oid>)
    requires Holds(es, m, oids)
    ensures m.Keys == oids && forall o :: o in m ==> o in es.sed && m[o] == es.sed[o]
  {
  }

  lemma ResolvesIs(schema: SubSchema, names: seq<string>, seen: seq<Oid>)
    requires Resolves(schema, names) <==> forall o :: o in seen ==> Resolved(schema, o)
    ensures Resolves(schema, names) <==> ResolvedAll(schema, seen)
  {
    hide Resolved;
  }

  lemma NoneYet(schema: SubSchema)
    ensures Gathered(schema, Types(map[], map[]), []) && ResolvedAll(schema, [])
  {
  }

  lemma NothingNamed(schema: SubSchema, o: Oid)
    requires o !in schema.classes.sed
    ensures Described(schema.attributes, MustOf(schema, o)) == {}
              && Described(schema.attributes, MayOf(schema, o)) == {}
  {
  }
}
