/** The content of one entry and the changes made to it: what attributeset.py,
    entry.py and delta.py say about a single entry.

    An attribute name is a string in its one spelling and a value is a byte
    string, each character standing for one octet. */
module Attributes {

  type Attrs = map<string, set<string>>

  const OBJECT_CLASS := "objectClass"

  datatype Kind = Add | Delete | Replace

  datatype Modification = Modification(kind: Kind, key: string, values: set<string>)

  /** The values held for a key; an absent attribute holds none. */
  function Values(a: Attrs, k: string): set<string> {
    if k in a then a[k] else {}
  }

  /** Same values for every attribute, an absent attribute counting as empty. */
  ghost predicate Same(a: Attrs, b: Attrs) {
    forall k :: Values(a, k) == Values(b, k)
  }

  /** The attributes that hold a value. */
  function Held(a: Attrs): Attrs {
    map k | k in a && a[k] != {} :: a[k]
  }

  lemma HeldIsSame(a: Attrs, b: Attrs)
    ensures Held(a) == Held(b) <==> Same(a, b)
    ensures Same(Held(a), a)
  {
    if Held(a) == Held(b) {
      forall k ensures Values(a, k) == Values(b, k) {
        assert Values(a, k) == Values(Held(a), k) && Values(b, k) == Values(Held(b), k);
      }
    }
    if Same(a, b) {
      forall k ensures k in Held(a) <==> k in Held(b) {
        assert Values(a, k) == Values(b, k);
      }
      forall k | k in Held(a) ensures Held(a)[k] == Held(b)[k] {
        assert Values(a, k) == Values(b, k);
      }
    }
  }

  // ---------------------------------------------------------------- patching

  /** When Modification.patch does not raise. */
  predicate Applicable(m: Modification, a: Attrs) {
    m.kind.Delete? ==> m.key in a && m.values <= a[m.key]
  }

  /** What Modification.patch leaves behind: a Delete that names values leaves
      the attribute in place, possibly with no value at all. */
  function Applied(m: Modification, a: Attrs): Attrs
    requires Applicable(m, a)
  {
    match m.kind
    case Add => a[m.key := Values(a, m.key) + m.values]
    case Delete =>
      if m.values == {} then a - {m.key} else a[m.key := a[m.key] - m.values]
    case Replace =>
      if m.values == {} then a - {m.key} else a[m.key := m.values]
  }

  /** Value by value, what patching leaves: an Add only adds, a Delete takes out what it
      names or, naming nothing, everything, and a Replace leaves what it names. */
  lemma AppliedTo(m: Modification, a: Attrs, k: string, v: string)
    requires Applicable(m, a)
    ensures v in Values(Applied(m, a), k) <==>
            if k != m.key then v in Values(a, k)
            else if m.kind == Add then v in Values(a, k) || v in m.values
            else if m.kind == Delete then m.values != {} && v in Values(a, k) && v !in m.values
            else v in m.values
  {
  }

  /** Which attributes there are then: only one that nothing is named for goes. */
  lemma AppliedKeys(m: Modification, a: Attrs)
    requires Applicable(m, a)
    ensures Applied(m, a).Keys == if m.kind != Add && m.values == {} then a.Keys - {m.key} else a.Keys + {m.key}
  {
  }

  /** A KeyError comes exactly of deleting an attribute or a value that is not there. */
  lemma RaisesExactly(m: Modification, a: Attrs)
    ensures !Applicable(m, a) <==>
            m.kind == Delete && (m.key !in a.Keys || exists v :: v in m.values && v !in Values(a, m.key))
  {
  }

  datatype Outcome = Done(attrs: Attrs) | Raised

  /** Several modifications one after another. */
  function RunMods(ms: seq<Modification>, a: Attrs): Outcome {
    if ms == [] then Done(a)
    else
      var before := RunMods(ms[..|ms| - 1], a);
      var m := ms[|ms| - 1];
      if before.Done? && Applicable(m, before.attrs) then Done(Applied(m, before.attrs)) else Raised
  }

  lemma RunModsSnoc(ms: seq<Modification>, m: Modification, a: Attrs)
    ensures RunMods(ms + [m], a) ==
            if RunMods(ms, a).Done? && Applicable(m, RunMods(ms, a).attrs)
            then Done(Applied(m, RunMods(ms, a).attrs)) else Raised
  {
    assert (ms + [m])[..|ms + [m]| - 1] == ms;
  }

  lemma {:induction false} RunModsConcat(ms: seq<Modification>, ns: seq<Modification>, a: Attrs)
    ensures RunMods(ms + ns, a) ==
            if RunMods(ms, a).Done? then RunMods(ns, RunMods(ms, a).attrs) else Raised
    decreases |ns|
  {
    if ns == [] {
      assert ms + ns == ms;
    } else {
      var n := |ns| - 1;
      RunModsConcat(ms, ns[..n], a);
      assert (ms + ns)[..|ms + ns| - 1] == ms + ns[..n];
    }
  }

  // ----------------------------------------------------------------- copying

  /** An entry built from another one's items(): everything but an objectClass
      attribute that holds no value. */
  function Rebuilt(a: Attrs): (r: Attrs)
    ensures Same(a, r)
  {
    if OBJECT_CLASS in a && a[OBJECT_CLASS] == {} then a - {OBJECT_CLASS} else a
  }

  // ----------------------------------------------------------------- diffing

  /** What an entry holding `a` holds once diff(a, b) was applied: `b`, and an
      empty set for each attribute whose every value was deleted by name. */
  function Patched(a: Attrs, b: Attrs): Attrs {
    map k | k in a.Keys + b.Keys && (k in b || a[k] != {}) :: if k in b then b[k] else {}
  }

  lemma PatchedMeaning(a: Attrs, b: Attrs)
    ensures Same(Patched(a, b), b)
    ensures Patched(a, b) == b <==> forall k :: k in a && k !in b ==> a[k] == {}
    ensures Patched(a, a) == a
  {
    if Patched(a, b) == b {
      forall k | k in a && k !in b ensures a[k] == {} {
        assert k !in Patched(a, b);
      }
    }
  }

  /** The entry while the attributes in `left` still have to be brought over. */
  ghost function Stage(a: Attrs, b: Attrs, left: set<string>): Attrs {
    var t := Patched(a, b);
    map k | k in a.Keys + b.Keys && (if k in left then k in a else k in t) :: if k in left then a[k] else t[k]
  }

  lemma StageEnds(a: Attrs, b: Attrs)
    ensures Stage(a, b, {}) == Patched(a, b)
    ensures Stage(a, b, a.Keys + b.Keys) == a
  {
  }

  /** Bringing over one attribute changes that attribute and no other. */
  lemma StageStep(a: Attrs, b: Attrs, left: set<string>, k: string)
    requires k in a.Keys + b.Keys && k in left
    ensures Stage(a, b, left - {k}) ==
            (if k in Patched(a, b) then Stage(a, b, left)[k := Patched(a, b)[k]] else Stage(a, b, left) - {k})
    ensures k in Stage(a, b, left) <==> k in a
    ensures k in a ==> Stage(a, b, left)[k] == a[k]
    ensures k in Patched(a, b) <==> k in b || a[k] != {}
    ensures k in Patched(a, b) ==> Patched(a, b)[k] == if k in b then b[k] else {}
  {
  }

  /** The one or two modifications for an attribute both entries have. */
  function SharedMods(k: string, mine: set<string>, its: set<string>): seq<Modification> {
    (if its - mine != {} then [Modification(Add, k, its - mine)] else []) +
    (if mine - its != {} then [Modification(Delete, k, mine - its)] else [])
  }

  lemma AddThenRemove(mine: set<string>, its: set<string>)
    ensures mine + (its - mine) == mine + its
    ensures mine + its - (mine - its) == its
    ensures its - mine == {} ==> mine + its == mine
    ensures mine - its == {} ==> mine + its == its
  {
    forall x | x in its && its - mine == {} ensures x in mine { assert x !in its - mine; }
    forall x | x in mine && mine - its == {} ensures x in its { assert x !in mine - its; }
  }

  lemma SharedModsRun(k: string, its: set<string>, s: Attrs)
    requires k in s
    ensures RunMods(SharedMods(k, s[k], its), s) == Done(s[k := its])
  {
    var mine := s[k];
    var first := if its - mine != {} then [Modification(Add, k, its - mine)] else [];
    var mid := s[k := mine + its];
    AddThenRemove(mine, its);
    assert RunMods(first, s) == Done(mid) by {
      if its - mine == {} { assert mid == s; }
      else { RunModsSnoc([], first[0], s); assert [] + first == first; }
    }
    if mine - its != {} {
      RunModsSnoc(first, Modification(Delete, k, mine - its), s);
      assert mid[k := its] == s[k := its];
    } else {
      assert SharedMods(k, mine, its) == first;
    }
  }

  ghost predicate Reached(r: seq<Modification>, a: Attrs, b: Attrs, left: set<string>) {
    RunMods(r, a) == Done(Stage(a, b, left))
  }

  /** One turn of each of diff's three loops brings one more attribute over. */
  lemma DiffStep(a: Attrs, b: Attrs, left: set<string>, k: string, r: seq<Modification>)
    requires k in a.Keys + b.Keys && k in left
    requires Reached(r, a, b, left)
    ensures k in b && k !in a ==>
              Reached(r + [Modification(Add, k, b[k])], a, b, left - {k})
    ensures k in a && k !in b ==>
              Reached(r + [Modification(Delete, k, a[k])], a, b, left - {k})
    ensures k in a && k in b ==>
              Reached(r + SharedMods(k, a[k], b[k]), a, b, left - {k})
  {
    hide Stage;
    hide Patched;
    StageStep(a, b, left, k);
    if k !in a {
      assert {} + b[k] == b[k];
      RunModsSnoc(r, Modification(Add, k, b[k]), a);
    } else if k !in b {
      assert a[k] - a[k] == {};
      RunModsSnoc(r, Modification(Delete, k, a[k]), a);
    } else {
      SharedModsRun(k, b[k], Stage(a, b, left));
      RunModsConcat(r, SharedMods(k, a[k], b[k]), a);
    }
  }

  /** A modification that names an attribute of one of the two entries, and no
      value but theirs. */
  predicate ModFrom(m: Modification, a: Attrs, b: Attrs) {
    m.key in a.Keys + b.Keys && m.values <= Values(a, m.key) + Values(b, m.key)
  }

  ghost predicate ModsFrom(ms: seq<Modification>, a: Attrs, b: Attrs) {
    forall i :: 0 <= i < |ms| ==> ModFrom(ms[i], a, b)
  }

  lemma ModsFromStep(ms: seq<Modification>, k: string, a: Attrs, b: Attrs)
    requires ModsFrom(ms, a, b)
    ensures k in b ==> ModsFrom(ms + [Modification(Add, k, b[k])], a, b)
    ensures k in a ==> ModsFrom(ms + [Modification(Delete, k, a[k])], a, b)
    ensures k in a && k in b ==> ModsFrom(ms + SharedMods(k, a[k], b[k]), a, b)
  {
    if k in a && k in b {
      forall i | 0 <= i < |SharedMods(k, a[k], b[k])| ensures ModFrom(SharedMods(k, a[k], b[k])[i], a, b) {
      }
    }
  }

  lemma DropOne(x: set<string>, y: set<string>, k: string)
    requires k !in x
    ensures x + y - {k} == x + (y - {k})
  {
  }

  method DiffAdded(a: Attrs, b: Attrs) returns (r: seq<Modification>)
    ensures Reached(r, a, b, a.Keys) && ModsFrom(r, a, b)
  {
    r := [];
    var added := b.Keys - a.Keys;
    StageEnds(a, b);
    assert a.Keys + added == a.Keys + b.Keys;
    assert Reached(r, a, b, a.Keys + added);
    hide *;
    while added != {}
      invariant added <= b.Keys - a.Keys
      invariant Reached(r, a, b, a.Keys + added) && ModsFrom(r, a, b)
      decreases |added|
    {
      var k :| k in added;
      DiffStep(a, b, a.Keys + added, k, r);
      ModsFromStep(r, k, a, b);
      DropOne(a.Keys, added, k);
      r, added := r + [Modification(Add, k, b[k])], added - {k};
    }
    assert a.Keys + added == a.Keys;
  }

  method DiffDeleted(a: Attrs, b: Attrs, r0: seq<Modification>) returns (r: seq<Modification>)
    requires Reached(r0, a, b, a.Keys) && ModsFrom(r0, a, b)
    ensures Reached(r, a, b, a.Keys * b.Keys) && ModsFrom(r, a, b)
  {
    hide *;
    r := r0;
    ghost var both := a.Keys * b.Keys;
    var deleted := a.Keys - b.Keys;
    assert both + deleted == a.Keys;
    while deleted != {}
      invariant deleted <= a.Keys - b.Keys
      invariant Reached(r, a, b, both + deleted) && ModsFrom(r, a, b)
      decreases |deleted|
    {
      var k :| k in deleted;
      DiffStep(a, b, both + deleted, k, r);
      ModsFromStep(r, k, a, b);
      DropOne(both, deleted, k);
      r, deleted := r + [Modification(Delete, k, a[k])], deleted - {k};
    }
    assert both + deleted == both;
  }

  method DiffShared(a: Attrs, b: Attrs, r0: seq<Modification>) returns (r: seq<Modification>)
    requires Reached(r0, a, b, a.Keys * b.Keys) && ModsFrom(r0, a, b)
    ensures Reached(r, a, b, {}) && ModsFrom(r, a, b)
  {
    hide *;
    r := r0;
    var shared := a.Keys * b.Keys;
    while shared != {}
      invariant shared <= a.Keys * b.Keys
      invariant Reached(r, a, b, shared) && ModsFrom(r, a, b)
      decreases |shared|
    {
      var k :| k in shared;
      DiffStep(a, b, shared, k, r);
      ModsFromStep(r, k, a, b);
      var mods := SharedDiff(k, a[k], b[k]);
      r, shared := r + mods, shared - {k};
    }
  }

  method SharedDiff(k: string, mine: set<string>, its: set<string>) returns (r: seq<Modification>)
    ensures r == SharedMods(k, mine, its)
  {
    r := [];
    var addedValues := its - mine;
    if addedValues != {} {
      r := r + [Modification(Add, k, addedValues)];
    }
    var deletedValues := mine - its;
    if deletedValues != {} {
      r := r + [Modification(Delete, k, deletedValues)];
    }
  }

  /** BaseLDAPEntry.diff on the two entries' attributes. Each loop takes its
      keys in some order; sorting them only makes one order reproducible. */
  method Diff(a: Attrs, b: Attrs) returns (changed: bool, r: seq<Modification>)
    ensures changed <==> a != b
    ensures RunMods(r, a) == Done(Patched(a, b))
    ensures ModsFrom(r, a, b)
    ensures !changed ==> r == []
  {
    PatchedMeaning(a, b);
    StageEnds(a, b);
    changed, r := a != b, [];
    if changed {
      r := DiffAdded(a, b);
      r := DiffDeleted(a, b, r);
      r := DiffShared(a, b, r);
    }
  }
}
