/** delta.py's patch methods on the heap, and the whole of ldifdiff followed by
    ldifpatch: what one tree's difference to another makes of the first. */
module Patching {
  import opened DistinguishedName
  import opened Attributes
  import opened Operations
  import opened Directory
  import opened TreeDiff

  /** What a modification leaves of `a` when it raises: a Delete may have taken out
      some of the values that it names, in whatever order it went. */
  ghost predicate Torn(m: Modification, a: Attrs, b: Attrs) {
    && m.kind.Delete? && !Applicable(m, a)
    && if m.key in a then exists gone :: TornBy(m, a, b, gone) else b == a
  }

  ghost predicate TornBy(m: Modification, a: Attrs, b: Attrs, gone: set<string>)
    requires m.key in a
  {
    gone <= m.values * a[m.key] && b == a[m.key := a[m.key] - gone]
  }

  /** Modification.patch: Add, Delete and Replace on one entry. */
  method PatchEntry(m: Modification, e: Entry) returns (ok: bool)
    modifies e`attributes
    ensures ok <==> Applicable(m, old(e.attributes))
    ensures ok ==> e.attributes == Applied(m, old(e.attributes))
    ensures !ok ==> Torn(m, old(e.attributes), e.attributes)
  {
    match m.kind
    case Add =>
      if m.key in e.attributes {
        e.attributes := e.attributes[m.key := e.attributes[m.key] + m.values];
      } else {
        e.attributes := e.attributes[m.key := m.values];
        assert {} + m.values == m.values;
      }
      ok := true;
    case Delete =>
      if m.values == {} {
        ok := m.key in e.attributes;
        if ok {
          e.attributes := e.attributes - {m.key};
        }
      } else {
        ghost var gone;
        ok, gone := RemoveValues(m.key, m.values, e);
        assert !ok && m.key in old(e.attributes) ==> TornBy(m, old(e.attributes), e.attributes, gone);
      }
    case Replace =>
      if m.values != {} {
        e.attributes := e.attributes[m.key := m.values];
      } else if m.key in e.attributes {
        e.attributes := e.attributes - {m.key};
      } else {
        assert e.attributes - {m.key} == e.attributes;
      }
      ok := true;
  }

  /** The values one after another, stopping at the first that is not there. */
  method RemoveValues(key: string, values: set<string>, e: Entry) returns (ok: bool, ghost gone: set<string>)
    requires values != {}
    modifies e`attributes
    ensures ok <==> key in old(e.attributes) && values <= old(e.attributes)[key]
    ensures ok ==> gone == values
    ensures key in old(e.attributes) ==>
              gone <= values * old(e.attributes)[key]
              && e.attributes == old(e.attributes)[key := old(e.attributes)[key] - gone]
    ensures key !in old(e.attributes) ==> e.attributes == old(e.attributes)
  {
    var left := values;
    gone := {};
    if key !in e.attributes {
      return false, gone;
    }
    ghost var held := e.attributes[key];
    assert held - gone == held && e.attributes == e.attributes[key := held];
    while left != {}
      invariant left <= values && gone == values - left && gone <= held
      invariant e.attributes == old(e.attributes)[key := held - gone]
      decreases |left|
    {
      var v :| v in left;
      if v !in e.attributes[key] {
        return false, gone;
      }
      assert held - gone - {v} == held - (gone + {v});
      e.attributes := e.attributes[key := e.attributes[key] - {v}];
      left, gone := left - {v}, gone + {v};
    }
    assert gone == values;
    ok := true;
  }

  /** What modifications leave of `a` when the one at `i` raises: those before it
      are applied, it may be in part, and none after it. */
  ghost predicate LeftBy(mods: seq<Modification>, a: Attrs, b: Attrs, i: nat) {
    i < |mods| && RunMods(mods[..i], a).Done? && Torn(mods[i], RunMods(mods[..i], a).attrs, b)
  }

  method PatchMods(mods: seq<Modification>, e: Entry) returns (ok: bool)
    modifies e`attributes
    ensures RunMods(mods, old(e.attributes)).Done? <==> ok
    ensures ok ==> RunMods(mods, old(e.attributes)) == Done(e.attributes)
    ensures !ok ==> exists i :: LeftBy(mods, old(e.attributes), e.attributes, i)
  {
    for i := 0 to |mods|
      invariant RunMods(mods[..i], old(e.attributes)) == Done(e.attributes)
    {
      RunModsSnoc(mods[..i], mods[i], old(e.attributes));
      assert mods[..i + 1] == mods[..i] + [mods[i]];
      ok := PatchEntry(mods[i], e);
      if !ok {
        assert LeftBy(mods, old(e.attributes), e.attributes, i);
        RunModsConcat(mods[..i + 1], mods[i + 1..], old(e.attributes));
        assert mods[..i + 1] + mods[i + 1..] == mods;
        return;
      }
    }
    assert mods[..|mods|] == mods;
    ok := true;
  }

  /** The directory is as it was, but for the entry whose modifications stopped. */
  ghost predicate LeftAt(before: Flat, after: Flat, dn: DN, mods: seq<Modification>, attrs: Attrs) {
    dn in before && after == before[dn := attrs] && exists i :: LeftBy(mods, before[dn], attrs, i)
  }

  method PatchModify(dn: DN, mods: seq<Modification>, t: Tree) returns (r: Answer)
    requires t.Valid()
    modifies t, t.view.index.Values
    ensures t.Valid() && t.view.index == old(t.view.index) && t.root.dn == old(t.root.dn)
    ensures match Apply(old(t.view.contents), old(t.root.dn), ModifyOp(dn, mods))
            case Ok(after) => r.Returned? && t.view.contents == after
            case Failed(error) =>
              && r == Refused(error) && (error != AttributeKeyError ==> t.view == old(t.view))
              && (error == AttributeKeyError ==>
                    exists attrs :: LeftAt(old(t.view.contents), t.view.contents, dn, mods, attrs))
  {
    t.AllUnderRoot(dn);
    t.Named();
    r := t.root.Lookup(dn, t);
    if r.Refused? {
      return;
    }
    hide IsTree;
    hide RunMods;
    assert t.Shows(dn);
    assert forall d :: d in t.view.index && d != dn ==> t.Shows(d) && t.view.index[d] != r.entry;
    var ok := PatchMods(mods, r.entry);
    t.Record(r.entry);
    if !ok {
      assert LeftAt(old(t.view.contents), t.view.contents, dn, mods, r.entry.attributes);
      r := Refused(AttributeKeyError);
    }
  }

  lemma ValuesAfterPut(m: map<DN, Entry>, k: DN, e: Entry)
    ensures forall x :: x in m[k := e].Values ==> x in m.Values || x == e
  {
  }

  method PatchAdd(dn: DN, attrs: Attrs, t: Tree) returns (r: Answer)
    requires t.Valid()
    modifies t, t.view.index.Values
    ensures t.Valid() && t.root.dn == old(t.root.dn)
    ensures forall e :: e in t.view.index.Values ==> e in old(t.view.index.Values) || fresh(e)
    ensures match Apply(old(t.view.contents), old(t.root.dn), AddOp(dn, attrs))
            case Ok(after) => r.Returned? && t.view.contents == after
            case Failed(error) => r == Refused(error) && t.view == old(t.view)
  {
    hide IsTree;
    hide Rebuilt;
    ghost var up := if dn == [] then [] else dn[1..];
    t.AllUnderRoot(up);
    t.Named();
    r := t.root.Lookup(if dn == [] then [] else dn[1..], t);
    if r.Refused? {
      return;
    }
    if dn == [] {
      return Refused(EmptyName);
    }
    HeadTail(dn);
    assert [dn[0]] + r.entry.dn == dn;
    hide IsUnder;
    ghost var was := t.view.index;
    r := r.entry.AddChild(dn[0], attrs, t);
    if r.Returned? {
      ValuesAfterPut(was, dn, r.entry);
      assert t.view.index == was[dn := r.entry];
    }
  }

  method PatchDelete(dn: DN, t: Tree) returns (r: Answer)
    requires t.Valid()
    modifies t, t.view.index.Values
    ensures t.Valid() && t.root.dn == old(t.root.dn)
    ensures t.view.index.Values <= old(t.view.index.Values)
    ensures match Apply(old(t.view.contents), old(t.root.dn), DeleteOp(dn))
            case Ok(after) => r.Returned? && t.view.contents == after
            case Failed(error) => r == Refused(error) && t.view == old(t.view)
  {
    t.AllUnderRoot(dn);
    t.Named();
    r := t.root.Lookup(dn, t);
    if r.Refused? {
      return;
    }
    t.ParentOf(r.entry);
    hide IsTree;
    r := r.entry.Delete(t);
  }

  /** Operation.patch. */
  method Patch(op: Operation, t: Tree) returns (r: Answer)
    requires t.Valid()
    modifies t, t.view.index.Values
    ensures t.Valid() && t.root.dn == old(t.root.dn)
    ensures forall e :: e in t.view.index.Values ==> e in old(t.view.index.Values) || fresh(e)
    ensures match Apply(old(t.view.contents), old(t.root.dn), op)
            case Ok(after) => r.Returned? && t.view.contents == after
            case Failed(error) =>
              && r == Refused(error) && (error != AttributeKeyError ==> t.view == old(t.view))
              && (error == AttributeKeyError ==>
                    op.ModifyOp?
                    && exists attrs :: LeftAt(old(t.view.contents), t.view.contents, op.dn, op.mods, attrs))
  {
    match op
    case ModifyOp(dn, mods) =>
      r := PatchModify(dn, mods, t);
    case AddOp(dn, attrs) =>
      r := PatchAdd(dn, attrs, t);
    case DeleteOp(dn) =>
      r := PatchDelete(dn, t);
  }

  /** The operations before `i` were replayed; the one at `i` failed, and left an
      entry in part modified at most. */
  ghost predicate StoppedAt(m: Flat, base: DN, ops: seq<Operation>, i: nat, after: Flat) {
    && i < |ops| && Replay(m, base, ops[..i]).Ok? && Apply(Replay(m, base, ops[..i]).flat, base, ops[i]).Failed?
    && (after == Replay(m, base, ops[..i]).flat
        || (ops[i].ModifyOp?
            && exists attrs :: LeftAt(Replay(m, base, ops[..i]).flat, after, ops[i].dn, ops[i].mods, attrs)))
  }

  /** The loop of ldifpatch: every operation in order. */
  method PatchAll(ops: seq<Operation>, t: Tree) returns (ok: bool)
    requires t.Valid()
    modifies t, t.view.index.Values
    ensures t.Valid() && t.root.dn == old(t.root.dn)
    ensures ok <==> Replay(old(t.view.contents), old(t.root.dn), ops).Ok?
    ensures ok ==> Replay(old(t.view.contents), old(t.root.dn), ops) == Ok(t.view.contents)
    ensures !ok ==> exists i :: StoppedAt(old(t.view.contents), old(t.root.dn), ops, i, t.view.contents)
  {
    hide *;
    ReplayStart(t.view.contents, t.root.dn, ops);
    ok := PatchLoop(ops, t, t.view.contents, t.root.dn);
  }

  method PatchLoop(ops: seq<Operation>, t: Tree, ghost m: Flat, ghost base: DN) returns (ok: bool)
    requires t.Valid() && t.root.dn == base && Replay(m, base, ops[..0]) == Ok(t.view.contents)
    modifies t, t.view.index.Values
    ensures t.Valid() && t.root.dn == base
    ensures ok <==> Replay(m, base, ops).Ok?
    ensures ok ==> Replay(m, base, ops) == Ok(t.view.contents)
    ensures !ok ==> exists i :: StoppedAt(m, base, ops, i, t.view.contents)
  {
    var i := 0;
    hide *;
    while i < |ops|
      invariant i <= |ops| && t.Valid() && t.root.dn == base
      invariant forall e :: e in t.view.index.Values ==> e in old(t.view.index.Values) || fresh(e)
      invariant Replay(m, base, ops[..i]) == Ok(t.view.contents)
    {
      ReplayNext(m, base, ops, i);
      ghost var before := t.view.contents;
      var r := Patch(ops[i], t);
      if r.Refused? {
        StopsAt(m, base, ops, i, before, t.view.contents);
        return false;
      }
      i := i + 1;
    }
    assert ops[..i] == ops;
    ok := true;
  }

  lemma StopsAt(m: Flat, base: DN, ops: seq<Operation>, i: nat, before: Flat, after: Flat)
    requires i < |ops| && Replay(m, base, ops[..i]) == Ok(before) && Apply(before, base, ops[i]).Failed?
    requires after == before
             || (ops[i].ModifyOp? && exists attrs :: LeftAt(before, after, ops[i].dn, ops[i].mods, attrs))
    ensures StoppedAt(m, base, ops, i, after)
  {
    hide Apply;
    hide LeftAt;
  }

  lemma ReplayStart(m: Flat, base: DN, ops: seq<Operation>)
    ensures Replay(m, base, ops[..0]) == Ok(m)
  {
  }

  lemma ReplayNext(m: Flat, base: DN, ops: seq<Operation>, i: nat)
    requires i < |ops| && Replay(m, base, ops[..i]).Ok?
    ensures Replay(m, base, ops[..i + 1]) == Apply(Replay(m, base, ops[..i]).flat, base, ops[i])
    ensures Replay(m, base, ops[..i + 1]).Failed? ==> Replay(m, base, ops) == Replay(m, base, ops[..i + 1])
  {
    hide Apply;
    ReplaySnoc(m, base, ops[..i], ops[i]);
    assert ops[..i + 1] == ops[..i] + [ops[i]];
    ReplayConcat(m, base, ops[..i + 1], ops[i + 1..]);
    assert ops[..i + 1] + ops[i + 1..] == ops;
  }

  /** The difference between two trees, replayed on the first, never fails and
      makes it the second: the same DNs, and the same values for every attribute
      with an absent attribute counting as empty. */
  method DiffThenPatch(ta: Tree, tb: Tree)
    requires ta.Valid() && tb.Valid() && ta.root.dn == tb.root.dn
    requires ta != tb && ta.view.index.Values !! tb.view.index.Values
    modifies ta, ta.view.index.Values
    ensures ta.Valid() && ta.view.contents == Target(old(ta.view.contents), old(tb.view.contents))
    ensures SameDirectory(ta.view.contents, old(tb.view.contents))
  {
    var ops := DiffTrees(ta, tb);
    var ok := PatchAll(ops, ta);
    TargetIsSame(old(ta.view.contents), old(tb.view.contents));
    assert ok;
  }

  /** diffTree called on the roots. */
  method DiffTrees(ta: Tree, tb: Tree) returns (ops: seq<Operation>)
    requires ta.Valid() && tb.Valid() && ta.root.dn == tb.root.dn
    ensures Replay(ta.view.contents, ta.root.dn, ops) == Ok(Target(ta.view.contents, tb.view.contents))
    ensures AllFrom(ops, ta.view.contents, tb.view.contents)
  {
    var result := new OperationList();
    hide IsTree;
    hide Target;
    hide Merge;
    DiffTree(ta.root, tb.root, result, ta, tb, ta.view.contents, ta.root.dn, ta.view.contents);
    ops := result.ops;
    AllBelowRoot(ta, tb);
  }

  lemma AllBelowRoot(ta: Tree, tb: Tree)
    requires ta.Valid() && tb.Valid() && ta.root.dn == tb.root.dn
    ensures var a, t := ta.view.contents, Target(ta.view.contents, tb.view.contents);
            Merge(a, t, Below(ta.root.dn)) == t
  {
    var a, t := ta.view.contents, Target(ta.view.contents, tb.view.contents);
    forall x | x in a || x in t ensures IsUnder(x, ta.root.dn) {
      ta.AllUnderRoot(x);
      tb.AllUnderRoot(x);
    }
  }
}
