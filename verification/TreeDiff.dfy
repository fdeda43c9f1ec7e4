/** entryhelpers.py's DiffTreeMixin: the operations that make one tree into
    another, written into a shared list, and the proof that replaying them does. */
module TreeDiff {
  import opened DistinguishedName
  import opened Attributes
  import opened Operations
  import opened Directory
  import opened EntryHelpers

  /** The list that the four methods append to. */
  class OperationList {
    var ops: seq<Operation>

    constructor ()
      ensures ops == []
    {
      ops := [];
    }
  }

  /** Below `c` the two maps are the same. */
  ghost predicate Agree(m: Flat, a: Flat, c: DN) {
    forall x :: IsUnder(x, c) ==> (x in m <==> x in a) && (x in a ==> m[x] == a[x])
  }

  /** Replaying `ops` brings `d` and its branches in `done` from `m` to `t`. */
  ghost predicate Reaches(ops: seq<Operation>, m0: Flat, base: DN, m: Flat, t: Flat, d: DN, done: set<Rdn>) {
    Replay(m0, base, ops) == Ok(Merge(m, t, Branches(d, done)))
  }

  // ------------------------------------------------------- facts on the maps

  /** A branch that was not done yet is as it was. */
  lemma BranchUntouched(m: Flat, t: Flat, a: Flat, d: DN, done: set<Rdn>, r: Rdn)
    requires Agree(m, a, d) && r !in done
    ensures Agree(Merge(m, t, Branches(d, done)), a, [r] + d)
  {
    forall x | IsUnder(x, [r] + d)
      ensures var n := Merge(m, t, Branches(d, done)); (x in n <==> x in a) && (x in a ==> n[x] == a[x])
    {
      UnderChild(x, r, d);
      MergeAt(m, t, Branches(d, done), x);
    }
  }

  lemma BranchDone(ops: seq<Operation>, m0: Flat, base: DN, m: Flat, t: Flat, d: DN, done: set<Rdn>, r: Rdn)
    requires Replay(m0, base, ops) == Ok(Merge(Merge(m, t, Branches(d, done)), t, Below([r] + d)))
    ensures Reaches(ops, m0, base, m, t, d, done + {r})
  {
    MergeTwice(m, t, Branches(d, done), Below([r] + d));
    BranchesStep(d, done, r);
  }

  lemma AllDone(m: Flat, t: Flat, d: DN, done: set<Rdn>)
    requires forall x :: (x in m || x in t) && IsUnder(x, d) && x != d ==> Branch(x, d) in done
    ensures Merge(m, t, Branches(d, done)) == Merge(m, t, Below(d))
  {
    UnderSelf(d);
    MergeSame(m, t, Branches(d, done), Below(d));
  }

  /** diffTree starts with the entry itself. */
  lemma RootDone(ops: seq<Operation>, m0: Flat, base: DN, m: Flat, a: Flat, b: Flat, d: DN, mods: seq<Modification>)
    requires Replay(m0, base, ops) == Ok(m) && Agree(m, a, d) && d in a && d in b
    requires RunMods(mods, a[d]) == Done(Patched(a[d], b[d]))
    ensures Reaches(ops + [ModifyOp(d, mods)], m0, base, m, Target(a, b), d, {})
    ensures a[d] == b[d] ==> Reaches(ops, m0, base, m, Target(a, b), d, {})
  {
    UnderSelf(d);
    var t := Target(a, b);
    ModifyMerges(m, t, iset{}, base, d, mods);
    assert Merge(m, t, iset{}) == m;
    ReplaySnoc(m0, base, ops, ModifyOp(d, mods));
    assert iset{} + iset{d} == Branches(d, {});
    if a[d] == b[d] {
      PatchedMeaning(a[d], b[d]);
      assert Merge(m, t, Branches(d, {})) == m;
    }
  }

  /** A branch that only `b` has is added, parents first. */
  lemma AddedBranch(ops: seq<Operation>, m0: Flat, base: DN, m: Flat, a: Flat, b: Flat, d: DN, done: set<Rdn>, r: Rdn,
                    names: seq<DN>)
    requires Reaches(ops, m0, base, m, Target(a, b), d, done) && r !in done
    requires Agree(m, a, d) && WellFormed(b, base) && d in b
    requires forall x :: IsUnder(x, [r] + d) ==> x !in a
    requires ParentsFirst(names, b.Keys, [r] + d)
    ensures forall i :: 0 <= i < |names| ==> names[i] in b
    ensures Reaches(ops + Adds(names, b), m0, base, m, Target(a, b), d, done + {r})
  {
    var t, c := Target(a, b), [r] + d;
    var n := Merge(m, t, Branches(d, done));
    BranchUntouched(m, t, a, d, done, r);
    MergeAt(m, t, Branches(d, done), d);
    BranchMissing(n, a, b, base, d, r);
    AddsMergeAll(n, t, b, base, c, names);
    ReplayConcat(m0, base, ops, Adds(names, b));
    BranchDone(ops + Adds(names, b), m0, base, m, t, d, done, r);
  }

  lemma BranchMissing(n: Flat, a: Flat, b: Flat, base: DN, d: DN, r: Rdn)
    requires Agree(n, a, [r] + d) && WellFormed(b, base) && d in b && d in n
    requires forall x :: IsUnder(x, [r] + d) ==> x !in a
    ensures Missing(n, Target(a, b), b, [r] + d)
  {
    assert ([r] + d)[1..] == d;
    assert Attached(d, b, base);
    forall x | IsUnder(x, [r] + d) && x in b && x != [r] + d ensures x != [] && x[1..] in b {
      assert Attached(x, b, base);
    }
  }

  /** A branch that only `a` has is deleted, parents last. */
  lemma DeletedBranch(ops: seq<Operation>, m0: Flat, base: DN, m: Flat, a: Flat, b: Flat, d: DN, done: set<Rdn>, r: Rdn,
                      names: seq<DN>)
    requires Reaches(ops, m0, base, m, Target(a, b), d, done) && r !in done
    requires Agree(m, a, d) && IsUnder(d, base)
    requires forall x :: IsUnder(x, [r] + d) ==> x !in b
    requires ParentsFirst(names, a.Keys, [r] + d)
    ensures Reaches(ops + Deletes(names), m0, base, m, Target(a, b), d, done + {r})
  {
    var t, c := Target(a, b), [r] + d;
    var n := Merge(m, t, Branches(d, done));
    BranchUntouched(m, t, a, d, done, r);
    assert ParentsFirst(names, n.Keys, c);
    DeletesMergeAll(n, t, base, c, names);
    ReplayConcat(m0, base, ops, Deletes(names));
    BranchDone(ops + Deletes(names), m0, base, m, t, d, done, r);
  }

  lemma RootFrom(ops: seq<Operation>, a: Flat, b: Flat, d: DN, mods: seq<Modification>)
    requires AllFrom(ops, a, b) && d in a && d in b && ModsFrom(mods, a[d], b[d])
    ensures AllFrom(ops + [ModifyOp(d, mods)], a, b)
  {
    hide ModsFrom;
    AllFromConcat(ops, [ModifyOp(d, mods)], a, b);
  }

  lemma AddsFrom(ops: seq<Operation>, a: Flat, b: Flat, c: DN, names: seq<DN>)
    requires AllFrom(ops, a, b) && ParentsFirst(names, b.Keys, c)
    requires forall x :: IsUnder(x, c) ==> x !in a
    ensures forall i :: 0 <= i < |names| ==> names[i] in b
    ensures AllFrom(ops + Adds(names, b), a, b)
  {
    AllListed(names, b.Keys, c);
    forall i | 0 <= i < |names| ensures names[i] !in a {
      assert names[i] in Below(c);
    }
    AllFromConcat(ops, Adds(names, b), a, b);
  }

  lemma DeletesFrom(ops: seq<Operation>, a: Flat, b: Flat, c: DN, names: seq<DN>)
    requires AllFrom(ops, a, b) && ParentsFirst(names, a.Keys, c)
    requires forall x :: IsUnder(x, c) ==> x !in b
    ensures AllFrom(ops + Deletes(names), a, b)
  {
    AllListed(names, a.Keys, c);
    forall i | 0 <= i < |names| ensures names[i] !in b {
      assert names[i] in Below(c);
    }
    AllFromConcat(ops, Deletes(names), a, b);
  }

  /** What lies in a branch that an entry has no child for is not in the tree. */
  lemma NoSuchBranch(t: Tree, e: Entry, r: Rdn)
    requires t.Valid() && t.Holds(e) && r !in e.children
    ensures forall x :: IsUnder(x, [r] + e.dn) ==> x !in t.view.contents
  {
    forall x | IsUnder(x, [r] + e.dn) ensures x !in t.view.contents {
      UnderChild(x, r, e.dn);
      t.BranchIsChild(e, x);
    }
  }

  // --------------------------------------------------------- the four methods

  /** Entries with the same DN in two trees with the same root DN. */
  ghost predicate Pair(a: Entry, b: Entry, ta: Tree, tb: Tree, base: DN)
    reads ta, ta.root, ta.view.index.Values, tb, tb.root, tb.view.index.Values
  {
    && ta.Valid() && tb.Valid() && ta.Holds(a) && tb.Holds(b) && a.dn == b.dn
    && base == ta.root.dn == tb.root.dn
  }

  /** The difference between the trees at `a` and `b`, appended to `result`.
      Whatever was there, say leading from `m0` to a directory `m` that is `a`'s
      tree below this entry: with it, what is below this entry is as it has to
      be for the directory to become `b`'s, and the rest of `m` is untouched. */
  method DiffTree(a: Entry, b: Entry, result: OperationList,
                  ghost ta: Tree, ghost tb: Tree, ghost m0: Flat, ghost base: DN, ghost m: Flat)
    requires Pair(a, b, ta, tb, base)
    requires Replay(m0, base, result.ops) == Ok(m) && Agree(m, ta.view.contents, a.dn)
    requires AllFrom(result.ops, ta.view.contents, tb.view.contents)
    modifies result
    ensures AllFrom(result.ops, ta.view.contents, tb.view.contents)
    ensures Replay(m0, base, result.ops) == Ok(Merge(m, Target(ta.view.contents, tb.view.contents), Below(a.dn)))
    decreases set d | d in ta.view.index && IsUnder(d, a.dn), 2
  {
    hide Pair;
    hide Agree;
    hide AllFrom;
    hide Replay;
    hide Target;
    hide Merge;
    hide Branches;
    var mine, its := a.children.Keys, b.children.Keys;
    ghost var both := mine * its;
    DiffRoot(a, b, result, ta, tb, m0, base, m);
    CommonChildren(a, b, mine * its, result, ta, tb, m0, base, m);
    AddedChildren(a, b, its - mine, result, ta, tb, m0, base, m, both);
    DeletedChildren(a, b, mine - its, result, ta, tb, m0, base, m, both + (its - mine));
    Partition(mine, its);
    EveryBranch(a, b, ta, tb, base, m);
  }

  lemma MoveOne(x: set<Rdn>, y: set<Rdn>, r: Rdn)
    requires r in y && x !! y
    ensures x + {r} !! y - {r} && x + {r} + (y - {r}) == x + y
  {
  }

  lemma Partition(x: set<Rdn>, y: set<Rdn>)
    ensures x * y + (y - x) + (x - y) == x + y
  {
  }

  lemma EveryBranch(a: Entry, b: Entry, ta: Tree, tb: Tree, base: DN, m: Flat)
    requires Pair(a, b, ta, tb, base) && Agree(m, ta.view.contents, a.dn)
    ensures var t := Target(ta.view.contents, tb.view.contents);
            Merge(m, t, Branches(a.dn, a.children.Keys + b.children.Keys)) == Merge(m, t, Below(a.dn))
  {
    var t := Target(ta.view.contents, tb.view.contents);
    forall x | (x in m || x in t) && IsUnder(x, a.dn) && x != a.dn
      ensures Branch(x, a.dn) in a.children.Keys + b.children.Keys
    {
      ta.BranchIsChild(a, x);
      tb.BranchIsChild(b, x);
    }
    AllDone(m, t, a.dn, a.children.Keys + b.children.Keys);
  }

  method DiffRoot(a: Entry, b: Entry, result: OperationList,
                  ghost ta: Tree, ghost tb: Tree, ghost m0: Flat, ghost base: DN, ghost m: Flat)
    requires Pair(a, b, ta, tb, base)
    requires Replay(m0, base, result.ops) == Ok(m) && Agree(m, ta.view.contents, a.dn)
    requires AllFrom(result.ops, ta.view.contents, tb.view.contents)
    modifies result
    ensures AllFrom(result.ops, ta.view.contents, tb.view.contents)
    ensures Reaches(result.ops, m0, base, m, Target(ta.view.contents, tb.view.contents), a.dn, {})
  {
    assert ta.Shows(a.dn) && tb.Shows(b.dn);
    var changed, mods := Diff(a.attributes, b.attributes);
    RootDone(result.ops, m0, base, m, ta.view.contents, tb.view.contents, a.dn, mods);
    RootFrom(result.ops, ta.view.contents, tb.view.contents, a.dn, mods);
    hide *;
    if changed {
      result.ops := result.ops + [ModifyOp(a.dn, mods)];
    }
  }

  method CommonChildren(a: Entry, b: Entry, rdns: set<Rdn>, result: OperationList,
                        ghost ta: Tree, ghost tb: Tree, ghost m0: Flat, ghost base: DN, ghost m: Flat)
    requires Pair(a, b, ta, tb, base) && rdns == a.children.Keys * b.children.Keys
    requires Reaches(result.ops, m0, base, m, Target(ta.view.contents, tb.view.contents), a.dn, {})
    requires Agree(m, ta.view.contents, a.dn)
    requires AllFrom(result.ops, ta.view.contents, tb.view.contents)
    modifies result
    ensures AllFrom(result.ops, ta.view.contents, tb.view.contents)
    ensures Reaches(result.ops, m0, base, m, Target(ta.view.contents, tb.view.contents), a.dn, rdns)
    decreases set d | d in ta.view.index && IsUnder(d, a.dn), 1
  {
    hide *;
    var left := rdns;
    ghost var done: set<Rdn> := {};
    while left != {}
      invariant left <= rdns && done == rdns - left
      invariant Reaches(result.ops, m0, base, m, Target(ta.view.contents, tb.view.contents), a.dn, done)
      invariant AllFrom(result.ops, ta.view.contents, tb.view.contents)
      decreases |left|
    {
      var r :| r in left;
      CommonChild(a, b, r, result, ta, tb, m0, base, m, done);
      left, done := left - {r}, done + {r};
    }
    assert done == rdns;
  }

  method CommonChild(a: Entry, b: Entry, r: Rdn, result: OperationList,
                     ghost ta: Tree, ghost tb: Tree, ghost m0: Flat, ghost base: DN, ghost m: Flat,
                     ghost done: set<Rdn>)
    requires Pair(a, b, ta, tb, base) && r in a.children && r in b.children && r !in done
    requires Reaches(result.ops, m0, base, m, Target(ta.view.contents, tb.view.contents), a.dn, done)
    requires Agree(m, ta.view.contents, a.dn)
    requires AllFrom(result.ops, ta.view.contents, tb.view.contents)
    modifies result
    ensures AllFrom(result.ops, ta.view.contents, tb.view.contents)
    ensures Reaches(result.ops, m0, base, m, Target(ta.view.contents, tb.view.contents), a.dn, done + {r})
    decreases set d | d in ta.view.index && IsUnder(d, a.dn), 0
  {
    hide IsTree;
    hide Agree;
    hide AllFrom;
    hide Replay;
    hide Target;
    hide Merge;
    ghost var t := Target(ta.view.contents, tb.view.contents);
    ta.ChildOf(a, r);
    tb.ChildOf(b, r);
    BranchUntouched(m, t, ta.view.contents, a.dn, done, r);
    BelowChild(a, r, ta);
    DiffTree(a.children[r], b.children[r], result, ta, tb, m0, base, Merge(m, t, Branches(a.dn, done)));
    BranchDone(result.ops, m0, base, m, t, a.dn, done, r);
  }

  method AddedChildren(a: Entry, b: Entry, rdns: set<Rdn>, result: OperationList,
                       ghost ta: Tree, ghost tb: Tree, ghost m0: Flat, ghost base: DN, ghost m: Flat,
                       ghost before: set<Rdn>)
    requires Pair(a, b, ta, tb, base) && before !! rdns
    requires forall r :: r in rdns ==> r in b.children && r !in a.children
    requires Reaches(result.ops, m0, base, m, Target(ta.view.contents, tb.view.contents), a.dn, before)
    requires Agree(m, ta.view.contents, a.dn)
    requires AllFrom(result.ops, ta.view.contents, tb.view.contents)
    modifies result
    ensures AllFrom(result.ops, ta.view.contents, tb.view.contents)
    ensures Reaches(result.ops, m0, base, m, Target(ta.view.contents, tb.view.contents), a.dn, before + rdns)
  {
    hide *;
    var left := rdns;
    ghost var done, all := before, before + rdns;
    while left != {}
      invariant left <= rdns && done !! left && done + left == all
      invariant Reaches(result.ops, m0, base, m, Target(ta.view.contents, tb.view.contents), a.dn, done)
      invariant AllFrom(result.ops, ta.view.contents, tb.view.contents)
      decreases |left|
    {
      var r :| r in left;
      AddedChild(a, b, r, result, ta, tb, m0, base, m, done);
      MoveOne(done, left, r);
      left, done := left - {r}, done + {r};
    }
    assert done + left == done;
  }

  method AddedChild(a: Entry, b: Entry, r: Rdn, result: OperationList,
                    ghost ta: Tree, ghost tb: Tree, ghost m0: Flat, ghost base: DN, ghost m: Flat, ghost done: set<Rdn>)
    requires Pair(a, b, ta, tb, base) && r in b.children && r !in a.children && r !in done
    requires Reaches(result.ops, m0, base, m, Target(ta.view.contents, tb.view.contents), a.dn, done)
    requires Agree(m, ta.view.contents, a.dn)
    requires AllFrom(result.ops, ta.view.contents, tb.view.contents)
    modifies result
    ensures AllFrom(result.ops, ta.view.contents, tb.view.contents)
    ensures Reaches(result.ops, m0, base, m, Target(ta.view.contents, tb.view.contents), a.dn, done + {r})
  {
    hide IsTree;
    hide Agree;
    hide AllFrom;
    hide Replay;
    hide Reaches;
    hide Target;
    hide WellFormed;
    hide ParentsFirst;
    NoSuchBranch(ta, a, r);
    tb.ContentsWellFormed();
    tb.ChildOf(b, r);
    var entries, names := Subtree(b.children[r], tb);
    AddedBranch(result.ops, m0, base, m, ta.view.contents, tb.view.contents, a.dn, done, r, names);
    AddsFrom(result.ops, ta.view.contents, tb.view.contents, [r] + a.dn, names);
    AppendAdds(entries, result, tb, names);
  }

  method AppendAdds(entries: seq<Entry>, result: OperationList, ghost tb: Tree, ghost names: seq<DN>)
    requires tb.Valid() && Named(entries, names, tb.view.index)
    requires forall i :: 0 <= i < |names| ==> names[i] in tb.view.contents
    modifies result
    ensures result.ops == old(result.ops) + Adds(names, tb.view.contents)
  {
    tb.Named();
    for i := 0 to |entries|
      invariant result.ops == old(result.ops) + Adds(names, tb.view.contents)[..i]
    {
      assert tb.Shows(names[i]);
      result.ops := result.ops + [AddOp(entries[i].dn, entries[i].attributes)];
    }
  }

  method DeletedChildren(a: Entry, b: Entry, rdns: set<Rdn>, result: OperationList,
                         ghost ta: Tree, ghost tb: Tree, ghost m0: Flat, ghost base: DN, ghost m: Flat,
                         ghost before: set<Rdn>)
    requires Pair(a, b, ta, tb, base) && before !! rdns
    requires forall r :: r in rdns ==> r in a.children && r !in b.children
    requires Reaches(result.ops, m0, base, m, Target(ta.view.contents, tb.view.contents), a.dn, before)
    requires Agree(m, ta.view.contents, a.dn)
    requires AllFrom(result.ops, ta.view.contents, tb.view.contents)
    modifies result
    ensures AllFrom(result.ops, ta.view.contents, tb.view.contents)
    ensures Reaches(result.ops, m0, base, m, Target(ta.view.contents, tb.view.contents), a.dn, before + rdns)
  {
    hide *;
    var left := rdns;
    ghost var done, all := before, before + rdns;
    while left != {}
      invariant left <= rdns && done !! left && done + left == all
      invariant Reaches(result.ops, m0, base, m, Target(ta.view.contents, tb.view.contents), a.dn, done)
      invariant AllFrom(result.ops, ta.view.contents, tb.view.contents)
      decreases |left|
    {
      var r :| r in left;
      DeletedChild(a, b, r, result, ta, tb, m0, base, m, done);
      MoveOne(done, left, r);
      left, done := left - {r}, done + {r};
    }
    assert done + left == done;
  }

  method DeletedChild(a: Entry, b: Entry, r: Rdn, result: OperationList,
                      ghost ta: Tree, ghost tb: Tree, ghost m0: Flat, ghost base: DN, ghost m: Flat,
                      ghost done: set<Rdn>)
    requires Pair(a, b, ta, tb, base) && r in a.children && r !in b.children && r !in done
    requires Reaches(result.ops, m0, base, m, Target(ta.view.contents, tb.view.contents), a.dn, done)
    requires Agree(m, ta.view.contents, a.dn)
    requires AllFrom(result.ops, ta.view.contents, tb.view.contents)
    modifies result
    ensures AllFrom(result.ops, ta.view.contents, tb.view.contents)
    ensures Reaches(result.ops, m0, base, m, Target(ta.view.contents, tb.view.contents), a.dn, done + {r})
  {
    hide IsTree;
    hide Agree;
    hide AllFrom;
    hide Replay;
    hide Reaches;
    hide Target;
    hide ParentsFirst;
    hide IsUnder;
    NoSuchBranch(tb, b, r);
    ta.RootAbove(a);
    ta.ChildOf(a, r);
    var entries, names := Subtree(a.children[r], ta);
    DeletedBranch(result.ops, m0, base, m, ta.view.contents, tb.view.contents, a.dn, done, r, names);
    DeletesFrom(result.ops, ta.view.contents, tb.view.contents, [r] + a.dn, names);
    AppendDeletes(entries, result, ta, names);
  }

  /** The list is reversed, so that children go before their parent. */
  method AppendDeletes(entries: seq<Entry>, result: OperationList, ghost ta: Tree, ghost names: seq<DN>)
    requires ta.Valid() && Named(entries, names, ta.view.index)
    modifies result
    ensures result.ops == old(result.ops) + Deletes(names)
  {
    ta.Named();
    for i := 0 to |entries|
      invariant result.ops == old(result.ops) + Deletes(names)[..i]
    {
      result.ops := result.ops + [DeleteOp(entries[|entries| - 1 - i].dn)];
    }
  }
}
