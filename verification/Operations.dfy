/** Whole-directory changes: what delta.py's ModifyOp, AddOp and DeleteOp do to
    a directory, stated on the flat map from DN to attributes that the tree of
    inmemory.py stands for (Directory.dfy proves that it does). */
module Operations {
  import opened DistinguishedName
  import opened Attributes

  type Flat = map<DN, Attrs>

  datatype Operation =
    | ModifyOp(dn: DN, mods: seq<Modification>)
    | AddOp(dn: DN, attrs: Attrs)
    | DeleteOp(dn: DN)

  datatype Error =
    | NoSuchObject
    | EntryAlreadyExists
    | NotAllowedOnNonLeaf
    | CannotRemoveRoot
    | AttributeKeyError
    | EmptyName

  datatype Replayed = Ok(flat: Flat) | Failed(error: Error)

  /** The directory tree rooted at `base`: every entry lies below the root, and
      the parent of every other entry is an entry. */
  ghost predicate WellFormed(m: Flat, base: DN) {
    && base in m
    && forall d {:trigger Attached(d, m, base)} :: d in m ==> Attached(d, m, base)
  }

  ghost predicate Attached(d: DN, m: Flat, base: DN) {
    IsUnder(d, base) && (d != base ==> d != [] && d[1..] in m)
  }

  ghost predicate HasChild(m: Flat, d: DN) {
    exists r :: [r] + d in m
  }

  /** Operation.patch on the directory rooted at `base`. */
  ghost function Apply(m: Flat, base: DN, op: Operation): Replayed {
    match op
    case ModifyOp(dn, mods) =>
      if dn !in m then Failed(NoSuchObject)
      else
        (match RunMods(mods, m[dn])
         case Done(attrs) => Ok(m[dn := attrs])
         case Raised => Failed(AttributeKeyError))
    case AddOp(dn, attrs) =>
      if dn == [] then Failed(if [] in m then EmptyName else NoSuchObject)
      else if dn[1..] !in m then Failed(NoSuchObject)
      else if dn in m then Failed(EntryAlreadyExists)
      else Ok(m[dn := Rebuilt(attrs)])
    case DeleteOp(dn) =>
      if dn !in m then Failed(NoSuchObject)
      else if dn == base then Failed(CannotRemoveRoot)
      else if HasChild(m, dn) then Failed(NotAllowedOnNonLeaf)
      else Ok(m - {dn})
  }

  /** Operations one after another, stopping at the first that raises. */
  ghost function Replay(m: Flat, base: DN, ops: seq<Operation>): Replayed {
    if ops == [] then Ok(m)
    else
      var before := Replay(m, base, ops[..|ops| - 1]);
      if before.Ok? then Apply(before.flat, base, ops[|ops| - 1]) else before
  }

  lemma ReplaySnoc(m: Flat, base: DN, ops: seq<Operation>, op: Operation)
    ensures Replay(m, base, ops + [op]) ==
            if Replay(m, base, ops).Ok? then Apply(Replay(m, base, ops).flat, base, op) else Replay(m, base, ops)
  {
    assert (ops + [op])[..|ops + [op]| - 1] == ops;
  }

  lemma {:induction false} ReplayConcat(m: Flat, base: DN, ops: seq<Operation>, more: seq<Operation>)
    ensures Replay(m, base, ops + more) ==
            if Replay(m, base, ops).Ok? then Replay(Replay(m, base, ops).flat, base, more) else Replay(m, base, ops)
    decreases |more|
  {
    if more == [] {
      assert ops + more == ops;
    } else {
      var n := |more| - 1;
      ReplayConcat(m, base, ops, more[..n]);
      assert (ops + more)[..|ops + more| - 1] == ops + more[..n];
    }
  }

  lemma PutKeepsTree(m: Flat, base: DN, x: DN, attrs: Attrs)
    requires WellFormed(m, base) && (x in m || (x != [] && x[1..] in m))
    ensures WellFormed(m[x := attrs], base)
  {
    var n := m[x := attrs];
    if x !in m {
      assert Attached(x[1..], m, base);
      UnderUp(x, base);
      UnderTrans(x, x[1..], base);
    }
    hide IsUnder;
    forall d | d in n ensures Attached(d, n, base) {
      assert d in m ==> Attached(d, m, base);
    }
  }

  lemma RemoveKeepsTree(m: Flat, base: DN, x: DN)
    requires WellFormed(m, base) && x != base && !HasChild(m, x)
    ensures WellFormed(m - {x}, base)
  {
    hide IsUnder;
    forall d | d in m - {x} ensures Attached(d, m - {x}, base) {
      assert Attached(d, m, base);
      if d != base {
        NotAChild(m, x, d);
      }
    }
  }

  lemma NotAChild(m: Flat, x: DN, d: DN)
    requires !HasChild(m, x) && d in m && d != []
    ensures d[1..] != x
  {
    assert d == [d[0]] + d[1..];
  }

  /** Why an operation on a tree fails, and that it fails for nothing else. */
  lemma FailsExactly(m: Flat, base: DN, op: Operation)
    requires WellFormed(m, base)
    ensures op.AddOp? ==>
              var r := Apply(m, base, op);
              && (r.Failed? <==> op.dn in m || op.dn == [] || op.dn[1..] !in m)
              && (r == Failed(EntryAlreadyExists) <==> op.dn in m && op.dn != base)
              && (r.Failed? && op.dn !in m ==> r == Failed(NoSuchObject))
    ensures op.DeleteOp? ==>
              var r := Apply(m, base, op);
              && (r == Failed(NoSuchObject) <==> op.dn !in m) && (r == Failed(CannotRemoveRoot) <==> op.dn == base)
              && (r == Failed(NotAllowedOnNonLeaf) <==> op.dn in m && op.dn != base && exists r :: [r] + op.dn in m)
              && (r.Ok? ==> r.flat == m - {op.dn})
    ensures op.ModifyOp? ==>
              var r := Apply(m, base, op);
              && (r == Failed(NoSuchObject) <==> op.dn !in m)
              && (r == Failed(AttributeKeyError) <==> op.dn in m && RunMods(op.mods, m[op.dn]).Raised?)
              && (r.Ok? ==> r.flat.Keys == m.Keys && forall d :: d in m && d != op.dn ==> r.flat[d] == m[d])
  {
    hide RunMods;
    hide Rebuilt;
    if op.AddOp? {
      assert op.dn in m ==> Attached(op.dn, m, base);
      if base != [] { assert base[1..] in m ==> Attached(base[1..], m, base); }
    }
  }

  /** No operation that succeeds breaks the tree, whatever the operation. */
  lemma ApplyKeepsTree(m: Flat, base: DN, op: Operation)
    requires WellFormed(m, base)
    ensures Apply(m, base, op).Ok? ==> WellFormed(Apply(m, base, op).flat, base)
  {
    hide WellFormed;
    hide RunMods;
    hide Rebuilt;
    var after := Apply(m, base, op);
    if after.Ok? {
      match op
      case ModifyOp(dn, mods) => PutKeepsTree(m, base, dn, RunMods(mods, m[dn]).attrs);
      case AddOp(dn, attrs) => PutKeepsTree(m, base, dn, Rebuilt(attrs));
      case DeleteOp(dn) => RemoveKeepsTree(m, base, dn);
    }
  }

  lemma {:induction false} ReplayKeepsTree(m: Flat, base: DN, ops: seq<Operation>)
    requires WellFormed(m, base)
    ensures Replay(m, base, ops).Ok? ==> WellFormed(Replay(m, base, ops).flat, base)
    decreases |ops|
  {
    hide WellFormed;
    hide Apply;
    if ops != [] {
      ReplayKeepsTree(m, base, ops[..|ops| - 1]);
      var before := Replay(m, base, ops[..|ops| - 1]);
      if before.Ok? {
        ApplyKeepsTree(before.flat, base, ops[|ops| - 1]);
      }
    }
  }

  // ------------------------------------------------------- the diff's target

  /** What the directory `a` becomes when the difference from `a` to `b` is
      replayed on it: `b`'s entries, those `a` had already as Patched says. */
  function Target(a: Flat, b: Flat): Flat {
    map d | d in b :: if d in a then Patched(a[d], b[d]) else Rebuilt(b[d])
  }

  /** Same DNs, and the same values for every attribute of every entry, an
      absent attribute counting as empty. */
  ghost predicate SameDirectory(m: Flat, n: Flat) {
    m.Keys == n.Keys && forall d :: d in m ==> Same(m[d], n[d])
  }

  lemma TargetIsSame(a: Flat, b: Flat)
    ensures SameDirectory(Target(a, b), b)
  {
    forall d | d in b ensures Same(Target(a, b)[d], b[d]) {
      if d in a { PatchedMeaning(a[d], b[d]); }
    }
  }

  /** The result is `b` to the letter exactly when every attribute that only
      `a`'s copy of an entry has is empty there, and no entry that only `b` has
      holds an empty objectClass. */
  lemma TargetIsExact(a: Flat, b: Flat)
    ensures Target(a, b) == b <==>
            forall d :: d in b ==>
              if d in a then forall k :: k in a[d] && k !in b[d] ==> a[d][k] == {}
              else !(OBJECT_CLASS in b[d] && b[d][OBJECT_CLASS] == {})
  {
    forall d | d in b
      ensures Target(a, b)[d] == b[d] <==>
              if d in a then forall k :: k in a[d] && k !in b[d] ==> a[d][k] == {}
              else !(OBJECT_CLASS in b[d] && b[d][OBJECT_CLASS] == {})
    {
      if d in a { PatchedMeaning(a[d], b[d]); }
    }
  }

  /** A second round of the same brings what the first left over: the result is
      then `b` to the letter. */
  lemma SecondRoundIsExact(a: Flat, b: Flat)
    requires forall d :: d in b ==> !(OBJECT_CLASS in b[d] && b[d][OBJECT_CLASS] == {})
    ensures Target(Target(a, b), b) == b
  {
    forall d | d in b ensures Patched(Target(a, b)[d], b[d]) == b[d] {
      if d in a { PatchedMeaning(Patched(a[d], b[d]), b[d]); }
      PatchedMeaning(b[d], b[d]);
    }
  }

  // ------------------------------------------------ what a difference names

  /** An operation that belongs in the difference from `a` to `b`: it changes an
      entry both have, adds one as `b` has it, or deletes one of `a`'s. */
  ghost predicate From(op: Operation, a: Flat, b: Flat) {
    match op
    case ModifyOp(dn, mods) => dn in a && dn in b && ModsFrom(mods, a[dn], b[dn])
    case AddOp(dn, attrs) => dn in b && dn !in a && attrs == b[dn]
    case DeleteOp(dn) => dn in a && dn !in b
  }

  ghost predicate AllFrom(ops: seq<Operation>, a: Flat, b: Flat) {
    forall i :: 0 <= i < |ops| ==> From(ops[i], a, b)
  }

  lemma AllFromConcat(ops: seq<Operation>, more: seq<Operation>, a: Flat, b: Flat)
    requires AllFrom(ops, a, b) && AllFrom(more, a, b)
    ensures AllFrom(ops + more, a, b)
  {
    hide From;
  }

  // ------------------------------------------- replaying one part at a time

  /** `m` with the entries at the DNs in `s` taken from `t` instead. */
  ghost function Merge(m: Flat, t: Flat, s: iset<DN>): Flat {
    map x | x in m.Keys + t.Keys && (if x in s then x in t else x in m) :: if x in s then t[x] else m[x]
  }

  lemma MergeAt(m: Flat, t: Flat, s: iset<DN>, x: DN)
    ensures x in Merge(m, t, s) <==> if x in s then x in t else x in m
    ensures x in Merge(m, t, s) ==> Merge(m, t, s)[x] == if x in s then t[x] else m[x]
  {
  }

  lemma MergeTwice(m: Flat, t: Flat, s: iset<DN>, u: iset<DN>)
    ensures Merge(Merge(m, t, s), t, u) == Merge(m, t, s + u)
  {
  }

  lemma MergeSame(m: Flat, t: Flat, s: iset<DN>, u: iset<DN>)
    requires forall x :: x in m || x in t ==> (x in s <==> x in u)
    ensures Merge(m, t, s) == Merge(m, t, u)
  {
  }

  ghost function Below(d: DN): iset<DN> {
    iset x | IsUnder(x, d)
  }

  /** `d` itself and the branches of `d` in `done`. */
  ghost function Branches(d: DN, done: set<Rdn>): iset<DN> {
    iset x | x == d || (IsUnder(x, d) && Branch(x, d) in done)
  }

  lemma BranchesStep(d: DN, done: set<Rdn>, r: Rdn)
    ensures Branches(d, done) + Below([r] + d) == Branches(d, done + {r})
  {
    forall x ensures x in Branches(d, done) + Below([r] + d) <==> x in Branches(d, done + {r}) {
      UnderChild(x, r, d);
    }
  }

  // ------------------------------------ one operation on a partly merged map

  lemma ModifyMerges(m: Flat, t: Flat, s: iset<DN>, base: DN, x: DN, mods: seq<Modification>)
    requires x in m && x in t && x !in s && RunMods(mods, m[x]) == Done(t[x])
    ensures Apply(Merge(m, t, s), base, ModifyOp(x, mods)) == Ok(Merge(m, t, s + iset{x}))
  {
    hide RunMods;
    assert Merge(m, t, s)[x := t[x]] == Merge(m, t, s + iset{x});
  }

  lemma AddMerges(m: Flat, t: Flat, s: iset<DN>, base: DN, x: DN, attrs: Attrs)
    requires x in t && t[x] == Rebuilt(attrs) && x != []
    requires x !in Merge(m, t, s) && x[1..] in Merge(m, t, s)
    ensures Apply(Merge(m, t, s), base, AddOp(x, attrs)) == Ok(Merge(m, t, s + iset{x}))
  {
    hide Rebuilt;
    assert Merge(m, t, s)[x := t[x]] == Merge(m, t, s + iset{x});
  }

  lemma DeleteMerges(m: Flat, t: Flat, s: iset<DN>, base: DN, x: DN)
    requires x in m && x !in s && x !in t && x != base && !HasChild(Merge(m, t, s), x)
    ensures Apply(Merge(m, t, s), base, DeleteOp(x)) == Ok(Merge(m, t, s + iset{x}))
  {
    assert Merge(m, t, s) - {x} == Merge(m, t, s + iset{x});
  }

  // --------------------------------------------------- listings of a branch

  /** The DNs in `keys` at or below `top`, each once, and no DN before one that
      it lies below. */
  ghost predicate ParentsFirst(names: seq<DN>, keys: set<DN>, top: DN) {
    Listing(names, keys, Below(top))
  }

  ghost predicate Listing(names: seq<DN>, keys: set<DN>, part: iset<DN>) {
    && (forall i :: 0 <= i < |names| ==> names[i] in keys && names[i] in part)
    && (forall d :: d in keys && d in part ==> d in names)
    && (forall i, j :: 0 <= i < j < |names| ==> !IsUnder(names[i], names[j]))
  }

  lemma ListingStep(names: seq<DN>, more: seq<DN>, keys: set<DN>, d: DN, done: set<Rdn>, r: Rdn)
    requires Listing(names, keys, Branches(d, done)) && r !in done
    requires ParentsFirst(more, keys, [r] + d)
    ensures Listing(names + more, keys, Branches(d, done + {r}))
  {
    BranchesStep(d, done, r);
    var all := names + more;
    forall x | x in keys && x in Branches(d, done + {r}) ensures x in all {
      assert x in names || x in more;
    }
    forall i, j | 0 <= i < j < |all| ensures !IsUnder(all[i], all[j]) {
      if i < |names| <= j {
        UnderChild(all[i], r, d);
        assert all[j] in Below([r] + d);
        if IsUnder(all[i], all[j]) {
          UnderTrans(all[i], all[j], [r] + d);
        }
      }
    }
  }

  /** The operations that add the entries listed, and those that delete them. */
  function Adds(names: seq<DN>, b: Flat): (r: seq<Operation>)
    requires forall i :: 0 <= i < |names| ==> names[i] in b
  {
    seq(|names|, i requires 0 <= i < |names| => AddOp(names[i], b[names[i]]))
  }

  function Deletes(names: seq<DN>): seq<Operation> {
    seq(|names|, i requires 0 <= i < |names| => DeleteOp(names[|names| - 1 - i]))
  }

  ghost function Among(names: seq<DN>): iset<DN> {
    iset x | x in names
  }

  /** The map `m` has nothing at or below `c`, `t` has there what `b` has. */
  ghost predicate Missing(m: Flat, t: Flat, b: Flat, c: DN) {
    && c != [] && c[1..] in m
    && (forall x :: IsUnder(x, c) ==> x !in m && (x in t <==> x in b))
    && (forall x :: IsUnder(x, c) && x in b ==> t[x] == Rebuilt(b[x]))
    && (forall x {:trigger x[1..]} :: IsUnder(x, c) && x in b && x != c ==> x != [] && x[1..] in b)
  }

  /** In a listing an entry comes after its parent, and is listed once. */
  lemma Listed(names: seq<DN>, keys: set<DN>, c: DN, n: nat)
    requires ParentsFirst(names, keys, c) && n < |names|
    ensures IsUnder(names[n], c) && names[n] !in names[..n]
    ensures names[n] != [] && names[n] != c && names[n][1..] in keys ==> names[n][1..] in names[..n]
  {
    var x := names[n];
    assert x in Below(c);
    UnderSelf(x);
    if x != [] && x != c && x[1..] in keys {
      UnderUp(x, c);
      assert x[1..] in Below(c);
      var k :| 0 <= k < |names| && names[k] == x[1..];
      assert x[1..] == names[..n][k];
    }
  }

  lemma AmongMore(names: seq<DN>, n: nat)
    requires n < |names|
    ensures Among(names[..n]) + iset{names[n]} == Among(names[..n + 1])
    ensures Among(names[n + 1..]) + iset{names[n]} == Among(names[n..])
  {
  }

  lemma NextAdd(m: Flat, t: Flat, b: Flat, base: DN, c: DN, names: seq<DN>, n: nat)
    requires Missing(m, t, b, c) && ParentsFirst(names, b.Keys, c) && n < |names|
    ensures Apply(Merge(m, t, Among(names[..n])), base, AddOp(names[n], b[names[n]])) ==
            Ok(Merge(m, t, Among(names[..n + 1])))
  {
    hide Merge;
    hide Apply;
    var x, s := names[n], Among(names[..n]);
    Listed(names, b.Keys, c, n);
    MergeAt(m, t, s, x);
    MergeAt(m, t, s, x[1..]);
    if x == c {
      NotBelowChild(names, b.Keys, c, n);
    } else {
      assert x != [] && x[1..] in b;
      UnderUp(x, c);
    }
    AddMerges(m, t, s, base, x, b[x]);
    AmongMore(names, n);
  }

  lemma NotBelowChild(names: seq<DN>, keys: set<DN>, c: DN, n: nat)
    requires ParentsFirst(names, keys, c) && n <= |names| && c != []
    ensures c[1..] !in names[..n]
  {
    assert forall k :: 0 <= k < n ==> names[k] in Below(c);
    assert c[1..] !in Below(c);
  }

  lemma MergeNone(m: Flat, t: Flat, none: seq<DN>)
    requires none == []
    ensures Merge(m, t, Among(none)) == m
  {
  }

  lemma AllListed(names: seq<DN>, keys: set<DN>, c: DN)
    requires ParentsFirst(names, keys, c)
    ensures forall i :: 0 <= i < |names| ==> names[i] in keys
  {
  }

  lemma {:induction false} AddsMerge(m: Flat, t: Flat, b: Flat, base: DN, c: DN, names: seq<DN>, n: nat)
    requires Missing(m, t, b, c) && ParentsFirst(names, b.Keys, c) && n <= |names|
    ensures forall i :: 0 <= i < |names| ==> names[i] in b
    ensures Replay(m, base, Adds(names, b)[..n]) == Ok(Merge(m, t, Among(names[..n])))
  {
    hide Merge;
    hide Apply;
    hide ParentsFirst;
    hide Missing;
    AllListed(names, b.Keys, c);
    if n > 0 {
      AddsMerge(m, t, b, base, c, names, n - 1);
      NextAdd(m, t, b, base, c, names, n - 1);
      assert Adds(names, b)[..n] == Adds(names, b)[..n - 1] + [AddOp(names[n - 1], b[names[n - 1]])];
      ReplaySnoc(m, base, Adds(names, b)[..n - 1], AddOp(names[n - 1], b[names[n - 1]]));
    } else {
      MergeNone(m, t, names[..0]);
    }
  }

  lemma AddsMergeAll(m: Flat, t: Flat, b: Flat, base: DN, c: DN, names: seq<DN>)
    requires Missing(m, t, b, c) && ParentsFirst(names, b.Keys, c)
    ensures forall i :: 0 <= i < |names| ==> names[i] in b
    ensures Replay(m, base, Adds(names, b)) == Ok(Merge(m, t, Below(c)))
  {
    AddsMerge(m, t, b, base, c, names, |names|);
    assert Adds(names, b)[..|names|] == Adds(names, b) && names[..|names|] == names;
    MergeSame(m, t, Among(names), Below(c));
  }

  /** The map `t` has nothing at or below `c`, which is not at or above `base`. */
  ghost predicate Doomed(m: Flat, t: Flat, base: DN, c: DN) {
    !IsUnder(base, c) && forall x :: x in t ==> !IsUnder(x, c)
  }

  lemma NextDelete(m: Flat, t: Flat, base: DN, c: DN, names: seq<DN>, n: nat)
    requires Doomed(m, t, base, c) && ParentsFirst(names, m.Keys, c) && n < |names|
    ensures Apply(Merge(m, t, Among(names[n + 1..])), base, DeleteOp(names[n])) ==
            Ok(Merge(m, t, Among(names[n..])))
  {
    hide Merge;
    hide Apply;
    var x, s := names[n], Among(names[n + 1..]);
    assert x in Below(c);
    UnderSelf(x);
    forall r ensures [r] + x !in Merge(m, t, s) {
      MergeAt(m, t, s, [r] + x);
      assert ([r] + x)[1..] == x;
      UnderUp([r] + x, x);
      UnderTrans([r] + x, x, c);
      if [r] + x in m {
        assert [r] + x in Below(c);
        var k :| 0 <= k < |names| && names[k] == [r] + x;
        assert k > n && [r] + x == names[n + 1..][k - n - 1];
      }
    }
    DeleteMerges(m, t, s, base, x);
    AmongMore(names, n);
  }

  lemma {:induction false} DeletesMerge(m: Flat, t: Flat, base: DN, c: DN, names: seq<DN>, n: nat)
    requires Doomed(m, t, base, c) && ParentsFirst(names, m.Keys, c) && n <= |names|
    ensures Replay(m, base, Deletes(names)[..n]) == Ok(Merge(m, t, Among(names[|names| - n..])))
  {
    hide Merge;
    hide Apply;
    hide ParentsFirst;
    hide Doomed;
    if n > 0 {
      DeletesMerge(m, t, base, c, names, n - 1);
      NextDelete(m, t, base, c, names, |names| - n);
      assert Deletes(names)[..n] == Deletes(names)[..n - 1] + [DeleteOp(names[|names| - n])];
      ReplaySnoc(m, base, Deletes(names)[..n - 1], DeleteOp(names[|names| - n]));
    } else {
      MergeNone(m, t, names[|names|..]);
    }
  }

  lemma DeletesMergeAll(m: Flat, t: Flat, base: DN, c: DN, names: seq<DN>)
    requires Doomed(m, t, base, c) && ParentsFirst(names, m.Keys, c)
    ensures Replay(m, base, Deletes(names)) == Ok(Merge(m, t, Below(c)))
  {
    DeletesMerge(m, t, base, c, names, |names|);
    assert Deletes(names)[..|names|] == Deletes(names) && names[0..] == names;
    MergeSame(m, t, Among(names), Below(c));
  }
}
