/** Any run of addChild, delete, deleteChild and move on the tree of inmemory.py,
    every entry fetched by its name: the tree and the flat map from names to
    attributes go the same way, and what one call undoes. */
module TreeRuns {
  import opened Options
  import opened DistinguishedName
  import opened Attributes
  import opened Operations
  import opened Directory

  datatype Call =
    | Adding(parent: DN, rdn: Rdn, attributes: Attrs)
    | Deleting(dn: DN)
    | DeletingChild(parent: DN, rdn: Rdn)
    | Moving(dn: DN, newDN: DN)

  /** The directory as a map, and the name of its root. */
  datatype Listing = Listing(flat: Flat, base: DN)

  datatype Effect = Changed(after: Listing) | Denied(error: Error)

  /** What a call makes of the map. */
  ghost function Called(s: Listing, c: Call): Effect {
    match c
    case Adding(parent, rdn, attributes) =>
      if parent !in s.flat then Denied(NoSuchObject)
      else if [rdn] + parent in s.flat then Denied(EntryAlreadyExists)
      else Changed(s.(flat := s.flat[[rdn] + parent := Rebuilt(attributes)]))
    case Deleting(dn) =>
      if dn !in s.flat then Denied(NoSuchObject)
      else if dn == s.base then Denied(CannotRemoveRoot)
      else if HasChild(s.flat, dn) then Denied(NotAllowedOnNonLeaf)
      else Changed(s.(flat := s.flat - {dn}))
    case DeletingChild(parent, rdn) =>
      if parent !in s.flat || [rdn] + parent !in s.flat then Denied(NoSuchObject)
      else Changed(s.(flat := Without(s.flat, [rdn] + parent)))
    case Moving(dn, newDN) =>
      if dn !in s.flat || dn == [] || newDN == [] then Denied(NoSuchObject)
      else if dn != s.base && newDN[1..] != dn[1..] && newDN[1..] !in s.flat then Denied(NoSuchObject)
      else
        (match Renamed(s.flat[dn], dn[0], newDN[0])
         case Raised => Denied(AttributeKeyError)
         case Done(attributes) => Changed(Moved(s, dn, newDN, attributes)))
  }

  ghost function Moved(s: Listing, dn: DN, newDN: DN, attributes: Attrs): Listing {
    Listing(Without(s.flat - {dn}, newDN)[newDN := attributes], if dn == s.base then newDN else s.base)
  }

  /** What is claimed of move: a named leaf, not to a place under itself. */
  ghost predicate InScope(s: Listing, c: Call) {
    c.Moving? && c.dn in s.flat ==>
      c.dn != [] && c.newDN != [] && !HasChild(s.flat, c.dn) && c.newDN[1..] != c.dn
  }

  /** The listing that a call leaves: a call that is refused leaves the one it found. */
  ghost function Next(s: Listing, c: Call): Listing {
    match Called(s, c)
    case Changed(after) => after
    case Denied(_) => s
  }

  ghost function RunOf(s: Listing, calls: seq<Call>): Listing {
    if calls == [] then s else Next(RunOf(s, calls[..|calls| - 1]), calls[|calls| - 1])
  }

  ghost predicate AllInScope(s: Listing, calls: seq<Call>) {
    forall i {:trigger calls[i]} :: 0 <= i < |calls| ==> InScope(RunOf(s, calls[..i]), calls[i])
  }

  /** The i-th call meets a KeyError over an RDN's attributes. */
  ghost predicate Tears(s: Listing, calls: seq<Call>, i: nat)
    requires i < |calls|
  {
    Called(RunOf(s, calls[..i]), calls[i]) == Denied(AttributeKeyError)
  }

  lemma RunStart(s: Listing, calls: seq<Call>)
    ensures RunOf(s, calls[..0]) == s
  {
  }

  lemma RunNext(s: Listing, calls: seq<Call>, i: nat)
    requires i < |calls|
    ensures RunOf(s, calls[..i + 1]) == Next(RunOf(s, calls[..i]), calls[i])
  {
    assert calls[..i + 1][..i] == calls[..i];
  }

  ghost function Now(t: Tree): Listing
    reads t, t.root
  {
    Listing(t.view.contents, t.root.dn)
  }

  /** What every call leaves: the tree as the map says, and no entry in it that
      was neither there nor made by the call. */
  method Make(c: Call, t: Tree) returns (r: Option<Error>)
    requires t.Valid() && InScope(Now(t), c)
    modifies t, t.view.index.Values
    ensures r == match Called(old(Now(t)), c) case Changed(_) => None case Denied(error) => Some(error)
    ensures r != Some(AttributeKeyError) ==> t.Valid() && Now(t) == Next(old(Now(t)), c)
    ensures r != Some(AttributeKeyError) ==>
              forall e :: e in t.view.index.Values ==> e in old(t.view.index.Values) || fresh(e)
  {
    match c
    case Adding(parent, rdn, attributes) => r := MakeAddChild(parent, rdn, attributes, t);
    case Deleting(dn) => r := MakeDelete(dn, t);
    case DeletingChild(parent, rdn) => r := MakeDeleteChild(parent, rdn, t);
    case Moving(dn, newDN) => r := MakeMove(dn, newDN, t);
  }

  method Fetch(dn: DN, t: Tree) returns (r: Answer)
    requires t.Valid()
    ensures dn in t.view.contents ==> r == Returned(t.view.index[dn]) && t.Holds(r.entry) && r.entry.dn == dn
    ensures dn !in t.view.contents ==> r == Answer.Refused(NoSuchObject)
  {
    t.AllUnderRoot(dn);
    t.Named();
    r := t.root.Lookup(dn, t);
  }

  lemma NewValue(m: map<DN, Entry>, k: DN, e: Entry)
    ensures m[k := e].Values <= m.Values + {e}
  {
  }

  lemma PrunedValues(m: map<DN, Entry>, c: DN)
    ensures PrunedIndex(m, c).Values <= m.Values
  {
  }

  lemma CalledAdding(s: Listing, parent: DN, rdn: Rdn, attributes: Attrs)
    ensures Called(s, Adding(parent, rdn, attributes)) ==
            if parent !in s.flat then Denied(NoSuchObject)
            else if [rdn] + parent in s.flat then Denied(EntryAlreadyExists)
            else Changed(s.(flat := s.flat[[rdn] + parent := Rebuilt(attributes)]))
  {
  }

  method MakeAddChild(parent: DN, rdn: Rdn, attributes: Attrs, t: Tree) returns (r: Option<Error>)
    requires t.Valid()
    modifies t, t.view.index.Values
    ensures t.Valid()
    ensures r == match Called(old(Now(t)), Adding(parent, rdn, attributes))
                 case Changed(_) => None case Denied(error) => Some(error)
    ensures Now(t) == Next(old(Now(t)), Adding(parent, rdn, attributes))
    ensures forall e :: e in t.view.index.Values ==> e in old(t.view.index.Values) || fresh(e)
  {
    hide Rebuilt;
    hide IsUnder;
    hide IsTree;
    hide Called;
    ghost var was, s := t.view.index, Now(t);
    CalledAdding(s, parent, rdn, attributes);
    var at := Fetch(parent, t);
    if at.Refused? { return Some(at.error); }
    var answer := at.entry.AddChild(rdn, attributes, t);
    if answer.Refused? { return Some(answer.error); }
    NewValue(was, [rdn] + parent, answer.entry);
    return None;
  }

  method MakeDelete(dn: DN, t: Tree) returns (r: Option<Error>)
    requires t.Valid()
    modifies t, t.view.index.Values
    ensures t.Valid()
    ensures r == match Called(old(Now(t)), Deleting(dn)) case Changed(_) => None case Denied(error) => Some(error)
    ensures Now(t) == Next(old(Now(t)), Deleting(dn))
    ensures t.view.index.Values <= old(t.view.index.Values)
  {
    hide IsTree;
    var at := Fetch(dn, t);
    if at.Refused? { return Some(at.error); }
    t.ParentOf(at.entry);
    var answer := at.entry.Delete(t);
    r := if answer.Refused? then Some(answer.error) else None;
  }

  method MakeDeleteChild(parent: DN, rdn: Rdn, t: Tree) returns (r: Option<Error>)
    requires t.Valid()
    modifies t, t.view.index.Values
    ensures t.Valid()
    ensures r == match Called(old(Now(t)), DeletingChild(parent, rdn))
                 case Changed(_) => None case Denied(error) => Some(error)
    ensures Now(t) == Next(old(Now(t)), DeletingChild(parent, rdn))
    ensures t.view.index.Values <= old(t.view.index.Values)
  {
    hide IsUnder;
    hide IsTree;
    hide PrunedIndex;
    hide Without;
    var at := Fetch(parent, t);
    if at.Refused? { return Some(at.error); }
    PrunedValues(t.view.index, [rdn] + parent);
    var answer := at.entry.DeleteChild(rdn, t);
    if answer.Refused? { return Some(answer.error); }
    return None;
  }

  method MakeMove(dn: DN, newDN: DN, t: Tree) returns (r: Option<Error>)
    requires t.Valid() && InScope(Now(t), Moving(dn, newDN))
    modifies t, t.view.index.Values
    ensures r == match Called(old(Now(t)), Moving(dn, newDN)) case Changed(_) => None case Denied(error) => Some(error)
    ensures r != Some(AttributeKeyError) ==> t.Valid() && Now(t) == Next(old(Now(t)), Moving(dn, newDN))
    ensures t.view.index.Values <= old(t.view.index.Values)
  {
    var at := Fetch(dn, t);
    if at.Refused? { return Some(at.error); }
    t.Leaf(at.entry);
    t.ParentOf(at.entry);
    hide Renamed;
    hide Without;
    var answer := at.entry.Move(newDN, t);
    if answer.Refused? {
      if answer.error != AttributeKeyError { t.Named(); }
      return Some(answer.error);
    }
    return None;
  }

  /** Calls one after another, up to the first that meets a KeyError over an
      RDN's attributes: the tree is the map that the same calls make, after each
      of them, and each was answered as the map says. */
  method RunAll(calls: seq<Call>, t: Tree) returns (answers: seq<Option<Error>>, torn: bool)
    requires t.Valid() && AllInScope(Now(t), calls)
    modifies t, t.view.index.Values
    ensures |answers| <= |calls| && (torn <==> |answers| < |calls|)
    ensures torn ==> Tears(old(Now(t)), calls, |answers|)
    ensures !torn ==> t.Valid() && Now(t) == RunOf(old(Now(t)), calls) && WellFormed(t.view.contents, t.root.dn)
    ensures forall i :: 0 <= i < |answers| ==> Answered(old(Now(t)), calls, i, answers[i])
  {
    ghost var s := Now(t);
    answers := [];
    RunStart(s, calls);
    hide *;
    while |answers| < |calls|
      invariant |answers| <= |calls| && t.Valid() && Now(t) == RunOf(s, calls[..|answers|])
      invariant forall e :: e in t.view.index.Values ==> e in old(t.view.index.Values) || fresh(e)
      invariant forall i :: 0 <= i < |answers| ==> Answered(s, calls, i, answers[i])
    {
      var n := |answers|;
      RunNext(s, calls, n);
      ScopeOf(s, calls, n);
      ghost var before := Now(t);
      var answer := Make(calls[n], t);
      AnsweredIs(s, calls, n, before, answer);
      if answer == Some(AttributeKeyError) {
        return answers, true;
      }
      answers := answers + [answer];
    }
    assert calls[..|answers|] == calls;
    t.ContentsWellFormed();
    NowIs(t);
    torn := false;
  }

  /** The answer that the map gives to the i-th call. */
  ghost predicate Answered(s: Listing, calls: seq<Call>, i: nat, answer: Option<Error>)
    requires i < |calls|
  {
    answer == match Called(RunOf(s, calls[..i]), calls[i]) case Changed(_) => None case Denied(error) => Some(error)
  }

  lemma AnsweredIs(s: Listing, calls: seq<Call>, n: nat, before: Listing, answer: Option<Error>)
    requires n < |calls| && before == RunOf(s, calls[..n])
    requires answer == match Called(before, calls[n]) case Changed(_) => None case Denied(error) => Some(error)
    ensures Answered(s, calls, n, answer)
    ensures answer == Some(AttributeKeyError) ==> Tears(s, calls, n)
  {
    hide Called;
    hide RunOf;
  }

  lemma ScopeOf(s: Listing, calls: seq<Call>, n: nat)
    requires AllInScope(s, calls) && n < |calls|
    ensures InScope(RunOf(s, calls[..n]), calls[n])
  {
    hide InScope;
    assert calls[n] == calls[n];
  }

  lemma NowIs(t: Tree)
    ensures Now(t) == Listing(t.view.contents, t.root.dn)
  {
  }

  // ------------------------------------------------------- what undoes what

  /** An entry added and deleted leaves no trace, by either way of deleting it. */
  lemma AddThenDelete(s: Listing, parent: DN, rdn: Rdn, attributes: Attrs)
    requires WellFormed(s.flat, s.base) && Called(s, Adding(parent, rdn, attributes)).Changed?
    ensures Next(Next(s, Adding(parent, rdn, attributes)), Deleting([rdn] + parent)) == s
    ensures Next(Next(s, Adding(parent, rdn, attributes)), DeletingChild(parent, rdn)) == s
  {
    var c := [rdn] + parent;
    var m := s.flat[c := Rebuilt(attributes)];
    hide Rebuilt;
    assert c[1..] == parent;
    assert Attached(parent, s.flat, s.base);
    NotUnderLonger(s.base, c);
    FreePlace(s.flat, s.base, c);
    UnderSelf(c);
    LeafThere(s, c, Rebuilt(attributes));
    hide IsUnder;
    assert m - {c} == s.flat;
    assert Without(m, c) == s.flat;
  }

  lemma NotUnderLonger(x: DN, c: DN)
    requires |c| > |x|
    ensures !IsUnder(x, c)
  {
  }

  /** Nothing is below a free place. */
  lemma LeafThere(s: Listing, c: DN, attributes: Attrs)
    requires WellFormed(s.flat, s.base) && c !in s.flat && !IsUnder(s.base, c)
    ensures !HasChild(s.flat[c := attributes], c)
  {
    forall r ensures [r] + c !in s.flat && [r] + c != c {
      assert |[r] + c| == |c| + 1;
      assert ([r] + c)[1..] == c;
      UnderUp([r] + c, c);
      if [r] + c in s.flat {
        FreeBelow(s.flat, s.base, c, [r] + c);
        assert false;
      }
    }
  }

  /** The new RDN gives an attribute no value that it had from anything but the
      old one. */
  ghost predicate GivesOnlyNew(a: Attrs, from: Rdn, to: Rdn) {
    forall x :: x in to && x.attributeType in a && x.value in a[x.attributeType] ==> x in from
  }

  /** An RDN's attributes traded and traded back are what they were exactly when
      the new RDN's values came with it. */
  lemma RenamedBack(a: Attrs, from: Rdn, to: Rdn)
    requires Renamed(a, from, to).Done?
    ensures var back := Renamed(Renamed(a, from, to).attrs, to, from);
            (back.Done? <==> Distinct(to)) && (back.Done? ==> (back.attrs == a <==> GivesOnlyNew(a, from, to)))
  {
    var b := Renamed(a, from, to).attrs;
    RenamedMeaning(a, from, to);
    RenamedMeaning(b, to, from);
    hide Renamed;
    forall x | x in to ensures x.value in ValuesIn(to, x.attributeType) { }
    if Distinct(to) {
      var c := Renamed(b, to, from).attrs;
      forall k | k in a
        ensures c[k] == a[k] <==> forall v :: v in ValuesIn(to, k) && v in a[k] ==> v in ValuesIn(from, k)
      {
        assert c[k] == a[k] - ValuesIn(from, k) + ValuesIn(to, k) - ValuesIn(to, k) + ValuesIn(from, k);
        ValuesHeld(a, from, k);
      }
      OnlyNewIs(a, from, to);
    }
  }

  lemma ValuesHeld(a: Attrs, r: Rdn, k: string)
    requires AllHeld(a, r) && k in a
    ensures ValuesIn(r, k) <= a[k]
  {
  }

  lemma OnlyNewIs(a: Attrs, from: Rdn, to: Rdn)
    requires AllKeysHeld(a, to)
    ensures GivesOnlyNew(a, from, to) <==>
            forall k :: k in a ==> forall v :: v in ValuesIn(to, k) && v in a[k] ==> v in ValuesIn(from, k)
  {
    if forall k :: k in a ==> forall v :: v in ValuesIn(to, k) && v in a[k] ==> v in ValuesIn(from, k) {
      forall x | x in to && x.attributeType in a && x.value in a[x.attributeType] ensures x in from {
        assert x.value in ValuesIn(to, x.attributeType);
        assert x.value in ValuesIn(from, x.attributeType);
        var y :| y in from && y.attributeType == x.attributeType && y.value == x.value;
        assert y == x;
      }
    }
  }

  /** A free place for an entry: under another one, or anywhere for the root, so
      long as neither name is that of the other's parent. */
  ghost predicate Free(s: Listing, dn: DN, newDN: DN) {
    && dn in s.flat && dn != [] && newDN != [] && newDN !in s.flat && newDN[1..] != dn && dn[1..] != newDN
    && (dn != s.base ==> newDN[1..] in s.flat)
  }

  lemma NewNameIsDeep(s: Listing, newDN: DN)
    requires WellFormed(s.flat, s.base) && newDN != [] && newDN[1..] in s.flat
    ensures !IsUnder(s.base, newDN)
  {
    assert Attached(newDN[1..], s.flat, s.base);
    NotUnderLonger(s.base, newDN);
  }

  /** A leaf that moves to a free place displaces nothing. */
  lemma MovedFree(s: Listing, dn: DN, newDN: DN, attributes: Attrs)
    requires WellFormed(s.flat, s.base) && !HasChild(s.flat, dn) && Free(s, dn, newDN)
    ensures Moved(s, dn, newDN, attributes) ==
            Listing((s.flat - {dn})[newDN := attributes], if dn == s.base then newDN else s.base)
  {
    hide IsUnder;
    if dn == s.base {
      AloneAtRoot(s);
      assert s.flat - {dn} == map[];
      assert Without(map[], newDN) == map[];
    } else {
      hide Without;
      NewNameIsDeep(s, newDN);
      RemoveKeepsTree(s.flat, s.base, dn);
      FreePlace(s.flat - {dn}, s.base, newDN);
    }
  }

  /** A root without children is the whole directory. */
  lemma AloneAtRoot(s: Listing)
    requires WellFormed(s.flat, s.base) && !HasChild(s.flat, s.base)
    ensures s.flat.Keys == {s.base}
  {
    forall x | x in s.flat ensures x == s.base {
      if x != s.base { NotAlone(s, x); }
    }
  }

  lemma {:induction false} NotAlone(s: Listing, x: DN)
    requires WellFormed(s.flat, s.base) && x in s.flat && x != s.base
    ensures HasChild(s.flat, s.base)
    decreases |x|
  {
    assert Attached(x, s.flat, s.base);
    HeadTail(x);
    if x[1..] == s.base {
      assert [x[0]] + s.base in s.flat;
    } else {
      NotAlone(s, x[1..]);
    }
  }

  /** A leaf moved to a free place and back: the directory is what it was exactly
      when the entry had none of the values that the new RDN gave it, but for
      those of its old RDN. */
  lemma MoveThereAndBack(s: Listing, dn: DN, newDN: DN)
    requires WellFormed(s.flat, s.base) && !HasChild(s.flat, dn) && Free(s, dn, newDN)
    requires Renamed(s.flat[dn], dn[0], newDN[0]).Done? && Distinct(newDN[0])
    ensures Called(s, Moving(dn, newDN)).Changed?
    ensures Called(Called(s, Moving(dn, newDN)).after, Moving(newDN, dn)).Changed?
    ensures Called(Called(s, Moving(dn, newDN)).after, Moving(newDN, dn)).after == s
            <==> GivesOnlyNew(s.flat[dn], dn[0], newDN[0])
  {
    var a := s.flat[dn];
    var b := Renamed(a, dn[0], newDN[0]).attrs;
    RenamedBack(a, dn[0], newDN[0]);
    hide Renamed;
    MovedFree(s, dn, newDN, b);
    MovedTree(s, dn, newDN, b);
    var there := Moved(s, dn, newDN, b);
    var c := Renamed(b, newDN[0], dn[0]).attrs;
    MovedFree(there, newDN, dn, c);
    hide Moved;
    assert Called(s, Moving(dn, newDN)) == Changed(there);
    assert Called(there, Moving(newDN, dn)) == Changed(Moved(there, newDN, dn, c));
    BackInPlace(s.flat, dn, newDN, b, c);
  }

  lemma BackInPlace(m: Flat, dn: DN, newDN: DN, b: Attrs, c: Attrs)
    requires dn in m && newDN !in m
    ensures ((m - {dn})[newDN := b] - {newDN})[dn := c] == m <==> c == m[dn]
  {
    assert (m - {dn})[newDN := b] - {newDN} == m - {dn};
    assert c == m[dn] ==> (m - {dn})[dn := c] == m;
  }

  /** After such a move the way back is open. */
  lemma MovedTree(s: Listing, dn: DN, newDN: DN, b: Attrs)
    requires WellFormed(s.flat, s.base) && !HasChild(s.flat, dn) && Free(s, dn, newDN)
    ensures var there := Moved(s, dn, newDN, b);
            WellFormed(there.flat, there.base) && !HasChild(there.flat, newDN) && Free(there, newDN, dn)
  {
    MovedFree(s, dn, newDN, b);
    var there := Listing((s.flat - {dn})[newDN := b], if dn == s.base then newDN else s.base);
    if dn == s.base {
      AloneAtRoot(s);
      assert there.flat.Keys == {newDN};
      UnderSelf(newDN);
      assert Attached(newDN, there.flat, newDN);
    } else {
      RemoveKeepsTree(s.flat, s.base, dn);
      PutKeepsTree(s.flat - {dn}, s.base, newDN, b);
      NewNameIsDeep(s, newDN);
      LeafThere(Listing(s.flat - {dn}, s.base), newDN, b);
      assert Attached(dn, s.flat, s.base);
    }
  }
}
