/** The in-memory directory tree of inmemory.py: entries on the heap that point
    at their parent and hold their children by RDN.

    A child is kept under its RDN's text; RDNs are the keys here, which the
    injectivity of the text (module NameText) makes the same thing. The order
    in which a dictionary's children are visited is left open. */
module Directory {
  import opened DistinguishedName
  import opened Attributes
  import opened Operations

  datatype Answer = Returned(entry: Entry) | Refused(error: Error)

  /** What ties an entry to the others. */
  datatype Links = Links(dn: DN, parent: Entry?, children: map<Rdn, Entry>)

  /** The links an entry at `d` has in the tree rooted at `base` whose entries
      `index` lists: it carries that DN and points at its parent; its children
      are the entries whose DN is one RDN and then `d`, under that RDN. */
  ghost predicate Fits(d: DN, l: Links, index: map<DN, Entry>, base: DN) {
    && l.dn == d && IsUnder(d, base)
    && (d == base ==> l.parent == null)
    && (d != base ==> d != [] && d[1..] in index && l.parent == index[d[1..]])
    && (forall r :: r in l.children <==> [r] + d in index)
    && (forall r :: r in l.children ==> l.children[r] == index[[r] + d])
  }

  /** The entries that `index` lists, with the links in `shape`, are a tree. */
  ghost predicate IsTree(shape: map<DN, Links>, index: map<DN, Entry>, base: DN) {
    && base in index && shape.Keys == index.Keys
    && forall d {:trigger Fits(d, shape[d], index, base)} :: d in index ==> Fits(d, shape[d], index, base)
  }

  lemma ChildDN(r: Rdn, d: DN, at: DN)
    requires at != []
    ensures [r] + d == at <==> at[1..] == d && r == at[0]
  {
    assert at == [at[0]] + at[1..];
    assert ([r] + d)[1..] == d;
  }

  lemma FitsAfterAdd(d: DN, l: Links, index: map<DN, Entry>, base: DN, at: DN, e: Entry)
    requires Fits(d, l, index, base) && at !in index && at != []
    ensures Fits(d, if at[1..] == d then l.(children := l.children[at[0] := e]) else l, index[at := e], base)
  {
    var grown := if at[1..] == d then l.children[at[0] := e] else l.children;
    forall r ensures r in grown <==> [r] + d in index[at := e]
             ensures r in grown ==> grown[r] == index[at := e][[r] + d] {
      ChildDN(r, d, at);
    }
  }

  lemma FitsBelow(d: DN, l: Links, index: map<DN, Entry>, base: DN)
    requires Fits(d, l, index, base)
    ensures IsUnder(d, base) && l.dn == d
  {
  }

  /** The links once a leaf `e` was hung below `d`. */
  ghost function Grown(shape: map<DN, Links>, index: map<DN, Entry>, d: DN, r: Rdn, e: Entry): map<DN, Links>
    requires d in shape && d in index
  {
    shape[d := shape[d].(children := shape[d].children[r := e])][[r] + d := Links([r] + d, index[d], map[])]
  }

  lemma GrownIsTree(shape: map<DN, Links>, index: map<DN, Entry>, base: DN, d: DN, r: Rdn, e: Entry)
    requires IsTree(shape, index, base) && d in index && [r] + d !in index
    ensures IsTree(Grown(shape, index, d, r, e), index[[r] + d := e], base)
  {
    hide Fits;
    hide IsUnder;
    var at := [r] + d;
    assert at[1..] == d && at != d;
    var after, grown := index[at := e], Grown(shape, index, d, r, e);
    assert Fits(d, shape[d], index, base);
    forall x | x in after ensures Fits(x, grown[x], after, base) {
      if x == at {
        FitsBelow(d, shape[d], index, base);
        UnderUp(at, d);
        UnderTrans(at, d, base);
        LeafFits(shape, index, base, at, after);
      } else {
        assert Fits(x, shape[x], index, base);
        FitsAfterAdd(x, shape[x], index, base, at, e);
      }
    }
  }

  /** Nothing lies below a DN that is not in the tree. */
  lemma LeafFits(shape: map<DN, Links>, index: map<DN, Entry>, base: DN, at: DN, after: map<DN, Entry>)
    requires IsTree(shape, index, base) && at !in index && at != [] && at[1..] in index
    requires IsUnder(at, base) && after.Keys == index.Keys + {at} && after[at[1..]] == index[at[1..]]
    ensures Fits(at, Links(at, index[at[1..]], map[]), after, base)
  {
    forall r ensures [r] + at !in after {
      assert ([r] + at)[1..] == at;
      assert [r] + at in index ==> Fits([r] + at, shape[[r] + at], index, base);
      assert |[r] + at| > |base|;
    }
  }

  ghost function PrunedIndex(index: map<DN, Entry>, c: DN): map<DN, Entry> {
    map x | x in index && !IsUnder(x, c) :: index[x]
  }

  ghost function Without(m: Flat, c: DN): Flat {
    map x | x in m && !IsUnder(x, c) :: m[x]
  }

  /** The links once the branch at `c` was cut off its parent. */
  ghost function PrunedShape(shape: map<DN, Links>, c: DN): map<DN, Links>
    requires c != []
  {
    map x | x in shape && !IsUnder(x, c) ::
      if x == c[1..] then shape[x].(children := shape[x].children - {c[0]}) else shape[x]
  }

  lemma CutChild(r: Rdn, d: DN, c: DN)
    requires c != [] && !IsUnder(d, c)
    ensures IsUnder([r] + d, c) <==> d == c[1..] && r == c[0]
  {
    ChildDN(r, d, c);
    assert ([r] + d)[1..] == d;
    UnderUp([r] + d, c);
    UnderSelf(c);
  }

  lemma PrunedAt(index: map<DN, Entry>, c: DN, x: DN)
    ensures x in PrunedIndex(index, c) <==> x in index && !IsUnder(x, c)
    ensures x in PrunedIndex(index, c) ==> PrunedIndex(index, c)[x] == index[x]
  {
  }

  lemma FitsAfterPrune(d: DN, l: Links, index: map<DN, Entry>, base: DN, c: DN)
    requires Fits(d, l, index, base) && !IsUnder(d, c) && c != []
    ensures Fits(d, if d == c[1..] then l.(children := l.children - {c[0]}) else l, PrunedIndex(index, c), base)
  {
    hide IsUnder;
    hide PrunedIndex;
    var kept, after := if d == c[1..] then l.children - {c[0]} else l.children, PrunedIndex(index, c);
    if d != base {
      UpNotUnder(d, c);
      PrunedAt(index, c, d[1..]);
    }
    forall r ensures (r in kept <==> [r] + d in after) && (r in kept ==> kept[r] == after[[r] + d]) {
      CutChild(r, d, c);
      PrunedAt(index, c, [r] + d);
    }
  }

  lemma PrunedIsTree(shape: map<DN, Links>, index: map<DN, Entry>, base: DN, c: DN)
    requires IsTree(shape, index, base) && c != [] && !IsUnder(base, c)
    ensures IsTree(PrunedShape(shape, c), PrunedIndex(index, c), base)
  {
    hide Fits;
    hide IsUnder;
    var after := PrunedIndex(index, c);
    forall x | x in after ensures Fits(x, PrunedShape(shape, c)[x], after, base) {
      assert Fits(x, shape[x], index, base);
      FitsAfterPrune(x, shape[x], index, base, c);
    }
  }

  lemma {:induction false} NothingBelow(shape: map<DN, Links>, index: map<DN, Entry>, base: DN, c: DN, x: DN)
    requires IsTree(shape, index, base) && c !in index && !IsUnder(base, c) && IsUnder(x, c)
    ensures x !in index
    decreases |x|
  {
    if x in index {
      assert Fits(x, shape[x], index, base);
      UnderUp(x, c);
      NothingBelow(shape, index, base, c, x[1..]);
    }
  }

  /** The entry's attributes without the values of one RDN: what the first loop
      of _move2 leaves. */
  function RemoveAvas(a: Attrs, r: Rdn): Outcome {
    if r == [] then Done(a)
    else
      var before, x := RemoveAvas(a, r[..|r| - 1]), r[|r| - 1];
      if before.Done? && x.attributeType in before.attrs && x.value in before.attrs[x.attributeType]
      then Done(before.attrs[x.attributeType := before.attrs[x.attributeType] - {x.value}]) else Outcome.Raised
  }

  /** ... and with those of another: the second loop. */
  function AddAvas(a: Attrs, r: Rdn): Outcome {
    if r == [] then Done(a)
    else
      var before, x := AddAvas(a, r[..|r| - 1]), r[|r| - 1];
      if before.Done? && x.attributeType in before.attrs
      then Done(before.attrs[x.attributeType := before.attrs[x.attributeType] + {x.value}]) else Outcome.Raised
  }

  lemma {:induction false} RemoveStops(a: Attrs, r: Rdn, i: nat)
    requires i < |r| && RemoveAvas(a, r[..i + 1]).Raised?
    ensures RemoveAvas(a, r).Raised?
    decreases |r|
  {
    if i + 1 == |r| {
      assert r[..i + 1] == r;
    } else {
      assert r[..|r| - 1][..i + 1] == r[..i + 1];
      RemoveStops(a, r[..|r| - 1], i);
    }
  }

  lemma {:induction false} AddStops(a: Attrs, r: Rdn, i: nat)
    requires i < |r| && AddAvas(a, r[..i + 1]).Raised?
    ensures AddAvas(a, r).Raised?
    decreases |r|
  {
    if i + 1 == |r| {
      assert r[..i + 1] == r;
    } else {
      assert r[..|r| - 1][..i + 1] == r[..i + 1];
      AddStops(a, r[..|r| - 1], i);
    }
  }

  /** The attributes `b` that the two loops leave of `a` when one of them raises:
      everything up to the value that is not there, or the attribute. */
  ghost predicate HalfRenamed(a: Attrs, from: Rdn, to: Rdn, b: Attrs) {
    || (exists i :: StuckRemoving(a, from, b, i))
    || (RemoveAvas(a, from).Done? && exists i :: StuckAdding(RemoveAvas(a, from).attrs, to, b, i))
  }

  ghost predicate StuckRemoving(a: Attrs, from: Rdn, b: Attrs, i: nat) {
    i < |from| && RemoveAvas(a, from[..i]) == Done(b) && from[i].value !in Values(b, from[i].attributeType)
  }

  ghost predicate StuckAdding(a: Attrs, to: Rdn, b: Attrs, i: nat) {
    i < |to| && AddAvas(a, to[..i]) == Done(b) && to[i].attributeType !in b
  }

  function Renamed(a: Attrs, from: Rdn, to: Rdn): Outcome {
    var removed := RemoveAvas(a, from);
    if removed.Done? then AddAvas(removed.attrs, to) else Outcome.Raised
  }

  /** The values an RDN gives to an attribute. */
  ghost function ValuesIn(r: Rdn, k: string): set<string> {
    set x | x in r && x.attributeType == k :: x.value
  }

  lemma ValuesInSnoc(r: Rdn, k: string)
    requires r != []
    ensures var x := r[|r| - 1];
            ValuesIn(r, k) == ValuesIn(r[..|r| - 1], k) + (if x.attributeType == k then {x.value} else {})
  {
    var s, x := r[..|r| - 1], r[|r| - 1];
    assert r == s + [x];
    forall v | v in ValuesIn(r, k) ensures v in ValuesIn(s, k) || (x.attributeType == k && v == x.value) {
      var y :| y in r && y.attributeType == k && y.value == v;
      assert y in s || y == x;
    }
  }

  ghost predicate Distinct(r: Rdn) {
    forall i, j :: 0 <= i < j < |r| ==> r[i] != r[j]
  }

  ghost predicate AllHeld(a: Attrs, r: Rdn) {
    forall x :: x in r ==> x.attributeType in a && x.value in a[x.attributeType]
  }

  ghost predicate AllKeysHeld(a: Attrs, r: Rdn) {
    forall x :: x in r ==> x.attributeType in a
  }

  lemma {:induction false} RemoveAvasMeaning(a: Attrs, r: Rdn)
    ensures RemoveAvas(a, r).Done? <==> Distinct(r) && AllHeld(a, r)
    ensures RemoveAvas(a, r).Done? ==>
              var b := RemoveAvas(a, r).attrs; b.Keys == a.Keys && forall k :: k in a ==> b[k] == a[k] - ValuesIn(r, k)
    decreases |r|
  {
    if r != [] {
      var s, x := r[..|r| - 1], r[|r| - 1];
      assert r == s + [x];
      RemoveAvasMeaning(a, s);
      if RemoveAvas(a, s).Done? {
        var k := x.attributeType;
        assert x in s <==> x.value in ValuesIn(s, k);
        forall k' | k' in a ensures a[k'] - ValuesIn(r, k') ==
                                    a[k'] - ValuesIn(s, k') - (if k' == k then {x.value} else {}) {
          ValuesInSnoc(r, k');
        }
      }
    }
  }

  lemma {:induction false} AddAvasMeaning(a: Attrs, r: Rdn)
    ensures AddAvas(a, r).Done? <==> AllKeysHeld(a, r)
    ensures AddAvas(a, r).Done? ==>
              var b := AddAvas(a, r).attrs; b.Keys == a.Keys && forall k :: k in a ==> b[k] == a[k] + ValuesIn(r, k)
    decreases |r|
  {
    if r != [] {
      var s, x := r[..|r| - 1], r[|r| - 1];
      assert r == s + [x];
      AddAvasMeaning(a, s);
      if AddAvas(a, s).Done? {
        forall k' | k' in a ensures a[k'] + ValuesIn(r, k') ==
                                    a[k'] + ValuesIn(s, k') + (if k' == x.attributeType then {x.value} else {}) {
          ValuesInSnoc(r, k');
        }
      }
    }
  }

  /** _move2's two loops succeed exactly when the old RDN repeats nothing and
      all of it is among the entry's values, and the new RDN's attributes are
      there; they then trade the one's values for the other's. */
  lemma RenamedMeaning(a: Attrs, from: Rdn, to: Rdn)
    ensures Renamed(a, from, to).Done? <==> Distinct(from) && AllHeld(a, from) && AllKeysHeld(a, to)
    ensures Renamed(a, from, to).Done? ==>
              var b := Renamed(a, from, to).attrs;
              b.Keys == a.Keys && forall k :: k in a ==> b[k] == a[k] - ValuesIn(from, k) + ValuesIn(to, k)
  {
    RemoveAvasMeaning(a, from);
    if RemoveAvas(a, from).Done? {
      AddAvasMeaning(RemoveAvas(a, from).attrs, to);
    }
  }

  /** Moved to a free place, the entry displaces nothing. */
  lemma {:induction false} FreePlace(m: Flat, base: DN, c: DN)
    requires WellFormed(m, base) && c !in m && !IsUnder(base, c)
    ensures Without(m, c) == m
  {
    forall x | x in m ensures !IsUnder(x, c) {
      FreeBelow(m, base, c, x);
    }
  }

  lemma {:induction false} FreeBelow(m: Flat, base: DN, c: DN, x: DN)
    requires WellFormed(m, base) && c !in m && !IsUnder(base, c) && x in m
    ensures !IsUnder(x, c)
    decreases |x|
  {
    assert Attached(x, m, base);
    if x != base {
      UnderUp(x, c);
      FreeBelow(m, base, c, x[1..]);
    }
  }

  /** All there is to know about a tree of entries: `index` says which entry
      has which DN, `shape` how the entries are linked, and `contents` is the
      map from DN to attributes that the tree stands for. */
  datatype View = View(index: map<DN, Entry>, shape: map<DN, Links>, contents: Flat)

  /** The view once the branch at `c` was cut off. */
  ghost function PrunedView(v: View, c: DN): View
    requires c != []
  {
    View(PrunedIndex(v.index, c), PrunedShape(v.shape, c), Without(v.contents, c))
  }

  lemma PrunedViewAt(v: View, c: DN, x: DN)
    requires c != [] && v.index.Keys == v.shape.Keys == v.contents.Keys
    ensures
      var w := PrunedView(v, c);
      && w.index.Keys == w.shape.Keys == w.contents.Keys
      && (x in w.index <==> x in v.index && !IsUnder(x, c))
      && (x in w.index ==>
            && w.index[x] == v.index[x] && w.contents[x] == v.contents[x]
            && w.shape[x] == if x == c[1..] then v.shape[x].(children := v.shape[x].children - {c[0]}) else v.shape[x])
  {
    assert PrunedView(v, c).index.Keys == PrunedView(v, c).shape.Keys;
    assert PrunedView(v, c).index.Keys == PrunedView(v, c).contents.Keys;
  }

  lemma PrunedViewIsTree(v: View, base: DN, c: DN)
    requires c != [] && v.index.Keys == v.shape.Keys == v.contents.Keys
    requires IsTree(v.shape, v.index, base) && !IsUnder(base, c)
    ensures var w := PrunedView(v, c); IsTree(w.shape, w.index, base) && w.index[base] == v.index[base]
    ensures var w := PrunedView(v, c); w.index.Keys == w.shape.Keys == w.contents.Keys
  {
    PrunedViewAt(v, c, base);
    PrunedIsTree(v.shape, v.index, base, c);
  }

  /** The view once `e` took the place of whatever was under `r` at `d`. */
  ghost function Adopted(v: View, d: DN, r: Rdn, e: Entry, attributes: Attrs): View
    requires d in v.index && v.index.Keys == v.shape.Keys == v.contents.Keys && !IsUnder(d, [r] + d)
  {
    var c := [r] + d;
    View(PrunedIndex(v.index, c)[c := e],
         Grown(PrunedShape(v.shape, c), PrunedIndex(v.index, c), d, r, e),
         Without(v.contents, c)[c := attributes])
  }

  lemma AdoptedAt(v: View, d: DN, r: Rdn, e: Entry, attributes: Attrs)
    requires d in v.index && v.index.Keys == v.shape.Keys == v.contents.Keys && !IsUnder(d, [r] + d)
    ensures
      var c, w := [r] + d, Adopted(v, d, r, e, attributes);
      && w.index.Keys == w.shape.Keys == w.contents.Keys && c in w.index && d in w.index
      && w.index[c] == e && w.contents[c] == attributes && w.shape[c] == Links(c, v.index[d], map[])
      && w.index[d] == v.index[d] && w.contents[d] == v.contents[d]
      && w.shape[d] == v.shape[d].(children := v.shape[d].children[r := e])
  {
    var c, w := [r] + d, Adopted(v, d, r, e, attributes);
    assert c[1..] == d && c[0] == r && c != d;
    UnderSelf(c);
    assert (v.shape[d].children - {r})[r := e] == v.shape[d].children[r := e];
    assert w.index.Keys == w.shape.Keys;
    assert w.index.Keys == w.contents.Keys;
  }

  lemma AdoptedElsewhere(v: View, d: DN, r: Rdn, e: Entry, attributes: Attrs, x: DN)
    requires d in v.index && v.index.Keys == v.shape.Keys == v.contents.Keys && !IsUnder(d, [r] + d)
    requires x != d && x != [r] + d
    ensures var w := Adopted(v, d, r, e, attributes);
            && (x in w.index <==> x in v.index && !IsUnder(x, [r] + d))
            && (x in w.index ==> x in w.shape && x in w.contents && w.index[x] == v.index[x]
                                 && w.shape[x] == v.shape[x] && w.contents[x] == v.contents[x])
  {
    assert ([r] + d)[1..] == d;
  }

  lemma AdoptedIsTree(v: View, base: DN, d: DN, r: Rdn, e: Entry, attributes: Attrs)
    requires v.index.Keys == v.shape.Keys == v.contents.Keys
    requires IsTree(v.shape, v.index, base) && d in v.index
    ensures !IsUnder(d, [r] + d) && !IsUnder(base, [r] + d)
    ensures var w := Adopted(v, d, r, e, attributes);
            IsTree(w.shape, w.index, base) && w.index[base] == v.index[base]
  {
    UnderSelf([r] + d);
    assert Fits(d, v.shape[d], v.index, base);
    assert ([r] + d)[1..] == d;
    PrunedIsTree(v.shape, v.index, base, [r] + d);
    GrownIsTree(PrunedShape(v.shape, [r] + d), PrunedIndex(v.index, [r] + d), base, d, r, e);
  }

  class Entry {
    var dn: DN
    var attributes: Attrs
    var parent: Entry?
    var children: map<Rdn, Entry>

    constructor (dn: DN, attributes: Attrs)
      ensures this.dn == dn && this.attributes == Rebuilt(attributes)
      ensures parent == null && children == map[]
    {
      this.dn, this.attributes := dn, Rebuilt(attributes);
      parent, children := null, map[];
    }

    /** lookup: the entry with this DN, searched for from this entry down. */
    method Lookup(dn: DN, ghost t: Tree) returns (r: Answer)
      requires t.Valid() && t.Holds(this)
      ensures dn in t.view.index && IsUnder(dn, this.dn) ==> r == Returned(t.view.index[dn])
      ensures !(dn in t.view.index && IsUnder(dn, this.dn)) ==> r == Refused(NoSuchObject)
      decreases if IsUnder(dn, this.dn) then |dn| - |this.dn| else 0, 1
    {
      var below := Contains(this.dn, dn);
      if !below {
        return Refused(NoSuchObject);
      }
      if dn == this.dn {
        return Returned(this);
      }
      r := LookupBelow(dn, children.Keys, t);
    }

    method LookupBelow(dn: DN, keys: set<Rdn>, ghost t: Tree) returns (r: Answer)
      requires t.Valid() && t.Holds(this)
      requires IsUnder(dn, this.dn) && dn != this.dn && keys == children.Keys
      ensures dn in t.view.index ==> r == Returned(t.view.index[dn])
      ensures dn !in t.view.index ==> r == Refused(NoSuchObject)
      decreases |dn| - |this.dn|, 0
    {
      var left := keys;
      t.BranchIsChild(this, dn);
      while left != {}
        invariant left <= children.Keys
        invariant Branch(dn, this.dn) in children ==> Branch(dn, this.dn) in left
        decreases |left|
      {
        var k :| k in left;
        t.ChildOf(this, k);
        UnderChild(dn, k, this.dn);
        var c := children[k];
        var holds := Contains(c.dn, dn);
        if holds {
          r := c.Lookup(dn, t);
          return;
        }
        left := left - {k};
      }
      r := Refused(NoSuchObject);
    }

    /** addChild: a new leaf below this entry. */
    method AddChild(rdn: Rdn, attributes: Attrs, ghost t: Tree) returns (r: Answer)
      requires t.Valid() && t.Holds(this)
      modifies this`children, t
      ensures t.Valid()
      ensures [rdn] + dn in old(t.view.index) ==> r == Refused(EntryAlreadyExists) && t.view == old(t.view)
      ensures [rdn] + dn !in old(t.view.index) ==>
                && r.Returned? && fresh(r.entry) && t.view.index == old(t.view.index)[[rdn] + dn := r.entry]
                && t.view.contents == old(t.view.contents)[[rdn] + dn := Rebuilt(attributes)]
    {
      hide Rebuilt;
      hide Same;
      hide Fits;
      hide IsUnder;
      t.KeyIsChild(this, rdn);
      if rdn in children {
        return Refused(EntryAlreadyExists);
      }
      assert ([rdn] + dn)[1..] == dn;
      t.NothingThere([rdn] + dn);
      t.Named();
      var e := new Entry([rdn] + dn, attributes);
      Hang(rdn, e, t);
      Adopt(rdn, e, t);
      r := Returned(e);
    }

    /** The two assignments that put a new child in place. */
    method Hang(rdn: Rdn, e: Entry, ghost t: Tree)
      requires t.Valid() && t.Holds(this) && e !in t.view.index.Values && e.children == map[]
      modifies this`children, e`parent
      ensures Adopting(rdn, e, t)
    {
      hide IsTree;
      t.Named();
      assert t.Shows(dn);
      e.parent := this;
      children := children[rdn := e];
      forall d | d in t.view.index && d != dn ensures t.Shows(d) {
        assert old(t.Shows(d));
      }
    }

    /** deleteChild: the child goes, and everything below it with it. */
    method DeleteChild(rdn: Rdn, ghost t: Tree) returns (r: Answer)
      requires t.Valid() && t.Holds(this)
      modifies this`children, t
      ensures t.Valid()
      ensures [rdn] + dn !in old(t.view.index) ==> r == Refused(NoSuchObject) && t.view == old(t.view)
      ensures [rdn] + dn in old(t.view.index) ==>
                && r == Returned(old(t.view.index)[[rdn] + dn])
                && t.view.index == PrunedIndex(old(t.view.index), [rdn] + dn)
                && t.view.contents == Without(old(t.view.contents), [rdn] + dn)
    {
      t.KeyIsChild(this, rdn);
      if rdn !in children {
        return Refused(NoSuchObject);
      }
      t.ChildOf(this, rdn);
      r := Returned(children[rdn]);
      Drop(rdn, t);
    }

    /** delete: a leaf other than the root goes. */
    method Delete(ghost t: Tree) returns (r: Answer)
      requires t.Valid() && t.Holds(this)
      modifies if parent == null then {} else {parent}, t
      ensures t.Valid() && t.root.dn == old(t.root.dn)
      ensures match Apply(old(t.view.contents), t.root.dn, DeleteOp(old(dn)))
              case Ok(after) => r == Returned(this) && t.view.contents == after
                                && t.view.index == old(t.view.index) - {old(dn)}
              case Failed(error) => r == Refused(error) && t.view == old(t.view)
    {
      t.ParentOf(this);
      if parent == null {
        return Refused(CannotRemoveRoot);
      }
      t.Leaf(this);
      if children != map[] {
        return Refused(NotAllowedOnNonLeaf);
      }
      t.LeafPruned(this);
      assert t.view.index - {dn} == PrunedIndex(t.view.index, dn);
      r := parent.DeleteChild(dn[0], t);
    }

    /** move of a leaf, to a new RDN or under another entry. Whatever is at the
        new DN already, the source overwrites it: the entry there and all that
        is below it are in the tree no more. A KeyError over the RDN's
        attributes leaves the entry half moved: under the new parent and the new
        RDN's text, but with the old name and a part of the change to its values. */
    method Move(newDN: DN, ghost t: Tree) returns (r: Answer)
      requires t.Valid() && t.Holds(this) && dn != [] && newDN != []
      requires children == map[] && newDN[1..] != dn
      modifies this, t, t.view.index.Values
      ensures
        var m, d := old(t.view.contents), old(dn);
        if d != old(t.root.dn) && newDN[1..] != d[1..] && newDN[1..] !in m then
          r == Refused(NoSuchObject) && t.Valid() && t.view == old(t.view)
        else
          match Renamed(m[d], d[0], newDN[0])
          case Raised =>
            && r == Refused(AttributeKeyError)
            && dn == d && HalfRenamed(m[d], d[0], newDN[0], attributes)
            && if d == old(t.root.dn) then
                 t.Valid() && t.view == old(t.view).(contents := m[d := attributes])
               else
                 parent != null && HalfMoved(parent, newDN[0], t) && parent.dn == newDN[1..]
                 && t.view.contents == m - {d}
          case Done(attrs) =>
            && r == Returned(this) && t.Valid()
            && t.view.contents == Without(m - {d}, newDN)[newDN := attrs]
      ensures t.view.index.Values <= old(t.view.index.Values) + {this}
      ensures r.Returned? ==> t.root.dn == if old(dn) == old(t.root.dn) then newDN else old(t.root.dn)
    {
      hide Renamed;
      hide HalfRenamed;
      hide HalfMoved;
      hide Without;
      hide IsTree;
      t.ParentOf(this);
      assert t.Shows(dn);
      if parent == null {
        r := Move2(null, newDN, t);
        return;
      }
      r := NewParent(newDN, t);
      if r.Returned? {
        r := Move2(r.entry, newDN, t);
      }
    }

    /** The entry to move under: this one's parent, or another that is looked up
        from the root. */
    method NewParent(newDN: DN, ghost t: Tree) returns (r: Answer)
      requires t.Valid() && t.Holds(this) && parent != null && newDN != []
      ensures newDN[1..] in t.view.index ==>
                r == Returned(t.view.index[newDN[1..]]) && t.Holds(r.entry) && r.entry.dn == newDN[1..]
      ensures newDN[1..] !in t.view.index ==> r == Refused(NoSuchObject)
    {
      t.ParentOf(this);
      t.Named();
      if newDN[1..] == dn[1..] {
        assert dn[1..] == parent.dn;
        return Returned(parent);
      }
      var root := Climb(t);
      t.AllUnderRoot(newDN[1..]);
      r := root.Lookup(newDN[1..], t);
    }

    /** The loop that climbs from an entry to the root. */
    method Climb(ghost t: Tree) returns (root: Entry)
      requires t.Valid() && t.Holds(this)
      ensures root == t.root
    {
      root := this;
      t.ParentOf(root);
      while root.parent != null
        invariant t.Holds(root) && (root.parent == null <==> root.dn == t.root.dn)
        decreases |root.dn|
      {
        t.ParentOf(root);
        root := root.parent;
        t.ParentOf(root);
      }
    }

    method RenameAttributes(from: Rdn, to: Rdn) returns (ok: bool)
      modifies this`attributes
      ensures Renamed(old(attributes), from, to) == if ok then Done(attributes) else Outcome.Raised
      ensures !ok ==> HalfRenamed(old(attributes), from, to, attributes)
    {
      var i := 0;
      while i < |from|
        invariant 0 <= i <= |from| && RemoveAvas(old(attributes), from[..i]) == Done(attributes)
      {
        var x := from[i];
        assert from[..i + 1][..i] == from[..i];
        if !(x.attributeType in attributes && x.value in attributes[x.attributeType]) {
          RemoveStops(old(attributes), from, i);
          assert StuckRemoving(old(attributes), from, attributes, i);
          return false;
        }
        attributes := attributes[x.attributeType := attributes[x.attributeType] - {x.value}];
        i := i + 1;
      }
      assert from[..i] == from;
      ghost var a := attributes;
      i := 0;
      while i < |to|
        invariant 0 <= i <= |to| && AddAvas(a, to[..i]) == Done(attributes)
      {
        var x := to[i];
        assert to[..i + 1][..i] == to[..i];
        if x.attributeType !in attributes {
          AddStops(a, to, i);
          assert StuckAdding(a, to, attributes, i);
          return false;
        }
        attributes := attributes[x.attributeType := attributes[x.attributeType] + {x.value}];
        i := i + 1;
      }
      assert to[..i] == to;
      ok := true;
    }

    method Move2(newParent: Entry?, newDN: DN, ghost t: Tree) returns (r: Answer)
      requires t.Valid() && t.Holds(this) && dn != [] && newDN != [] && children == map[]
      requires if parent == null then newParent == null
               else newParent != null && newParent != this && t.Holds(newParent) && newParent.dn == newDN[1..]
      modifies this, t, t.view.index.Values
      ensures
        match Renamed(old(attributes), old(dn)[0], newDN[0])
        case Raised =>
          && r == Refused(AttributeKeyError)
          && dn == old(dn) && HalfRenamed(old(attributes), dn[0], newDN[0], attributes)
          && if old(parent) == null then
               t.Valid() && t.view == old(t.view).(contents := old(t.view.contents)[dn := attributes])
             else
               newParent != null && HalfMoved(newParent, newDN[0], t)
               && parent == newParent && parent.dn == newDN[1..]
               && t.view.contents == old(t.view.contents) - {dn}
        case Done(attrs) =>
          && r == Returned(this) && t.Valid()
          && t.view.contents == Without(old(t.view.contents) - {old(dn)}, newDN)[newDN := attrs]
      ensures t.view.index.Values <= old(t.view.index.Values) + {this}
      ensures r.Returned? ==> t.root.dn == if old(dn) == old(t.root.dn) then newDN else old(t.root.dn)
    {
      hide Renamed;
      hide IsTree;
      t.ParentOf(this);
      if newParent != null {
        r := MoveUnder(newParent, newDN, t);
        return;
      }
      hide Without;
      hide HalfRenamed;
      hide HalfMoved;
      r := MoveRoot(newDN, t);
    }

    method MoveRoot(newDN: DN, ghost t: Tree) returns (r: Answer)
      requires t.Valid() && t.Holds(this) && dn != [] && newDN != [] && children == map[] && parent == null
      modifies this, t
      ensures
        match Renamed(old(attributes), old(dn)[0], newDN[0])
        case Raised =>
          && r == Refused(AttributeKeyError)
          && dn == old(dn) && HalfRenamed(old(attributes), dn[0], newDN[0], attributes)
          && t.Valid() && t.view == old(t.view).(contents := old(t.view.contents)[dn := attributes])
        case Done(attrs) =>
          && r == Returned(this) && t.Valid()
          && t.view.contents == Without(old(t.view.contents) - {old(dn)}, newDN)[newDN := attrs]
      ensures t.view.index.Values <= old(t.view.index.Values) + {this}
      ensures old(dn) == old(t.root.dn) && (r.Returned? ==> t.root.dn == newDN)
    {
      hide Renamed;
      hide HalfRenamed;
      t.ParentOf(this);
      t.OnlyRoot(this);
      hide IsTree;
      assert t.Shows(dn);
      var ok := RenameAttributes(dn[0], newDN[0]);
      if !ok {
        t.Record(this);
        return Refused(AttributeKeyError);
      }
      SetRootDN(newDN, t);
      r := Returned(this);
    }

    method MoveUnder(newParent: Entry, newDN: DN, ghost t: Tree) returns (r: Answer)
      requires t.Valid() && t.Holds(this) && dn != [] && newDN != [] && children == map[] && parent != null
      requires t.Holds(parent) && newParent != this && t.Holds(newParent) && newParent.dn == newDN[1..]
      modifies this, parent`children, newParent`children, t
      ensures
        match Renamed(old(attributes), old(dn)[0], newDN[0])
        case Raised =>
          && r == Refused(AttributeKeyError) && HalfMoved(newParent, newDN[0], t)
          && t.view.contents == old(t.view.contents) - {old(dn)}
          && dn == old(dn) && HalfRenamed(old(attributes), dn[0], newDN[0], attributes)
        case Done(attrs) =>
          && r == Returned(this) && t.Valid()
          && t.view.contents == Without(old(t.view.contents) - {old(dn)}, newDN)[newDN := attrs]
      ensures t.view.index.Values <= old(t.view.index.Values) + {this}
      ensures t.root.dn == old(t.root.dn) || t.root == this
    {
      hide Renamed;
      hide Without;
      HeadTail(newDN);
      ReParent(newParent, newDN[0], t);
      r := Rename(newParent, newDN, t);
    }

    /** The part of _move2 after that: the RDN's attributes, then the DN. */
    method Rename(newParent: Entry, newDN: DN, ghost t: Tree) returns (r: Answer)
      requires dn != [] && newDN != [] && newDN == [newDN[0]] + newParent.dn
      requires newParent.Adopting(newDN[0], this, t)
      modifies this, t
      ensures
        match Renamed(old(attributes), old(dn)[0], newDN[0])
        case Raised =>
          && r == Refused(AttributeKeyError) && HalfMoved(newParent, newDN[0], t)
          && t.view == old(t.view) && dn == old(dn) && HalfRenamed(old(attributes), dn[0], newDN[0], attributes)
        case Done(attrs) =>
          && r == Returned(this) && t.Valid()
          && t.view.contents == Without(old(t.view.contents), newDN)[newDN := attrs]
      ensures t.view.index.Values <= old(t.view.index.Values) + {this}
      ensures t.root.dn == old(t.root.dn) || t.root == this
    {
      hide Renamed;
      hide IsTree;
      var ok := RenameAttributes(dn[0], newDN[0]);
      if !ok {
        return Refused(AttributeKeyError);
      }
      dn := newDN;
      newParent.Adopt(newDN[0], this, t);
      r := Returned(this);
    }

    method SetRootDN(newDN: DN, ghost t: Tree)
      requires t.root == this && parent == null && children == map[]
      modifies this`dn, t
      ensures t.Valid() && t.view.contents == Without(map[], newDN)[newDN := attributes]
    {
      dn := newDN;
      t.view := View(map[dn := this], map[dn := Links(dn, null, map[])], map[dn := attributes]);
      assert Without(map[], newDN)[newDN := attributes] == map[newDN := attributes];
    }

    /** The part of _move2 that takes the entry out of its parent's children
        and puts it among another's. */
    method ReParent(newParent: Entry, rdn: Rdn, ghost t: Tree)
      requires t.Valid() && t.Holds(this) && children == map[]
      requires parent != null && newParent != this && t.Holds(newParent)
      modifies this`parent, parent`children, newParent`children, t
      ensures parent == newParent && newParent.dn in t.view.index && t.view.index[newParent.dn] == newParent
      ensures newParent.Adopting(rdn, this, t)
      ensures t.view.contents == old(t.view.contents) - {dn}
      ensures t.view.index.Values <= old(t.view.index.Values)
    {
      t.LeafPruned(this);
      t.ParentOf(this);
      t.Named();
      t.Leaf(this);
      UnderSelf(dn);
      ghost var was := t.view;
      PrunedViewAt(was, dn, dn);
      PrunedViewAt(was, dn, newParent.dn);
      parent.Drop(dn[0], t);
      t.Named();
      hide IsTree;
      hide IsUnder;
      newParent.Hang(rdn, this, t);
    }

    method Drop(rdn: Rdn, ghost t: Tree)
      requires t.Valid() && t.Holds(this)
      modifies this`children, t
      ensures t.Valid() && t.view == PrunedView(old(t.view), [rdn] + dn)
    {
      hide Fits;
      t.Named();
      t.RootAbove(this);
      ghost var was := t.view;
      assert ([rdn] + dn)[1..] == dn;
      PrunedViewIsTree(was, t.root.dn, [rdn] + dn);
      hide IsTree;
      hide IsUnder;
      hide PrunedView;
      children := children - {rdn};
      t.view := PrunedView(was, [rdn] + dn);
      forall d | d in t.view.index ensures t.Shows(d) {
        PrunedViewAt(was, [rdn] + dn, d);
        assert old(t.Shows(d));
      }
    }

    /** The entry `e` was written over whatever this entry held under its RDN,
        and all else is as the tree's view says. */
    ghost predicate Adopting(rdn: Rdn, e: Entry, t: Tree)
      reads this, e, t, t.root, t.view.index.Values
    {
      && t.Holds(this) && e !in t.view.index.Values
      && t.root.dn in t.view.index && t.view.index[t.root.dn] == t.root
      && t.view.contents.Keys == t.view.index.Keys == t.view.shape.Keys
      && IsTree(t.view.shape, t.view.index, t.root.dn)
      && (forall d :: d in t.view.index && d != dn ==> t.Shows(d))
      && t.view.shape[dn].dn == dn && t.view.shape[dn].parent == parent && t.view.contents[dn] == attributes
      && children == t.view.shape[dn].children[rdn := e] && e.parent == this && e.children == map[]
    }

    /** This entry is kept under a new parent, by a new RDN, though its name is the
        old one; but for it the tree is as the view says. */
    ghost predicate HalfMoved(newParent: Entry, rdn: Rdn, t: Tree)
      reads this, newParent, t, t.root, t.view.index.Values
    {
      parent == newParent && newParent.Adopting(rdn, this, t)
    }

    ghost method Adopt(rdn: Rdn, e: Entry, t: Tree)
      requires Adopting(rdn, e, t) && e.dn == [rdn] + dn
      modifies t
      ensures t.Valid()
      ensures !IsUnder(dn, [rdn] + dn) && t.view == Adopted(old(t.view), dn, rdn, e, e.attributes)
    {
      ghost var was := t.view;
      AdoptedIsTree(was, t.root.dn, dn, rdn, e, e.attributes);
      AdoptedAt(was, dn, rdn, e, e.attributes);
      hide Adopted;
      hide IsTree;
      hide Fits;
      hide IsUnder;
      t.view := Adopted(was, dn, rdn, e, e.attributes);
      forall d | d in t.view.index ensures t.Shows(d) {
        if d != [rdn] + dn && d != dn {
          AdoptedElsewhere(was, dn, rdn, e, e.attributes, d);
        }
      }
    }
  }

  /** A tree of entries, named by its root. */
  class Tree {
    const root: Entry
    ghost var view: View

    constructor (dn: DN, attributes: Attrs)
      ensures Valid() && root.dn == dn && view.contents == map[dn := Rebuilt(attributes)]
      ensures fresh(view.index.Values)
    {
      var e := new Entry(dn, attributes);
      root := e;
      view := View(map[dn := e], map[dn := Links(dn, null, map[])], map[dn := Rebuilt(attributes)]);
    }

    ghost predicate Valid()
      reads this, root, view.index.Values
    {
      && root.dn in view.index && view.index[root.dn] == root
      && view.contents.Keys == view.index.Keys == view.shape.Keys
      && IsTree(view.shape, view.index, root.dn)
      && forall d :: d in view.index ==> Shows(d)
    }

    /** What `view` says of the entry at `d` is what its fields hold. */
    ghost predicate Shows(d: DN)
      requires d in view.index && d in view.shape && d in view.contents
      reads this, view.index.Values
    {
      var e := view.index[d];
      view.shape[d] == Links(e.dn, e.parent, e.children) && view.contents[d] == e.attributes
    }

    ghost predicate Holds(e: Entry)
      reads this, view.index.Values
    {
      e in view.index.Values && e.dn in view.index && view.index[e.dn] == e
    }

    lemma ChildOf(e: Entry, r: Rdn)
      requires Valid() && Holds(e) && r in e.children
      ensures Holds(e.children[r]) && e.children[r].dn == [r] + e.dn && e.children[r].parent == e
    {
      assert Fits(e.dn, view.shape[e.dn], view.index, root.dn);
      assert Fits([r] + e.dn, view.shape[[r] + e.dn], view.index, root.dn);
      assert ([r] + e.dn)[1..] == e.dn;
    }

    lemma Named()
      requires Valid()
      ensures forall d :: d in view.index ==> view.index[d].dn == d
    {
      forall d | d in view.index ensures view.index[d].dn == d {
        assert Fits(d, view.shape[d], view.index, root.dn);
      }
    }

    lemma AllUnderRoot(d: DN)
      requires Valid()
      ensures d in view.index ==> IsUnder(d, root.dn)
    {
      assert d in view.index ==> Fits(d, view.shape[d], view.index, root.dn);
    }

    lemma RootAbove(e: Entry)
      requires Valid() && Holds(e)
      ensures IsUnder(e.dn, root.dn)
      ensures forall r :: !IsUnder(root.dn, [r] + e.dn)
    {
      assert Fits(e.dn, view.shape[e.dn], view.index, root.dn);
    }

    lemma ParentOf(e: Entry)
      requires Valid() && Holds(e)
      ensures e.parent == null <==> e.dn == root.dn
      ensures e.parent != null ==> Holds(e.parent) && e.dn != [] && e.dn == [e.dn[0]] + e.parent.dn
    {
      assert Fits(e.dn, view.shape[e.dn], view.index, root.dn);
      if e.dn != root.dn {
        assert Fits(e.dn[1..], view.shape[e.dn[1..]], view.index, root.dn);
      }
    }

    /** An entry's attributes changed: so does the directory's map. */
    ghost method Record(e: Entry)
      requires Holds(e) && root.dn in view.index && view.index[root.dn] == root
      requires view.contents.Keys == view.index.Keys == view.shape.Keys
      requires IsTree(view.shape, view.index, root.dn)
      requires forall d :: d in view.index && d != e.dn ==> Shows(d)
      requires view.shape[e.dn] == Links(e.dn, e.parent, e.children)
      modifies this
      ensures Valid() && view == old(view).(contents := old(view.contents)[e.dn := e.attributes])
    {
      view := view.(contents := view.contents[e.dn := e.attributes]);
      forall d | d in view.index ensures Shows(d) {
        if d != e.dn { assert old(Shows(d)); }
      }
    }

    /** Nothing is below an entry with no children, and something below any
        other. */
    lemma Leaf(e: Entry)
      requires Valid() && Holds(e)
      ensures e.children == map[] <==> !HasChild(view.contents, e.dn)
      ensures e.children == map[] ==> forall d :: d in view.index && IsUnder(d, e.dn) ==> d == e.dn
    {
      if e.children != map[] {
        var r :| r in e.children;
        KeyIsChild(e, r);
      }
      forall r | [r] + e.dn in view.contents ensures r in e.children {
        KeyIsChild(e, r);
      }
      forall d | d in view.index && IsUnder(d, e.dn) && d != e.dn ensures e.children != map[] {
        BranchIsChild(e, d);
      }
    }

    lemma NothingThere(c: DN)
      requires view.index.Keys == view.contents.Keys == view.shape.Keys && IsTree(view.shape, view.index, root.dn)
      requires c !in view.index && c != [] && c[1..] in view.index
      ensures PrunedIndex(view.index, c) == view.index && Without(view.contents, c) == view.contents
    {
      assert Fits(c[1..], view.shape[c[1..]], view.index, root.dn);
      forall x | x in view.index ensures !IsUnder(x, c) {
        if IsUnder(x, c) { NothingBelow(view.shape, view.index, root.dn, c, x); }
      }
    }

    lemma OnlyRoot(e: Entry)
      requires Valid() && Holds(e) && e.dn == root.dn && e.children == map[]
      ensures e == root && view.contents - {e.dn} == map[]
      ensures forall d :: d in view.index ==> d == e.dn
    {
      Leaf(e);
      forall d | d in view.index ensures d == e.dn {
        assert Fits(d, view.shape[d], view.index, root.dn);
      }
    }

    lemma LeafPruned(e: Entry)
      requires Valid() && Holds(e) && e.children == map[]
      ensures view.contents - {e.dn} == Without(view.contents, e.dn)
    {
      Leaf(e);
      UnderSelf(e.dn);
    }

    lemma KeyIsChild(e: Entry, r: Rdn)
      requires Valid() && Holds(e)
      ensures r in e.children <==> [r] + e.dn in view.index
    {
      assert Fits(e.dn, view.shape[e.dn], view.index, root.dn);
      if [r] + e.dn in view.index {
        assert ([r] + e.dn)[1..] == e.dn;
        assert Fits([r] + e.dn, view.shape[[r] + e.dn], view.index, root.dn);
      }
    }

    /** An entry below `e` lies in the branch of one of e's children. */
    lemma {:induction false} BranchIsChild(e: Entry, d: DN)
      requires Valid() && Holds(e) && IsUnder(d, e.dn) && d != e.dn
      ensures d in view.index ==> Branch(d, e.dn) in e.children
      decreases |d|
    {
      if d in view.index {
        assert Fits(d, view.shape[d], view.index, root.dn);
        assert Fits(e.dn, view.shape[e.dn], view.index, root.dn);
        UnderUp(d, e.dn);
        assert d == [d[0]] + d[1..];
        if d[1..] != e.dn {
          BranchIsChild(e, d[1..]);
        }
      }
    }

    lemma ContentsWellFormed()
      requires Valid()
      ensures WellFormed(view.contents, root.dn)
    {
      forall d | d in view.index ensures Attached(d, view.contents, root.dn) {
        assert Fits(d, view.shape[d], view.index, root.dn);
      }
    }
  }
}
