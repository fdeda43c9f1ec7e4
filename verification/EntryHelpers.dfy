/** What entryhelpers.py mixes into an entry to walk a subtree (the difference
    between two trees is in TreeDiff.dfy). */
module EntryHelpers {
  import opened DistinguishedName
  import opened Operations
  import opened Directory

  /** The entries that have these DNs. */
  ghost predicate Named(out: seq<Entry>, names: seq<DN>, index: map<DN, Entry>) {
    |out| == |names| && forall i :: 0 <= i < |names| ==> names[i] in index && out[i] == index[names[i]]
  }

  lemma DoneMore(all: set<Rdn>, left: set<Rdn>, r: Rdn)
    requires r in left && left <= all
    ensures all - left + {r} == all - (left - {r}) && r !in all - left
  {
  }

  lemma NamedConcat(out: seq<Entry>, names: seq<DN>, more: seq<Entry>, moreNames: seq<DN>, index: map<DN, Entry>)
    requires Named(out, names, index) && Named(more, moreNames, index)
    ensures Named(out + more, names + moreNames, index)
  {
  }

  /** SubtreeFromChildrenMixin.subtree: the entry, then each child's subtree,
      the children in any order. `names` are the DNs of the entries. */
  method Subtree(e: Entry, ghost t: Tree) returns (out: seq<Entry>, ghost names: seq<DN>)
    requires t.Valid() && t.Holds(e)
    ensures ParentsFirst(names, t.view.index.Keys, e.dn)
    ensures Named(out, names, t.view.index)
    decreases set d | d in t.view.index && IsUnder(d, e.dn)
  {
    out, names := [e], [e.dn];
    var left := e.children.Keys;
    OnlyTop(e.dn, t.view.index.Keys, e.children.Keys - left);
    assert Named(out, names, t.view.index);
    hide Named;
    hide Listing;
    hide Branches;
    hide ParentsFirst;
    hide IsTree;
    while left != {}
      invariant left <= e.children.Keys
      invariant Listing(names, t.view.index.Keys, Branches(e.dn, e.children.Keys - left))
      invariant Named(out, names, t.view.index)
      decreases |left|
    {
      var r :| r in left;
      var more, moreNames := SubtreeOfChild(e, r, t);
      ListingStep(names, moreNames, t.view.index.Keys, e.dn, e.children.Keys - left, r);
      NamedConcat(out, names, more, moreNames, t.view.index);
      DoneMore(e.children.Keys, left, r);
      out, names, left := out + more, names + moreNames, left - {r};
    }
    assert e.children.Keys - left == e.children.Keys;
    AllBranches(e, names, t);
  }

  method SubtreeOfChild(e: Entry, r: Rdn, ghost t: Tree) returns (out: seq<Entry>, ghost names: seq<DN>)
    requires t.Valid() && t.Holds(e) && r in e.children
    ensures ParentsFirst(names, t.view.index.Keys, [r] + e.dn)
    ensures Named(out, names, t.view.index)
    decreases set d | d in t.view.index && IsUnder(d, e.dn), 0
  {
    t.ChildOf(e, r);
    BelowChild(e, r, t);
    out, names := Subtree(e.children[r], t);
  }

  lemma BelowChild(e: Entry, r: Rdn, t: Tree)
    requires t.Valid() && t.Holds(e)
    ensures (set d | d in t.view.index && IsUnder(d, [r] + e.dn)) < (set d | d in t.view.index && IsUnder(d, e.dn))
  {
    var mine := set d | d in t.view.index && IsUnder(d, e.dn);
    var its := set d | d in t.view.index && IsUnder(d, [r] + e.dn);
    UnderSelf(e.dn);
    assert e.dn in mine && e.dn !in its;
    forall d | d in its ensures d in mine {
      UnderChild(d, r, e.dn);
    }
  }

  lemma OnlyTop(d: DN, keys: set<DN>, none: set<Rdn>)
    requires d in keys && none == {}
    ensures Listing([d], keys, Branches(d, none))
  {
  }

  /** Every entry below `e` is in the branch of one of its children. */
  lemma AllBranches(e: Entry, names: seq<DN>, t: Tree)
    requires t.Valid() && t.Holds(e)
    requires Listing(names, t.view.index.Keys, Branches(e.dn, e.children.Keys))
    ensures ParentsFirst(names, t.view.index.Keys, e.dn)
  {
    forall d | d in t.view.index && d in Below(e.dn) ensures d in Branches(e.dn, e.children.Keys) {
      if d != e.dn { t.BranchIsChild(e, d); }
    }
    UnderSelf(e.dn);
  }
}
