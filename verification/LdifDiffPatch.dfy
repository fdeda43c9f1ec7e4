/** ldifdiff and ldifpatch together: the difference between two trees, written
    as LDIF, parsed again and replayed on the first tree. */
module LdifDiffPatch {
  import opened Options
  import opened Sequences
  import opened DistinguishedName
  import opened Base64
  import opened Attributes
  import opened Operations
  import opened Directory
  import opened Patching
  import opened LdifDelta
  import opened LdifRoundTrip
  import opened LdifPrint

  /** A directory LDIF can carry: names that read back, plain attribute names,
      and values made of octets. */
  ghost predicate GoodDirectory(m: Flat) {
    forall d :: d in m ==> GoodName(d) && GoodAttrs(m[d])
  }

  // ---------------------------------------- replaying what LDIF has left of it

  /** A directory that `m` became after starting as `a`, when what was added on
      the way came without the attributes that hold no value. */
  ghost function Lean(m: Flat, a: Flat): Flat {
    map d | d in m :: if d in a then m[d] else Held(m[d])
  }

  lemma HeldRebuilt(a: Attrs)
    ensures Rebuilt(Held(a)) == Held(a) == Held(Rebuilt(a))
  {
    var h := Held(a);
    assert !(OBJECT_CLASS in h && h[OBJECT_CLASS] == {});
  }

  lemma LeanPut(m: Flat, a: Flat, d: DN, x: Attrs)
    ensures d in a ==> Lean(m[d := x], a) == Lean(m, a)[d := x]
    ensures d !in a ==> Lean(m[d := x], a) == Lean(m, a)[d := Held(x)]
  {
    hide Held;
  }

  lemma LeanDrop(m: Flat, a: Flat, d: DN)
    ensures Lean(m - {d}, a) == Lean(m, a) - {d}
    ensures HasChild(Lean(m, a), d) <==> HasChild(m, d)
  {
    hide Held;
  }

  /** An operation and its LDIF do the same, but for attributes without values. */
  lemma WireApplies(m: Flat, base: DN, op: Operation, a: Flat, b: Flat)
    requires From(op, a, b) && Apply(m, base, op).Ok?
    ensures Apply(Lean(m, a), base, Wire(op)) == Ok(Lean(Apply(m, base, op).flat, a))
  {
    hide Held;
    hide Rebuilt;
    hide RunMods;
    assert Lean(m, a).Keys == m.Keys;
    match op
    case ModifyOp(dn, mods) => LeanPut(m, a, dn, RunMods(mods, m[dn]).attrs);
    case AddOp(dn, attrs) =>
      HeldRebuilt(attrs);
      LeanPut(m, a, dn, Rebuilt(attrs));
    case DeleteOp(dn) => LeanDrop(m, a, dn);
  }

  lemma {:induction false} WiresReplay(m: Flat, base: DN, ops: seq<Operation>, a: Flat, b: Flat)
    requires AllFrom(ops, a, b) && Replay(m, base, ops).Ok?
    ensures Replay(Lean(m, a), base, Wires(ops)) == Ok(Lean(Replay(m, base, ops).flat, a))
    decreases |ops|
  {
    hide Apply;
    hide Wire;
    hide From;
    hide Lean;
    if ops != [] {
      var n := |ops| - 1;
      assert AllFrom(ops[..n], a, b) && From(ops[n], a, b);
      WiresReplay(m, base, ops[..n], a, b);
      WireApplies(Replay(m, base, ops[..n]).flat, base, ops[n], a, b);
      assert Wires(ops)[..n] == Wires(ops[..n]);
    }
  }

  /** Whatever is in a directory after a replay and was not before was added. */
  lemma {:induction false} WasAdded(m: Flat, base: DN, ops: seq<Operation>, d: DN) returns (i: nat)
    requires Replay(m, base, ops).Ok? && d in Replay(m, base, ops).flat && d !in m
    ensures i < |ops| && ops[i].AddOp? && ops[i].dn == d
    decreases |ops|
  {
    hide RunMods;
    hide Rebuilt;
    var n := |ops| - 1;
    if d in Replay(m, base, ops[..n]).flat {
      i := WasAdded(m, base, ops[..n], d);
    } else {
      i := n;
    }
  }

  // ------------------------------------------------------------- the theorem

  /** Every entry that only `b` has holds some value. */
  ghost predicate NothingEmpty(a: Flat, b: Flat) {
    forall d :: d in b && d !in a ==> Held(b[d]) != map[]
  }

  lemma EmptyOps(a: Flat, b: Flat, base: DN, ops: seq<Operation>)
    requires AllFrom(ops, a, b) && Replay(a, base, ops) == Ok(Target(a, b))
    ensures AnyEmpty(ops) <==> !NothingEmpty(a, b)
  {
    hide Held;
    hide Patched;
    hide Rebuilt;
    if AnyEmpty(ops) {
      var i :| 0 <= i < |ops| && Empty(ops[i]);
      assert From(ops[i], a, b);
    }
    if !NothingEmpty(a, b) {
      var d :| d in b && d !in a && Held(b[d]) == map[];
      var i := WasAdded(a, base, ops, d);
      assert From(ops[i], a, b);
      assert Empty(ops[i]);
    }
  }

  lemma GoodModsFrom(mods: seq<Modification>, a: Attrs, b: Attrs)
    requires ModsFrom(mods, a, b) && GoodAttrs(a) && GoodAttrs(b)
    ensures GoodMods(mods)
  {
    hide Octets;
    hide GoodKey;
    forall i | 0 <= i < |mods| ensures GoodSet(mods[i].key, mods[i].values) {
      assert ModFrom(mods[i], a, b);
      var k := mods[i].key;
      assert (k in a ==> GoodSet(k, a[k])) && (k in b ==> GoodSet(k, b[k]));
    }
  }

  lemma DifferenceIsGood(ops: seq<Operation>, a: Flat, b: Flat)
    requires AllFrom(ops, a, b) && GoodDirectory(a) && GoodDirectory(b)
    ensures AllGoodOps(ops)
  {
    hide GoodName;
    hide GoodAttrs;
    hide GoodMods;
    hide ModsFrom;
    forall i | 0 <= i < |ops| ensures GoodOp(ops[i]) {
      assert From(ops[i], a, b);
      if ops[i].ModifyOp? {
        GoodModsFrom(ops[i].mods, a[ops[i].dn], b[ops[i].dn]);
      }
    }
  }

  /** Same DNs and values, though an attribute without values did not make it
      through the text. */
  lemma LeanTarget(a: Flat, b: Flat)
    ensures Lean(a, a) == a
    ensures SameDirectory(Lean(Target(a, b), a), b)
  {
    TargetIsSame(a, b);
    var t := Target(a, b);
    forall d | d in b ensures Same(Lean(t, a)[d], b[d]) {
      assert Same(t[d], b[d]);
      hide Patched;
      hide Rebuilt;
      forall k ensures Values(Held(t[d]), k) == Values(t[d], k) {
      }
    }
  }

  /** A parser given a file, in reads of whatever size. */
  method ReadAll(text: string) returns (r: Option<ParseError>, ops: seq<Operation>)
    ensures match Feed(INITIAL, text)
            case Next((after, _)) => r == None && ops == after.collected
            case Raise(error) => r == Some(error)
  {
    var p := new Parser();
    var rest := text;
    NothingBefore(text);
    r, ops := None, [];
    hide *;
    while rest != ""
      invariant r == None && '\n' !in p.buffer
      invariant Feed(p.Now(), p.buffer + rest) == Feed(INITIAL, text)
      invariant fresh(p)
      decreases |rest|
    {
      var n :| 0 < n <= |rest|;
      FeedConcat(p.Now(), p.buffer + rest[..n], rest[n..]);
      FeedLeaves(p.Now(), p.buffer + rest[..n]);
      Cut(p.buffer, rest, n);
      r := p.DataReceived(rest[..n]);
      if r.Some? {
        return;
      }
      rest := rest[n..];
    }
    NothingLeft(p.Now(), p.buffer);
    ops := p.collected;
    assert p.Now().collected == p.collected by { Collected(p); }
  }

  lemma Collected(p: Parser)
    ensures p.Now().collected == p.collected
  {
  }

  lemma Cut(a: string, s: string, n: nat)
    requires n <= |s|
    ensures a + s == a + s[..n] + s[n..]
  {
  }

  lemma NothingLeft(st: State, buffer: string)
    requires '\n' !in buffer
    ensures Feed(st, buffer + "") == Next((st, buffer))
  {
    assert buffer + "" == buffer;
  }

  /** ldifdiff's output read by ldifpatch. It is parsed to the end before
      anything is changed, and refused exactly when some entry to be added holds
      no value at all; otherwise every operation succeeds and the first tree
      becomes the second. */
  method DiffToPatch(ta: Tree, tb: Tree) returns (ok: bool)
    requires ta.Valid() && tb.Valid() && ta.root.dn == tb.root.dn
    requires ta != tb && ta.view.index.Values !! tb.view.index.Values
    requires GoodDirectory(ta.view.contents) && GoodDirectory(tb.view.contents)
    modifies ta, ta.view.index.Values
    ensures ta.Valid()
    ensures ok <==> NothingEmpty(old(ta.view.contents), old(tb.view.contents))
    ensures ok ==> SameDirectory(ta.view.contents, old(tb.view.contents))
    ensures !ok ==> ta.view == old(ta.view)
  {
    hide *;
    ghost var a, b := ta.view.contents, tb.view.contents;
    var ops := DiffTrees(ta, tb);
    DifferenceIsGood(ops, a, b);
    EmptyOps(a, b, ta.root.dn, ops);
    WiresReplay(a, ta.root.dn, ops, a, b);
    LeanTarget(a, b);
    var text, ls := PrintAll(ops);
    PrintedFed(text, ops, ls);
    var r, parsed := ReadAll(text);
    if r.Some? {
      return false;
    }
    ok := PatchAll(parsed, ta);
  }

  lemma PrintedFed(text: string, ops: seq<Operation>, ls: seq<Listing>)
    requires PrintsAll(text, ops, ls)
    ensures match Feed(INITIAL, text)
            case Next((after, _)) => !AnyEmpty(ops) && after.collected == Wires(ops)
            case Raise(error) => AnyEmpty(ops)
  {
    assert [text][1..] == [] && text + [] == text;
    assert Flatten([text]) == text;
    PrintedParses(text, ops, ls, [text]);
    hide Feed;
    ChunksDoNotMatter(INITIAL, "", [text]);
    NothingBefore(text);
  }
}
