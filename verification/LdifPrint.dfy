/** delta.py's asLDIF methods, entry.py's toWire and ldif.py's asLDIF: what they
    print is a listing of the operation, in some order of its sets. */
module LdifPrint {
  import opened Sequences
  import opened DistinguishedName
  import opened NameText
  import opened Base64
  import opened Ldif
  import opened Attributes
  import opened Operations
  import opened LdifDelta
  import opened LdifRoundTrip

  /** The operation that an operation's LDIF stands for. */
  function Wire(op: Operation): Operation {
    if op.AddOp? then AddOp(op.dn, Held(op.attrs)) else op
  }

  ghost predicate GoodSet(key: string, values: set<string>) {
    GoodKey(key) && forall v :: v in values ==> Octets(v)
  }

  ghost predicate GoodAttrs(a: Attrs) {
    forall k :: k in a ==> GoodSet(k, a[k])
  }

  ghost predicate GoodMods(ms: seq<Modification>) {
    forall i :: 0 <= i < |ms| ==> GoodSet(ms[i].key, ms[i].values)
  }

  /** An operation LDIF can carry: a name that reads back, plain attribute
      names, and values made of octets. */
  ghost predicate GoodOp(op: Operation) {
    && GoodName(op.dn)
    && (op.ModifyOp? ==> GoodMods(op.mods))
    && (op.AddOp? ==> GoodAttrs(op.attrs))
  }

  // ----------------------------------------------------------- modifications

  lemma {:induction false} UnlinesConcat(a: seq<string>, b: seq<string>)
    ensures Unlines(a + b) == Unlines(a) + Unlines(b)
    decreases |a|
  {
    if a == [] {
      assert a + b == b;
    } else {
      assert (a + b)[1..] == a[1..] + b;
      UnlinesConcat(a[1..], b);
    }
  }

  lemma UnlinesOne(l: string)
    ensures Unlines([l]) == l + "\n"
  {
    assert [l][1..] == [];
    assert l + "\n" + [] == l + "\n";
  }

  lemma UnlinesSnoc(a: seq<string>, l: string)
    ensures Unlines(a + [l]) == Unlines(a) + (l + "\n")
  {
    UnlinesConcat(a, [l]);
    UnlinesOne(l);
  }

  lemma ValueLinesSnoc(key: string, values: seq<string>, v: string)
    ensures ValueLines(key, values + [v]) == ValueLines(key, values) + [Line(key, v)]
    ensures SetOf(values + [v]) == SetOf(values) + {v}
  {
    hide Line;
  }

  method PrintValues(key: string, values: set<string>) returns (text: string, ghost listed: seq<string>)
    ensures SetOf(listed) == values
    ensures text == Unlines(ValueLines(key, listed))
  {
    text, listed := "", [];
    var left := values;
    hide Line;
    hide Unlines;
    EmptyUnlines();
    assert ValueLines(key, []) == [];
    while left != {}
      invariant SetOf(listed) + left == values
      invariant text == Unlines(ValueLines(key, listed))
      decreases |left|
    {
      var v :| v in left;
      ValueLinesSnoc(key, listed, v);
      UnlinesSnoc(ValueLines(key, listed), Line(key, v));
      text, listed, left := text + (Line(key, v) + "\n"), listed + [v], left - {v};
    }
  }

  lemma EmptyUnlines()
    ensures Unlines([]) == ""
  {
  }

  /** Add.asLDIF, Delete.asLDIF and Replace.asLDIF. */
  method PrintMod(m: Modification) returns (text: string, ghost listing: ModListing)
    ensures ModMeaning(listing) == m
    ensures text == Unlines(ModLines(listing))
  {
    hide Line;
    hide ValueLines;
    var first := Line(KindName(m.kind), m.key);
    var values, listed := PrintValues(m.key, m.values);
    listing := ModListing(m.kind, m.key, listed);
    text := first + "\n" + values + "-\n";
    UnlinesOne(first);
    UnlinesConcat([first], ValueLines(m.key, listed));
    UnlinesSnoc([first] + ValueLines(m.key, listed), "-");
    assert "-" + "\n" == "-\n";
  }

  lemma {:induction false} AllModLinesSnoc(ms: seq<ModListing>, m: ModListing)
    ensures AllModLines(ms + [m]) == AllModLines(ms) + ModLines(m)
    ensures ModMeanings(ms + [m]) == ModMeanings(ms) + [ModMeaning(m)]
    decreases |ms|
  {
    hide ModLines;
    if ms == [] {
      assert ms + [m] == [m] && [m][1..] == [];
    } else {
      assert (ms + [m])[1..] == ms[1..] + [m];
      AllModLinesSnoc(ms[1..], m);
    }
  }

  method PrintMods(mods: seq<Modification>) returns (text: string, ghost listed: seq<ModListing>)
    ensures ModMeanings(listed) == mods
    ensures text == Unlines(AllModLines(listed))
  {
    text, listed := "", [];
    hide ModLines;
    hide ModMeaning;
    for i := 0 to |mods|
      invariant ModMeanings(listed) == mods[..i]
      invariant text == Unlines(AllModLines(listed))
    {
      var one, listing := PrintMod(mods[i]);
      AllModLinesSnoc(listed, listing);
      UnlinesConcat(AllModLines(listed), ModLines(listing));
      text, listed := text + one, listed + [listing];
    }
    assert mods[..|mods|] == mods;
  }

  lemma GoodModListings(ms: seq<ModListing>)
    requires GoodMods(ModMeanings(ms))
    ensures forall i :: 0 <= i < |ms| ==> GoodMod(ms[i])
  {
    forall i | 0 <= i < |ms| ensures GoodMod(ms[i]) {
      assert GoodSet(ModMeanings(ms)[i].key, ModMeanings(ms)[i].values);
      forall j | 0 <= j < |ms[i].values| ensures Octets(ms[i].values[j]) {
        assert ms[i].values[j] in SetOf(ms[i].values);
      }
    }
  }

  // -------------------------------------------------------------- operations

  ghost predicate Prints(text: string, op: Operation, listing: Listing) {
    && text == Record(listing)
    && Meaning(listing) == Wire(op)
    && (GoodOp(op) ==> GoodListing(listing))
  }

  /** ModifyOp.asLDIF. */
  method PrintModify(op: Operation) returns (text: string, ghost listing: Listing)
    requires op.ModifyOp?
    ensures Prints(text, op, listing)
  {
    hide Line;
    hide Text;
    hide ModMeanings;
    hide AllModLines;
    hide GoodMod;
    hide GoodMods;
    var first, second := Line("dn", Text(op.dn)), Line("changetype", "modify");
    var mods, listed := PrintMods(op.mods);
    listing := ModifyListing(op.dn, listed);
    text := first + "\n" + (second + "\n") + mods + "\n";
    if GoodMods(op.mods) { GoodModListings(listed); }
    TwoFirst(first, second, AllModLines(listed));
  }

  lemma TwoFirst(first: string, second: string, rest: seq<string>)
    ensures Unlines([first, second] + rest + [""]) == first + "\n" + (second + "\n") + Unlines(rest) + "\n"
  {
    UnlinesOne(first);
    UnlinesSnoc([first], second);
    assert [first] + [second] == [first, second];
    UnlinesConcat([first, second], rest);
    UnlinesSnoc([first, second] + rest, "");
    assert "" + "\n" == "\n";
  }

  /** DeleteOp.asLDIF. */
  method PrintDelete(op: Operation) returns (text: string, ghost listing: Listing)
    requires op.DeleteOp?
    ensures Prints(text, op, listing)
  {
    hide Line;
    hide Text;
    var first, second := Line("dn", Text(op.dn)), Line("changetype", "delete");
    listing := DeleteListing(op.dn);
    text := first + "\n" + (second + "\n") + "\n";
    TwoFirst(first, second, []);
    assert [first, second] + [] == [first, second];
    assert first + "\n" + (second + "\n") + "" == first + "\n" + (second + "\n");
    EmptyUnlines();
  }

  // ---------------------------------------------------------- adding an entry

  function FirstBreak(s: string): (i: nat)
    ensures i <= |s| && NoBreak(s[..i]) && (i < |s| ==> s[i] == '\n' || s[i] == '\r')
  {
    if s == [] || s[0] == '\n' || s[0] == '\r' then 0
    else
      var i := 1 + FirstBreak(s[1..]);
      assert s[..i] == [s[0]] + s[1..][..i - 1];
      i
  }

  /** bytes.splitlines(): a line ends with a line feed, a carriage return, or
      the one after the other. */
  function SplitLines(s: string): seq<string>
    decreases |s|
  {
    if s == [] then []
    else
      var i := FirstBreak(s);
      if i == |s| then [s]
      else
        [s[..i]] + SplitLines(s[(if s[i] == '\r' && i + 1 < |s| && s[i + 1] == '\n' then i + 2 else i + 1)..])
  }

  lemma {:induction false} FirstBreakAt(l: string, rest: string)
    requires NoBreak(l)
    ensures FirstBreak(l + "\n" + rest) == |l|
  {
    if l != [] {
      FirstBreakAt(l[1..], rest);
      assert (l + "\n" + rest)[1..] == l[1..] + "\n" + rest;
    }
  }

  lemma {:induction false} SplitLinesUnlines(lines: seq<string>)
    requires forall i :: 0 <= i < |lines| ==> NoBreak(lines[i])
    ensures SplitLines(Unlines(lines)) == lines
    decreases |lines|
  {
    if lines != [] {
      var l, rest := lines[0], Unlines(lines[1..]);
      var s := l + "\n" + rest;
      FirstBreakAt(l, rest);
      assert s[|l|] == '\n' && s[..|l|] == l && s[|l| + 1..] == rest;
      hide FirstBreak;
      SplitLinesUnlines(lines[1..]);
    }
  }

  function Pairs(k: string, values: seq<string>): seq<(string, string)> {
    seq(|values|, i requires 0 <= i < |values| => (k, values[i]))
  }

  lemma PairLinesConcat(a: seq<(string, string)>, k: string, values: seq<string>)
    ensures PairLines(a + Pairs(k, values)) == PairLines(a) + ValueLines(k, values)
  {
    hide Line;
  }

  lemma GatheredSnoc(pairs: seq<(string, string)>, k: string, v: string)
    ensures Gathered(pairs + [(k, v)]) == Append(Gathered(pairs), k, v)
  {
    assert (pairs + [(k, v)])[..|pairs|] == pairs;
  }

  lemma SetsAppended(data: map<string, seq<string>>, k: string, v: string)
    ensures Sets(Append(data, k, v)) == Sets(data)[k := Values(Sets(data), k) + {v}]
  {
    var had := if k in data then data[k] else [];
    assert SetOf(had + [v]) == SetOf(had) + {v};
    assert Values(Sets(data), k) == SetOf(had);
    var more := Append(data, k, v);
    assert more[k] == had + [v];
    hide SetOf;
    assert Sets(more)[k] == SetOf(had + [v]);
    assert forall j :: j in data && j != k ==> Sets(more)[j] == Sets(data)[j];
  }

  lemma {:induction false} GatheredPairs(pairs: seq<(string, string)>, k: string, values: seq<string>)
    requires k !in Sets(Gathered(pairs))
    ensures Sets(Gathered(pairs + Pairs(k, values))) ==
            if values == [] then Sets(Gathered(pairs)) else Sets(Gathered(pairs))[k := SetOf(values)]
    decreases |values|
  {
    hide Gathered;
    hide Sets;
    if values == [] {
      assert pairs + Pairs(k, values) == pairs;
    } else {
      var n := |values| - 1;
      var before := pairs + Pairs(k, values[..n]);
      GatheredPairs(pairs, k, values[..n]);
      assert pairs + Pairs(k, values) == before + [(k, values[n])];
      GatheredSnoc(before, k, values[n]);
      SetsAppended(Gathered(before), k, values[n]);
      assert SetOf(values[..n]) + {values[n]} == SetOf(values) by { assert values == values[..n] + [values[n]]; }
      assert Values(Sets(Gathered(before)), k) == SetOf(values[..n]);
    }
  }

  /** What is gathered when the attributes in `done` were printed. */
  ghost function HeldIn(a: Attrs, done: set<string>): Attrs {
    map k | k in a && k in done && a[k] != {} :: a[k]
  }

  lemma HeldInStep(a: Attrs, done: set<string>, k: string)
    requires k !in done
    ensures k !in HeldIn(a, done)
    ensures HeldIn(a, done + {k}) == if Values(a, k) == {} then HeldIn(a, done) else HeldIn(a, done)[k := Values(a, k)]
  {
  }

  ghost predicate Printable(pairs: seq<(string, string)>) {
    forall i :: 0 <= i < |pairs| ==> GoodKey(pairs[i].0) && Octets(pairs[i].1)
  }

  ghost predicate Shown(pairs: seq<(string, string)>, a: Attrs, done: set<string>) {
    Sets(Gathered(pairs)) == HeldIn(a, done) && Printable(pairs)
  }

  lemma ShownStep(pairs: seq<(string, string)>, a: Attrs, done: set<string>, k: string, values: seq<string>)
    requires Shown(pairs, a, done) && k !in done && SetOf(values) == Values(a, k) && GoodAttrs(a)
    ensures Shown(pairs + Pairs(k, values), a, done + {k})
  {
    HeldInStep(a, done, k);
    GatheredPairs(pairs, k, values);
    assert SetOf(values) == {} <==> values == [] by {
      if values != [] { assert values[0] in SetOf(values); }
    }
    forall i | 0 <= i < |values| ensures GoodKey(k) && Octets(values[i]) {
      assert values[i] in SetOf(values);
    }
  }

  /** One attribute of toWire, at the end of what was printed before. */
  method PrintAttribute(k: string, a: Attrs, before: string, ghost pairs: seq<(string, string)>,
                        ghost head: seq<string>, ghost done: set<string>)
    returns (text: string, ghost more: seq<(string, string)>)
    requires GoodAttrs(a) && Shown(pairs, a, done) && k !in done
    requires before == Unlines(head + PairLines(pairs))
    ensures Shown(more, a, done + {k})
    ensures text == Unlines(head + PairLines(more))
    ensures ClassFirst(pairs) && (k == OBJECT_CLASS ==> pairs == []) ==> ClassFirst(more)
  {
    hide Unlines;
    hide PairLines;
    hide ValueLines;
    hide GoodAttrs;
    hide Shown;
    hide Pairs;
    var values, listed := PrintValues(k, Values(a, k));
    text, more := before + values, pairs + Pairs(k, listed);
    ShownStep(pairs, a, done, k, listed);
    PairLinesConcat(pairs, k, listed);
    UnlinesConcat(head + PairLines(pairs), ValueLines(k, listed));
    Regroup(head, PairLines(pairs), ValueLines(k, listed));
    ClassFirstStep(pairs, k, listed);
  }

  /** What there is of objectClass comes before everything else. */
  ghost predicate ClassFirst(pairs: seq<(string, string)>) {
    forall i, j :: 0 <= i < j < |pairs| && pairs[j].0 == OBJECT_CLASS ==> pairs[i].0 == OBJECT_CLASS
  }

  lemma ClassFirstStep(pairs: seq<(string, string)>, k: string, values: seq<string>)
    ensures ClassFirst(pairs) && (k == OBJECT_CLASS ==> pairs == []) ==> ClassFirst(pairs + Pairs(k, values))
  {
  }

  ghost predicate WireOf(text: string, dn: DN, a: Attrs, pairs: seq<(string, string)>) {
    && text == Unlines(["dn: " + Text(dn)] + PairLines(pairs) + [""])
    && Sets(Gathered(pairs)) == Held(a) && Printable(pairs) && ClassFirst(pairs)
  }

  lemma WireStarts(dn: DN, a: Attrs)
    ensures Shown([], a, {}) && ClassFirst([])
    ensures "dn: " + Text(dn) + "\n" == Unlines(["dn: " + Text(dn)] + PairLines([]))
  {
    UnlinesOne("dn: " + Text(dn));
    assert ["dn: " + Text(dn)] + PairLines([]) == ["dn: " + Text(dn)];
  }

  lemma WireEnds(text: string, dn: DN, a: Attrs, pairs: seq<(string, string)>, done: set<string>)
    requires text == Unlines(["dn: " + Text(dn)] + PairLines(pairs))
    requires Shown(pairs, a, done) && done >= a.Keys && ClassFirst(pairs)
    ensures WireOf(text + "\n", dn, a, pairs)
  {
    assert HeldIn(a, done) == Held(a);
    UnlinesSnoc(["dn: " + Text(dn)] + PairLines(pairs), "");
    NothingBefore("\n");
  }

  /** BaseLDAPEntry.toWire and asLDIF: objectClass first, then the others. */
  method ToWire(dn: DN, a: Attrs) returns (text: string, ghost pairs: seq<(string, string)>)
    requires GoodAttrs(a)
    ensures WireOf(text, dn, a, pairs)
  {
    hide *;
    ghost var head := ["dn: " + Text(dn)];
    WireStarts(dn, a);
    text := "dn: " + Text(dn) + "\n";
    text, pairs := PrintAttribute(OBJECT_CLASS, a, text, [], head, {});
    var left := a.Keys - {OBJECT_CLASS};
    ghost var done := {OBJECT_CLASS};
    assert {} + {OBJECT_CLASS} == {OBJECT_CLASS};
    while left != {}
      invariant done !! left && done + left >= a.Keys && OBJECT_CLASS in done
      invariant Shown(pairs, a, done) && ClassFirst(pairs)
      invariant text == Unlines(head + PairLines(pairs))
      decreases |left|
    {
      var k :| k in left;
      text, pairs := PrintAttribute(k, a, text, pairs, head, done);
      left, done := left - {k}, done + {k};
    }
    WireEnds(text, dn, a, pairs, done);
    text := text + "\n";
  }

  lemma PairLinesBreakless(pairs: seq<(string, string)>)
    requires Printable(pairs)
    ensures forall i :: 0 <= i < |PairLines(pairs)| ==> NoBreak(PairLines(pairs)[i])
  {
    hide NoBreak;
    hide Line;
    hide Standing;
    forall i | 0 <= i < |pairs| ensures NoBreak(Line(pairs[i].0, pairs[i].1)) {
      assert GoodKey(pairs[i].0);
      LineStands(pairs[i].0, pairs[i].1);
      StandingNoBreak(Line(pairs[i].0, pairs[i].1));
    }
  }

  lemma FirstLineBreakless(dn: DN)
    ensures NoBreak("dn: " + Text(dn)) && NoBreak("")
  {
    TextPrinted(dn);
    hide Text;
  }

  lemma WireLines(text: string, dn: DN, a: Attrs, pairs: seq<(string, string)>)
    requires WireOf(text, dn, a, pairs)
    ensures SplitLines(text) == ["dn: " + Text(dn)] + PairLines(pairs) + [""]
  {
    PairLinesBreakless(pairs);
    FirstLineBreakless(dn);
    assert Printable(pairs) && text == Unlines(["dn: " + Text(dn)] + PairLines(pairs) + [""]);
    hide *;
    SplitLinesUnlines(["dn: " + Text(dn)] + PairLines(pairs) + [""]);
  }

  lemma StandingNoBreak(l: string)
    requires Standing(l)
    ensures NoBreak(l)
  {
  }

  lemma AddLines(dn: DN, pairs: seq<(string, string)>)
    ensures var l := ["dn: " + Text(dn)] + PairLines(pairs) + [""];
            [l[0]] + [Line("changetype", "add")] + l[1..] == OpLines(AddListing(dn, pairs)) + [""]
  {
    hide Line;
    hide Text;
  }

  /** AddOp.asLDIF: the changetype goes between the first line and the rest. */
  method PrintAdd(op: Operation) returns (text: string, ghost listing: Listing)
    requires op.AddOp? && GoodOp(op)
    ensures Prints(text, op, listing)
  {
    hide Line;
    hide Text;
    hide Unlines;
    hide OpLines;
    hide GoodAttrs;
    hide Held;
    hide PairLines;
    hide SplitLines;
    var wire, pairs := ToWire(op.dn, op.attrs);
    WireLines(wire, op.dn, op.attrs, pairs);
    var l := SplitLines(wire);
    AddLines(op.dn, pairs);
    l := [l[0]] + [Line("changetype", "add")] + l[1..];
    text := JoinLines(l);
    listing := AddListing(op.dn, pairs);
  }

  method JoinLines(l: seq<string>) returns (text: string)
    ensures text == Unlines(l)
  {
    text := "";
    hide Unlines;
    EmptyUnlines();
    for i := 0 to |l|
      invariant text == Unlines(l[..i])
    {
      UnlinesSnoc(l[..i], l[i]);
      assert l[..i] + [l[i]] == l[..i + 1];
      text := text + (l[i] + "\n");
    }
    assert l[..|l|] == l;
  }

  /** Operation.asLDIF. */
  method PrintOp(op: Operation) returns (text: string, ghost listing: Listing)
    requires GoodOp(op)
    ensures Prints(text, op, listing)
  {
    match op
    case ModifyOp(_, _) => text, listing := PrintModify(op);
    case AddOp(_, _) => text, listing := PrintAdd(op);
    case DeleteOp(_) => text, listing := PrintDelete(op);
  }

  // ---------------------------------------------------------- the whole file

  function Wires(ops: seq<Operation>): seq<Operation> {
    seq(|ops|, i requires 0 <= i < |ops| => Wire(ops[i]))
  }

  ghost predicate AllGoodOps(ops: seq<Operation>) {
    forall i :: 0 <= i < |ops| ==> GoodOp(ops[i])
  }

  /** An entry to be added that holds no value. */
  predicate Empty(op: Operation) {
    op.AddOp? && Held(op.attrs) == map[]
  }

  predicate AnyEmpty(ops: seq<Operation>) {
    exists i :: 0 <= i < |ops| && Empty(ops[i])
  }

  ghost predicate PrintsAll(text: string, ops: seq<Operation>, ls: seq<Listing>) {
    && text == HEADER_TEXT + Records(ls)
    && Meanings(ls) == Wires(ops)
    && AllGood(ls)
    && (AnyValueless(ls) <==> AnyEmpty(ops))
  }

  lemma NoneStart(ls: seq<Listing>, ops: seq<Operation>)
    requires ls == [] && ops == []
    ensures PrintsAll(HEADER_TEXT, ops, ls)
  {
    assert HEADER_TEXT + [] == HEADER_TEXT;
    assert Wires(ops) == [] && Meanings(ls) == [];
  }

  lemma HeldEmpty(op: Operation, l: Listing)
    requires Meaning(l) == Wire(op)
    ensures Valueless(l) <==> Empty(op)
  {
    if l.AddListing? {
      GatheredEmpty(l.pairs);
      assert Sets(Gathered(l.pairs)) == map[] <==> Gathered(l.pairs) == map[] by {
        assert Sets(Gathered(l.pairs)).Keys == Gathered(l.pairs).Keys;
        assert Gathered(l.pairs) == map[] <==> Gathered(l.pairs).Keys == {};
      }
    }
  }

  lemma AnyValuelessSnoc(ls: seq<Listing>, l: Listing)
    ensures AnyValueless(ls + [l]) <==> AnyValueless(ls) || Valueless(l)
  {
    hide Valueless;
    var all := ls + [l];
    if AnyValueless(ls) {
      var i :| 0 <= i < |ls| && Valueless(ls[i]);
      assert all[i] == ls[i];
    }
    assert all[|ls|] == l;
  }

  lemma AnyEmptySnoc(ops: seq<Operation>, op: Operation)
    ensures AnyEmpty(ops + [op]) <==> AnyEmpty(ops) || Empty(op)
  {
    hide Empty;
    var all := ops + [op];
    if AnyEmpty(ops) {
      var i :| 0 <= i < |ops| && Empty(ops[i]);
      assert all[i] == ops[i];
    }
    assert all[|ops|] == op;
  }

  lemma {:induction false} RecordsSnoc(ls: seq<Listing>, l: Listing)
    ensures Records(ls + [l]) == Records(ls) + Record(l)
    ensures Meanings(ls + [l]) == Meanings(ls) + [Meaning(l)]
    decreases |ls|
  {
    hide Record;
    hide Meaning;
    if ls == [] {
      assert ls + [l] == [l] && [l][1..] == [];
      assert [] + Record(l) == Record(l);
    } else {
      assert (ls + [l])[1..] == ls[1..] + [l];
      RecordsSnoc(ls[1..], l);
      Regroup(Record(ls[0]), Records(ls[1..]), Record(l));
      Regroup([Meaning(ls[0])], Meanings(ls[1..]), [Meaning(l)]);
    }
  }

  lemma PrintsNext(text: string, ops: seq<Operation>, ls: seq<Listing>, more: string, op: Operation, l: Listing)
    requires PrintsAll(text, ops, ls) && Prints(more, op, l) && GoodOp(op)
    ensures PrintsAll(text + more, ops + [op], ls + [l])
  {
    HeldEmpty(op, l);
    hide Valueless;
    hide Empty;
    hide Record;
    hide Records;
    hide Meaning;
    hide Meanings;
    hide Wire;
    hide GoodOp;
    hide GoodListing;
    AnyValuelessSnoc(ls, l);
    AnyEmptySnoc(ops, op);
    RecordsSnoc(ls, l);
    Regroup(HEADER_TEXT, Records(ls), Record(l));
    assert Wires(ops + [op]) == Wires(ops) + [Wire(op)];
    hide AnyValueless;
    hide AnyEmpty;
  }

  lemma Prefixes<T>(s: seq<T>, i: nat)
    requires i <= |s|
    ensures s[..0] == [] && s[..|s|] == s
    ensures i < |s| ==> s[..i] + [s[i]] == s[..i + 1]
  {
  }

  lemma GoodAt(ops: seq<Operation>, i: nat)
    requires AllGoodOps(ops) && i < |ops|
    ensures GoodOp(ops[i])
  {
  }

  /** The header and every operation's LDIF, as ldifdiff writes them. */
  method PrintAll(ops: seq<Operation>) returns (text: string, ghost ls: seq<Listing>)
    requires AllGoodOps(ops)
    ensures PrintsAll(text, ops, ls)
  {
    text, ls := HEADER_TEXT, [];
    NoneStart([], []);
    Prefixes(ops, 0);
    hide *;
    for i := 0 to |ops|
      invariant PrintsAll(text, ops[..i], ls)
    {
      GoodAt(ops, i);
      var one, listing := PrintOp(ops[i]);
      PrintsNext(text, ops[..i], ls, one, ops[i], listing);
      Prefixes(ops, i);
      text, ls := text + one, ls + [listing];
    }
  }

  /** What was printed, in chunks of any size, is parsed back to the operations
      that were printed, short of the attributes without values; or it is
      refused, exactly when some entry to be added holds no value at all. */
  lemma PrintedParses(text: string, ops: seq<Operation>, ls: seq<Listing>, chunks: seq<string>)
    requires PrintsAll(text, ops, ls) && Flatten(chunks) == text
    ensures FeedAll(INITIAL, "", chunks) ==
            if AnyEmpty(ops) then Raise(AddMissingAttributes) else Next((STARTED.(collected := Wires(ops)), ""))
  {
    assert AllGood(ls) && text == HEADER_TEXT + Records(ls);
    RoundTrip(ls, chunks);
  }
}
