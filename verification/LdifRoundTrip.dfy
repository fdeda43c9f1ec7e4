/** delta.py's asLDIF, and the proof that the LDIF change parser undoes it. */
module LdifRoundTrip {
  import opened Options
  import opened Sequences
  import opened DistinguishedName
  import opened NameText
  import opened Base64
  import opened Ldif
  import opened Attributes
  import opened Operations
  import opened LdifDelta

  // ------------------------------------------------- chunks, lines and records

  /** dataReceived called on one chunk after another. */
  function FeedAll(st: State, buffer: string, chunks: seq<string>): Progress<(State, string)>
    decreases |chunks|
  {
    if chunks == [] then Next((st, buffer))
    else
      var after := Feed(st, buffer + chunks[0]);
      if after.Raise? then after else FeedAll(after.value.0, after.value.1, chunks[1..])
  }

  lemma {:induction false} FeedLeaves(st: State, buffer: string)
    ensures Feed(st, buffer).Next? ==> '\n' !in Feed(st, buffer).value.1
    decreases |buffer|
  {
    if '\n' in buffer {
      var i := IndexOf(buffer, '\n');
      if Received(st, buffer[..i]).Next? {
        FeedLeaves(Received(st, buffer[..i]).value, buffer[i + 1..]);
      }
    }
  }

  lemma IndexOfMore(a: string, b: string, c: char)
    requires c in a
    ensures c in a + b && IndexOf(a + b, c) == IndexOf(a, c)
  {
    var i := IndexOf(a, c);
    assert a == a[..i] + [c] + a[i + 1..];
    assert a + b == a[..i] + [c] + (a[i + 1..] + b);
    IndexOfConcat(a[..i], a[i + 1..] + b, c);
  }

  lemma FeedStep(st: State, buffer: string)
    requires '\n' in buffer
    ensures var i := IndexOf(buffer, '\n');
            Feed(st, buffer) == var after := Received(st, buffer[..i]);
                                if after.Raise? then Raise(after.error) else Feed(after.value, buffer[i + 1..])
  {
  }

  lemma FeedRest(st: State, buffer: string)
    requires '\n' !in buffer
    ensures Feed(st, buffer) == Next((st, buffer))
  {
  }

  /** Data that comes later makes no difference to the lines before it. */
  lemma {:induction false} FeedConcat(st: State, a: string, b: string)
    ensures Feed(st, a + b) == if Feed(st, a).Raise? then Feed(st, a)
                               else Feed(Feed(st, a).value.0, Feed(st, a).value.1 + b)
    decreases |a|
  {
    hide Received;
    if '\n' in a {
      IndexOfMore(a, b, '\n');
      FeedStep(st, a);
      FeedStep(st, a + b);
      hide Feed;
      hide IndexOf;
      var i := IndexOf(a, '\n');
      assert (a + b)[..i] == a[..i] && (a + b)[i + 1..] == a[i + 1..] + b;
      var after := Received(st, a[..i]);
      if after.Next? {
        FeedConcat(after.value, a[i + 1..], b);
      }
    } else {
      FeedRest(st, a);
      hide Feed;
    }
  }

  /** The parser does not see how its input is cut up. */
  lemma {:induction false} ChunksDoNotMatter(st: State, buffer: string, chunks: seq<string>)
    requires '\n' !in buffer
    ensures FeedAll(st, buffer, chunks) == Feed(st, buffer + Flatten(chunks))
    decreases |chunks|
  {
    if chunks == [] {
      assert buffer + [] == buffer;
    } else {
      assert buffer + Flatten(chunks) == buffer + chunks[0] + Flatten(chunks[1..]);
      FeedConcat(st, buffer + chunks[0], Flatten(chunks[1..]));
      FeedLeaves(st, buffer + chunks[0]);
      var after := Feed(st, buffer + chunks[0]);
      if after.Next? {
        ChunksDoNotMatter(after.value.0, after.value.1, chunks[1..]);
      }
    }
  }

  function Unlines(lines: seq<string>): string {
    if lines == [] then [] else lines[0] + "\n" + Unlines(lines[1..])
  }

  /** lineReceived on one line after another. */
  function ReceiveAll(st: State, lines: seq<string>): Progress<State>
    decreases |lines|
  {
    if lines == [] then Next(st)
    else
      var after := Received(st, lines[0]);
      if after.Raise? then after else ReceiveAll(after.value, lines[1..])
  }

  /** logicalLineReceived on one line after another. */
  function LogicalAll(st: State, lines: seq<string>): Progress<State>
    decreases |lines|
  {
    if lines == [] then Next(st)
    else
      var after := Logical(st, lines[0]);
      if after.Raise? then after else LogicalAll(after.value, lines[1..])
  }

  lemma {:induction false} FeedUnlines(st: State, lines: seq<string>)
    requires forall i :: 0 <= i < |lines| ==> NoBreak(lines[i])
    ensures Feed(st, Unlines(lines)) ==
            match ReceiveAll(st, lines) case Next(after) => Next((after, "")) case Raise(e) => Raise(e)
    decreases |lines|
  {
    hide Received;
    if lines != [] {
      var l, rest := lines[0], Unlines(lines[1..]);
      assert NoBreak(l);
      IndexOfConcat(l, rest, '\n');
      var text := l + "\n" + rest;
      assert text == l + ['\n'] + rest;
      assert text[..|l|] == l && text[|l| + 1..] == rest;
      FeedStep(st, text);
      hide Feed;
      if Received(st, l).Next? {
        FeedUnlines(Received(st, l).value, lines[1..]);
      }
    }
  }

  lemma {:induction false} LogicalAllConcat(st: State, a: seq<string>, b: seq<string>)
    ensures LogicalAll(st, a + b) == if LogicalAll(st, a).Raise? then LogicalAll(st, a)
                                     else LogicalAll(LogicalAll(st, a).value, b)
    decreases |a|
  {
    hide Logical;
    if a == [] {
      assert a + b == b;
    } else {
      assert (a + b)[1..] == a[1..] + b;
      if Logical(st, a[0]).Next? {
        LogicalAllConcat(Logical(st, a[0]).value, a[1..], b);
      }
    }
  }

  lemma {:induction false} ReceiveAllConcat(st: State, a: seq<string>, b: seq<string>)
    ensures ReceiveAll(st, a + b) == if ReceiveAll(st, a).Raise? then ReceiveAll(st, a)
                                     else ReceiveAll(ReceiveAll(st, a).value, b)
    decreases |a|
  {
    hide Received;
    if a == [] {
      assert a + b == b;
    } else {
      assert (a + b)[1..] == a[1..] + b;
      if Received(st, a[0]).Next? {
        ReceiveAllConcat(Received(st, a[0]).value, a[1..], b);
      }
    }
  }

  /** The pending line is no concern of the states. */
  lemma LogicalIgnoresLast(st: State, last: Option<string>, line: string)
    ensures Logical(st.(lastLine := last), line) ==
            match Logical(st, line) case Next(n) => Next(n.(lastLine := last)) case Raise(e) => Raise(e)
  {
    hide Parse;
    hide ParseLine;
    hide Number;
    hide Sets;
    hide Append;
  }

  // ------------------------------------------------------ unfolding a record

  function Pending(last: Option<string>): seq<string> {
    if last.Some? then [last.value] else []
  }

  function Cleared(r: Progress<State>): Progress<State> {
    if r.Next? then Next(r.value.(lastLine := None)) else r
  }

  lemma {:induction false} LogicalAllIgnoresLast(st: State, last: Option<string>, lines: seq<string>)
    ensures Cleared(LogicalAll(st.(lastLine := last), lines)) == Cleared(LogicalAll(st, lines))
    decreases |lines|
  {
    if lines != [] {
      LogicalIgnoresLast(st, last, lines[0]);
      hide Logical;
      if Logical(st, lines[0]).Next? {
        LogicalAllIgnoresLast(Logical(st, lines[0]).value, last, lines[1..]);
      }
    }
  }

  /** A record's lines, of which none is folded, reach the states in order, and
      the blank line at its end leaves nothing pending. */
  lemma {:induction false} Unfolding(st: State, lines: seq<string>)
    requires forall i :: 0 <= i < |lines| ==> Standing(lines[i])
    ensures ReceiveAll(st, lines + [""]) == Cleared(LogicalAll(st, Pending(st.lastLine) + lines + [""]))
    decreases |lines|
  {
    if lines == [] {
      assert lines + [""] == [""];
      assert Pending(st.lastLine) + lines + [""] == Pending(st.lastLine) + [""];
      BlankLine(st);
    } else {
      var l, rest := lines[0], lines[1..];
      assert Standing(l);
      assert (lines + [""])[1..] == rest + [""];
      OneLine(st, l);
      hide Logical;
      hide Received;
      var before := if st.lastLine.Some? then Logical(st, st.lastLine.value) else Next(st);
      LogicalAllConcat(st, Pending(st.lastLine), lines + [""]);
      assert Pending(st.lastLine) + lines + [""] == Pending(st.lastLine) + (lines + [""]);
      PendingRun(st);
      if before.Next? {
        var n := before.value.(lastLine := Some(l));
        Unfolding(n, rest);
        assert [l] + rest + [""] == lines + [""];
        LogicalAllIgnoresLast(before.value, Some(l), lines + [""]);
      }
    }
  }

  lemma PendingRun(st: State)
    ensures LogicalAll(st, Pending(st.lastLine)) ==
            if st.lastLine.Some? then Logical(st, st.lastLine.value) else Next(st)
  {
    hide Logical;
    if st.lastLine.Some? {
      var l := st.lastLine.value;
      assert [l][1..] == [];
    }
  }

  lemma OneLine(st: State, l: string)
    requires Standing(l)
    ensures Received(st, l) ==
            var before := if st.lastLine.Some? then Logical(st, st.lastLine.value) else Next(st);
            if before.Raise? then before else Next(before.value.(lastLine := Some(l)))
  {
    hide Logical;
  }

  lemma BlankLine(st: State)
    ensures ReceiveAll(st, [""]) == Cleared(LogicalAll(st, Pending(st.lastLine) + [""]))
  {
    PendingRun(st);
    LogicalAllConcat(st, Pending(st.lastLine), [""]);
    var before := if st.lastLine.Some? then Logical(st, st.lastLine.value) else Next(st);
    if before.Next? {
      LogicalIgnoresLast(before.value, Some(""), "");
    }
    hide Logical;
    assert [""][1..] == [];
  }

  // ---------------------------------------------------------- what is printed

  /** A modification, its values in the order they are printed. */
  datatype ModListing = ModListing(kind: Kind, key: string, values: seq<string>)

  /** An operation, its parts in the order they are printed. */
  datatype Listing =
    | ModifyListing(dn: DN, mods: seq<ModListing>)
    | AddListing(dn: DN, pairs: seq<(string, string)>)
    | DeleteListing(dn: DN)

  function KindName(kind: Kind): string {
    match kind
    case Add => "add"
    case Delete => "delete"
    case Replace => "replace"
  }

  function ValueLines(key: string, values: seq<string>): seq<string> {
    seq(|values|, i requires 0 <= i < |values| => Line(key, values[i]))
  }

  function ModLines(m: ModListing): seq<string> {
    [Line(KindName(m.kind), m.key)] + ValueLines(m.key, m.values) + ["-"]
  }

  function AllModLines(ms: seq<ModListing>): seq<string> {
    if ms == [] then [] else ModLines(ms[0]) + AllModLines(ms[1..])
  }

  function PairLines(pairs: seq<(string, string)>): seq<string> {
    seq(|pairs|, i requires 0 <= i < |pairs| => Line(pairs[i].0, pairs[i].1))
  }

  /** The lines of an operation, without the blank line after them. */
  function OpLines(l: Listing): seq<string> {
    match l
    case ModifyListing(dn, mods) =>
      [Line("dn", Text(dn)), Line("changetype", "modify")] + AllModLines(mods)
    case AddListing(dn, pairs) =>
      ["dn: " + Text(dn), Line("changetype", "add")] + PairLines(pairs)
    case DeleteListing(dn) =>
      [Line("dn", Text(dn)), Line("changetype", "delete")]
  }

  function ModMeaning(m: ModListing): Modification {
    Modification(m.kind, m.key, SetOf(m.values))
  }

  function ModMeanings(ms: seq<ModListing>): seq<Modification> {
    seq(|ms|, i requires 0 <= i < |ms| => ModMeaning(ms[i]))
  }

  function Meaning(l: Listing): Operation {
    match l
    case ModifyListing(dn, mods) => ModifyOp(dn, ModMeanings(mods))
    case AddListing(dn, pairs) => AddOp(dn, Sets(Gathered(pairs)))
    case DeleteListing(dn) => DeleteOp(dn)
  }

  // ----------------------------------------------------- what can be printed

  predicate GoodKey(k: string) {
    PlainName(k) && forall i :: 0 <= i < |k| ==> k[i] as int < 256
  }

  /** A name of octets that reads back, as NameText.ParseText has it. */
  ghost predicate GoodName(dn: DN) {
    dn != [[]] && forall r :: r in dn ==> PlainTypes(r) && OctetRdn(r)
  }

  ghost predicate OctetRdn(r: Rdn) {
    forall x :: x in r ==> Octets(x.attributeType) && Octets(x.value)
  }

  lemma OctetsConcat(s: string, t: string)
    requires Octets(s) && Octets(t)
    ensures Octets(s + t)
  {
  }

  lemma {:induction false} EscapeMiddleOctets(s: string)
    requires Octets(s)
    ensures Octets(EscapeMiddle(s))
  {
    if s != [] {
      EscapeMiddleOctets(s[1..]);
      OctetsConcat(EscapeChar(s[0]), EscapeMiddle(s[1..]));
    }
  }

  lemma EscapeOctets(s: string)
    requires Octets(s)
    ensures Octets(Escape(s))
  {
    EscapeMiddleOctets(Middle(s));
    OctetsConcat(Quoted(Head(s)), EscapeMiddle(Middle(s)));
    OctetsConcat(Quoted(Head(s)) + EscapeMiddle(Middle(s)), Quoted(Tail(s)));
  }

  lemma {:induction false} JoinOctets(parts: seq<string>, separator: char)
    requires separator as int < 256
    requires forall i :: 0 <= i < |parts| ==> Octets(parts[i])
    ensures Octets(Join(parts, separator))
  {
    if |parts| > 1 {
      JoinOctets(parts[1..], separator);
      OctetsConcat(parts[0] + [separator], Join(parts[1..], separator));
    }
  }

  lemma RdnTextOctets(r: Rdn)
    requires OctetRdn(r)
    ensures Octets(RdnText(r))
  {
    forall j | 0 <= j < |r| ensures Octets(AvaText(r[j])) {
      assert r[j] in r;
      EscapeOctets(r[j].attributeType);
      EscapeOctets(r[j].value);
    }
    hide AvaText;
    hide Octets;
    JoinOctets(seq(|r|, i requires 0 <= i < |r| => AvaText(r[i])), '+');
  }

  lemma GoodNameReads(dn: DN)
    requires GoodName(dn)
    ensures Parse(Text(dn)) == Good(dn) && Octets(Text(dn))
  {
    ParseText(dn);
    forall j | 0 <= j < |dn| ensures Octets(RdnText(dn[j])) {
      assert dn[j] in dn;
      RdnTextOctets(dn[j]);
    }
    hide RdnText;
    hide Octets;
    JoinOctets(seq(|dn|, i requires 0 <= i < |dn| => RdnText(dn[i])), ',');
  }

  ghost predicate GoodMod(m: ModListing) {
    GoodKey(m.key) && forall i :: 0 <= i < |m.values| ==> Octets(m.values[i])
  }

  ghost predicate GoodListing(l: Listing) {
    && GoodName(l.dn)
    && (l.ModifyListing? ==> forall i :: 0 <= i < |l.mods| ==> GoodMod(l.mods[i]))
    && (l.AddListing? ==> forall i :: 0 <= i < |l.pairs| ==> GoodKey(l.pairs[i].0) && Octets(l.pairs[i].1))
  }

  // --------------------------------------------------------- one record read

  /** Between two records. */
  predicate Ready(st: State) {
    && st.mode == WAIT_FOR_DN && st.dn == "" && st.data == map[] && st.modifications == []
    && st.spec == NO_SPEC && st.lastLine == None
  }

  lemma AttributeLine(st: State, key: string, v: string)
    requires GoodKey(key) && Octets(v)
    ensures var l := Line(key, v);
            l != "" && l != "-" && l[0] != '#' && l[0] != ' ' && NoBreak(l) && ParseLine(l) == Pair(key, v)
  {
    ParseLineBack(key, v);
    LineStands(key, v);
    assert ParseLine("-") == WithoutColon;
  }

  lemma DnLine(st: State, dn: string)
    requires st.mode == WAIT_FOR_DN && Octets(dn)
    ensures Logical(st, Line("dn", dn)) == Next(st.(dn := dn, data := map[], mode := WAIT_FOR_CHANGETYPE))
  {
    AttributeLine(st, "dn", dn);
    hide Line;
    hide ParseLine;
  }

  /** AddOp's first line is not encoded, and reads back all the same. */
  lemma RawDnLine(st: State, dn: string)
    requires st.mode == WAIT_FOR_DN && Printed(dn)
    ensures Logical(st, "dn: " + dn) == Next(st.(dn := dn, data := map[], mode := WAIT_FOR_CHANGETYPE))
    ensures Standing("dn: " + dn)
  {
    RawDnParses(dn);
    hide ParseLine;
  }

  lemma RawDnParses(dn: string)
    requires Printed(dn)
    ensures ParseLine("dn: " + dn) == Pair("dn", dn)
  {
    assert "dn: " + dn == "dn" + [':'] + (" " + dn);
    ColonFirst("dn", " " + dn);
    SkipOne(dn);
    assert " " + dn == [' '] + dn;
    hide IndexOf;
    hide SkipSpaces;
  }

  lemma ChangeTypeLine(st: State, what: string)
    requires st.mode == WAIT_FOR_CHANGETYPE && (what == "modify" || what == "add" || what == "delete")
    ensures Logical(st, Line("changetype", what)) ==
            Next(if what == "modify" then st.(modifications := [], mode := WAIT_FOR_MOD_SPEC)
                 else if what == "add" then st.(mode := IN_ADD_ENTRY) else st.(mode := IN_DELETE))
  {
    AttributeLine(st, "changetype", what);
    hide Line;
    hide ParseLine;
  }

  lemma OneMore(st: State, line: string)
    ensures LogicalAll(st, [line]) == Logical(st, line)
  {
    hide Logical;
    assert [line][1..] == [];
  }

  lemma LogicalAllSnoc(st: State, lines: seq<string>, line: string)
    requires LogicalAll(st, lines).Next?
    ensures LogicalAll(st, lines + [line]) == Logical(LogicalAll(st, lines).value, line)
  {
    hide Logical;
    LogicalAllConcat(st, lines, [line]);
    OneMore(LogicalAll(st, lines).value, line);
  }

  lemma ValueLine(st: State, v: string)
    requires st.mode == IN_MOD_SPEC && GoodKey(st.spec.attribute) && Octets(v)
    ensures Logical(st, Line(st.spec.attribute, v)) ==
            Next(st.(spec := st.spec.(values := st.spec.values + [v])))
  {
    AttributeLine(st, st.spec.attribute, v);
    hide Line;
    hide ParseLine;
  }

  lemma {:induction false} ValuesRead(st: State, values: seq<string>, n: nat)
    requires st.mode == IN_MOD_SPEC && st.spec.values == [] && n <= |values| && GoodKey(st.spec.attribute)
    requires forall i :: 0 <= i < |values| ==> Octets(values[i])
    ensures LogicalAll(st, ValueLines(st.spec.attribute, values)[..n]) ==
            Next(st.(spec := st.spec.(values := values[..n])))
  {
    hide Logical;
    hide Line;
    if n > 0 {
      var key := st.spec.attribute;
      var lines := ValueLines(key, values);
      ValuesRead(st, values, n - 1);
      LogicalAllSnoc(st, lines[..n - 1], lines[n - 1]);
      assert lines[..n] == lines[..n - 1] + [lines[n - 1]];
      ValueLine(st.(spec := st.spec.(values := values[..n - 1])), values[n - 1]);
      assert values[..n] == values[..n - 1] + [values[n - 1]];
    }
  }

  lemma ModStart(st: State, kind: Kind, key: string)
    requires st.mode == WAIT_FOR_MOD_SPEC && GoodKey(key)
    ensures Logical(st, Line(KindName(kind), key)) == Next(st.(spec := ModSpec(kind, key, []), mode := IN_MOD_SPEC))
  {
    AttributeLine(st, KindName(kind), key);
    hide Line;
    hide ParseLine;
  }

  lemma ModEnd(st: State)
    requires st.mode == IN_MOD_SPEC
    ensures Logical(st, "-") ==
            Next(st.(modifications := st.modifications +
                       [Modification(st.spec.kind, st.spec.attribute, SetOf(st.spec.values))],
                     spec := NO_SPEC, mode := WAIT_FOR_MOD_SPEC))
  {
  }

  lemma ModRead(st: State, m: ModListing)
    requires st.mode == WAIT_FOR_MOD_SPEC && st.spec == NO_SPEC && GoodMod(m)
    ensures LogicalAll(st, ModLines(m)) == Next(st.(modifications := st.modifications + [ModMeaning(m)]))
  {
    hide Logical;
    hide Line;
    hide ValueLines;
    var first, values := Line(KindName(m.kind), m.key), ValueLines(m.key, m.values);
    var inside := st.(spec := ModSpec(m.kind, m.key, []), mode := IN_MOD_SPEC);
    ModStart(st, m.kind, m.key);
    OneMore(st, first);
    ValuesRead(inside, m.values, |m.values|);
    assert m.values[..|m.values|] == m.values;
    assert values[..|m.values|] == values by { ValueLinesLength(m.key, m.values); }
    LogicalAllConcat(st, [first], values);
    LogicalAllSnoc(st, [first] + values, "-");
    ModEnd(inside.(spec := ModSpec(m.kind, m.key, m.values)));
  }

  lemma ValueLinesLength(key: string, values: seq<string>)
    ensures |ValueLines(key, values)| == |values|
  {
  }

  lemma {:induction false} ModsRead(st: State, ms: seq<ModListing>)
    requires st.mode == WAIT_FOR_MOD_SPEC && st.spec == NO_SPEC
    requires forall i :: 0 <= i < |ms| ==> GoodMod(ms[i])
    ensures LogicalAll(st, AllModLines(ms)) == Next(st.(modifications := st.modifications + ModMeanings(ms)))
    decreases |ms|
  {
    hide Logical;
    hide ModLines;
    if ms == [] {
      assert st.modifications + ModMeanings(ms) == st.modifications;
    } else {
      assert GoodMod(ms[0]);
      ModRead(st, ms[0]);
      var next := st.(modifications := st.modifications + [ModMeaning(ms[0])]);
      ModsRead(next, ms[1..]);
      LogicalAllConcat(st, ModLines(ms[0]), AllModLines(ms[1..]));
      assert [ModMeaning(ms[0])] + ModMeanings(ms[1..]) == ModMeanings(ms);
      assert st.modifications + [ModMeaning(ms[0])] + ModMeanings(ms[1..]) == st.modifications + ModMeanings(ms);
    }
  }

  lemma PairLine(st: State, key: string, v: string)
    requires st.mode == IN_ADD_ENTRY && GoodKey(key) && Octets(v)
    ensures Logical(st, Line(key, v)) == Next(st.(data := Append(st.data, key, v)))
  {
    AttributeLine(st, key, v);
    hide Line;
    hide ParseLine;
  }

  lemma {:induction false} PairsRead(st: State, pairs: seq<(string, string)>, n: nat)
    requires st.mode == IN_ADD_ENTRY && st.data == map[] && n <= |pairs|
    requires forall i :: 0 <= i < |pairs| ==> GoodKey(pairs[i].0) && Octets(pairs[i].1)
    ensures LogicalAll(st, PairLines(pairs)[..n]) == Next(st.(data := Gathered(pairs[..n])))
  {
    hide Logical;
    hide Line;
    if n > 0 {
      var p, lines := pairs[n - 1], PairLines(pairs);
      PairsRead(st, pairs, n - 1);
      LogicalAllSnoc(st, lines[..n - 1], lines[n - 1]);
      assert lines[..n] == lines[..n - 1] + [lines[n - 1]];
      PairLine(st.(data := Gathered(pairs[..n - 1])), p.0, p.1);
      assert pairs[..n][..n - 1] == pairs[..n - 1];
    }
  }

  // ------------------------------------------------------------- the theorem

  /** What an operation comes back as, or that it does not: an added entry that
      has no value at all is taken for a mistake. */
  function Expected(st: State, l: Listing): Progress<State> {
    if l.AddListing? && l.pairs == [] then Raise(AddMissingAttributes)
    else Next(st.(collected := st.collected + [Meaning(l)]))
  }

  lemma {:induction false} GatheredEmpty(pairs: seq<(string, string)>)
    ensures Gathered(pairs) == map[] <==> pairs == []
  {
    if pairs != [] {
      var last := pairs[|pairs| - 1];
      assert last.0 in Gathered(pairs);
    }
  }

  lemma EndOfRecord(st: State, name: DN)
    requires Parse(st.dn) == Good(name)
    ensures st.mode == WAIT_FOR_MOD_SPEC ==> Logical(st, "") == Next(Collect(st, ModifyOp(name, st.modifications)))
    ensures st.mode == IN_DELETE ==> Logical(st, "") == Next(Collect(st, DeleteOp(name)))
    ensures st.mode == IN_ADD_ENTRY ==>
              Logical(st, "") == if st.data == map[] then Raise(AddMissingAttributes)
                                 else Next(Collect(st, AddOp(name, Sets(st.data))))
  {
    hide Parse;
    hide ParseLine;
    hide Sets;
  }

  lemma ModifyRead(st: State, l: Listing)
    requires Ready(st) && GoodListing(l) && l.ModifyListing?
    ensures LogicalAll(st, OpLines(l) + [""]) == Expected(st, l)
  {
    GoodNameReads(l.dn);
    hide GoodName;
    hide Line;
    hide Logical;
    hide Text;
    hide Parse;
    var dn := Text(l.dn);
    var first, second := Line("dn", dn), Line("changetype", "modify");
    var inside := st.(dn := dn, mode := WAIT_FOR_MOD_SPEC);
    DnLine(st, dn);
    ChangeTypeLine(st.(dn := dn, mode := WAIT_FOR_CHANGETYPE), "modify");
    TwoLines(st, first, second);
    ModsRead(inside, l.mods);
    LogicalAllConcat(st, [first, second], AllModLines(l.mods));
    LogicalAllSnoc(st, OpLines(l), "");
    EndOfRecord(inside.(modifications := ModMeanings(l.mods)), l.dn);
    assert [] + ModMeanings(l.mods) == ModMeanings(l.mods);
  }

  lemma AddRead(st: State, l: Listing)
    requires Ready(st) && GoodListing(l) && l.AddListing?
    ensures LogicalAll(st, OpLines(l) + [""]) == Expected(st, l)
  {
    TextPrinted(l.dn);
    GoodNameReads(l.dn);
    hide GoodName;
    hide Line;
    hide Logical;
    hide Text;
    hide Parse;
    var dn := Text(l.dn);
    var first, second := "dn: " + dn, Line("changetype", "add");
    var inside := st.(dn := dn, mode := IN_ADD_ENTRY);
    RawDnLine(st, dn);
    ChangeTypeLine(st.(dn := dn, mode := WAIT_FOR_CHANGETYPE), "add");
    TwoLines(st, first, second);
    PairsRead(inside, l.pairs, |l.pairs|);
    assert l.pairs[..|l.pairs|] == l.pairs && PairLines(l.pairs)[..|l.pairs|] == PairLines(l.pairs);
    LogicalAllConcat(st, [first, second], PairLines(l.pairs));
    LogicalAllSnoc(st, OpLines(l), "");
    EndOfRecord(inside.(data := Gathered(l.pairs)), l.dn);
    GatheredEmpty(l.pairs);
  }

  lemma DeleteRead(st: State, l: Listing)
    requires Ready(st) && GoodListing(l) && l.DeleteListing?
    ensures LogicalAll(st, OpLines(l) + [""]) == Expected(st, l)
  {
    GoodNameReads(l.dn);
    hide GoodName;
    hide Line;
    hide Logical;
    hide Text;
    hide Parse;
    var dn := Text(l.dn);
    DnLine(st, dn);
    ChangeTypeLine(st.(dn := dn, mode := WAIT_FOR_CHANGETYPE), "delete");
    TwoLines(st, Line("dn", dn), Line("changetype", "delete"));
    LogicalAllSnoc(st, OpLines(l), "");
    EndOfRecord(st.(dn := dn, mode := IN_DELETE), l.dn);
  }

  lemma RecordRead(st: State, l: Listing)
    requires Ready(st) && GoodListing(l)
    ensures LogicalAll(st, OpLines(l) + [""]) == Expected(st, l)
  {
    match l
    case ModifyListing(_, _) => ModifyRead(st, l);
    case AddListing(_, _) => AddRead(st, l);
    case DeleteListing(_) => DeleteRead(st, l);
  }

  lemma TwoLines(st: State, first: string, second: string)
    requires Logical(st, first).Next?
    ensures LogicalAll(st, [first, second]) == Logical(Logical(st, first).value, second)
  {
    hide Logical;
    OneMore(st, first);
    LogicalAllSnoc(st, [first], second);
    assert [first] + [second] == [first, second];
  }

  lemma {:induction false} ModLinesStand(ms: seq<ModListing>)
    requires forall i :: 0 <= i < |ms| ==> GoodMod(ms[i])
    ensures forall i :: 0 <= i < |AllModLines(ms)| ==> Standing(AllModLines(ms)[i])
    decreases |ms|
  {
    hide Line;
    hide Standing;
    if ms != [] {
      var m := ms[0];
      assert GoodMod(m);
      ModLinesStand(ms[1..]);
      LineStands(KindName(m.kind), m.key);
      assert Standing("-") by { DashStands(); }
      forall i | 0 <= i < |m.values| ensures Standing(Line(m.key, m.values[i])) {
        LineStands(m.key, m.values[i]);
      }
    }
  }

  lemma DashStands()
    ensures Standing("-")
  {
  }

  lemma HeadLinesStand(dn: DN)
    requires GoodName(dn)
    ensures Standing(Line("dn", Text(dn))) && Standing("dn: " + Text(dn))
  {
    TextPrinted(dn);
    RawDnLine(INITIAL.(mode := WAIT_FOR_DN), Text(dn));
    hide Line;
    hide Standing;
    hide Text;
    LineStands("dn", Text(dn));
  }

  lemma ChangeTypeStands(kind: string)
    requires kind == "modify" || kind == "add" || kind == "delete"
    ensures Standing(Line("changetype", kind))
  {
    hide Line;
    hide Standing;
    LineStands("changetype", kind);
  }

  lemma AfterHead(a: string, b: string, rest: seq<string>)
    requires Standing(a) && Standing(b) && forall i :: 0 <= i < |rest| ==> Standing(rest[i])
    ensures forall i :: 0 <= i < |[a, b] + rest| ==> Standing(([a, b] + rest)[i])
  {
    hide Standing;
  }

  lemma LinesStand(l: Listing)
    requires GoodListing(l)
    ensures forall i :: 0 <= i < |OpLines(l)| ==> Standing(OpLines(l)[i])
  {
    HeadLinesStand(l.dn);
    ChangeTypeStands("modify");
    ChangeTypeStands("add");
    ChangeTypeStands("delete");
    hide Line;
    hide Standing;
    hide Text;
    hide GoodName;
    match l
    case ModifyListing(dn, mods) =>
      ModLinesStand(mods);
      AfterHead(Line("dn", Text(dn)), Line("changetype", "modify"), AllModLines(mods));
    case AddListing(dn, pairs) =>
      forall i | 0 <= i < |PairLines(pairs)| ensures Standing(PairLines(pairs)[i]) {
        LineStands(pairs[i].0, pairs[i].1);
      }
      AfterHead("dn: " + Text(dn), Line("changetype", "add"), PairLines(pairs));
    case DeleteListing(_) =>
  }

  /** An operation as asLDIF writes it. */
  function Record(l: Listing): string {
    Unlines(OpLines(l) + [""])
  }

  function Records(ls: seq<Listing>): string {
    if ls == [] then [] else Record(ls[0]) + Records(ls[1..])
  }

  lemma RecordFed(st: State, l: Listing)
    requires Ready(st) && GoodListing(l)
    ensures Feed(st, Record(l)) ==
            match Expected(st, l) case Next(n) => Next((n, "")) case Raise(e) => Raise(e)
  {
    var lines := OpLines(l);
    LinesStand(l);
    assert NoBreak("");
    assert forall i :: 0 <= i < |lines| ==> Standing(lines[i]) && NoBreak(lines[i]);
    hide OpLines;
    hide Standing;
    hide NoBreak;
    hide Feed;
    hide ReceiveAll;
    hide LogicalAll;
    FeedUnlines(st, lines + [""]);
    Unfolding(st, lines);
    assert [] + lines == lines;
    RecordRead(st, l);
  }

  function Meanings(ls: seq<Listing>): seq<Operation> {
    if ls == [] then [] else [Meaning(ls[0])] + Meanings(ls[1..])
  }

  /** An added entry without a single value. */
  predicate Valueless(l: Listing) {
    l.AddListing? && l.pairs == []
  }

  predicate AnyValueless(ls: seq<Listing>) {
    exists i :: 0 <= i < |ls| && Valueless(ls[i])
  }

  lemma AnyValuelessStep(ls: seq<Listing>)
    requires ls != []
    ensures AnyValueless(ls) <==> Valueless(ls[0]) || AnyValueless(ls[1..])
  {
    hide Valueless;
    var rest := ls[1..];
    if AnyValueless(ls) && !Valueless(ls[0]) {
      var i :| 0 <= i < |ls| && Valueless(ls[i]);
      assert rest[i - 1] == ls[i];
    }
    if AnyValueless(rest) {
      var i :| 0 <= i < |rest| && Valueless(rest[i]);
      assert ls[i + 1] == rest[i];
    }
  }

  ghost predicate AllGood(ls: seq<Listing>) {
    forall i :: 0 <= i < |ls| ==> GoodListing(ls[i])
  }

  lemma AllGoodStep(ls: seq<Listing>)
    requires AllGood(ls) && ls != []
    ensures GoodListing(ls[0]) && AllGood(ls[1..])
  {
    hide GoodListing;
  }

  /** A record first, whatever data comes after it. */
  lemma FirstRecordFed(st: State, l: Listing, more: string)
    requires Ready(st) && GoodListing(l)
    ensures Feed(st, Record(l) + more) ==
            if Valueless(l) then Raise(AddMissingAttributes)
            else Feed(st.(collected := st.collected + [Meaning(l)]), more)
  {
    hide Feed;
    hide Meaning;
    hide Record;
    hide GoodListing;
    RecordFed(st, l);
    FeedConcat(st, Record(l), more);
    NothingBefore(more);
  }

  lemma {:induction false} RecordsFed(st: State, ls: seq<Listing>)
    requires Ready(st) && AllGood(ls)
    ensures Feed(st, Records(ls)) == if AnyValueless(ls) then Raise(AddMissingAttributes)
                                     else Next((st.(collected := st.collected + Meanings(ls)), ""))
    decreases |ls|
  {
    hide Meaning;
    hide Record;
    hide Valueless;
    hide GoodListing;
    if ls == [] {
      assert st.collected + [] == st.collected;
    } else {
      hide Feed;
      AllGoodStep(ls);
      AnyValuelessStep(ls);
      FirstRecordFed(st, ls[0], Records(ls[1..]));
      hide AnyValueless;
      hide AllGood;
      var n := st.(collected := st.collected + [Meaning(ls[0])]);
      RecordsFed(n, ls[1..]);
      Regroup(st.collected, [Meaning(ls[0])], Meanings(ls[1..]));
    }
  }

  const HEADER_TEXT := "version: 1\n\n"
  const STARTED := INITIAL.(mode := WAIT_FOR_DN, version := Some(1))

  const VERSION_LINE := "version: 1"

  lemma VersionParses()
    ensures ParseLine(VERSION_LINE) == Pair("version", "1")
    ensures Standing(VERSION_LINE)
  {
    hide ParseLine;
    hide Encode;
    assert !NeedsBase64("1");
    assert Line("version", "1") == VERSION_LINE;
    hide NeedsBase64;
    ParseLineBack("version", "1");
    LineStands("version", "1");
  }

  lemma One()
    ensures Number("1") == Some(1)
  {
    assert "1"[1..] == "";
    assert NumberFrom(1, "") == Some(1);
  }

  lemma VersionLine()
    ensures Logical(INITIAL, VERSION_LINE) == Next(STARTED)
    ensures Logical(STARTED, "") == Next(STARTED)
  {
    VersionParses();
    One();
    hide ParseLine;
    hide Number;
    hide Standing;
  }

  lemma LineAndBlank(l: string)
    ensures [l] + [""] == [l, ""]
  {
  }

  lemma OneStands(l: string)
    requires Standing(l)
    ensures forall i :: 0 <= i < |[l]| ==> Standing([l][i])
  {
    hide Standing;
  }

  lemma NoneIsPending(l: string)
    ensures Pending(INITIAL.lastLine) + [l] + [""] == [l, ""]
  {
  }

  lemma HeaderLines()
    ensures ReceiveAll(INITIAL, [VERSION_LINE] + [""]) == Next(STARTED)
    ensures NoBreak(VERSION_LINE)
  {
    var l := VERSION_LINE;
    VersionParses();
    VersionLine();
    assert NoBreak(l);
    hide NoBreak;
    hide ReceiveAll;
    TwoLines(INITIAL, l, "");
    hide *;
    LineAndBlank(l);
    OneStands(l);
    Unfolding(INITIAL, [l]);
    NoneIsPending(l);
  }

  lemma HeaderFed()
    ensures Feed(INITIAL, HEADER_TEXT) == Next((STARTED, ""))
  {
    hide Feed;
    hide ReceiveAll;
    var lines := [VERSION_LINE] + [""];
    HeaderLines();
    FeedUnlines(INITIAL, lines);
    assert lines[1..] == [""] && [""][1..] == [];
    assert Unlines(lines) == HEADER_TEXT;
  }

  /** What asLDIF writes for any operations, given to the parser in chunks of any
      size, comes back as those operations, and the parser is then between two
      records -- unless an entry to be added has no value, which is refused. */
  lemma RoundTrip(ls: seq<Listing>, chunks: seq<string>)
    requires AllGood(ls)
    requires Flatten(chunks) == HEADER_TEXT + Records(ls)
    ensures FeedAll(INITIAL, "", chunks) ==
            if AnyValueless(ls) then Raise(AddMissingAttributes)
            else Next((STARTED.(collected := Meanings(ls)), ""))
  {
    hide Feed;
    hide AnyValueless;
    hide AllGood;
    ChunksDoNotMatter(INITIAL, "", chunks);
    NothingBefore(Flatten(chunks));
    HeaderFed();
    FeedConcat(INITIAL, HEADER_TEXT, Records(ls));
    NothingBefore(Records(ls));
    RecordsFed(STARTED, ls);
    NothingBefore(Meanings(ls));
  }
}
