/** What python-ldap's writer writes, its parser reads back. */
module PyLdifRoundTrip {
  import opened Options
  import opened Sequences
  import opened Base64
  import opened PyLdif
  import NameText

  lemma Takes<T>(s: seq<T>, n: nat)
    requires n <= |s|
    ensures s[..0] == [] && s[..|s|] == s
    ensures n < |s| ==> s[..n + 1] == s[..n] + [s[n]]
  {
  }

  // ------------------------------------------------------------- physical lines

  predicate NoBreak(line: string) {
    '\n' !in line && '\r' !in line
  }

  predicate Unbroken(ls: seq<string>) {
    forall i :: 0 <= i < |ls| ==> NoBreak(ls[i])
  }

  lemma UnbrokenConcat(a: seq<string>, b: seq<string>)
    requires Unbroken(a) && Unbroken(b)
    ensures Unbroken(a + b)
  {
    hide NoBreak;
  }

  predicate LineEnd(sep: string) {
    sep == "\n" || sep == "\r\n"
  }

  /** The lines of a text are those it was made of. */
  lemma {:induction false} LinesText(ls: seq<string>, sep: string)
    requires LineEnd(sep) && Unbroken(ls)
    ensures Lines(Text(ls, sep)) == ls
    decreases |ls|
  {
    if ls != [] {
      LinesText(ls[1..], sep);
      assert NoBreak(ls[0]);
      assert Text(ls, sep) == ls[0] + sep + Text(ls[1..], sep);
      hide *;
      LineFirst(ls[0], sep, Text(ls[1..], sep));
      assert ls == [ls[0]] + ls[1..];
    }
  }

  lemma LineFirst(l: string, sep: string, rest: string)
    requires LineEnd(sep) && NoBreak(l)
    ensures Lines(l + sep + rest) == [l] + Lines(rest)
  {
    var front := if sep == "\n" then l else l + "\r";
    assert l + sep == front + ['\n'];
    assert '\n' !in front && Stripped(front) == l;
    hide *;
    FirstLine(front, rest);
  }

  lemma FirstLine(front: string, rest: string)
    requires '\n' !in front
    ensures Lines(front + ['\n'] + rest) == [Stripped(front)] + Lines(rest)
  {
    var s := front + ['\n'] + rest;
    NameText.IndexOfConcat(front, rest, '\n');
    assert s[..|front|] == front && s[|front| + 1..] == rest;
    hide Stripped;
  }

  lemma {:induction false} ContinuationsUnfold(cur: string, s: string, cols: nat, rest: seq<string>)
    requires cols >= 2 && !IsFolded(rest)
    ensures Unfold(cur, Continuations(s, cols) + rest) == (cur + s, rest)
    decreases |s|
  {
    if s == [] {
      assert Continuations(s, cols) + rest == rest;
      assert cur + s == cur;
    } else {
      var n := Min(|s|, cols - 1);
      assert n > 0;
      ContinuationStep(cur, s, cols, n, rest);
      hide *;
      ContinuationsUnfold(cur + s[..n], s[n..], cols, rest);
      Rejoin(cur, s, n);
    }
  }

  lemma Rejoin(cur: string, s: string, n: nat)
    requires n <= |s|
    ensures cur + s[..n] + s[n..] == cur + s
  {
  }

  lemma ContinuationStep(cur: string, s: string, cols: nat, n: nat, rest: seq<string>)
    requires cols >= 2 && s != [] && n == Min(|s|, cols - 1)
    ensures Unfold(cur, Continuations(s, cols) + rest) == Unfold(cur + s[..n], Continuations(s[n..], cols) + rest)
  {
    var ls := Continuations(s, cols) + rest;
    assert ls[0] == " " + s[..n] && ls[0][0] == ' ' && ls[0][1..] == s[..n];
    assert ls[1..] == Continuations(s[n..], cols) + rest;
  }

  /** Unfolding undoes folding, whatever the line and the width. */
  lemma FoldUnfold(line: string, cols: nat, rest: seq<string>)
    requires cols >= 2 && !IsFolded(rest)
    ensures var ls := Fold(line, cols) + rest; ls != [] && Unfold(ls[0], ls[1..]) == (line, rest)
  {
    var ls := Fold(line, cols) + rest;
    if |line| <= cols {
      assert ls[1..] == rest;
    } else {
      assert ls[1..] == Continuations(line[cols..], cols) + rest;
      ContinuationsUnfold(line[..cols], line[cols..], cols, rest);
      assert line[..cols] + line[cols..] == line;
    }
  }

  lemma {:induction false} ContinuationsUnbroken(s: string, cols: nat)
    requires cols >= 2 && NoBreak(s)
    ensures Unbroken(Continuations(s, cols))
    decreases |s|
  {
    if s != [] {
      var n := Min(|s|, cols - 1);
      ContinuationsUnbroken(s[n..], cols);
      assert NoBreak(" " + s[..n]);
    }
  }

  lemma FoldUnbroken(line: string, cols: nat)
    requires cols >= 2 && NoBreak(line)
    ensures Unbroken(Fold(line, cols))
  {
    if |line| > cols {
      ContinuationsUnbroken(line[cols..], cols);
      assert NoBreak(line[..cols]);
    }
  }

  // ----------------------------------------------------------------- one value

  /** An attribute type that can start a line. */
  predicate PlainKey(k: string) {
    NoBreak(k) && ':' !in k && (k == [] || (k[0] != ' ' && k[0] != '#'))
  }

  /** A value that does not start with white space other than a space, unless it is
      written in base64 for some other reason. */
  predicate Kept(forced: set<string>, k: string, v: string) {
    NeedsBase64(forced, k, v) || v == [] || !IsSpace(v[0])
  }

  lemma StripsNothing(v: string)
    ensures LStrip(v) == v <==> v == [] || !IsSpace(v[0])
  {
    if v != [] && IsSpace(v[0]) { LStripShorter(v[1..]); }
  }

  lemma {:induction false} LStripShorter(s: string)
    ensures |LStrip(s)| <= |s|
  {
    if s != [] { LStripShorter(s[1..]); }
  }

  lemma {:induction false} AllBase64(s: string)
    requires forall i :: 0 <= i < |s| ==> IsDigit(s[i]) || s[i] == '='
    ensures OnlyBase64(s) == s
  {
    if s != [] { AllBase64(s[1..]); }
  }

  lemma Alphabet(v: string)
    ensures forall i :: 0 <= i < |Encode(v)| ==> IsDigit(Encode(v)[i]) || Encode(v)[i] == '='
  {
    EncodeAlphabet(v);
    hide Encode;
    hide IsDigit;
  }

  lemma EncodedUnbroken(v: string)
    ensures NoBreak(Encode(v))
  {
    Alphabet(v);
    hide Encode;
  }

  lemma OneSpace(e: string)
    ensures OnlyBase64(" " + e) == OnlyBase64(e)
  {
    assert (" " + e)[1..] == e;
    assert !IsDigit(' ');
  }

  lemma EncodedBack(v: string)
    requires Octets(v)
    ensures Decode(OnlyBase64(" " + Encode(v))) == Some(v) && NoBreak(Encode(v))
  {
    Alphabet(v);
    EncodedUnbroken(v);
    hide *;
    DecodeEncode(v);
    AllBase64(Encode(v));
    OneSpace(Encode(v));
  }

  lemma ColonAt(k: string, more: string)
    requires ':' !in k
    ensures var s := k + ":" + more;
            ':' in s && NameText.IndexOf(s, ':') == |k| && s[..|k|] == k && s[|k| + 1..] == more
  {
    NameText.IndexOfConcat(k, more, ':');
    assert k + ":" + more == k + [':'] + more;
  }

  lemma LineUnbroken(forced: set<string>, k: string, v: string)
    requires PlainKey(k) && Octets(v)
    ensures NoBreak(Line(forced, k, v))
  {
    if NeedsBase64(forced, k, v) {
      EncodedBack(v);
      hide Encode;
    } else {
      assert forall i :: 0 <= i < |v| ==> !Unsafe(v[i]);
    }
  }

  lemma FieldBack(forced: set<string>, k: string, v: string, rest: seq<string>)
    requires PlainKey(k) && Octets(v)
    ensures KeyAndValue(Line(forced, k, v), rest) == Ok(Token(Some(k), Some(v), rest)) <==> Kept(forced, k, v)
  {
    if NeedsBase64(forced, k, v) {
      LineWhen(forced, k, v);
      hide *;
      CodedBack(k, v, rest);
      KeptWhen(forced, k, v);
    } else {
      LineWhen(forced, k, v);
      hide *;
      RawBack(k, v, rest);
      KeptWhen(forced, k, v);
    }
  }

  lemma LineWhen(forced: set<string>, k: string, v: string)
    ensures Line(forced, k, v) == k + ":" + (if NeedsBase64(forced, k, v) then ": " + Encode(v) else " " + v)
  {
    hide NeedsBase64;
    hide Encode;
  }

  lemma KeptWhen(forced: set<string>, k: string, v: string)
    ensures Kept(forced, k, v) <==> NeedsBase64(forced, k, v) || v == [] || !IsSpace(v[0])
  {
  }

  lemma CodedBack(k: string, v: string, rest: seq<string>)
    requires PlainKey(k) && Octets(v)
    ensures KeyAndValue(k + ":" + (": " + Encode(v)), rest) == Ok(Token(Some(k), Some(v), rest))
  {
    var more := ": " + Encode(v);
    ColonAt(k, more);
    EncodedBack(v);
    assert more[1..] == " " + Encode(v);
    LongLine(k, more);
    hide Encode;
    hide Decode;
    hide OnlyBase64;
  }

  lemma RawBack(k: string, v: string, rest: seq<string>)
    requires PlainKey(k)
    ensures KeyAndValue(k + ":" + (" " + v), rest) == Ok(Token(Some(k), Some(v), rest)) <==> v == [] || !IsSpace(v[0])
  {
    var more := " " + v;
    ColonAt(k, more);
    StripsNothing(v);
    assert more[1..] == v;
    LongLine(k, more);
    hide LStrip;
    hide IsSpace;
  }

  lemma LongLine(k: string, more: string)
    requires more != []
    ensures k + ":" + more != "" && k + ":" + more != "-"
  {
    assert |k + ":" + more| >= 2;
  }

  lemma NextIs(line: string, cols: nat, rest: seq<string>)
    requires cols >= 2 && !IsFolded(rest) && (line == "" || line[0] != '#')
    ensures Next(Fold(line, cols) + rest) == KeyAndValue(line, rest)
  {
    FoldUnfold(line, cols, rest);
    hide Fold;
    hide Unfold;
    hide KeyAndValue;
  }

  /** A value reads back, whatever octets it is made of and wherever its line was
      folded, exactly when its start is not taken for padding. */
  lemma ValueReadsBack(forced: set<string>, cols: nat, k: string, v: string, rest: seq<string>)
    requires cols >= 2 && PlainKey(k) && Octets(v) && !IsFolded(rest)
    ensures Next(Fold(Line(forced, k, v), cols) + rest) == Ok(Token(Some(k), Some(v), rest)) <==> Kept(forced, k, v)
  {
    var line := Line(forced, k, v);
    assert line[0] == if k == [] then ':' else k[0];
    FieldBack(forced, k, v, rest);
    hide Line;
    hide KeyAndValue;
    NextIs(line, cols, rest);
  }

  /** The first line of a folded line is not taken for the end of another. */
  lemma FoldStarts(forced: set<string>, cols: nat, k: string, v: string, rest: seq<string>)
    requires cols >= 2 && PlainKey(k)
    ensures !IsFolded(Fold(Line(forced, k, v), cols) + rest)
  {
    var line := Line(forced, k, v);
    assert line[0] == if k == [] then ':' else k[0];
    hide Line;
    var ls := Fold(line, cols) + rest;
    assert ls[0] == if |line| <= cols then line else line[..cols];
  }

  lemma BlankRead(rest: seq<string>)
    requires !IsFolded(rest)
    ensures Next([""] + rest) == Ok(Token(None, None, rest))
  {
    var ls := [""] + rest;
    assert ls[0] == "" && ls[1..] == rest;
    assert Unfold("", rest) == ("", rest);
  }

  lemma DashRead(rest: seq<string>)
    requires !IsFolded(rest)
    ensures Next(["-"] + rest) == Ok(Token(Some("-"), None, rest))
  {
    var ls := ["-"] + rest;
    assert ls[0] == "-" && ls[1..] == rest;
    assert Unfold("-", rest) == ("-", rest);
  }

  // ------------------------------------------------------------ attribute lists

  ghost predicate GoodPair(forced: set<string>, k: string, v: string) {
    PlainKey(k) && Octets(v) && Kept(forced, k, v)
  }

  ghost predicate GoodPairs(forced: set<string>, pairs: seq<(string, string)>) {
    forall i :: 0 <= i < |pairs| ==> GoodPair(forced, pairs[i].0, pairs[i].1)
  }

  /** The lines of the pairs from the n-th on. */
  function LinesFrom(forced: set<string>, cols: nat, pairs: seq<(string, string)>, n: nat): seq<string>
    requires cols >= 2 && n <= |pairs|
    decreases |pairs| - n
  {
    if n == |pairs| then []
    else Fold(Line(forced, pairs[n].0, pairs[n].1), cols) + LinesFrom(forced, cols, pairs, n + 1)
  }

  lemma {:induction false} SplitLines(forced: set<string>, cols: nat, pairs: seq<(string, string)>, n: nat)
    requires cols >= 2 && n <= |pairs|
    ensures PairLines(forced, cols, pairs) == PairLines(forced, cols, pairs[..n]) + LinesFrom(forced, cols, pairs, n)
    decreases |pairs| - n
  {
    hide Fold;
    hide Line;
    if n == |pairs| {
      assert pairs[..n] == pairs;
    } else {
      SplitLines(forced, cols, pairs, n + 1);
      assert pairs[..n + 1][..n] == pairs[..n];
    }
  }

  lemma PairLinesAre(forced: set<string>, cols: nat, pairs: seq<(string, string)>)
    requires cols >= 2
    ensures PairLines(forced, cols, pairs) == LinesFrom(forced, cols, pairs, 0)
  {
    SplitLines(forced, cols, pairs, 0);
    assert pairs[..0] == [];
    assert PairLines(forced, cols, pairs[..0]) == [];
  }

  lemma FromStarts(forced: set<string>, cols: nat, pairs: seq<(string, string)>, n: nat, rest: seq<string>)
    requires cols >= 2 && n <= |pairs| && GoodPairs(forced, pairs) && !IsFolded(rest)
    ensures !IsFolded(LinesFrom(forced, cols, pairs, n) + rest)
  {
    if n == |pairs| {
      NothingBefore(rest);
    } else {
      assert GoodPair(forced, pairs[n].0, pairs[n].1);
      var f, more := Fold(Line(forced, pairs[n].0, pairs[n].1), cols), LinesFrom(forced, cols, pairs, n + 1);
      assert LinesFrom(forced, cols, pairs, n) == f + more;
      GoodIs(forced, pairs[n].0, pairs[n].1);
      hide *;
      FoldStarts(forced, cols, pairs[n].0, pairs[n].1, more + rest);
      Regroup(f, more, rest);
    }
  }

  /** The token at the n-th pair. */
  lemma PairRead(forced: set<string>, cols: nat, pairs: seq<(string, string)>, n: nat, rest: seq<string>)
    requires cols >= 2 && n < |pairs| && GoodPairs(forced, pairs) && !IsFolded(rest)
    ensures Next(LinesFrom(forced, cols, pairs, n) + rest) ==
            Ok(Token(Some(pairs[n].0), Some(pairs[n].1), LinesFrom(forced, cols, pairs, n + 1) + rest))
  {
    var k, v := pairs[n].0, pairs[n].1;
    assert GoodPair(forced, k, v);
    var more := LinesFrom(forced, cols, pairs, n + 1);
    FromStarts(forced, cols, pairs, n + 1, rest);
    assert LinesFrom(forced, cols, pairs, n) + rest == Fold(Line(forced, k, v), cols) + (more + rest);
    hide *;
    GoodIs(forced, k, v);
    ValueReadsBack(forced, cols, k, v, more + rest);
  }

  lemma GoodIs(forced: set<string>, k: string, v: string)
    requires GoodPair(forced, k, v)
    ensures PlainKey(k) && Octets(v) && Kept(forced, k, v)
  {
  }

  // ------------------------------------------------------------ entry records

  function Somes(vs: seq<string>): seq<Option<string>> {
    seq(|vs|, i requires 0 <= i < |vs| => Some(vs[i]))
  }

  function Read(entry: Entry): ParsedEntry {
    map k | k in entry :: Somes(entry[k])
  }

  lemma ReadAppend(entry: Entry, k: string, v: string)
    ensures Append(Read(entry), k, Some(v)) == Read(Append(entry, k, v))
  {
    var was := if k in entry then entry[k] else [];
    assert Somes(was + [v]) == Somes(was) + [Some(v)];
    assert k !in entry ==> Somes(was) == [];
  }

  lemma GatheredNext(pairs: seq<(string, string)>, n: nat)
    requires n < |pairs|
    ensures Gathered(pairs[..n + 1]) == Append(Gathered(pairs[..n]), pairs[n].0, pairs[n].1)
  {
    assert pairs[..n + 1][..n] == pairs[..n];
  }

  /** From the n-th attribute on, up to the blank line. */
  lemma {:induction false} BodyRead(forced: set<string>, cols: nat, pairs: seq<(string, string)>, n: nat,
                                    rest: seq<string>)
    requires cols >= 2 && n <= |pairs| && GoodPairs(forced, pairs) && !IsFolded(rest)
    ensures var t := Next(LinesFrom(forced, cols, pairs, n) + ([""] + rest));
            t.Ok? && EntryBody(Read(Gathered(pairs[..n])), t.value) == Ok((Read(Gathered(pairs)), rest))
    decreases |pairs| - n
  {
    assert !IsFolded([""] + rest);
    hide Next;
    if n == |pairs| {
      assert LinesFrom(forced, cols, pairs, n) + ([""] + rest) == [""] + rest;
      assert pairs[..n] == pairs;
      BlankRead(rest);
    } else {
      PairRead(forced, cols, pairs, n, [""] + rest);
      BodyRead(forced, cols, pairs, n + 1, rest);
      GatheredNext(pairs, n);
      ReadAppend(Gathered(pairs[..n]), pairs[n].0, pairs[n].1);
      hide *;
      BodyStep(Read(Gathered(pairs[..n])), Next(LinesFrom(forced, cols, pairs, n) + ([""] + rest)).value);
    }
  }

  /** NextOrEnd is Next where there is a line. */
  lemma BodyStep(entry: ParsedEntry, t: Token)
    requires t.key.Some? && Next(t.rest).Ok?
    ensures EntryBody(entry, t) == EntryBody(Append(entry, t.key.value, t.val), Next(t.rest).value)
  {
    hide Next;
  }

  /** A record, its attributes and values in the order they are written. */
  datatype Written = Written(dn: string, pairs: seq<(string, string)>)

  ghost predicate GoodRecord(forced: set<string>, accepts: string -> bool, w: Written) {
    accepts(w.dn) && GoodPair(forced, "dn", w.dn) && GoodPairs(forced, w.pairs)
  }

  function LinesOf(forced: set<string>, cols: nat, w: Written): seq<string>
    requires cols >= 2
  {
    EntryLines(forced, cols, w.dn, w.pairs)
  }

  function FileLines(forced: set<string>, cols: nat, ws: seq<Written>): seq<string>
    requires cols >= 2
  {
    if ws == [] then [] else LinesOf(forced, cols, ws[0]) + FileLines(forced, cols, ws[1..])
  }

  function RecordOf(w: Written): EntryRecord {
    EntryRecord(w.dn, Read(Gathered(w.pairs)))
  }

  function RecordsOf(ws: seq<Written>): seq<EntryRecord> {
    if ws == [] then [] else [RecordOf(ws[0])] + RecordsOf(ws[1..])
  }

  /** The first token of a record is its name. */
  lemma NameRead(forced: set<string>, cols: nat, accepts: string -> bool, w: Written, rest: seq<string>)
    requires cols >= 2 && GoodRecord(forced, accepts, w) && !IsFolded(rest)
    ensures Next(LinesOf(forced, cols, w) + rest) ==
            Ok(Token(Some("dn"), Some(w.dn), LinesFrom(forced, cols, w.pairs, 0) + ([""] + rest)))
    ensures !IsFolded(LinesOf(forced, cols, w) + rest)
  {
    var f, more := Fold(Line(forced, "dn", w.dn), cols), LinesFrom(forced, cols, w.pairs, 0);
    PairLinesAre(forced, cols, w.pairs);
    assert LinesOf(forced, cols, w) + rest == f + (more + ([""] + rest));
    assert !IsFolded([""] + rest);
    assert GoodPair(forced, "dn", w.dn) && GoodPairs(forced, w.pairs);
    hide *;
    FromStarts(forced, cols, w.pairs, 0, [""] + rest);
    GoodIs(forced, "dn", w.dn);
    ValueReadsBack(forced, cols, "dn", w.dn, more + ([""] + rest));
    FoldStarts(forced, cols, "dn", w.dn, more + ([""] + rest));
  }

  lemma EntryRead(forced: set<string>, cols: nat, accepts: string -> bool, w: Written, rest: seq<string>)
    requires cols >= 2 && GoodRecord(forced, accepts, w) && !IsFolded(rest)
    ensures Next(LinesOf(forced, cols, w) + rest).Ok?
    ensures var t := Next(LinesOf(forced, cols, w) + rest).value;
            t.key == Some("dn") && OneEntry(accepts, t) == Ok((RecordOf(w), rest))
  {
    NameRead(forced, cols, accepts, w, rest);
    BodyRead(forced, cols, w.pairs, 0, rest);
    assert Gathered(w.pairs[..0]) == map[] && Read(map[]) == map[];
    hide Next;
    hide EntryBody;
    hide LinesFrom;
  }

  ghost predicate GoodRecords(forced: set<string>, accepts: string -> bool, ws: seq<Written>) {
    forall i :: 0 <= i < |ws| ==> GoodRecord(forced, accepts, ws[i])
  }

  lemma {:induction false} FileStarts(forced: set<string>, cols: nat, accepts: string -> bool, ws: seq<Written>)
    requires cols >= 2 && GoodRecords(forced, accepts, ws)
    ensures !IsFolded(FileLines(forced, cols, ws))
    decreases |ws|
  {
    if ws != [] {
      assert GoodRecord(forced, accepts, ws[0]);
      FileStarts(forced, cols, accepts, ws[1..]);
      NameRead(forced, cols, accepts, ws[0], FileLines(forced, cols, ws[1..]));
    }
  }

  /** Where the next record starts, or the file ends. */
  lemma BetweenRecords(forced: set<string>, cols: nat, accepts: string -> bool, ws: seq<Written>)
    requires cols >= 2 && GoodRecords(forced, accepts, ws)
    ensures ws == [] ==> ConsumeEmpty(FileLines(forced, cols, ws)) == Ok(Token(None, None, []))
    ensures ws != [] ==> ConsumeEmpty(FileLines(forced, cols, ws)) == Next(FileLines(forced, cols, ws))
                         && Next(FileLines(forced, cols, ws)).Ok?
                         && Next(FileLines(forced, cols, ws)).value.key == Some("dn")
  {
    if ws != [] {
      assert GoodRecord(forced, accepts, ws[0]);
      FileStarts(forced, cols, accepts, ws[1..]);
      NameRead(forced, cols, accepts, ws[0], FileLines(forced, cols, ws[1..]));
    }
    hide LinesOf;
  }

  lemma {:induction false} RecordsRead(forced: set<string>, cols: nat, accepts: string -> bool, ws: seq<Written>,
                                       read: seq<EntryRecord>)
    requires cols >= 2 && GoodRecords(forced, accepts, ws)
    ensures var t := ConsumeEmpty(FileLines(forced, cols, ws));
            t.Ok? && EntryRecords(accepts, read, t.value) == Ok(read + RecordsOf(ws))
    decreases |ws|
  {
    BetweenRecords(forced, cols, accepts, ws);
    hide ConsumeEmpty;
    hide Next;
    if ws == [] {
      assert read + RecordsOf(ws) == read;
    } else {
      var rest := FileLines(forced, cols, ws[1..]);
      assert GoodRecord(forced, accepts, ws[0]);
      assert GoodRecords(forced, accepts, ws[1..]);
      FileStarts(forced, cols, accepts, ws[1..]);
      EntryRead(forced, cols, accepts, ws[0], rest);
      RecordsRead(forced, cols, accepts, ws[1..], read + [RecordOf(ws[0])]);
      EntryRecordsStep(accepts, read, ConsumeEmpty(FileLines(forced, cols, ws)).value);
      assert read + [RecordOf(ws[0])] + RecordsOf(ws[1..]) == read + RecordsOf(ws);
      hide OneEntry;
      hide EntryRecords;
    }
  }

  lemma RecordUnbroken(forced: set<string>, cols: nat, accepts: string -> bool, w: Written)
    requires cols >= 2 && GoodRecord(forced, accepts, w)
    ensures Unbroken(LinesOf(forced, cols, w))
  {
    var f, pairs := Fold(Line(forced, "dn", w.dn), cols), PairLines(forced, cols, w.pairs);
    assert LinesOf(forced, cols, w) == f + pairs + [""];
    assert GoodPair(forced, "dn", w.dn) && GoodPairs(forced, w.pairs);
    hide *;
    GoodIs(forced, "dn", w.dn);
    LineUnbroken(forced, "dn", w.dn);
    FoldUnbroken(Line(forced, "dn", w.dn), cols);
    PairLinesAre(forced, cols, w.pairs);
    PairsUnbroken(forced, cols, w.pairs, 0);
    EmptyUnbroken();
    UnbrokenConcat(f, pairs);
    UnbrokenConcat(f + pairs, [""]);
  }

  lemma {:induction false} FileUnbroken(forced: set<string>, cols: nat, accepts: string -> bool, ws: seq<Written>)
    requires cols >= 2 && GoodRecords(forced, accepts, ws)
    ensures Unbroken(FileLines(forced, cols, ws))
    decreases |ws|
  {
    if ws != [] {
      assert GoodRecord(forced, accepts, ws[0]);
      FileUnbroken(forced, cols, accepts, ws[1..]);
      RecordUnbroken(forced, cols, accepts, ws[0]);
      UnbrokenConcat(LinesOf(forced, cols, ws[0]), FileLines(forced, cols, ws[1..]));
      hide LinesOf;
    }
  }

  lemma EmptyUnbroken()
    ensures Unbroken([""]) && Unbroken(["-"])
  {
  }

  lemma {:induction false} PairsUnbroken(forced: set<string>, cols: nat, pairs: seq<(string, string)>, n: nat)
    requires cols >= 2 && n <= |pairs| && GoodPairs(forced, pairs)
    ensures Unbroken(LinesFrom(forced, cols, pairs, n))
    decreases |pairs| - n
  {
    if n < |pairs| {
      var k, v := pairs[n].0, pairs[n].1;
      assert GoodPair(forced, k, v);
      PairsUnbroken(forced, cols, pairs, n + 1);
      GoodIs(forced, k, v);
      LineUnbroken(forced, k, v);
      FoldUnbroken(Line(forced, k, v), cols);
      UnbrokenConcat(Fold(Line(forced, k, v), cols), LinesFrom(forced, cols, pairs, n + 1));
      hide Fold;
      hide Line;
    }
  }

  /** Every file of entries reads back as what was written, record by record,
      folded at any width of at least two columns. */
  lemma EntriesReadBack(forced: set<string>, cols: nat, sep: string, accepts: string -> bool, ws: seq<Written>)
    requires cols >= 2 && LineEnd(sep) && GoodRecords(forced, accepts, ws)
    ensures ParseEntries(accepts, Lines(Text(FileLines(forced, cols, ws), sep))) == Ok(RecordsOf(ws))
  {
    FileUnbroken(forced, cols, accepts, ws);
    LinesText(FileLines(forced, cols, ws), sep);
    BetweenRecords(forced, cols, accepts, ws);
    RecordsRead(forced, cols, accepts, ws, []);
    hide ConsumeEmpty;
    hide Next;
    hide EntryRecords;
    hide FileLines;
    assert [] + RecordsOf(ws) == RecordsOf(ws);
  }

  lemma {:induction false} GatheredHas(pairs: seq<(string, string)>, i: nat)
    requires i < |pairs|
    ensures pairs[i].0 in Gathered(pairs) && pairs[i].1 in Gathered(pairs)[pairs[i].0]
    decreases |pairs|
  {
    var n := |pairs| - 1;
    if i < n {
      GatheredHas(pairs[..n], i);
      assert pairs[..n][i] == pairs[i];
      var k, m := pairs[n].0, Gathered(pairs[..n]);
      if k == pairs[i].0 {
        var j :| 0 <= j < |m[k]| && m[k][j] == pairs[i].1;
        assert (m[k] + [pairs[n].1])[j] == pairs[i].1;
      }
    } else {
      assert Gathered(pairs)[pairs[n].0][|Gathered(pairs)[pairs[n].0]| - 1] == pairs[n].1;
    }
  }

  /** An entry whose attribute types can start a line and whose values keep their
      start. */
  ghost predicate GoodEntry(forced: set<string>, accepts: string -> bool, dn: string, entry: Entry) {
    && accepts(dn) && GoodPair(forced, "dn", dn)
    && forall k, i :: k in entry && 0 <= i < |entry[k]| ==> GoodPair(forced, k, entry[k][i])
  }

  lemma GoodWritten(forced: set<string>, accepts: string -> bool, dn: string, entry: Entry,
                    pairs: seq<(string, string)>)
    requires GoodEntry(forced, accepts, dn, entry) && Gathered(pairs) == Valued(entry)
    ensures GoodRecord(forced, accepts, Written(dn, pairs))
    ensures RecordOf(Written(dn, pairs)) == EntryRecord(dn, Read(Valued(entry)))
  {
    hide GoodPair;
    forall i | 0 <= i < |pairs| ensures GoodPair(forced, pairs[i].0, pairs[i].1) {
      GatheredHas(pairs, i);
      var k := pairs[i].0;
      assert k in entry && pairs[i].1 in entry[k];
    }
  }

  lemma {:induction false} FileSnoc(forced: set<string>, cols: nat, ws: seq<Written>, w: Written)
    requires cols >= 2
    ensures FileLines(forced, cols, ws + [w]) == FileLines(forced, cols, ws) + LinesOf(forced, cols, w)
    ensures RecordsOf(ws + [w]) == RecordsOf(ws) + [RecordOf(w)]
    decreases |ws|
  {
    hide LinesOf;
    if ws == [] {
      assert ws + [w] == [w];
      assert [w][1..] == [];
    } else {
      assert (ws + [w])[1..] == ws[1..] + [w];
      FileSnoc(forced, cols, ws[1..], w);
    }
  }

  /** Entries written to a file and read from it. */
  method WriteThenRead(records: seq<(string, Entry)>, forced: set<string>, cols: nat, sep: string,
                       accepts: string -> bool)
    returns (r: Option<Error>, read: seq<EntryRecord>)
    requires cols >= 2 && LineEnd(sep)
    requires forall i :: 0 <= i < |records| ==> GoodEntry(forced, accepts, records[i].0, records[i].1)
    ensures r == None
    ensures read == seq(|records|, i requires 0 <= i < |records| =>
                      EntryRecord(records[i].0, Read(Valued(records[i].1))))
  {
    var writer := new LDIFWriter(forced, cols, sep);
    ghost var ws: seq<Written> := [];
    ghost var want := seq(|records|, i requires 0 <= i < |records| =>
      EntryRecord(records[i].0, Read(Valued(records[i].1))));
    assert writer.cols >= 2;
    NothingYet(forced, cols, accepts, ws, want);
    assert |want| == |records|;
    hide *;
    var i := 0;
    while i < |records|
      invariant i <= |records| && writer.Valid() && fresh(writer)
      invariant writer.lines == FileLines(forced, cols, ws) && GoodRecords(forced, accepts, ws)
      invariant RecordsOf(ws) == want[..i]
    {
      ghost var pairs := writer.UnparseEntry(records[i].0, records[i].1);
      GoodWritten(forced, accepts, records[i].0, records[i].1, pairs);
      ghost var w := Written(records[i].0, pairs);
      assert want[i] == RecordOf(w);
      FileSnoc(forced, cols, ws, w);
      OneMoreGood(forced, cols, accepts, ws, w);
      Takes(want, i);
      ws := ws + [w];
      i := i + 1;
    }
    Takes(want, i);
    OutputIs(writer);
    EntriesReadBack(forced, cols, sep, accepts, ws);
    var parser := new LDIFParser(writer.output, accepts);
    r := parser.ParseEntryRecords();
    read := parser.allRecords;
  }

  lemma OutputIs(writer: LDIFWriter)
    requires writer.Valid()
    ensures writer.output == Text(writer.lines, writer.lineSep)
  {
  }

  lemma NothingYet(forced: set<string>, cols: nat, accepts: string -> bool, ws: seq<Written>, want: seq<EntryRecord>)
    requires cols >= 2 && ws == []
    ensures FileLines(forced, cols, ws) == [] && GoodRecords(forced, accepts, ws) && RecordsOf(ws) == want[..0]
  {
  }

  lemma OneMoreGood(forced: set<string>, cols: nat, accepts: string -> bool, ws: seq<Written>, w: Written)
    requires cols >= 2 && GoodRecords(forced, accepts, ws) && GoodRecord(forced, accepts, w)
    ensures GoodRecords(forced, accepts, ws + [w])
    ensures LinesOf(forced, cols, w) == EntryLines(forced, cols, w.dn, w.pairs)
  {
    hide GoodRecord;
  }

  // ------------------------------------------------------------ change records

  /** A modification as it comes back: no values and none at all are the same. */
  function Settled(m: ModOp): ModOp {
    ModOp(m.op, m.attribute, if ModValuesOf(m) == [] then None else m.values)
  }

  function SettledAll(ms: seq<ModOp>): seq<ModOp> {
    seq(|ms|, i requires 0 <= i < |ms| => Settled(ms[i]))
  }

  ghost predicate GoodMod(forced: set<string>, m: ModOp) {
    && OpName(m.op).Some? && m.attribute != "-"
    && GoodPair(forced, OpName(m.op).value, m.attribute)
    && PlainKey(m.attribute) && GoodPairs(forced, ValuePairs(m.attribute, ModValuesOf(m)))
  }

  ghost predicate GoodMods(forced: set<string>, ms: seq<ModOp>) {
    forall i :: 0 <= i < |ms| ==> GoodMod(forced, ms[i])
  }

  lemma OpBack(op: nat)
    requires OpName(op).Some?
    ensures OpNumber(OpName(op).value) == Some(op) && PlainKey(OpName(op).value)
    ensures OpName(op).value != "-" && OpName(op).value != "control"
  {
  }

  lemma ValuesStep(attribute: string, values: seq<string>, t: Token)
    requires t.key == Some(attribute) && t.val.Some? && Next(t.rest).Ok?
    ensures ModValues(attribute, values, t) == ModValues(attribute, values + [t.val.value], Next(t.rest).value)
  {
    hide Next;
  }

  lemma ValuesEnd(attribute: string, values: seq<string>, t: Token)
    requires t.key != Some(attribute)
    ensures ModValues(attribute, values, t) == Ok((values, t))
  {
  }

  lemma ValuePairAt(k: string, values: seq<string>, n: nat)
    requires n < |values|
    ensures |ValuePairs(k, values)| == |values| && ValuePairs(k, values)[n] == (k, values[n])
    ensures values[..n + 1] == values[..n] + [values[n]]
  {
  }

  lemma {:induction false} ValuesRead(forced: set<string>, cols: nat, k: string, values: seq<string>, n: nat,
                                      rest: seq<string>)
    requires cols >= 2 && n <= |values| == |ValuePairs(k, values)| && k != "-"
    requires GoodPairs(forced, ValuePairs(k, values)) && !IsFolded(rest)
    ensures var t := Next(LinesFrom(forced, cols, ValuePairs(k, values), n) + (["-"] + rest));
            t.Ok? && ModValues(k, values[..n], t.value) == Ok((values, Token(Some("-"), None, rest)))
    decreases |values| - n
  {
    var pairs := ValuePairs(k, values);
    assert !IsFolded(["-"] + rest);
    if n == |values| {
      assert LinesFrom(forced, cols, pairs, n) == [];
      hide *;
      NothingBefore(["-"] + rest);
      DashRead(rest);
      assert values[..n] == values;
      ValuesEnd(k, values, Token(Some("-"), None, rest));
    } else {
      hide *;
      PairRead(forced, cols, pairs, n, ["-"] + rest);
      ValuePairAt(k, values, n);
      ValuesRead(forced, cols, k, values, n + 1, rest);
      ValuesStep(k, values[..n], Next(LinesFrom(forced, cols, pairs, n) + (["-"] + rest)).value);
    }
  }

  /** The token that a modification starts with. */
  lemma ModStartRead(forced: set<string>, cols: nat, m: ModOp, rest: seq<string>)
    requires cols >= 2 && GoodMod(forced, m) && !IsFolded(rest)
    ensures var pairs := ValuePairs(m.attribute, ModValuesOf(m));
            Next(ModOpLines(forced, cols, m) + rest) ==
            Ok(Token(OpName(m.op), Some(m.attribute), LinesFrom(forced, cols, pairs, 0) + (["-"] + rest)))
    ensures !IsFolded(ModOpLines(forced, cols, m) + rest)
  {
    var pairs := ValuePairs(m.attribute, ModValuesOf(m));
    var name := OpName(m.op).value;
    var f, more := Fold(Line(forced, name, m.attribute), cols), LinesFrom(forced, cols, pairs, 0);
    PairLinesAre(forced, cols, pairs);
    ModOpLinesAre(forced, cols, m);
    assert !IsFolded(["-"] + rest);
    assert GoodPair(forced, name, m.attribute) && GoodPairs(forced, pairs) && OpName(m.op) == Some(name);
    hide *;
    Regroup4(f, more, ["-"], rest);
    FromStarts(forced, cols, pairs, 0, ["-"] + rest);
    GoodIs(forced, name, m.attribute);
    ValueReadsBack(forced, cols, name, m.attribute, more + (["-"] + rest));
    FoldStarts(forced, cols, name, m.attribute, more + (["-"] + rest));
  }

  lemma ModOpLinesAre(forced: set<string>, cols: nat, m: ModOp)
    requires cols >= 2 && OpName(m.op).Some?
    ensures ModOpLines(forced, cols, m) ==
            Fold(Line(forced, OpName(m.op).value, m.attribute), cols) +
            PairLines(forced, cols, ValuePairs(m.attribute, ModValuesOf(m))) + ["-"]
  {
    hide Fold;
    hide PairLines;
    hide ValuePairs;
  }

  lemma AfterDash(rest: seq<string>)
    requires Next(rest).Ok? && Next(rest).value.key != Some("-")
    ensures AfterValues(Token(Some("-"), None, rest)) == Next(rest)
  {
    hide Next;
  }

  lemma OneModIs(t: Token, first: Token, values: seq<string>, ended: Token, next: Token)
    requires t.key.Some? && OpNumber(t.key.value).Some? && t.val.Some?
    requires Next(t.rest) == Ok(first) && ModValues(t.val.value, [], first) == Ok((values, ended))
    requires AfterValues(ended) == Ok(next)
    ensures OneMod(t) == Ok((ModOp(OpNumber(t.key.value).value, t.val.value,
                                   if values == [] then None else Some(values)), next))
  {
    hide Next;
    hide ModValues;
    hide AfterValues;
  }

  lemma ModRead(forced: set<string>, cols: nat, m: ModOp, rest: seq<string>)
    requires cols >= 2 && GoodMod(forced, m) && !IsFolded(rest)
    requires Next(rest).Ok? && Next(rest).value.key != Some("-")
    ensures Next(ModOpLines(forced, cols, m) + rest).Ok?
    ensures var t := Next(ModOpLines(forced, cols, m) + rest).value;
            t.key.Some? && OneMod(t) == Ok((Settled(m), Next(rest).value))
  {
    var values := ModValuesOf(m);
    var pairs := ValuePairs(m.attribute, values);
    assert |pairs| == |values| && m.attribute != "-" && GoodPairs(forced, pairs) && OpName(m.op).Some?;
    SettledIs(m);
    hide *;
    ModStartRead(forced, cols, m, rest);
    OpBack(m.op);
    ValuesRead(forced, cols, m.attribute, values, 0, rest);
    assert values[..0] == [];
    AfterDash(rest);
    var t := Next(ModOpLines(forced, cols, m) + rest).value;
    OneModIs(t, Next(t.rest).value, values, Token(Some("-"), None, rest), Next(rest).value);
  }

  lemma SettledIs(m: ModOp)
    ensures Settled(m) == ModOp(m.op, m.attribute, if ModValuesOf(m) == [] then None else Some(ModValuesOf(m)))
  {
  }

  function ModsFrom(forced: set<string>, cols: nat, ms: seq<ModOp>, n: nat): seq<string>
    requires cols >= 2 && n <= |ms|
    decreases |ms| - n
  {
    if n == |ms| then [] else ModOpLines(forced, cols, ms[n]) + ModsFrom(forced, cols, ms, n + 1)
  }

  lemma {:induction false} SplitMods(forced: set<string>, cols: nat, ms: seq<ModOp>, n: nat)
    requires cols >= 2 && n <= |ms|
    ensures ModLines(forced, cols, ms) == ModLines(forced, cols, ms[..n]) + ModsFrom(forced, cols, ms, n)
    decreases |ms| - n
  {
    hide ModOpLines;
    if n == |ms| {
      assert ms[..n] == ms;
    } else {
      SplitMods(forced, cols, ms, n + 1);
      assert ms[..n + 1][..n] == ms[..n];
    }
  }

  lemma ModLinesAre(forced: set<string>, cols: nat, ms: seq<ModOp>)
    requires cols >= 2
    ensures ModLines(forced, cols, ms) == ModsFrom(forced, cols, ms, 0)
  {
    SplitMods(forced, cols, ms, 0);
    var none := ms[..0];
    assert ModLines(forced, cols, none) == [];
  }

  /** From the n-th modification on, up to the blank line. */
  lemma {:induction false} ModsRead(forced: set<string>, cols: nat, ms: seq<ModOp>, n: nat, rest: seq<string>)
    requires cols >= 2 && n <= |ms| && GoodMods(forced, ms) && !IsFolded(rest)
    ensures !IsFolded(ModsFrom(forced, cols, ms, n) + ([""] + rest))
    ensures var t := Next(ModsFrom(forced, cols, ms, n) + ([""] + rest));
            t.Ok? && t.value.key != Some("-") && Mods(SettledAll(ms)[..n], t.value) == Ok((SettledAll(ms), rest))
    decreases |ms| - n
  {
    assert !IsFolded([""] + rest);
    hide *;
    var all := SettledAll(ms);
    NoMods(forced, cols, ms);
    Takes(all, n);
    if n == |ms| {
      NothingBefore([""] + rest);
      BlankRead(rest);
      ModsEnd(all, rest);
    } else {
      var more := ModsFrom(forced, cols, ms, n + 1) + ([""] + rest);
      ModsFromNext(forced, cols, ms, n);
      ModsRead(forced, cols, ms, n + 1, rest);
      Regroup(ModOpLines(forced, cols, ms[n]), ModsFrom(forced, cols, ms, n + 1), [""] + rest);
      ModRead(forced, cols, ms[n], more);
      ModStartRead(forced, cols, ms[n], more);
      OpBack(ms[n].op);
      ModsStep(all[..n], Next(ModOpLines(forced, cols, ms[n]) + more).value);
    }
  }

  lemma ModsEnd(read: seq<ModOp>, rest: seq<string>)
    ensures Mods(read, Token(None, None, rest)) == Ok((read, rest))
  {
  }

  /** A modify record: the name and the modifications. */
  datatype WrittenChange = WrittenChange(dn: string, mods: seq<ModOp>)

  ghost predicate GoodChange(forced: set<string>, accepts: string -> bool, w: WrittenChange) {
    accepts(w.dn) && GoodPair(forced, "dn", w.dn) && w.mods != [] && GoodMods(forced, w.mods)
  }

  function ChangeOf(w: WrittenChange): ChangeRecord {
    ChangeRecord(w.dn, SettledAll(w.mods))
  }

  function TypeLines(forced: set<string>, cols: nat): seq<string>
    requires cols >= 2
  {
    Fold(Line(forced, "changetype", "modify"), cols)
  }

  lemma TypeRead(forced: set<string>, cols: nat, rest: seq<string>)
    requires cols >= 2 && !IsFolded(rest)
    ensures Next(TypeLines(forced, cols) + rest) == Ok(Token(Some("changetype"), Some("modify"), rest))
    ensures !IsFolded(TypeLines(forced, cols) + rest)
  {
    assert Octets("modify") && PlainKey("changetype") && Kept(forced, "changetype", "modify");
    hide NeedsBase64;
    ValueReadsBack(forced, cols, "changetype", "modify", rest);
    FoldStarts(forced, cols, "changetype", "modify", rest);
    hide Fold;
    hide Next;
    hide Line;
  }

  lemma ChangeNameRead(forced: set<string>, cols: nat, accepts: string -> bool, w: WrittenChange, rest: seq<string>)
    requires cols >= 2 && GoodChange(forced, accepts, w) && !IsFolded(rest)
    ensures var tail := ModsFrom(forced, cols, w.mods, 0) + ([""] + rest);
            && Next(ChangeLines(forced, cols, w.dn, w.mods) + rest) ==
               Ok(Token(Some("dn"), Some(w.dn), TypeLines(forced, cols) + tail))
            && Next(TypeLines(forced, cols) + tail) == Ok(Token(Some("changetype"), Some("modify"), tail))
    ensures !IsFolded(ChangeLines(forced, cols, w.dn, w.mods) + rest)
  {
    var f, ty, mods := Fold(Line(forced, "dn", w.dn), cols), TypeLines(forced, cols), ModsFrom(forced, cols, w.mods, 0);
    ModLinesAre(forced, cols, w.mods);
    assert ChangeLines(forced, cols, w.dn, w.mods) == f + ty + mods + [""];
    assert GoodPair(forced, "dn", w.dn) && GoodMods(forced, w.mods);
    hide *;
    Regroup5(f, ty, mods, [""], rest);
    ModsRead(forced, cols, w.mods, 0, rest);
    TypeRead(forced, cols, mods + ([""] + rest));
    GoodIs(forced, "dn", w.dn);
    ValueReadsBack(forced, cols, "dn", w.dn, ty + (mods + ([""] + rest)));
    FoldStarts(forced, cols, "dn", w.dn, ty + (mods + ([""] + rest)));
  }

  lemma Associate<T>(a: seq<T>, b: seq<T>, c: seq<T>)
    ensures a + b + c == a + (b + c) && a + [] == a
  {
  }

  lemma Regroup4(a: seq<string>, b: seq<string>, c: seq<string>, d: seq<string>)
    ensures a + b + c + d == a + (b + (c + d))
  {
  }

  lemma Regroup5(a: seq<string>, b: seq<string>, c: seq<string>, d: seq<string>, e: seq<string>)
    ensures a + b + c + d + e == a + (b + (c + (d + e)))
  {
  }

  lemma OneChangeIs(accepts: string -> bool, t: Token, ty: Token, next: Token, mods: seq<ModOp>, rest: seq<string>)
    requires t.key == Some("dn") && t.val.Some? && accepts(t.val.value)
    requires Next(t.rest) == Ok(ty) && ty.key == Some("changetype") && ty.val == Some("modify")
    requires Next(ty.rest) == Ok(next) && Mods([], next) == Ok((mods, rest)) && mods != []
    ensures OneChange(accepts, t) == Ok(([ChangeRecord(t.val.value, mods)], rest))
  {
    hide Next;
    hide Mods;
  }

  lemma ChangeRead(forced: set<string>, cols: nat, accepts: string -> bool, w: WrittenChange, rest: seq<string>)
    requires cols >= 2 && GoodChange(forced, accepts, w) && !IsFolded(rest)
    ensures Next(ChangeLines(forced, cols, w.dn, w.mods) + rest).Ok?
    ensures var t := Next(ChangeLines(forced, cols, w.dn, w.mods) + rest).value;
            t.key == Some("dn") && OneChange(accepts, t) == Ok(([ChangeOf(w)], rest))
  {
    var all := SettledAll(w.mods);
    var t, ty := ChangeLines(forced, cols, w.dn, w.mods) + rest, TypeLines(forced, cols);
    var tail := ModsFrom(forced, cols, w.mods, 0) + ([""] + rest);
    assert GoodMods(forced, w.mods) && accepts(w.dn) && all != [] && ChangeOf(w) == ChangeRecord(w.dn, all);
    assert all[..0] == [];
    hide *;
    ChangeNameRead(forced, cols, accepts, w, rest);
    ModsRead(forced, cols, w.mods, 0, rest);
    OneChangeIs(accepts, Next(t).value, Next(ty + tail).value, Next(tail).value, all, rest);
  }

  ghost predicate GoodChanges(forced: set<string>, accepts: string -> bool, ws: seq<WrittenChange>) {
    forall i :: 0 <= i < |ws| ==> GoodChange(forced, accepts, ws[i])
  }

  function ChangeFile(forced: set<string>, cols: nat, ws: seq<WrittenChange>): seq<string>
    requires cols >= 2
  {
    if ws == [] then [] else ChangeLines(forced, cols, ws[0].dn, ws[0].mods) + ChangeFile(forced, cols, ws[1..])
  }

  function ChangesOf(ws: seq<WrittenChange>): seq<ChangeRecord> {
    if ws == [] then [] else [ChangeOf(ws[0])] + ChangesOf(ws[1..])
  }

  lemma {:induction false} ChangeFileStarts(forced: set<string>, cols: nat, accepts: string -> bool,
                                            ws: seq<WrittenChange>)
    requires cols >= 2 && GoodChanges(forced, accepts, ws)
    ensures !IsFolded(ChangeFile(forced, cols, ws))
    decreases |ws|
  {
    if ws != [] {
      assert GoodChange(forced, accepts, ws[0]);
      ChangeFileStarts(forced, cols, accepts, ws[1..]);
      ChangeNameRead(forced, cols, accepts, ws[0], ChangeFile(forced, cols, ws[1..]));
    }
  }

  lemma BetweenChanges(forced: set<string>, cols: nat, accepts: string -> bool, ws: seq<WrittenChange>)
    requires cols >= 2 && GoodChanges(forced, accepts, ws)
    ensures ws == [] ==> ConsumeEmpty(ChangeFile(forced, cols, ws)) == Ok(Token(None, None, []))
    ensures ws != [] ==> ConsumeEmpty(ChangeFile(forced, cols, ws)) == Next(ChangeFile(forced, cols, ws))
                         && Next(ChangeFile(forced, cols, ws)).Ok?
                         && Next(ChangeFile(forced, cols, ws)).value.key == Some("dn")
  {
    if ws != [] {
      assert GoodChange(forced, accepts, ws[0]);
      ChangeFileStarts(forced, cols, accepts, ws[1..]);
      ChangeNameRead(forced, cols, accepts, ws[0], ChangeFile(forced, cols, ws[1..]));
    }
    hide ChangeLines;
    hide GoodChange;
  }

  lemma {:induction false} ChangesRead(forced: set<string>, cols: nat, accepts: string -> bool, ws: seq<WrittenChange>,
                                       read: seq<ChangeRecord>)
    requires cols >= 2 && GoodChanges(forced, accepts, ws)
    ensures var t := ConsumeEmpty(ChangeFile(forced, cols, ws));
            t.Ok? && ChangeRecords(accepts, read, t.value) == Ok(read + ChangesOf(ws))
    decreases |ws|
  {
    BetweenChanges(forced, cols, accepts, ws);
    if ws == [] {
      assert ChangesOf(ws) == [];
      hide *;
      ChangeRecordsStep(accepts, read, Token(None, None, []));
      Associate(read, [], []);
    } else {
      var rest := ChangeFile(forced, cols, ws[1..]);
      assert GoodChange(forced, accepts, ws[0]) && GoodChanges(forced, accepts, ws[1..]);
      assert ChangeFile(forced, cols, ws) == ChangeLines(forced, cols, ws[0].dn, ws[0].mods) + rest;
      assert ChangesOf(ws) == [ChangeOf(ws[0])] + ChangesOf(ws[1..]);
      hide *;
      ChangeFileStarts(forced, cols, accepts, ws[1..]);
      ChangeRead(forced, cols, accepts, ws[0], rest);
      ChangesRead(forced, cols, accepts, ws[1..], read + [ChangeOf(ws[0])]);
      ChangeRecordsStep(accepts, read, ConsumeEmpty(ChangeFile(forced, cols, ws)).value);
      Associate(read, [ChangeOf(ws[0])], ChangesOf(ws[1..]));
    }
  }

  lemma {:induction false} ModsUnbroken(forced: set<string>, cols: nat, ms: seq<ModOp>, n: nat)
    requires cols >= 2 && n <= |ms| && GoodMods(forced, ms)
    ensures Unbroken(ModsFrom(forced, cols, ms, n))
    decreases |ms| - n
  {
    hide *;
    if n == |ms| {
      NoMods(forced, cols, ms);
    } else {
      ModsFromNext(forced, cols, ms, n);
      ModsUnbroken(forced, cols, ms, n + 1);
      ModUnbroken(forced, cols, ms[n]);
      UnbrokenConcat(ModOpLines(forced, cols, ms[n]), ModsFrom(forced, cols, ms, n + 1));
    }
  }

  lemma NoMods(forced: set<string>, cols: nat, ms: seq<ModOp>)
    requires cols >= 2
    ensures ModsFrom(forced, cols, ms, |ms|) == [] && Unbroken(ModsFrom(forced, cols, ms, |ms|))
    ensures |SettledAll(ms)| == |ms|
  {
  }

  lemma ModsFromNext(forced: set<string>, cols: nat, ms: seq<ModOp>, n: nat)
    requires cols >= 2 && n < |ms| && GoodMods(forced, ms)
    ensures ModsFrom(forced, cols, ms, n) == ModOpLines(forced, cols, ms[n]) + ModsFrom(forced, cols, ms, n + 1)
    ensures GoodMod(forced, ms[n]) && OpName(ms[n].op).Some?
    ensures |SettledAll(ms)| == |ms| && SettledAll(ms)[n] == Settled(ms[n])
  {
    hide ModOpLines;
    hide Settled;
  }

  lemma ModUnbroken(forced: set<string>, cols: nat, m: ModOp)
    requires cols >= 2 && GoodMod(forced, m)
    ensures Unbroken(ModOpLines(forced, cols, m))
  {
    var name, pairs := OpName(m.op).value, ValuePairs(m.attribute, ModValuesOf(m));
    var f, more := Fold(Line(forced, name, m.attribute), cols), PairLines(forced, cols, pairs);
    assert GoodPair(forced, name, m.attribute) && GoodPairs(forced, pairs) && OpName(m.op).Some?;
    hide *;
    ModOpLinesAre(forced, cols, m);
    PairLinesAre(forced, cols, pairs);
    PairsUnbroken(forced, cols, pairs, 0);
    GoodIs(forced, name, m.attribute);
    LineUnbroken(forced, name, m.attribute);
    FoldUnbroken(Line(forced, name, m.attribute), cols);
    EmptyUnbroken();
    UnbrokenConcat(f, more);
    UnbrokenConcat(f + more, ["-"]);
  }

  lemma TypeUnbroken(forced: set<string>, cols: nat)
    requires cols >= 2
    ensures Unbroken(TypeLines(forced, cols))
  {
    LineUnbroken(forced, "changetype", "modify");
    FoldUnbroken(Line(forced, "changetype", "modify"), cols);
    hide Fold;
    hide Line;
  }

  lemma ChangeLinesAre(forced: set<string>, cols: nat, w: WrittenChange)
    requires cols >= 2
    ensures ChangeLines(forced, cols, w.dn, w.mods) ==
            Fold(Line(forced, "dn", w.dn), cols) + TypeLines(forced, cols) + ModLines(forced, cols, w.mods) + [""]
  {
    hide Fold;
    hide Line;
    hide ModLines;
  }

  lemma ChangeUnbroken(forced: set<string>, cols: nat, accepts: string -> bool, w: WrittenChange)
    requires cols >= 2 && GoodChange(forced, accepts, w)
    ensures Unbroken(ChangeLines(forced, cols, w.dn, w.mods))
  {
    var f, ty, mods := Fold(Line(forced, "dn", w.dn), cols), TypeLines(forced, cols), ModLines(forced, cols, w.mods);
    assert GoodPair(forced, "dn", w.dn) && GoodMods(forced, w.mods);
    hide *;
    ChangeLinesAre(forced, cols, w);
    ModLinesAre(forced, cols, w.mods);
    ModsUnbroken(forced, cols, w.mods, 0);
    GoodIs(forced, "dn", w.dn);
    LineUnbroken(forced, "dn", w.dn);
    FoldUnbroken(Line(forced, "dn", w.dn), cols);
    TypeUnbroken(forced, cols);
    EmptyUnbroken();
    UnbrokenConcat(f, ty);
    UnbrokenConcat(f + ty, mods);
    UnbrokenConcat(f + ty + mods, [""]);
  }

  lemma {:induction false} ChangeFileUnbroken(forced: set<string>, cols: nat, accepts: string -> bool,
                                              ws: seq<WrittenChange>)
    requires cols >= 2 && GoodChanges(forced, accepts, ws)
    ensures Unbroken(ChangeFile(forced, cols, ws))
    decreases |ws|
  {
    if ws != [] {
      assert GoodChange(forced, accepts, ws[0]);
      ChangeUnbroken(forced, cols, accepts, ws[0]);
      ChangeFileUnbroken(forced, cols, accepts, ws[1..]);
      UnbrokenConcat(ChangeLines(forced, cols, ws[0].dn, ws[0].mods), ChangeFile(forced, cols, ws[1..]));
      hide ChangeLines;
    }
  }

  /** Every file of modifications reads back, a modification without values as one
      with none given. */
  lemma ChangesReadBack(forced: set<string>, cols: nat, sep: string, accepts: string -> bool, ws: seq<WrittenChange>)
    requires cols >= 2 && LineEnd(sep) && GoodChanges(forced, accepts, ws)
    ensures ParseChanges(accepts, Lines(Text(ChangeFile(forced, cols, ws), sep))) == Ok(ChangesOf(ws))
  {
    ChangeFileUnbroken(forced, cols, accepts, ws);
    LinesText(ChangeFile(forced, cols, ws), sep);
    BetweenChanges(forced, cols, accepts, ws);
    ChangesRead(forced, cols, accepts, ws, []);
    hide ConsumeEmpty;
    hide Next;
    hide ChangeRecords;
    hide ChangeFile;
    assert [] + ChangesOf(ws) == ChangesOf(ws);
  }
}
