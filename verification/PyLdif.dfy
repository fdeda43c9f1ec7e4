/** ldap/ldif.py: python-ldap's LDIF writer and parser, with folded lines. */
module PyLdif {
  import opened Options
  import opened Sequences
  import opened Base64
  import LdifDelta
  import NameText

  datatype Error =
    | EofReached
    | NoValueSpec
    | BadBase64
    | NotDn
    | BadDn
    | NoValue
    | BadVersion
    | BadChangeType
    | BadModOp
    | BadControl
    | EmptyModlist

  datatype Result<T> = Ok(value: T) | Err(error: Error)

  type Entry = map<string, seq<string>>

  /** An entry as it was read: a value given as a URL is not fetched. */
  type ParsedEntry = map<string, seq<Option<string>>>

  datatype ModOp = ModOp(op: nat, attribute: string, values: Option<seq<string>>)

  // ---------------------------------------------------------------- the writer

  predicate Unsafe(c: char) {
    c == '\0' || c == '\n' || c == '\r' || c as int >= 128
  }

  /** What safe_string_re finds: an unsafe start, an unsafe character anywhere, or
      a space at the end. */
  predicate NeedsBase64(forced: set<string>, attribute: string, v: string) {
    || attribute in forced
    || (v != [] && (v[0] == ' ' || v[0] == ':' || v[0] == '<' || v[|v| - 1] == ' '))
    || exists i :: 0 <= i < |v| && Unsafe(v[i])
  }

  /** A line before it is folded. */
  function Line(forced: set<string>, attribute: string, v: string): string {
    attribute + (if NeedsBase64(forced, attribute, v) then ":: " + Encode(v) else ": " + v)
  }

  /** The rest of a folded line, in pieces that start with a space. */
  function Continuations(rest: string, cols: nat): seq<string>
    requires cols >= 2
    decreases |rest|
  {
    if rest == [] then []
    else
      var n := Min(|rest|, cols - 1);
      [" " + rest[..n]] + Continuations(rest[n..], cols)
  }

  function Fold(line: string, cols: nat): seq<string>
    requires cols >= 2
  {
    if |line| <= cols then [line] else [line[..cols]] + Continuations(line[cols..], cols)
  }

  lemma ValuePairsStart(k: string, values: seq<string>, pairs: seq<(string, string)>)
    ensures pairs + ValuePairs(k, values[..0]) == pairs && values[..|values|] == values
  {
  }

  /** What is still to be written of a folded line from `pos` on. */
  function Tail(line: string, pos: nat, cols: nat): seq<string>
    requires cols >= 2
  {
    if pos < |line| then Continuations(line[pos..], cols) else []
  }

  lemma TailStep(lines: seq<string>, line: string, pos: nat, cols: nat)
    requires cols >= 2 && pos < |line|
    ensures Min(|line|, pos + cols - 1) <= |line| && pos <= Min(|line|, pos + cols - 1)
    ensures lines + [" " + line[pos..Min(|line|, pos + cols - 1)]] + Tail(line, pos + cols - 1, cols) ==
            lines + Tail(line, pos, cols)
  {
    var stop := Min(|line|, pos + cols - 1);
    var n := stop - pos;
    assert line[pos..][..n] == line[pos..stop] && line[pos..][n..] == line[stop..];
    assert n == Min(|line[pos..]|, cols - 1);
    assert Continuations(line[pos..], cols) == [" " + line[pos..stop]] + Continuations(line[stop..], cols);
    if stop == |line| {
      assert line[stop..] == "";
      assert Continuations(line[stop..], cols) == [];
    }
    assert Tail(line, pos, cols) == [" " + line[pos..stop]] + Tail(line, pos + cols - 1, cols);
  }

  lemma NoTail(lines: seq<string>, line: string, pos: nat, cols: nat)
    requires cols >= 2 && pos >= |line|
    ensures lines + Tail(line, pos, cols) == lines
  {
  }

  function Text(lines: seq<string>, sep: string): string {
    if lines == [] then [] else lines[0] + sep + Text(lines[1..], sep)
  }

  lemma {:induction false} TextConcat(a: seq<string>, b: seq<string>, sep: string)
    ensures Text(a + b, sep) == Text(a, sep) + Text(b, sep)
    decreases |a|
  {
    if a == [] {
      assert a + b == b;
    } else {
      assert (a + b)[1..] == a[1..] + b;
      TextConcat(a[1..], b, sep);
    }
  }

  lemma TextSnoc(a: seq<string>, l: string, sep: string)
    ensures Text(a + [l], sep) == Text(a, sep) + l + sep
  {
    var none: seq<string> := [];
    assert [l][1..] == none;
    assert l + sep + Text(none, sep) == l + sep;
    TextConcat(a, [l], sep);
    assert Text(a, sep) + (l + sep) == Text(a, sep) + l + sep;
  }

  /** The lines of some attributes and values. */
  function PairLines(forced: set<string>, cols: nat, pairs: seq<(string, string)>): seq<string>
    requires cols >= 2
  {
    if pairs == [] then []
    else
      var last := pairs[|pairs| - 1];
      PairLines(forced, cols, pairs[..|pairs| - 1]) + Fold(Line(forced, last.0, last.1), cols)
  }

  lemma PairLinesSnoc(forced: set<string>, cols: nat, pairs: seq<(string, string)>, k: string, v: string)
    requires cols >= 2
    ensures PairLines(forced, cols, pairs + [(k, v)]) == PairLines(forced, cols, pairs) + Fold(Line(forced, k, v), cols)
    ensures Gathered(pairs + [(k, v)]) == Append(Gathered(pairs), k, v)
  {
    assert (pairs + [(k, v)])[..|pairs|] == pairs;
  }

  /** The attributes that have a value. */
  function Valued(entry: Entry): Entry {
    map k | k in entry && entry[k] != [] :: entry[k]
  }

  ghost function ValuedIn(entry: Entry, done: set<string>): Entry {
    map k | k in entry && k in done && entry[k] != [] :: entry[k]
  }

  function EntryLines(forced: set<string>, cols: nat, dn: string, pairs: seq<(string, string)>): seq<string>
    requires cols >= 2
  {
    Fold(Line(forced, "dn", dn), cols) + PairLines(forced, cols, pairs) + [""]
  }

  function ModOpLines(forced: set<string>, cols: nat, m: ModOp): seq<string>
    requires cols >= 2
  {
    Fold(Line(forced, OpText(m.op), m.attribute), cols) +
    PairLines(forced, cols, ValuePairs(m.attribute, ModValuesOf(m))) + ["-"]
  }

  function ModValuesOf(m: ModOp): seq<string> {
    if m.values == None then [] else m.values.value
  }

  function ValuePairs(k: string, values: seq<string>): seq<(string, string)> {
    seq(|values|, i requires 0 <= i < |values| => (k, values[i]))
  }

  lemma ValuePairsStep(k: string, values: seq<string>, i: nat)
    requires i <= |values|
    ensures ValuePairs(k, values[..0]) == [] && values[..|values|] == values
    ensures i < |values| ==> ValuePairs(k, values[..i + 1]) == ValuePairs(k, values[..i]) + [(k, values[i])]
  {
  }

  function ModLines(forced: set<string>, cols: nat, ms: seq<ModOp>): seq<string>
    requires cols >= 2
  {
    if ms == [] then []
    else ModLines(forced, cols, ms[..|ms| - 1]) + ModOpLines(forced, cols, ms[|ms| - 1])
  }

  function ChangeLines(forced: set<string>, cols: nat, dn: string, ms: seq<ModOp>): seq<string>
    requires cols >= 2
  {
    Fold(Line(forced, "dn", dn), cols) + Fold(Line(forced, "changetype", "modify"), cols) +
    ModLines(forced, cols, ms) + [""]
  }

  function OpText(op: nat): string {
    if OpName(op).Some? then OpName(op).value else ""
  }

  predicate KnownOps(ms: seq<ModOp>) {
    forall i :: 0 <= i < |ms| ==> OpName(ms[i].op).Some?
  }

  function OpName(op: nat): Option<string> {
    if op == 0 then Some("add") else if op == 1 then Some("delete")
    else if op == 2 then Some("replace") else if op == 3 then Some("increment") else None
  }

  class LDIFWriter {
    var output: string
    var recordsWritten: nat
    const base64Attrs: set<string>
    const cols: nat
    const lineSep: string

    /** What was written so far, as lines. */
    ghost var lines: seq<string>

    ghost predicate Valid()
      reads this
    {
      cols >= 2 && output == Text(lines, lineSep)
    }

    constructor (base64Attrs: set<string>, cols: nat, lineSep: string)
      requires cols >= 2
      ensures Valid() && lines == [] && recordsWritten == 0
      ensures this.base64Attrs == base64Attrs && this.cols == cols && this.lineSep == lineSep
    {
      output, recordsWritten, lines := "", 0, [];
      this.base64Attrs, this.cols, this.lineSep := base64Attrs, cols, lineSep;
    }

    method WriteLine(line: string)
      requires Valid()
      modifies this`output, this`lines
      ensures Valid() && lines == old(lines) + [line]
    {
      TextSnoc(lines, line, lineSep);
      output := output + line + lineSep;
      lines := lines + [line];
    }

    /** _unfold_lines, which folds: each turn of its loop moves `pos` on by
        `cols - 1`. */
    method FoldLine(line: string)
      requires Valid()
      modifies this`output, this`lines
      ensures Valid() && lines == old(lines) + Fold(line, cols)
    {
      if |line| <= cols {
        WriteLine(line);
        return;
      }
      var pos := cols;
      WriteLine(line[..Min(|line|, cols)]);
      assert lines + Tail(line, pos, cols) == old(lines) + Fold(line, cols);
      hide *;
      while pos < |line|
        invariant cols <= pos && Valid()
        invariant lines + Tail(line, pos, cols) == old(lines) + Fold(line, cols)
        decreases |line| - pos
      {
        TailStep(lines, line, pos, cols);
        WriteLine(" " + line[pos..Min(|line|, pos + cols - 1)]);
        pos := pos + cols - 1;
      }
      NoTail(lines, line, pos, cols);
    }

    method UnparseAttrTypeAndValue(attribute: string, v: string)
      requires Valid()
      modifies this`output, this`lines
      ensures Valid() && lines == old(lines) + Fold(Line(base64Attrs, attribute, v), cols)
    {
      if NeedsBase64(base64Attrs, attribute, v) {
        FoldLine(attribute + ":: " + Encode(v));
        assert attribute + ":: " + Encode(v) == Line(base64Attrs, attribute, v);
      } else {
        FoldLine(attribute + ": " + v);
        assert attribute + ": " + v == Line(base64Attrs, attribute, v);
      }
    }

    /** The values of one attribute, after what `pairs` lists. */
    method UnparseValues(k: string, values: seq<string>, ghost start: seq<string>, ghost pairs: seq<(string, string)>)
      requires Valid() && lines == start + PairLines(base64Attrs, cols, pairs)
      modifies this`output, this`lines
      ensures Valid() && lines == start + PairLines(base64Attrs, cols, pairs + ValuePairs(k, values))
    {
      assert cols >= 2;
      hide *;
      ValuePairsStart(k, values, pairs);
      for i := 0 to |values|
        invariant Valid() && lines == start + PairLines(base64Attrs, cols, pairs + ValuePairs(k, values[..i]))
      {
        PairsNext(start, base64Attrs, cols, pairs, k, values, i);
        UnparseAttrTypeAndValue(k, values[i]);
      }
    }

    /** unparse of an entry: its attributes in some order, an attribute's values
        in their own. */
    method UnparseEntry(dn: string, entry: Entry) returns (ghost pairs: seq<(string, string)>)
      requires Valid()
      modifies this
      ensures Valid() && recordsWritten == old(recordsWritten) + 1
      ensures lines == old(lines) + EntryLines(base64Attrs, cols, dn, pairs)
      ensures Gathered(pairs) == Valued(entry)
    {
      UnparseAttrTypeAndValue("dn", dn);
      ghost var start := lines;
      var left := entry.Keys;
      pairs := [];
      NothingWritten(base64Attrs, cols, start, entry);
      ghost var done := {};
      hide Fold;
      hide PairLines;
      hide Gathered;
      hide ValuedIn;
      hide Line;
      hide Text;
      while left != {}
        invariant left <= entry.Keys && done == entry.Keys - left
        invariant Valid() && lines == start + PairLines(base64Attrs, cols, pairs)
        invariant recordsWritten == old(recordsWritten)
        invariant Gathered(pairs) == ValuedIn(entry, done)
        decreases |left|
      {
        var k :| k in left;
        GatheredAll(pairs, k, entry[k], entry, done);
        UnparseValues(k, entry[k], start, pairs);
        pairs := pairs + ValuePairs(k, entry[k]);
        left, done := left - {k}, done + {k};
      }
      AllWritten(entry, done);
      WriteLine("");
      recordsWritten := recordsWritten + 1;
      EntryWritten(base64Attrs, cols, dn, pairs, old(lines));
    }

    /** unparse of a list of modifications. */
    method UnparseModify(dn: string, modlist: seq<ModOp>) returns (r: Option<Error>)
      requires Valid()
      modifies this
      ensures Valid()
      ensures r == None <==> modlist != [] && KnownOps(modlist)
      ensures r == None ==> lines == old(lines) + ChangeLines(base64Attrs, cols, dn, modlist)
    {
      hide Fold;
      hide ModLines;
      hide Line;
      hide Text;
      UnparseAttrTypeAndValue("dn", dn);
      if modlist == [] {
        return Some(EmptyModlist);
      }
      UnparseAttrTypeAndValue("changetype", "modify");
      r := UnparseMods(modlist);
      if r.Some? {
        return;
      }
      WriteLine("");
      recordsWritten := recordsWritten + 1;
      ChangeWritten(base64Attrs, cols, dn, modlist, old(lines));
    }

    method UnparseMods(modlist: seq<ModOp>) returns (r: Option<Error>)
      requires Valid()
      modifies this`output, this`lines
      ensures Valid()
      ensures r == None <==> KnownOps(modlist)
      ensures r == None ==> lines == old(lines) + ModLines(base64Attrs, cols, modlist)
    {
      ghost var start := lines;
      NoModLines(base64Attrs, cols, modlist, start);
      KnownSoFar(modlist, 0);
      assert cols >= 2;
      hide *;
      var i := 0;
      while i < |modlist|
        invariant i <= |modlist| && Valid()
        invariant KnownOps(modlist[..i])
        invariant lines == start + ModLines(base64Attrs, cols, modlist[..i])
      {
        KnownSoFar(modlist, i);
        if OpName(modlist[i].op).None? {
          return Some(BadModOp);
        }
        UnparseModOp(modlist[i]);
        ModLinesNext(base64Attrs, cols, modlist, i, start);
        i := i + 1;
      }
      r := None;
    }

    method UnparseModOp(m: ModOp)
      requires Valid() && OpName(m.op).Some?
      modifies this`output, this`lines
      ensures Valid() && lines == old(lines) + ModOpLines(base64Attrs, cols, m)
    {
      hide Fold;
      hide Line;
      hide Text;
      hide ValuePairs;
      hide PairLines;
      UnparseAttrTypeAndValue(OpName(m.op).value, m.attribute);
      ghost var start := lines;
      var values := if m.values.Some? then m.values.value else [];
      NothingBefore(ValuePairs(m.attribute, values));
      NothingWritten(base64Attrs, cols, start, map[]);
      UnparseValues(m.attribute, values, start, []);
      WriteLine("-");
      ModOpWritten(base64Attrs, cols, m, old(lines));
    }
  }

  lemma KnownSoFar(ms: seq<ModOp>, i: nat)
    requires i <= |ms| && KnownOps(ms[..i])
    ensures ms[..0] == [] && KnownOps(ms[..0]) && ms[..|ms|] == ms
    ensures i < |ms| ==> (OpName(ms[i].op).Some? <==> KnownOps(ms[..i + 1]))
    ensures i < |ms| && OpName(ms[i].op).None? ==> !KnownOps(ms)
  {
    if i < |ms| {
      assert ms[..i + 1] == ms[..i] + [ms[i]];
      assert ms[..i + 1][i] == ms[i];
    }
  }

  lemma ModOpWritten(forced: set<string>, cols: nat, m: ModOp, was: seq<string>)
    requires cols >= 2 && OpName(m.op).Some?
    ensures was + Fold(Line(forced, OpName(m.op).value, m.attribute), cols) +
            PairLines(forced, cols, ValuePairs(m.attribute, ModValuesOf(m))) + ["-"] ==
            was + ModOpLines(forced, cols, m)
  {
    hide Fold;
    hide Line;
    hide PairLines;
    hide ValuePairs;
  }

  lemma ChangeWritten(forced: set<string>, cols: nat, dn: string, ms: seq<ModOp>, was: seq<string>)
    requires cols >= 2
    ensures was + Fold(Line(forced, "dn", dn), cols) + Fold(Line(forced, "changetype", "modify"), cols) +
            ModLines(forced, cols, ms) + [""] ==
            was + ChangeLines(forced, cols, dn, ms)
  {
    hide Fold;
    hide Line;
    hide ModLines;
  }

  lemma NoModLines(forced: set<string>, cols: nat, ms: seq<ModOp>, start: seq<string>)
    requires cols >= 2
    ensures start + ModLines(forced, cols, ms[..0]) == start && ms[..|ms|] == ms
  {
  }

  lemma PairsNext(start: seq<string>, forced: set<string>, cols: nat, pairs: seq<(string, string)>, k: string,
                  values: seq<string>, i: nat)
    requires cols >= 2 && i < |values|
    ensures start + PairLines(forced, cols, pairs + ValuePairs(k, values[..i])) +
              Fold(Line(forced, k, values[i]), cols) ==
            start + PairLines(forced, cols, pairs + ValuePairs(k, values[..i + 1]))
  {
    ValuePairsStep(k, values, i);
    hide *;
    var before := pairs + ValuePairs(k, values[..i]);
    assert pairs + ValuePairs(k, values[..i + 1]) == before + [(k, values[i])];
    PairLinesSnoc(forced, cols, before, k, values[i]);
    Regroup(start, PairLines(forced, cols, before), Fold(Line(forced, k, values[i]), cols));
  }

  lemma ModLinesNext(forced: set<string>, cols: nat, ms: seq<ModOp>, i: nat, start: seq<string>)
    requires cols >= 2 && i < |ms|
    ensures start + ModLines(forced, cols, ms[..i]) + ModOpLines(forced, cols, ms[i]) ==
            start + ModLines(forced, cols, ms[..i + 1])
  {
    hide ModOpLines;
    assert ms[..i + 1][..i] == ms[..i];
  }

  lemma NothingWritten(forced: set<string>, cols: nat, start: seq<string>, entry: Entry)
    requires cols >= 2
    ensures start + PairLines(forced, cols, []) == start
    ensures Gathered([]) == ValuedIn(entry, {})
  {
  }

  lemma AllWritten(entry: Entry, done: set<string>)
    requires done == entry.Keys
    ensures ValuedIn(entry, done) == Valued(entry)
  {
  }

  lemma EntryWritten(forced: set<string>, cols: nat, dn: string, pairs: seq<(string, string)>, was: seq<string>)
    requires cols >= 2
    ensures was + Fold(Line(forced, "dn", dn), cols) + PairLines(forced, cols, pairs) + [""] ==
            was + EntryLines(forced, cols, dn, pairs)
  {
    hide Fold;
    hide PairLines;
  }

  lemma {:induction false} GatheredMore(pairs: seq<(string, string)>, k: string, values: seq<string>)
    requires k !in Gathered(pairs)
    ensures Gathered(pairs + ValuePairs(k, values)) ==
            if values == [] then Gathered(pairs) else Gathered(pairs)[k := values]
    decreases |values|
  {
    if values == [] {
      assert pairs + ValuePairs(k, values) == pairs;
    } else {
      var n := |values| - 1;
      GatheredMore(pairs, k, values[..n]);
      ValuePairsStep(k, values, n);
      hide ValuePairs;
      assert values[..n + 1] == values;
      var before := pairs + ValuePairs(k, values[..n]);
      assert pairs + ValuePairs(k, values) == before + [(k, values[n])];
      PairLinesSnoc({}, 2, before, k, values[n]);
      hide *;
      AppendLast(Gathered(pairs), k, values);
    }
  }

  lemma AppendLast(m: Entry, k: string, values: seq<string>)
    requires k !in m && values != []
    ensures var n := |values| - 1;
            Append(if values[..n] == [] then m else m[k := values[..n]], k, values[n]) == m[k := values]
  {
    var n := |values| - 1;
    assert values == values[..n] + [values[n]];
  }

  lemma GatheredAll(pairs: seq<(string, string)>, k: string, values: seq<string>, entry: Entry, done: set<string>)
    requires k in entry && k !in done && values == entry[k] && Gathered(pairs) == ValuedIn(entry, done)
    ensures Gathered(pairs + ValuePairs(k, values)) == ValuedIn(entry, done + {k})
  {
    GatheredMore(pairs, k, values);
    hide Gathered;
  }

  // ---------------------------------------------------------------- the parser

  /** The lines that readline() yields, without their ends. */
  function Lines(input: string): seq<string>
    decreases |input|
  {
    if input == [] then []
    else if '\n' !in input then [input]
    else
      var i := NameText.IndexOf(input, '\n');
      [Stripped(input[..i])] + Lines(input[i + 1..])
  }

  /** A line that ended in a carriage return and a line feed loses both. */
  function Stripped(line: string): string {
    if line != [] && line[|line| - 1] == '\r' then line[..|line| - 1] else line
  }

  predicate IsFolded(ls: seq<string>) {
    ls != [] && ls[0] != "" && ls[0][0] == ' '
  }

  /** _unfold_lines: one logical line, and what comes after it. */
  function Unfold(cur: string, ls: seq<string>): (string, seq<string>)
    decreases |ls|
  {
    if IsFolded(ls) then Unfold(cur + ls[0][1..], ls[1..]) else (cur, ls)
  }

  lemma {:induction false} UnfoldShorter(cur: string, ls: seq<string>)
    ensures |Unfold(cur, ls).1| <= |ls|
    decreases |ls|
  {
    if IsFolded(ls) { UnfoldShorter(cur + ls[0][1..], ls[1..]); }
  }

  /** What b64decode does not pass over. */
  function OnlyBase64(s: string): string {
    if s == [] then []
    else (if IsDigit(s[0]) || s[0] == '=' then [s[0]] else []) + OnlyBase64(s[1..])
  }

  /** A key and its value, a blank line, which has neither, or a dash. */
  datatype Token = Token(key: Option<string>, val: Option<string>, rest: seq<string>)

  function KeyAndValue(line: string, rest: seq<string>): Result<Token> {
    if line == "" then Ok(Token(None, None, rest))
    else if line == "-" then Ok(Token(Some("-"), None, rest))
    else if ':' !in line then Err(NoValueSpec)
    else
      var i := NameText.IndexOf(line, ':');
      var more := line[i + 1..];
      var key := Some(line[..i]);
      if more != [] && more[0] == ' ' then Ok(Token(key, Some(LStrip(more[1..])), rest))
      else if more != [] && more[0] == ':' then
        var v := Decode(OnlyBase64(more[1..]));
        if v.Some? then Ok(Token(key, v, rest)) else Err(BadBase64)
      else if more != [] && more[0] == '<' then Ok(Token(key, None, rest))
      else Ok(Token(key, Some(more), rest))
  }

  /** _next_key_and_value: comments are passed over, folded ones too. */
  function Next(ls: seq<string>): (r: Result<Token>)
    ensures r.Ok? ==> |r.value.rest| < |ls|
    decreases |ls|
  {
    if ls == [] then Err(EofReached)
    else
      UnfoldShorter(ls[0], ls[1..]);
      var (line, rest) := Unfold(ls[0], ls[1..]);
      if line != "" && line[0] == '#' then Next(rest) else KeyAndValue(line, rest)
  }

  /** The same where the end of the file is no error. */
  function NextOrEnd(ls: seq<string>): (r: Result<Token>)
    ensures r.Ok? ==> |r.value.rest| < |ls| || (r.value.key == None && r.value.rest == [])
  {
    if Next(ls) == Err(EofReached) then Ok(Token(None, None, [])) else Next(ls)
  }

  function ConsumeEmpty(ls: seq<string>): (r: Result<Token>)
    ensures r.Ok? ==> |r.value.rest| < |ls| || (r.value.key == None && r.value.rest == [])
    decreases |ls|
  {
    match Next(ls)
    case Err(e) => if e == EofReached then Ok(Token(None, None, [])) else Err(e)
    case Ok(t) => if t.key == None && t.val == None then ConsumeEmpty(t.rest) else Ok(t)
  }

  datatype EntryRecord = EntryRecord(dn: string, entry: ParsedEntry)

  datatype ChangeRecord = ChangeRecord(dn: string, modops: seq<ModOp>)

  /** The attributes of one record, up to the blank line at its end. */
  function EntryBody(entry: ParsedEntry, t: Token): (r: Result<(ParsedEntry, seq<string>)>)
    ensures r.Ok? ==> |r.value.1| <= |t.rest|
    decreases |t.rest|, if t.key.Some? then 1 else 0
  {
    if t.key == None then Ok((entry, t.rest))
    else
      match NextOrEnd(t.rest)
      case Err(e) => Err(e)
      case Ok(next) => EntryBody(Append(entry, t.key.value, t.val), next)
  }

  /** The first token of a record, which has to be its name. */
  function DnOf(accepts: string -> bool, t: Token): Result<string>
    requires t.key.Some?
  {
    if t.key.value != "dn" then Err(NotDn)
    else if t.val == None then Err(NoValue)
    else if !accepts(t.val.value) then Err(BadDn)
    else Ok(t.val.value)
  }

  function OneEntry(accepts: string -> bool, t: Token): (r: Result<(EntryRecord, seq<string>)>)
    requires t.key.Some?
    ensures r.Ok? ==> |r.value.1| < |t.rest|
  {
    match DnOf(accepts, t)
    case Err(e) => Err(e)
    case Ok(dn) =>
      match Next(t.rest)
      case Err(e) => Err(e)
      case Ok(next) =>
        match EntryBody(map[], next)
        case Err(e) => Err(e)
        case Ok(body) => Ok((EntryRecord(dn, body.0), body.1))
  }

  function EntryRecords(accepts: string -> bool, read: seq<EntryRecord>, t: Token): Result<seq<EntryRecord>>
    decreases |t.rest|, if t.key.Some? then 1 else 0
  {
    if t.key == None then Ok(read)
    else
      match OneEntry(accepts, t)
      case Err(e) => Err(e)
      case Ok(one) =>
        match ConsumeEmpty(one.1)
        case Err(e) => Err(e)
        case Ok(next) => EntryRecords(accepts, read + [one.0], next)
  }

  /** The token that the first record starts with, after a line that gives the
      version. */
  function FirstToken(ls: seq<string>): Result<Token> {
    match ConsumeEmpty(ls)
    case Err(e) => Err(e)
    case Ok(t) =>
      if t.key != Some("version") then Ok(t)
      else if t.val == None then Err(NoValue)
      else if LdifDelta.Number(t.val.value) == None then Err(BadVersion)
      else ConsumeEmpty(t.rest)
  }

  /** parse_entry_records, on the whole input. */
  function ParseEntries(accepts: string -> bool, ls: seq<string>): Result<seq<EntryRecord>> {
    match FirstToken(ls)
    case Err(e) => Err(e)
    case Ok(t) => EntryRecords(accepts, [], t)
  }

  // ------------------------------------------------------------ change records

  function OpNumber(name: string): Option<nat> {
    if name == "add" then Some(0) else if name == "delete" then Some(1)
    else if name == "replace" then Some(2) else if name == "increment" then Some(3) else None
  }

  predicate IsChangeType(s: string) {
    s == "add" || s == "delete" || s == "modify" || s == "modrdn"
  }

  /** The values of one modification: the lines that name its attribute. */
  function ModValues(attribute: string, values: seq<string>, t: Token): (r: Result<(seq<string>, Token)>)
    ensures r.Ok? ==> |r.value.1.rest| <= |t.rest|
    decreases |t.rest|, if t.key.Some? then 1 else 0
  {
    if t.key != Some(attribute) then Ok((values, t))
    else if t.val == None then Err(NoValue)
    else
      match NextOrEnd(t.rest)
      case Err(e) => Err(e)
      case Ok(next) => ModValues(attribute, values + [t.val.value], next)
  }

  /** After a modification's values: the line behind what ended them, and the one
      behind that if it is a dash. None where the input ends. */
  function AfterValues(t: Token): (r: Result<Token>)
    ensures r.Ok? ==> |r.value.rest| < |t.rest| || (r.value.key == None && r.value.rest == [])
  {
    match NextOrEnd(t.rest)
    case Err(e) => Err(e)
    case Ok(next) => if next.key == Some("-") then NextOrEnd(next.rest) else Ok(next)
  }

  /** One modification, and the token after it. */
  function OneMod(t: Token): (r: Result<(ModOp, Token)>)
    requires t.key.Some?
    ensures r.Ok? ==> |r.value.1.rest| < |t.rest| || (r.value.1.key == None && r.value.1.rest == [])
  {
    if OpNumber(t.key.value) == None then Err(BadModOp)
    else if t.val == None then Err(NoValue)
    else
      match NextOrEnd(t.rest)
      case Err(e) => Err(e)
      case Ok(first) =>
        match ModValues(t.val.value, [], first)
        case Err(e) => Err(e)
        case Ok(values) =>
          match AfterValues(values.1)
          case Err(e) => Err(e)
          case Ok(next) =>
            Ok((ModOp(OpNumber(t.key.value).value, t.val.value, if values.0 == [] then None else Some(values.0)), next))
  }

  function Mods(read: seq<ModOp>, t: Token): (r: Result<(seq<ModOp>, seq<string>)>)
    ensures r.Ok? ==> |r.value.1| <= |t.rest|
    decreases |t.rest|, if t.key.Some? then 1 else 0
  {
    if t.key == None then Ok((read, t.rest))
    else
      match OneMod(t)
      case Err(e) => Err(e)
      case Ok(one) => Mods(read + [one.0], one.1)
  }

  /** The control lines, which are read but not kept. */
  function SkipControls(t: Token): (r: Result<Token>)
    ensures r.Ok? ==> |r.value.rest| <= |t.rest|
    decreases |t.rest|
  {
    if t.key != Some("control") then Ok(t)
    else if t.val == None then Err(NoValue)
    else if ' ' !in t.val.value then Err(BadControl)
    else
      match Next(t.rest)
      case Err(e) => Err(e)
      case Ok(next) => SkipControls(next)
  }

  /** What is left after a record that is not handled. */
  function SkipRecord(t: Token): (r: Result<seq<string>>)
    ensures r.Ok? ==> |r.value| <= |t.rest|
    decreases |t.rest|
  {
    if t.key == None then Ok(t.rest)
    else
      match Next(t.rest)
      case Err(e) => Err(e)
      case Ok(next) => SkipRecord(next)
  }

  /** One change record, none if it is not a modification or changes nothing. */
  function OneChange(accepts: string -> bool, t: Token): (r: Result<(seq<ChangeRecord>, seq<string>)>)
    requires t.key.Some?
    ensures r.Ok? ==> |r.value.1| < |t.rest|
  {
    match DnOf(accepts, t)
    case Err(e) => Err(e)
    case Ok(dn) =>
      match Next(t.rest)
      case Err(e) => Err(e)
      case Ok(second) =>
        match SkipControls(second)
        case Err(e) => Err(e)
        case Ok(third) =>
          if third.key != Some("changetype") then
            (match SkipRecord(third) case Err(e) => Err(e) case Ok(rest) => Ok(([], rest)))
          else if third.val == None then Err(NoValue)
          else if !IsChangeType(third.val.value) then Err(BadChangeType)
          else
            match Next(third.rest)
            case Err(e) => Err(e)
            case Ok(next) =>
              if third.val.value != "modify" then
                (match SkipRecord(next) case Err(e) => Err(e) case Ok(rest) => Ok(([], rest)))
              else
                match Mods([], next)
                case Err(e) => Err(e)
                case Ok(mods) => Ok((if mods.0 == [] then [] else [ChangeRecord(dn, mods.0)], mods.1))
  }

  function ChangeRecords(accepts: string -> bool, read: seq<ChangeRecord>, t: Token): Result<seq<ChangeRecord>>
    decreases |t.rest|, if t.key.Some? then 1 else 0
  {
    if t.key == None then Ok(read)
    else
      match OneChange(accepts, t)
      case Err(e) => Err(e)
      case Ok(one) =>
        match ConsumeEmpty(one.1)
        case Err(e) => Err(e)
        case Ok(next) => ChangeRecords(accepts, read + one.0, next)
  }

  /** parse_change_records, on the whole input. */
  function ParseChanges(accepts: string -> bool, ls: seq<string>): Result<seq<ChangeRecord>> {
    match FirstToken(ls)
    case Err(e) => Err(e)
    case Ok(t) => ChangeRecords(accepts, [], t)
  }

  // --------------------------------------------------- the parser, as a class

  datatype Field = Field(key: Option<string>, val: Option<string>)

  class LDIFParser {
    var input: string
    var lastLine: Option<string>
    var version: Option<nat>
    var allRecords: seq<EntryRecord>
    var allModifyChanges: seq<ChangeRecord>
    const accepts: string -> bool

    /** The lines that were not dealt with yet. */
    ghost function Remaining(): seq<string>
      reads this`input, this`lastLine
    {
      (if lastLine.Some? then [lastLine.value] else []) + Lines(input)
    }

    ghost predicate Valid()
      reads this`input, this`lastLine
    {
      lastLine == None ==> input == ""
    }

    /** A method read what the function says, and stands where the function says,
        or it raised what the function says. */
    ghost predicate Told(r: Result<Field>, said: Result<Token>)
      reads this`input, this`lastLine
    {
      match said
      case Ok(t) => r == Ok(Field(t.key, t.val)) && Remaining() == t.rest
      case Err(e) => r == Err(e) && (e == EofReached ==> Remaining() == [])
    }

    constructor (input: string, accepts: string -> bool)
      ensures Valid() && Remaining() == Lines(input) && this.accepts == accepts
      ensures allRecords == [] && allModifyChanges == []
    {
      this.input, this.accepts, lastLine := input, accepts, None;
      version, allRecords, allModifyChanges := None, [], [];
      new;
      lastLine := Readline();
    }

    method Readline() returns (r: Option<string>)
      modifies this`input
      ensures old(Lines(input)) == (if r.Some? then [r.value] else []) + Lines(input)
      ensures r == None ==> input == ""
    {
      if input == "" {
        return None;
      }
      if '\n' !in input {
        r := Some(input);
        input := "";
        return;
      }
      var i := NameText.IndexOf(input, '\n');
      r := Some(Stripped(input[..i]));
      input := input[i + 1..];
    }

    /** _unfold_lines. */
    method UnfoldLines() returns (r: Result<string>)
      requires Valid()
      modifies this`input, this`lastLine
      ensures Valid()
      ensures old(Remaining()) == [] ==> r == Err(EofReached) && Remaining() == []
      ensures old(Remaining()) != [] ==>
                r.Ok? && (r.value, Remaining()) == Unfold(old(Remaining())[0], old(Remaining())[1..])
    {
      if lastLine == None {
        return Err(EofReached);
      }
      var unfolded := lastLine.value;
      ghost var first, rest := unfolded, Lines(input);
      assert Remaining()[1..] == rest;
      lastLine := Readline();
      while lastLine.Some? && lastLine.value != "" && lastLine.value[0] == ' '
        invariant Valid()
        invariant Unfold(unfolded, Remaining()) == Unfold(first, rest)
        decreases |Remaining()|
      {
        assert Remaining()[1..] == Lines(input);
        unfolded := unfolded + lastLine.value[1..];
        lastLine := Readline();
      }
      r := Ok(unfolded);
    }

    /** _next_key_and_value. */
    method NextKeyAndValue() returns (r: Result<Field>)
      requires Valid()
      modifies this`input, this`lastLine
      ensures Valid() && Told(r, Next(old(Remaining())))
    {
      ghost var start := Remaining();
      var line := UnfoldLines();
      if line.Err? {
        return Err(line.error);
      }
      UnfoldShorter(start[0], start[1..]);
      while line.value != "" && line.value[0] == '#'
        invariant Valid() && line.Ok? && |Remaining()| < |start|
        invariant Next(start) ==
                  if line.value != "" && line.value[0] == '#' then Next(Remaining())
                  else KeyAndValue(line.value, Remaining())
        decreases |Remaining()|
      {
        ghost var now := Remaining();
        if now != [] { UnfoldShorter(now[0], now[1..]); }
        line := UnfoldLines();
        if line.Err? {
          return Err(line.error);
        }
      }
      r := ReadField(line.value);
    }

    method ReadField(line: string) returns (r: Result<Field>)
      ensures r == match KeyAndValue(line, Remaining()) case Ok(t) => Ok(Field(t.key, t.val)) case Err(e) => Err(e)
      ensures r != Err(EofReached)
      ensures KeyAndValue(line, Remaining()).Ok? ==> KeyAndValue(line, Remaining()).value.rest == Remaining()
    {
      if line == "" {
        return Ok(Field(None, None));
      }
      if line == "-" {
        return Ok(Field(Some("-"), None));
      }
      if ':' !in line {
        return Err(NoValueSpec);
      }
      var colon := NameText.IndexOf(line, ':');
      var key, spec := Some(line[..colon]), line[colon + 1..];
      if spec != "" && spec[0] == ' ' {
        return Ok(Field(key, Some(LStrip(spec[1..]))));
      }
      if spec != "" && spec[0] == ':' {
        var v := Decode(OnlyBase64(spec[1..]));
        return if v.Some? then Ok(Field(key, v)) else Err(BadBase64);
      }
      if spec != "" && spec[0] == '<' {
        return Ok(Field(key, None));
      }
      r := Ok(Field(key, Some(spec)));
    }

    /** The same where an EOFError is caught. */
    method NextOrNone() returns (r: Result<Field>)
      requires Valid()
      modifies this`input, this`lastLine
      ensures Valid() && Told(r, NextOrEnd(old(Remaining())))
    {
      r := NextKeyAndValue();
      if r == Err(EofReached) {
        r := Ok(Field(None, None));
      }
    }

    /** _consume_empty_lines. */
    method ConsumeEmptyLines() returns (r: Result<Field>)
      requires Valid()
      modifies this`input, this`lastLine
      ensures Valid() && Told(r, ConsumeEmpty(old(Remaining())))
    {
      ghost var start := Remaining();
      r := NextKeyAndValue();
      hide Next;
      while r == Ok(Field(None, None))
        invariant Valid() && (r.Ok? ==> |Remaining()| < |start|)
        invariant r == Ok(Field(None, None)) ==> ConsumeEmpty(start) == ConsumeEmpty(Remaining())
        invariant r != Ok(Field(None, None)) && r != Err(EofReached) ==> Told(r, ConsumeEmpty(start))
        invariant r == Err(EofReached) ==> ConsumeEmpty(start) == Ok(Token(None, None, [])) && Remaining() == []
        decreases if r.Ok? then |Remaining()| + 1 else 0
      {
        r := NextKeyAndValue();
      }
      if r == Err(EofReached) {
        r := Ok(Field(None, None));
      }
    }

    ghost function At(f: Field): Token
      reads this`input, this`lastLine
    {
      Token(f.key, f.val, Remaining())
    }

    method FirstField() returns (r: Result<Field>)
      requires Valid()
      modifies this`input, this`lastLine, this`version
      ensures Valid() && Told(r, FirstToken(old(Remaining())))
    {
      hide ConsumeEmpty;
      r := ConsumeEmptyLines();
      if r.Err? || r.value.key != Some("version") {
        return;
      }
      if r.value.val == None {
        return Err(NoValue);
      }
      version := LdifDelta.Number(r.value.val.value);
      if version == None {
        return Err(BadVersion);
      }
      r := ConsumeEmptyLines();
    }

    method RecordDn(first: Field) returns (r: Result<string>)
      requires first.key.Some?
      ensures r == DnOf(accepts, At(first))
      ensures r != Err(EofReached)
    {
      if first.key.value != "dn" {
        return Err(NotDn);
      }
      if first.val == None {
        return Err(NoValue);
      }
      if !accepts(first.val.value) {
        return Err(BadDn);
      }
      r := Ok(first.val.value);
    }

    /** The loop over one record's attributes. */
    method ReadEntry(first: Field) returns (r: Result<ParsedEntry>)
      requires Valid()
      modifies this`input, this`lastLine
      ensures Valid()
      ensures match EntryBody(map[], old(At(first)))
              case Ok(body) => r == Ok(body.0) && Remaining() == body.1
              case Err(e) => r == Err(e)
    {
      var field, entry := first, map[];
      hide NextOrEnd;
      while field.key.Some?
        invariant Valid()
        invariant EntryBody(entry, At(field)) == EntryBody(map[], old(At(first)))
        decreases |Remaining()|, if field.key.Some? then 1 else 0
      {
        ghost var t := At(field);
        var next := NextOrNone();
        EntryBodyStep(entry, t);
        NextOrEndShorter(t.rest);
        if next.Err? {
          return Err(next.error);
        }
        entry, field := Append(entry, field.key.value, field.val), next.value;
      }
      r := Ok(entry);
    }

    /** parse_entry_records. */
    method ParseEntryRecords() returns (r: Option<Error>)
      requires Valid() && allRecords == []
      modifies this
      ensures match ParseEntries(accepts, old(Remaining()))
              case Ok(records) => r == None && allRecords == records
              case Err(e) => r == Some(e)
    {
      hide EntryRecords;
      hide OneEntry;
      hide FirstToken;
      hide ConsumeEmpty;
      ghost var start := Remaining();
      var first := FirstField();
      if first.Err? {
        return Some(first.error);
      }
      var field := first.value;
      while field.key.Some?
        invariant Valid()
        invariant ParseEntries(accepts, start) == EntryRecords(accepts, allRecords, At(field))
        decreases |Remaining()|, if field.key.Some? then 1 else 0
      {
        ghost var t := At(field);
        EntryRecordsStep(accepts, allRecords, t);
        var one := ReadRecord(field);
        if one.Err? {
          return Some(one.error);
        }
        ConsumeEmptyShorter(Remaining());
        allRecords := allRecords + [one.value];
        var next := ConsumeEmptyLines();
        if next.Err? {
          return Some(next.error);
        }
        field := next.value;
      }
      EntryRecordsStep(accepts, allRecords, At(field));
      r := None;
    }

    method ReadRecord(first: Field) returns (r: Result<EntryRecord>)
      requires Valid() && first.key.Some?
      modifies this`input, this`lastLine
      ensures Valid()
      ensures match OneEntry(accepts, old(At(first)))
              case Ok(one) => r == Ok(one.0) && Remaining() == one.1
              case Err(e) => r == Err(e)
      ensures r.Ok? ==> |Remaining()| < |old(Remaining())|
    {
      hide DnOf;
      hide Next;
      hide EntryBody;
      var dn := RecordDn(first);
      if dn.Err? {
        return Err(dn.error);
      }
      var next := NextKeyAndValue();
      if next.Err? {
        return Err(next.error);
      }
      var entry := ReadEntry(next.value);
      r := if entry.Ok? then Ok(EntryRecord(dn.value, entry.value)) else Err(entry.error);
    }

    method ReadModValues(attribute: string, first: Field) returns (r: Result<(seq<string>, Field)>)
      requires Valid()
      modifies this`input, this`lastLine
      ensures Valid()
      ensures match ModValues(attribute, [], old(At(first)))
              case Ok(values) => r == Ok((values.0, Field(values.1.key, values.1.val))) && Remaining() == values.1.rest
              case Err(e) => r == Err(e)
    {
      var field, values := first, [];
      hide NextOrEnd;
      while field.key == Some(attribute)
        invariant Valid()
        invariant ModValues(attribute, values, At(field)) == ModValues(attribute, [], old(At(first)))
        decreases |Remaining()|, if field.key.Some? then 1 else 0
      {
        ModValuesStep(attribute, values, At(field));
        if field.val == None {
          return Err(NoValue);
        }
        NextOrEndShorter(Remaining());
        var next := NextOrNone();
        if next.Err? {
          return Err(next.error);
        }
        values, field := values + [field.val.value], next.value;
      }
      r := Ok((values, field));
    }

    method ReadAfterValues(ended: Field) returns (r: Result<Field>)
      requires Valid()
      modifies this`input, this`lastLine
      ensures Valid() && Told(r, AfterValues(old(At(ended))))
    {
      hide NextOrEnd;
      r := NextOrNone();
      if r.Ok? && r.value.key == Some("-") {
        r := NextOrNone();
      }
    }

    /** One modification, and the field after it. */
    method ReadMod(first: Field) returns (r: Result<(ModOp, Field)>)
      requires Valid() && first.key.Some?
      modifies this`input, this`lastLine
      ensures Valid()
      ensures match OneMod(old(At(first)))
              case Ok(one) => r == Ok((one.0, Field(one.1.key, one.1.val))) && Remaining() == one.1.rest
              case Err(e) => r == Err(e)
    {
      hide NextOrEnd;
      hide ModValues;
      hide AfterValues;
      var op := OpNumber(first.key.value);
      if op == None {
        return Err(BadModOp);
      }
      if first.val == None {
        return Err(NoValue);
      }
      var attribute := first.val.value;
      var next := NextOrNone();
      if next.Err? {
        return Err(next.error);
      }
      var values := ReadModValues(attribute, next.value);
      if values.Err? {
        return Err(values.error);
      }
      var after := ReadAfterValues(values.value.1);
      if after.Err? {
        return Err(after.error);
      }
      r := Ok((ModOp(op.value, attribute, if values.value.0 == [] then None else Some(values.value.0)), after.value));
    }

    method ReadMods(first: Field) returns (r: Result<seq<ModOp>>)
      requires Valid()
      modifies this`input, this`lastLine
      ensures Valid()
      ensures match Mods([], old(At(first)))
              case Ok(mods) => r == Ok(mods.0) && Remaining() == mods.1
              case Err(e) => r == Err(e)
    {
      var field, mods := first, [];
      hide OneMod;
      while field.key.Some?
        invariant Valid()
        invariant Mods(mods, At(field)) == Mods([], old(At(first)))
        decreases |Remaining()|, if field.key.Some? then 1 else 0
      {
        ModsStep(mods, At(field));
        var one := ReadMod(field);
        if one.Err? {
          return Err(one.error);
        }
        mods, field := mods + [one.value.0], one.value.1;
      }
      r := Ok(mods);
    }

    method ReadControls(first: Field) returns (r: Result<Field>)
      requires Valid()
      modifies this`input, this`lastLine
      ensures Valid()
      ensures match SkipControls(old(At(first)))
              case Ok(t) => r == Ok(Field(t.key, t.val)) && Remaining() == t.rest
              case Err(e) => r == Err(e)
    {
      var field := first;
      hide Next;
      while field.key == Some("control")
        invariant Valid()
        invariant SkipControls(At(field)) == SkipControls(old(At(first)))
        decreases |Remaining()|
      {
        if field.val == None {
          return Err(NoValue);
        }
        if ' ' !in field.val.value {
          return Err(BadControl);
        }
        NextShorter(Remaining());
        var next := NextKeyAndValue();
        if next.Err? {
          return Err(next.error);
        }
        field := next.value;
      }
      r := Ok(field);
    }

    /** The rest of a record that is not handled. */
    method ReadToEnd(first: Field) returns (r: Option<Error>)
      requires Valid()
      modifies this`input, this`lastLine
      ensures Valid()
      ensures match SkipRecord(old(At(first)))
              case Ok(rest) => r == None && Remaining() == rest
              case Err(e) => r == Some(e)
    {
      var field := first;
      hide Next;
      while field.key.Some?
        invariant Valid()
        invariant SkipRecord(At(field)) == SkipRecord(old(At(first)))
        decreases |Remaining()|
      {
        NextShorter(Remaining());
        var next := NextKeyAndValue();
        if next.Err? {
          return Some(next.error);
        }
        field := next.value;
      }
      r := None;
    }

    /** One change record, handled if it is a modification that changes something. */
    method ReadChange(first: Field) returns (r: Result<seq<ChangeRecord>>)
      requires Valid() && first.key.Some?
      modifies this`input, this`lastLine
      ensures Valid()
      ensures match OneChange(accepts, old(At(first)))
              case Ok(one) => r == Ok(one.0) && Remaining() == one.1
              case Err(e) => r == Err(e)
      ensures r.Ok? ==> |Remaining()| < |old(Remaining())|
    {
      hide DnOf;
      hide Next;
      hide SkipControls;
      hide SkipRecord;
      hide Mods;
      hide IsChangeType;
      var dn := RecordDn(first);
      if dn.Err? {
        return Err(dn.error);
      }
      var next := NextKeyAndValue();
      if next.Err? {
        return Err(next.error);
      }
      next := ReadControls(next.value);
      if next.Err? {
        return Err(next.error);
      }
      if next.value.key != Some("changetype") {
        var skipped := ReadToEnd(next.value);
        return if skipped.Some? then Err(skipped.value) else Ok([]);
      }
      var changeType := next.value.val;
      if changeType == None {
        return Err(NoValue);
      }
      if !IsChangeType(changeType.value) {
        return Err(BadChangeType);
      }
      next := NextKeyAndValue();
      if next.Err? {
        return Err(next.error);
      }
      if changeType.value != "modify" {
        var skipped := ReadToEnd(next.value);
        return if skipped.Some? then Err(skipped.value) else Ok([]);
      }
      var mods := ReadMods(next.value);
      if mods.Err? {
        return Err(mods.error);
      }
      r := Ok(if mods.value == [] then [] else [ChangeRecord(dn.value, mods.value)]);
    }

    /** parse_change_records. */
    method ParseChangeRecords() returns (r: Option<Error>)
      requires Valid() && allModifyChanges == []
      modifies this
      ensures match ParseChanges(accepts, old(Remaining()))
              case Ok(records) => r == None && allModifyChanges == records
              case Err(e) => r == Some(e)
    {
      hide ChangeRecords;
      hide OneChange;
      hide FirstToken;
      hide ConsumeEmpty;
      ghost var start := Remaining();
      var first := FirstField();
      if first.Err? {
        return Some(first.error);
      }
      var field := first.value;
      while field.key.Some?
        invariant Valid()
        invariant ParseChanges(accepts, start) == ChangeRecords(accepts, allModifyChanges, At(field))
        decreases |Remaining()|, if field.key.Some? then 1 else 0
      {
        ghost var t := At(field);
        ChangeRecordsStep(accepts, allModifyChanges, t);
        var one := ReadChange(field);
        if one.Err? {
          return Some(one.error);
        }
        ConsumeEmptyShorter(Remaining());
        allModifyChanges := allModifyChanges + one.value;
        var next := ConsumeEmptyLines();
        if next.Err? {
          return Some(next.error);
        }
        field := next.value;
      }
      ChangeRecordsStep(accepts, allModifyChanges, At(field));
      r := None;
    }
  }

  lemma NextShorter(ls: seq<string>)
    ensures Next(ls).Ok? ==> |Next(ls).value.rest| < |ls|
  {
  }

  lemma ModValuesStep(attribute: string, values: seq<string>, t: Token)
    requires t.key == Some(attribute)
    ensures t.val == None ==> ModValues(attribute, values, t) == Err(NoValue)
    ensures t.val.Some? ==>
              var next := NextOrEnd(t.rest);
              ModValues(attribute, values, t) == if next.Err? then Err(next.error)
                                                 else ModValues(attribute, values + [t.val.value], next.value)
  {
  }

  lemma ModsStep(read: seq<ModOp>, t: Token)
    requires t.key.Some?
    ensures var one := OneMod(t);
            && (one.Err? ==> Mods(read, t) == Err(one.error))
            && (one.Ok? ==> Mods(read, t) == Mods(read + [one.value.0], one.value.1))
            && (one.Ok? ==> |one.value.1.rest| < |t.rest| || (one.value.1.key == None && one.value.1.rest == []))
  {
  }

  lemma ChangeRecordsStep(accepts: string -> bool, read: seq<ChangeRecord>, t: Token)
    ensures t.key == None ==> ChangeRecords(accepts, read, t) == Ok(read)
    ensures t.key.Some? ==>
              var one := OneChange(accepts, t);
              && (one.Err? ==> ChangeRecords(accepts, read, t) == Err(one.error))
              && (one.Ok? ==>
                    var next := ConsumeEmpty(one.value.1);
                    ChangeRecords(accepts, read, t) ==
                    if next.Err? then Err(next.error) else ChangeRecords(accepts, read + one.value.0, next.value))
  {
  }

  lemma EntryBodyStep(entry: ParsedEntry, t: Token)
    requires t.key.Some?
    ensures var next := NextOrEnd(t.rest);
            EntryBody(entry, t) == if next.Err? then Err(next.error)
                                   else EntryBody(Append(entry, t.key.value, t.val), next.value)
  {
  }

  lemma NextOrEndShorter(ls: seq<string>)
    ensures var r := NextOrEnd(ls); r.Ok? ==> |r.value.rest| < |ls| || (r.value.key == None && r.value.rest == [])
  {
  }

  lemma ConsumeEmptyShorter(ls: seq<string>)
    ensures var r := ConsumeEmpty(ls); r.Ok? ==> |r.value.rest| < |ls| || (r.value.key == None && r.value.rest == [])
  {
  }

  lemma EntryRecordsStep(accepts: string -> bool, read: seq<EntryRecord>, t: Token)
    ensures t.key == None ==> EntryRecords(accepts, read, t) == Ok(read)
    ensures t.key.Some? ==>
              var one := OneEntry(accepts, t);
              && (one.Err? ==> EntryRecords(accepts, read, t) == Err(one.error))
              && (one.Ok? ==>
                    var next := ConsumeEmpty(one.value.1);
                    EntryRecords(accepts, read, t) ==
                    if next.Err? then Err(next.error) else EntryRecords(accepts, read + [one.value.0], next.value))
  {
  }
}
