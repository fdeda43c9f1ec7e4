/** python-ldap's LDIF, line by line: what is written as base64, how wide lines are,
    and what the parser passes over. */
module PyLdifRules {
  import opened Options
  import opened Sequences
  import opened Base64
  import opened PyLdif
  import opened PyLdifRoundTrip
  import LdifDelta

  // ------------------------------------------------------------------ writing

  /** A string that can be written as it is. */
  predicate Safe(v: string) {
    && (forall i :: 0 <= i < |v| ==> 0 < v[i] as int < 128 && v[i] != '\n' && v[i] != '\r')
    && (v != "" ==> v[0] != ' ' && v[0] != ':' && v[0] != '<' && v[|v| - 1] != ' ')
  }

  /** Base64 is written for the attributes that ask for it and for unsafe values, and
      for nothing else. */
  lemma WrittenRaw(forced: set<string>, k: string, v: string)
    ensures k !in forced && Safe(v) ==> Line(forced, k, v) == k + ": " + v
    ensures !(k !in forced && Safe(v)) ==> Line(forced, k, v) == k + ":: " + Encode(v)
  {
    SafeIs(v);
    assert NeedsBase64(forced, k, v) <==> !(k !in forced && Safe(v));
    hide NeedsBase64;
    hide Safe;
    assert k + (": " + v) == k + ": " + v && k + (":: " + Encode(v)) == k + ":: " + Encode(v);
  }

  lemma SafeIs(v: string)
    ensures Safe(v) <==>
            && !(v != [] && (v[0] == ' ' || v[0] == ':' || v[0] == '<' || v[|v| - 1] == ' '))
            && !exists i :: 0 <= i < |v| && Unsafe(v[i])
  {
    if !exists i :: 0 <= i < |v| && Unsafe(v[i]) {
      forall i | 0 <= i < |v| ensures 0 < v[i] as int < 128 && v[i] != '\n' && v[i] != '\r' {
        assert !Unsafe(v[i]);
      }
    }
  }

  /** Every line but the last is as wide as it may be, none is wider, and the lines
      behind the first start with a space. A line that fits is not folded. */
  lemma FoldWidth(line: string, cols: nat)
    requires cols >= 2
    ensures var ls := Fold(line, cols);
            && (|line| <= cols ==> ls == [line])
            && (|line| > cols ==> |ls| > 1)
            && (forall i :: 0 <= i < |ls| ==> |ls[i]| <= cols && (i < |ls| - 1 ==> |ls[i]| == cols))
            && (forall i :: 0 < i < |ls| ==> |ls[i]| > 1 && ls[i][0] == ' ')
  {
    if |line| > cols { ContinuationWidth(line[cols..], cols); }
  }

  lemma {:induction false} ContinuationWidth(s: string, cols: nat)
    requires cols >= 2
    ensures var ls := Continuations(s, cols);
            && (s != "" ==> ls != [])
            && (forall i :: 0 <= i < |ls| ==>
                  1 < |ls[i]| <= cols && ls[i][0] == ' ' && (i < |ls| - 1 ==> |ls[i]| == cols))
    decreases |s|
  {
    if s != "" {
      var n := Min(|s|, cols - 1);
      ContinuationWidth(s[n..], cols);
      if n < cols - 1 { assert s[n..] == "" && Continuations(s[n..], cols) == []; }
    }
  }

  // ------------------------------------------------------- folds and comments

  function Continued(pieces: seq<string>): seq<string> {
    seq(|pieces|, i requires 0 <= i < |pieces| => " " + pieces[i])
  }

  /** A line that was cut at any places is put together again. */
  lemma {:induction false} UnfoldsAnyCut(first: string, pieces: seq<string>, rest: seq<string>)
    requires !IsFolded(rest)
    ensures Unfold(first, Continued(pieces) + rest) == (first + Flatten(pieces), rest)
    decreases |pieces|
  {
    var ls := Continued(pieces) + rest;
    if pieces == [] {
      assert ls == rest && first + "" == first;
    } else {
      assert ls[0] == " " + pieces[0] && ls[0][1..] == pieces[0];
      assert ls[1..] == Continued(pieces[1..]) + rest;
      UnfoldsAnyCut(first + pieces[0], pieces[1..], rest);
      Regroup(first, pieces[0], Flatten(pieces[1..]));
    }
  }

  /** A comment, cut at any places or not, makes no difference. */
  lemma CommentPassed(first: string, pieces: seq<string>, rest: seq<string>)
    requires first != "" && first[0] == '#' && !IsFolded(rest)
    ensures Next([first] + (Continued(pieces) + rest)) == Next(rest)
  {
    var ls := [first] + (Continued(pieces) + rest);
    assert ls[0] == first && ls[1..] == Continued(pieces) + rest;
    UnfoldsAnyCut(first, pieces, rest);
    UnfoldShorter(ls[0], ls[1..]);
  }

  /** A line that was cut at any places is read as the line. */
  lemma AnyCutRead(first: string, pieces: seq<string>, rest: seq<string>)
    requires !IsFolded(rest) && (first != "" ==> first[0] != '#') && (first == "" ==> pieces == [])
    ensures Next([first] + (Continued(pieces) + rest)) == KeyAndValue(first + Flatten(pieces), rest)
  {
    var ls := [first] + (Continued(pieces) + rest);
    assert ls[0] == first && ls[1..] == Continued(pieces) + rest;
    UnfoldsAnyCut(first, pieces, rest);
    hide KeyAndValue;
  }

  // ------------------------------------------------------- one line as it is read

  /** White space behind a colon and a space is taken off the value. */
  lemma {:induction false} Padding(pad: string, v: string)
    requires (forall i :: 0 <= i < |pad| ==> pad[i] in {' ', '\t'}) && (v == "" || !IsSpace(v[0]))
    ensures LStrip(pad + v) == v
  {
    if pad == "" {
      assert pad + v == v;
    } else {
      assert (pad + v)[1..] == pad[1..] + v;
      Padding(pad[1..], v);
    }
  }

  /** What a value looks like behind its colon: a space and padding, nothing, a second
      colon and base64, or a URL, which is not fetched. */
  lemma ValueRead(k: string, pad: string, v: string, rest: seq<string>)
    requires ':' !in k && (forall i :: 0 <= i < |pad| ==> pad[i] in {' ', '\t'}) && (v == "" || !IsSpace(v[0]))
    ensures KeyAndValue(k + ":" + (" " + (pad + v)), rest) == Ok(Token(Some(k), Some(v), rest))
    ensures v != "" && v[0] != ':' && v[0] != '<' ==>
              KeyAndValue(k + ":" + v, rest) == Ok(Token(Some(k), Some(v), rest))
    ensures KeyAndValue(k + ":" + ("<" + v), rest) == Ok(Token(Some(k), None, rest))
  {
    ColonAt(k, " " + (pad + v));
    ColonAt(k, v);
    ColonAt(k, "<" + v);
    LongLine(k, " " + (pad + v));
    LongLine(k, "<" + v);
    if v != "" { LongLine(k, v); }
    assert (" " + (pad + v))[1..] == pad + v;
    Padding(pad, v);
    hide LStrip;
    hide NameText.IndexOf;
  }

  lemma EncodedRead(k: string, v: string, rest: seq<string>)
    requires ':' !in k && Octets(v)
    ensures KeyAndValue(k + ":" + (":" + Encode(v)), rest) == Ok(Token(Some(k), Some(v), rest))
  {
    ColonAt(k, ":" + Encode(v));
    LongLine(k, ":" + Encode(v));
    assert (":" + Encode(v))[1..] == Encode(v);
    EncodeAlphabet(v);
    DigitsStay(Encode(v));
    DecodeEncode(v);
    hide Encode;
    hide Decode;
    hide OnlyBase64;
    hide NameText.IndexOf;
  }

  lemma {:induction false} DigitsStay(s: string)
    requires forall i :: 0 <= i < |s| ==> IsDigit(s[i]) || s[i] == '='
    ensures OnlyBase64(s) == s
  {
    if s != "" { DigitsStay(s[1..]); }
  }

  // ------------------------------------------------------ around the records

  /** Blank lines between records make no difference. */
  lemma BlankPassed(rest: seq<string>)
    requires !IsFolded(rest)
    ensures ConsumeEmpty([""] + rest) == ConsumeEmpty(rest)
  {
    BlankRead(rest);
    hide Next;
  }

  /** Nor does a line in front that gives the version, whatever number it gives. */
  lemma VersionPassed(accepts: string -> bool, number: string, rest: seq<string>)
    requires !IsFolded(rest) && LdifDelta.Number(number).Some? && (number == "" || !IsSpace(number[0]))
    requires ConsumeEmpty(rest).Ok? ==> ConsumeEmpty(rest).value.key != Some("version")
    ensures ParseEntries(accepts, ["version: " + number] + rest) == ParseEntries(accepts, rest)
    ensures ParseChanges(accepts, ["version: " + number] + rest) == ParseChanges(accepts, rest)
  {
    VersionRead(number, rest);
    var ls := ["version: " + number] + rest;
    assert ConsumeEmpty(ls) == Next(ls) by { hide Next; }
    hide Next;
    hide ConsumeEmpty;
    hide LdifDelta.Number;
    assert FirstToken(ls) == ConsumeEmpty(rest);
    assert FirstToken(rest) == ConsumeEmpty(rest);
  }

  lemma VersionRead(number: string, rest: seq<string>)
    requires !IsFolded(rest) && (number == "" || !IsSpace(number[0]))
    ensures Next(["version: " + number] + rest) == Ok(Token(Some("version"), Some(number), rest))
  {
    var line := "version: " + number;
    VersionLine(number);
    hide KeyAndValue;
    hide Next;
    UncutRead(line, rest);
    ValueRead("version", "", number, rest);
  }

  lemma VersionLine(number: string)
    ensures var line := "version: " + number;
            line != "" && line[0] == 'v' && line == "version" + ":" + (" " + ("" + number))
    ensures ':' !in "version"
  {
    assert "" + number == number;
  }

  lemma UncutRead(line: string, rest: seq<string>)
    requires !IsFolded(rest) && line != "" && line[0] != '#'
    ensures Next([line] + rest) == KeyAndValue(line, rest)
  {
    var none: seq<string> := [];
    assert Continued(none) + rest == rest && line + Flatten(none) == line;
    hide Next;
    hide KeyAndValue;
    AnyCutRead(line, none, rest);
  }

  /** A version that is no number is refused. */
  lemma VersionRefused(accepts: string -> bool, number: string, rest: seq<string>)
    requires !IsFolded(rest) && LdifDelta.Number(number) == None && (number == "" || !IsSpace(number[0]))
    ensures ParseEntries(accepts, ["version: " + number] + rest) == Err(BadVersion)
    ensures ParseChanges(accepts, ["version: " + number] + rest) == Err(BadVersion)
  {
    VersionRead(number, rest);
    var ls := ["version: " + number] + rest;
    assert ConsumeEmpty(ls) == Next(ls) by { hide Next; }
    hide Next;
    hide LdifDelta.Number;
  }

  /** A record has to start with its name. */
  lemma NameDue(accepts: string -> bool, t: Token)
    requires t.key.Some?
    ensures t.key != Some("dn") ==>
              EntryRecords(accepts, [], t) == Err(NotDn) && ChangeRecords(accepts, [], t) == Err(NotDn)
    ensures t.key == Some("dn") && t.val.Some? && !accepts(t.val.value) ==>
              EntryRecords(accepts, [], t) == Err(BadDn) && ChangeRecords(accepts, [], t) == Err(BadDn)
  {
  }

  // ----------------------------------------------- records that are passed over

  /** The lines of a record up to the blank one behind it. */
  lemma {:induction false} RecordSkipped(forced: set<string>, cols: nat, pairs: seq<(string, string)>, n: nat,
                                         rest: seq<string>)
    requires cols >= 2 && n <= |pairs| && GoodPairs(forced, pairs) && !IsFolded(rest)
    ensures var ls := LinesFrom(forced, cols, pairs, n) + ([""] + rest);
            Next(ls).Ok? && SkipRecord(Next(ls).value) == Ok(rest)
    decreases |pairs| - n
  {
    var tail := [""] + rest;
    StartsPlain(rest);
    hide *;
    if n == |pairs| {
      NoLinesLeft(forced, cols, pairs, tail);
      BlankRead(rest);
      SkipStep(Token(None, None, rest));
    } else {
      PairRead(forced, cols, pairs, n, tail);
      RecordSkipped(forced, cols, pairs, n + 1, rest);
      SkipStep(Token(Some(pairs[n].0), Some(pairs[n].1), LinesFrom(forced, cols, pairs, n + 1) + tail));
    }
  }

  lemma NoLinesLeft(forced: set<string>, cols: nat, pairs: seq<(string, string)>, tail: seq<string>)
    requires cols >= 2
    ensures LinesFrom(forced, cols, pairs, |pairs|) + tail == tail
  {
  }

  lemma SkipStep(t: Token)
    ensures SkipRecord(t) ==
            if t.key == None then Ok(t.rest)
            else match Next(t.rest) case Err(e) => Err(e) case Ok(next) => SkipRecord(next)
  {
    hide Next;
  }

  /** How a change record goes on behind its name. */
  lemma AfterName(accepts: string -> bool, dn: string, ls: seq<string>, second: Token)
    requires accepts(dn) && Next(ls) == Ok(second) && second.key.Some? && second.key != Some("control")
    ensures var r := OneChange(accepts, Token(Some("dn"), Some(dn), ls));
            && (second.key != Some("changetype") ==>
                  r == match SkipRecord(second) case Err(e) => Err(e) case Ok(rest) => Ok(([], rest)))
            && (second.key == Some("changetype") && second.val.Some? ==>
                  && (second.val.value !in {"add", "delete", "modify", "modrdn"} ==> r == Err(BadChangeType))
                  && (second.val.value in {"add", "delete", "modrdn"} ==>
                        r == match Next(second.rest)
                             case Err(e) => Err(e)
                             case Ok(third) => match SkipRecord(third) case Err(e) => Err(e) case Ok(rest) => Ok(([],
                                    rest))))
  {
    hide Next;
    hide SkipRecord;
    hide Mods;
    assert SkipControls(second) == Ok(second);
  }

  lemma StartsPlain(rest: seq<string>)
    ensures !IsFolded([""] + rest)
  {
  }

  /** Change records other than modifications are read and passed over: those that add
      or delete an entry or rename it, and those that do not say what they do. */
  lemma OthersPassed(forced: set<string>, cols: nat, accepts: string -> bool, dn: string, pairs: seq<(string, string)>,
                     changeType: string, rest: seq<string>)
    requires cols >= 2 && GoodPairs(forced, pairs) && !IsFolded(rest) && accepts(dn)
    requires pairs != [] && pairs[0] == ("changetype", changeType) && changeType in {"add", "delete", "modrdn"}
    ensures OneChange(accepts, Token(Some("dn"), Some(dn), LinesFrom(forced, cols, pairs, 0) + ([""] + rest))) ==
              Ok(([], rest))
  {
    var tail := [""] + rest;
    StartsPlain(rest);
    hide *;
    PairRead(forced, cols, pairs, 0, tail);
    RecordSkipped(forced, cols, pairs, 1, rest);
    AfterName(accepts, dn, LinesFrom(forced, cols, pairs, 0) + tail,
              Token(Some(pairs[0].0), Some(pairs[0].1), LinesFrom(forced, cols, pairs, 1) + tail));
  }

  /** The same for one that starts with anything but a changetype or a control. */
  lemma UntypedPassed(forced: set<string>, cols: nat, accepts: string -> bool, dn: string, pairs: seq<(string, string)>,
                      rest: seq<string>)
    requires cols >= 2 && GoodPairs(forced, pairs) && !IsFolded(rest) && accepts(dn)
    requires pairs != [] && pairs[0].0 != "changetype" && pairs[0].0 != "control"
    ensures OneChange(accepts, Token(Some("dn"), Some(dn), LinesFrom(forced, cols, pairs, 0) + ([""] + rest))) ==
              Ok(([], rest))
  {
    var tail := [""] + rest;
    StartsPlain(rest);
    hide *;
    PairRead(forced, cols, pairs, 0, tail);
    RecordSkipped(forced, cols, pairs, 0, rest);
    AfterName(accepts, dn, LinesFrom(forced, cols, pairs, 0) + tail,
              Token(Some(pairs[0].0), Some(pairs[0].1), LinesFrom(forced, cols, pairs, 1) + tail));
  }

  /** And an unknown changetype is refused. */
  lemma ChangeTypeRefused(forced: set<string>, cols: nat, accepts: string -> bool, dn: string,
                          pairs: seq<(string, string)>,
                          rest: seq<string>)
    requires cols >= 2 && GoodPairs(forced, pairs) && !IsFolded(rest) && accepts(dn)
    requires pairs != [] && pairs[0].0 == "changetype" && pairs[0].1 !in {"add", "delete", "modify", "modrdn"}
    ensures OneChange(accepts, Token(Some("dn"), Some(dn), LinesFrom(forced, cols, pairs, 0) + ([""] + rest))) ==
              Err(BadChangeType)
  {
    var tail := [""] + rest;
    StartsPlain(rest);
    hide *;
    PairRead(forced, cols, pairs, 0, tail);
    AfterName(accepts, dn, LinesFrom(forced, cols, pairs, 0) + tail,
              Token(Some(pairs[0].0), Some(pairs[0].1), LinesFrom(forced, cols, pairs, 1) + tail));
  }

  /** The numbers of the kinds of modification. */
  lemma KindsAre()
    ensures OpName(0) == Some("add") && OpName(1) == Some("delete") && OpName(2) == Some("replace")
    ensures OpName(3) == Some("increment") && forall n: nat :: n > 3 ==> OpName(n) == None
    ensures OpNumber("add") == Some(0) && OpNumber("delete") == Some(1) && OpNumber("replace") == Some(2)
    ensures OpNumber("increment") == Some(3)
    ensures forall s :: s !in {"add", "delete", "replace", "increment"} ==> OpNumber(s) == None
  {
  }
}
