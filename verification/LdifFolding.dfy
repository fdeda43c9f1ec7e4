/** Folded lines and comments in change LDIF: the parser reads a file as if neither
    were there. */
module LdifFolding {
  import opened Options
  import opened Sequences
  import opened Base64
  import opened Ldif
  import opened LdifDelta
  import opened LdifRoundTrip

  /** A line of LDIF that was cut into pieces, or a comment that was. */
  datatype Block = Content(pieces: seq<string>) | Comment(pieces: seq<string>)

  function Whole(b: Block): string {
    Flatten(b.pieces)
  }

  /** The lines that a block takes in a file: every piece but the first is written
      behind a space. */
  function LinesOf(b: Block): seq<string>
    requires b.pieces != []
  {
    [b.pieces[0]] + Continued(b.pieces[1..])
  }

  function Continued(pieces: seq<string>): seq<string> {
    seq(|pieces|, i requires 0 <= i < |pieces| => " " + pieces[i])
  }

  /** The first piece shows what the block is, and no piece has a line break. */
  predicate GoodBlock(b: Block) {
    && b.pieces != [] && b.pieces[0] != "" && b.pieces[0][0] != ' '
    && (b.Comment? <==> b.pieces[0][0] == '#')
    && (forall i :: 0 <= i < |b.pieces| ==> NoBreak(b.pieces[i]))
  }

  predicate AllGood(bs: seq<Block>) {
    forall i :: 0 <= i < |bs| ==> GoodBlock(bs[i])
  }

  /** The blocks as lines of a file. */
  function InFile(bs: seq<Block>): seq<string>
    requires AllGood(bs)
  {
    if bs == [] then [] else LinesOf(bs[0]) + InFile(bs[1..])
  }

  /** The lines themselves. */
  function Kept(bs: seq<Block>): seq<string> {
    if bs == [] then [] else (if bs[0].Content? then [Whole(bs[0])] else []) + Kept(bs[1..])
  }

  function Wholes(bs: seq<Block>): seq<string> {
    if bs == [] then [] else [Whole(bs[0])] + Wholes(bs[1..])
  }

  // ------------------------------------------------------------- one block

  /** Whatever came before is handed on, and this line is the pending one. */
  lemma FirstPiece(st: State, l: string)
    requires l != "" && l[0] != ' '
    ensures Received(st, l) ==
            var before := if st.lastLine.Some? then Logical(st, st.lastLine.value) else Next(st);
            if before.Raise? then before else Next(before.value.(lastLine := Some(l)))
  {
    hide Logical;
  }

  /** A line behind a space goes on with the pending one, without the space. */
  lemma NextPiece(st: State, pending: string, piece: string)
    requires st.lastLine == Some(pending)
    ensures Received(st, " " + piece) == Next(st.(lastLine := Some(pending + piece)))
  {
    assert (" " + piece)[1..] == piece;
  }

  lemma {:induction false} Continuing(st: State, pending: string, pieces: seq<string>, rest: seq<string>)
    requires st.lastLine == Some(pending)
    ensures ReceiveAll(st, Continued(pieces) + rest) ==
            ReceiveAll(st.(lastLine := Some(pending + Flatten(pieces))), rest)
    decreases |pieces|
  {
    if pieces == [] {
      assert Continued(pieces) + rest == rest;
      assert pending + Flatten(pieces) == pending;
    } else {
      var lines := Continued(pieces) + rest;
      assert lines[0] == " " + pieces[0] && lines[1..] == Continued(pieces[1..]) + rest;
      NextPiece(st, pending, pieces[0]);
      hide Received;
      Continuing(st.(lastLine := Some(pending + pieces[0])), pending + pieces[0], pieces[1..], rest);
      Regroup(pending, pieces[0], Flatten(pieces[1..]));
    }
  }

  lemma OneBlock(st: State, b: Block, rest: seq<string>)
    requires GoodBlock(b)
    ensures ReceiveAll(st, LinesOf(b) + rest) ==
            var before := if st.lastLine.Some? then Logical(st, st.lastLine.value) else Next(st);
            if before.Raise? then before else ReceiveAll(before.value.(lastLine := Some(Whole(b))), rest)
  {
    var first, others := b.pieces[0], b.pieces[1..];
    var lines := LinesOf(b) + rest;
    assert lines[0] == first && lines[1..] == Continued(others) + rest;
    FirstPiece(st, first);
    hide Logical;
    hide Received;
    var before := if st.lastLine.Some? then Logical(st, st.lastLine.value) else Next(st);
    if before.Next? {
      Continuing(before.value.(lastLine := Some(first)), first, others, rest);
    }
  }

  // ------------------------------------------------------------- one record

  /** The wholes reach the states in order, comments among them. */
  lemma {:induction false} BlocksReach(st: State, bs: seq<Block>)
    requires AllGood(bs)
    ensures ReceiveAll(st, InFile(bs) + [""]) == Cleared(LogicalAll(st, Pending(st.lastLine) + Wholes(bs) + [""]))
    decreases |bs|
  {
    if bs == [] {
      assert InFile(bs) + [""] == [""];
      assert Pending(st.lastLine) + Wholes(bs) + [""] == Pending(st.lastLine) + [""];
      BlankLine(st);
    } else {
      var l, rest := Whole(bs[0]), bs[1..];
      Regroup(LinesOf(bs[0]), InFile(rest), [""]);
      OneBlock(st, bs[0], InFile(rest) + [""]);
      hide Logical;
      hide Received;
      hide Whole;
      var before := if st.lastLine.Some? then Logical(st, st.lastLine.value) else Next(st);
      LogicalAllConcat(st, Pending(st.lastLine), Wholes(bs) + [""]);
      Regroup(Pending(st.lastLine), Wholes(bs), [""]);
      PendingRun(st);
      if before.Next? {
        var n := before.value.(lastLine := Some(l));
        BlocksReach(n, rest);
        assert Pending(n.lastLine) + Wholes(rest) + [""] == Wholes(bs) + [""];
        LogicalAllIgnoresLast(before.value, Some(l), Wholes(bs) + [""]);
      }
    }
  }

  lemma WholeStarts(b: Block)
    requires GoodBlock(b)
    ensures Whole(b) != "" && Whole(b)[0] == b.pieces[0][0]
  {
  }

  lemma CommentPasses(st: State, l: string)
    requires l != "" && l[0] == '#'
    ensures Logical(st, l) == Next(st)
  {
  }

  /** A comment makes no difference to any state. */
  lemma {:induction false} CommentsPass(st: State, bs: seq<Block>, rest: seq<string>)
    requires AllGood(bs)
    ensures LogicalAll(st, Wholes(bs) + rest) == LogicalAll(st, Kept(bs) + rest)
    decreases |bs|
  {
    if bs != [] {
      var l, more := Whole(bs[0]), Wholes(bs[1..]) + rest;
      FirstOf(bs, rest);
      WholeStarts(bs[0]);
      OneLogical(st, l, more);
      OneLogical(st, l, Kept(bs[1..]) + rest);
      if bs[0].Comment? {
        CommentPasses(st, l);
        NothingBefore(Kept(bs[1..]) + rest);
      }
      hide LogicalAll;
      hide Logical;
      hide Wholes;
      hide Kept;
      hide Whole;
      if Logical(st, l).Next? { CommentsPass(Logical(st, l).value, bs[1..], rest); }
    }
  }

  lemma FirstOf(bs: seq<Block>, rest: seq<string>)
    requires bs != []
    ensures Wholes(bs) + rest == [Whole(bs[0])] + (Wholes(bs[1..]) + rest)
    ensures Kept(bs) + rest == (if bs[0].Content? then [Whole(bs[0])] else []) + (Kept(bs[1..]) + rest)
  {
    hide Whole;
  }

  lemma OneLogical(st: State, l: string, rest: seq<string>)
    ensures LogicalAll(st, [l] + rest) ==
            if Logical(st, l).Raise? then Logical(st, l) else LogicalAll(Logical(st, l).value, rest)
  {
    hide Logical;
    assert ([l] + rest)[1..] == rest;
  }

  lemma {:induction false} KeptStand(bs: seq<Block>)
    requires AllGood(bs)
    ensures forall i :: 0 <= i < |Kept(bs)| ==> Standing(Kept(bs)[i])
    decreases |bs|
  {
    if bs != [] {
      KeptStand(bs[1..]);
      assert GoodBlock(bs[0]);
      WholeUnbroken(bs[0].pieces);
      if bs[0].Content? { assert Standing(Whole(bs[0])); }
      hide Standing;
    }
  }

  lemma {:induction false} WholeUnbroken(pieces: seq<string>)
    requires forall i :: 0 <= i < |pieces| ==> NoBreak(pieces[i])
    ensures NoBreak(Flatten(pieces))
  {
    if pieces != [] { WholeUnbroken(pieces[1..]); }
  }

  /** A record's lines, folded and commented on in any way, take the parser where the
      lines alone do. */
  lemma FoldedRecord(st: State, bs: seq<Block>)
    requires AllGood(bs)
    ensures ReceiveAll(st, InFile(bs) + [""]) == ReceiveAll(st, Kept(bs) + [""])
  {
    var p := Pending(st.lastLine);
    BlocksReach(st, bs);
    KeptStand(bs);
    Unfolding(st, Kept(bs));
    Regroup(p, Wholes(bs), [""]);
    Regroup(p, Kept(bs), [""]);
    LogicalAllConcat(st, p, Wholes(bs) + [""]);
    LogicalAllConcat(st, p, Kept(bs) + [""]);
    hide *;
    if LogicalAll(st, p).Next? { CommentsPass(LogicalAll(st, p).value, bs, [""]); }
  }

  // ---------------------------------------------------------------- any file

  function FoldedText(records: seq<seq<Block>>): string
    requires forall i :: 0 <= i < |records| ==> AllGood(records[i])
  {
    if records == [] then [] else Unlines(InFile(records[0]) + [""]) + FoldedText(records[1..])
  }

  function PlainText(records: seq<seq<Block>>): string {
    if records == [] then [] else Unlines(Kept(records[0]) + [""]) + PlainText(records[1..])
  }

  lemma {:induction false} InFileUnbroken(bs: seq<Block>)
    requires AllGood(bs)
    ensures forall i :: 0 <= i < |InFile(bs)| ==> NoBreak(InFile(bs)[i])
    decreases |bs|
  {
    if bs != [] {
      InFileUnbroken(bs[1..]);
      assert GoodBlock(bs[0]);
      var b := bs[0];
      forall i | 0 <= i < |LinesOf(b)| ensures NoBreak(LinesOf(b)[i]) {
        assert NoBreak(b.pieces[i]);
        assert i > 0 ==> LinesOf(b)[i] == " " + b.pieces[i];
      }
      hide NoBreak;
      hide LinesOf;
    }
  }

  lemma StandingUnbroken(lines: seq<string>)
    requires forall i :: 0 <= i < |lines| ==> Standing(lines[i])
    ensures forall i :: 0 <= i < |lines + [""]| ==> NoBreak((lines + [""])[i])
  {
    forall i | 0 <= i < |lines| ensures NoBreak(lines[i]) { assert Standing(lines[i]); }
  }

  lemma FoldedRecordFed(st: State, bs: seq<Block>)
    requires AllGood(bs)
    ensures Feed(st, Unlines(InFile(bs) + [""])) == Feed(st, Unlines(Kept(bs) + [""]))
    ensures Feed(st, Unlines(Kept(bs) + [""])).Next? ==> Feed(st, Unlines(Kept(bs) + [""])).value.1 == ""
  {
    FoldedRecord(st, bs);
    KeptStand(bs);
    StandingUnbroken(Kept(bs));
    InFileUnbroken(bs);
    assert NoBreak("");
    assert forall i :: 0 <= i < |InFile(bs) + [""]| ==> NoBreak((InFile(bs) + [""])[i]) by { hide NoBreak; }
    hide *;
    FeedUnlines(st, InFile(bs) + [""]);
    FeedUnlines(st, Kept(bs) + [""]);
  }

  /** Any number of records, in chunks of any size: folding and comments make no
      difference. */
  lemma {:induction false} FoldedFile(st: State, records: seq<seq<Block>>)
    requires forall i :: 0 <= i < |records| ==> AllGood(records[i])
    ensures Feed(st, FoldedText(records)) == Feed(st, PlainText(records))
    decreases |records|
  {
    if records != [] {
      var bs := records[0];
      var folded, plain := Unlines(InFile(bs) + [""]), Unlines(Kept(bs) + [""]);
      FoldedRecordFed(st, bs);
      FeedConcat(st, folded, FoldedText(records[1..]));
      FeedConcat(st, plain, PlainText(records[1..]));
      NothingBefore(FoldedText(records[1..]));
      NothingBefore(PlainText(records[1..]));
      hide Feed;
      hide Unlines;
      hide InFile;
      if Feed(st, plain).Next? { FoldedFile(Feed(st, plain).value.0, records[1..]); }
    }
  }

  /** The records of these operations, however their lines are folded and commented
      on. */
  ghost predicate Folds(records: seq<seq<Block>>, ls: seq<Listing>) {
    |records| == |ls| && forall i :: 0 <= i < |ls| ==> AllGood(records[i]) && Kept(records[i]) == OpLines(ls[i])
  }

  lemma {:induction false} PlainIsRecords(records: seq<seq<Block>>, ls: seq<Listing>)
    requires Folds(records, ls)
    ensures PlainText(records) == Records(ls)
    decreases |ls|
  {
    hide OpLines;
    hide Unlines;
    hide GoodBlock;
    if ls != [] { PlainIsRecords(records[1..], ls[1..]); }
  }

  /** What asLDIF writes for any operations, folded at any places and with comments
      anywhere between its lines, is read as those operations. */
  lemma FoldedRoundTrip(ls: seq<Listing>, records: seq<seq<Block>>, chunks: seq<string>)
    requires LdifRoundTrip.AllGood(ls) && Folds(records, ls)
    requires Flatten(chunks) == HEADER_TEXT + FoldedText(records)
    ensures FeedAll(INITIAL, "", chunks) ==
            if AnyValueless(ls) then Raise(AddMissingAttributes)
            else Next((STARTED.(collected := Meanings(ls)), ""))
  {
    FoldsGood(records, ls);
    assert Ready(STARTED) && '\n' !in "";
    hide *;
    PlainIsRecords(records, ls);
    ChunksDoNotMatter(INITIAL, "", chunks);
    NothingBefore(Flatten(chunks));
    HeaderFed();
    FeedConcat(INITIAL, HEADER_TEXT, FoldedText(records));
    NothingBefore(FoldedText(records));
    FoldedFile(STARTED, records);
    RecordsFed(STARTED, ls);
    NothingBefore(Meanings(ls));
  }

  lemma FoldsGood(records: seq<seq<Block>>, ls: seq<Listing>)
    requires Folds(records, ls)
    ensures forall i :: 0 <= i < |records| ==> AllGood(records[i])
  {
  }
}
