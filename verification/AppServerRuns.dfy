/** What holds in every run of the server, however its steps interleave, for
    clients that never use a message id twice. */
module AppServerRuns {
  import opened Options
  import opened Sequences
  import opened AppServer

  datatype Step =
    | RequestStep(id: Id, kind: Kind)
    | AbandonStep(target: Id)
    | CancelStep(cancelId: Id, named: Option<Id>)
    | SendStep(id: Id)
    | FailStep(id: Id)
    | EndStep(id: Id)
    | WriteStep
    | ReaderStep
    | CloseStep

  predicate Unused(st: State, id: Id) {
    id !in st.ops && forall i :: 0 <= i < |st.log| ==> !(st.log[i].CancelNamed? && st.log[i].cancelId == id)
  }

  /** When a step can happen: the reader takes a request when it is idle, an
      application fails or ends while it runs, and sends at any time once it was
      started, even when it has returned. The first answer that waits is written,
      and the reader goes on once its own was. */
  predicate Enabled(st: State, step: Step) {
    match step
    case RequestStep(id, _) => st.reader == Idle && !st.closed && Unused(st, id)
    case AbandonStep(_) => st.reader == Idle && !st.closed
    case CancelStep(id, _) => st.reader == Idle && !st.closed && Unused(st, id)
    case SendStep(id) => id in st.ops
    case FailStep(id) => id in st.running
    case EndStep(id) => id in st.running || id in st.failing
    case WriteStep => st.pending != []
    case ReaderStep => ReaderReady(st)
    case CloseStep => true
  }

  function Take(st: State, step: Step): State
    requires Enabled(st, step)
  {
    match step
    case RequestStep(id, kind) => Request(st, id, kind)
    case AbandonStep(target) => AbandonRequest(st, target)
    case CancelStep(id, named) => CancelRequest(st, id, named)
    case SendStep(id) => Send(st, id)
    case FailStep(id) => Fail(st, id)
    case EndStep(id) => End(st, id)
    case WriteStep => WriteFirst(st)
    case ReaderStep => ReaderGoes(st)
    case CloseStep => st.(closed := true)
  }

  /** A run: the states that steps, one after another, lead through. */
  predicate Run(states: seq<State>, steps: seq<Step>) {
    && |states| == |steps| + 1 && states[0] == START
    && forall i :: 0 <= i < |steps| ==> Enabled(states[i], steps[i]) && states[i + 1] == Take(states[i], steps[i])
  }

  // ------------------------------------------------------------ abandoned sends

  predicate Names(e: Event, id: Id) {
    e == AbandonNamed(id) || (e.CancelNamed? && e.named == Some(id))
  }

  /** Before position `n` the operation was named by an abandon or a cancel, after
      its request and before its end. */
  ghost predicate GivenUp(log: seq<Event>, id: Id, n: nat)
    requires n <= |log|
  {
    exists i, j :: 0 <= i < j < n && log[i] == Requested(id) && Names(log[j], id) && Ended(id) !in log[..j]
  }

  ghost predicate Known(st: State) {
    && st.registered <= st.ops.Keys && st.running + st.failing <= st.ops.Keys
    && (forall id :: id in st.ops <==> Requested(id) in st.log)
    && (forall id :: Ended(id) in st.log ==> id in st.ops)
    && (forall id :: id in st.registered <==> id in st.ops && !st.ops[id].abandoned && Ended(id) !in st.log)
  }

  /** An operation is marked exactly when it was given up. */
  ghost predicate Marked(st: State) {
    forall id :: id in st.ops ==> (st.ops[id].abandoned <==> GivenUp(st.log, id, |st.log|))
  }

  ghost predicate InTime(st: State) {
    forall k :: 0 <= k < |st.log| && st.log[k].Begun? ==> !GivenUp(st.log, st.log[k].id, k)
  }

  predicate Begins(log: seq<Event>, w: Write, n: nat)
    requires n <= |log|
  {
    w.at < n && log[w.at] == Begun(w.id)
  }

  function Reply(e: Event): Option<Answer> {
    if e.Written? || e.Dropped? then Some(e.answer) else None
  }

  /** The response of an application that an event is about. */
  predicate IsWrite(e: Event) {
    Reply(e).Some? && Reply(e).value.OfApplication?
  }

  ghost predicate FromSends(st: State) {
    && (forall a :: a in st.pending && a.OfApplication? ==> Begins(st.log, a.write, |st.log|))
    && (forall k :: 0 <= k < |st.log| && IsWrite(st.log[k]) ==> Begins(st.log, Reply(st.log[k]).value.write, k))
  }

  lemma GivenUpLonger(log: seq<Event>, e: Event, id: Id, n: nat)
    requires n <= |log|
    ensures GivenUp(log + [e], id, n) <==> GivenUp(log, id, n)
  {
    var more := log + [e];
    assert forall j :: 0 <= j < n ==> more[..j] == log[..j] && more[j] == log[j];
  }

  /** Only an event that names the operation can give it up, and only between its
      request and its end. */
  lemma GivenUpBy(log: seq<Event>, e: Event, id: Id)
    ensures GivenUp(log + [e], id, |log| + 1) <==>
            GivenUp(log, id, |log|) || (Names(e, id) && Requested(id) in log && Ended(id) !in log)
  {
    var more := log + [e];
    assert more[..|log|] == log && more[|log|] == e;
    assert forall j :: 0 <= j < |log| ==> more[..j] == log[..j] && more[j] == log[j];
    if Names(e, id) && Requested(id) in log && Ended(id) !in log {
      var i :| 0 <= i < |log| && log[i] == Requested(id);
      assert more[i] == Requested(id) && Names(more[|log|], id) && Ended(id) !in more[..|log|];
    }
    if GivenUp(log, id, |log|) {
      var i, j :| 0 <= i < j < |log| && log[i] == Requested(id) && Names(log[j], id) && Ended(id) !in log[..j];
      assert more[i] == Requested(id) && Names(more[j], id) && Ended(id) !in more[..j];
    }
  }

  /** One more event in the log, which may be a send that begins in time. */
  lemma InTimeLogged(log: seq<Event>, e: Event)
    requires forall k :: 0 <= k < |log| && log[k].Begun? ==> !GivenUp(log, log[k].id, k)
    requires e.Begun? ==> !GivenUp(log, e.id, |log|)
    ensures var more := log + [e]; forall k :: 0 <= k < |more| && more[k].Begun? ==> !GivenUp(more, more[k].id, k)
  {
    var more := log + [e];
    forall k | 0 <= k < |more| && more[k].Begun? ensures !GivenUp(more, more[k].id, k) {
      GivenUpLonger(log, e, more[k].id, k);
      assert k < |log| ==> more[k] == log[k];
    }
    hide GivenUp;
  }

  lemma BeginsLonger(log: seq<Event>, e: Event, w: Write, n: nat)
    requires n <= |log| && Begins(log, w, n)
    ensures Begins(log + [e], w, n) && Begins(log + [e], w, |log| + 1)
  {
  }

  /** What a step adds to the log. */
  function Added(st: State, step: Step): Option<Event>
    requires Enabled(st, step)
  {
    match step
    case RequestStep(id, _) => Some(Requested(id))
    case AbandonStep(target) => Some(AbandonNamed(target))
    case CancelStep(id, named) => Some(CancelNamed(id, named))
    case SendStep(id) => Some(if st.ops[id].abandoned || st.closed then Refused(id) else Begun(id))
    case FailStep(id) =>
      if id !in st.ops || st.ops[id].kind == Unbind || st.ops[id].abandoned || st.closed then None else Some(Begun(id))
    case EndStep(id) => Some(Ended(id))
    case WriteStep => Some(if st.closed then Dropped(st.pending[0]) else Written(st.pending[0]))
    case _ => None
  }

  /** What a step adds to the answers that wait. */
  function Queued(st: State, step: Step): Option<Answer>
    requires Enabled(st, step)
  {
    match step
    case CancelStep(id, named) =>
      Some(if named.None? then OfCancel(id, PROTOCOL_ERROR)
           else if named.value in st.registered && named.value in st.ops then CanceledTarget(named.value)
           else OfCancel(id, NO_SUCH_OPERATION))
    case SendStep(id) =>
      if st.ops[id].abandoned || st.closed then None else Some(OfApplication(AppResponse(id, |st.log|)))
    case FailStep(id) =>
      if id !in st.ops || st.ops[id].kind == Unbind || st.ops[id].abandoned || st.closed then None
      else Some(OfApplication(FailResponse(id, |st.log|)))
    case ReaderStep => if st.reader.AnsweringTarget? then Some(OfCancel(st.reader.cancelId, CANCELED)) else None
    case _ => None
  }

  lemma PendingMoves(st: State, step: Step)
    requires Enabled(st, step)
    ensures Take(st, step).pending ==
            if step.WriteStep? then st.pending[1..]
            else if Queued(st, step).Some? then st.pending + [Queued(st, step).value] else st.pending
  {
  }

  /** An application's answer is queued when it begins, and only if its operation
      was not given up. */
  lemma QueuedBegins(st: State, step: Step)
    requires Enabled(st, step) && Queued(st, step).Some? && Queued(st, step).value.OfApplication?
    ensures var w := Queued(st, step).value.write;
            && w.at == |st.log| && Added(st, step) == Some(Begun(w.id))
            && w.id in st.ops && !st.ops[w.id].abandoned
  {
  }

  /** What is pending after a step was pending, or is what the step queued. */
  lemma PendingFrom(st: State, step: Step)
    requires Enabled(st, step)
    ensures forall a :: a in Take(st, step).pending ==> a in st.pending || Some(a) == Queued(st, step)
  {
    PendingMoves(st, step);
    hide Take;
    hide Queued;
  }

  lemma LogGrows(st: State, step: Step)
    requires Enabled(st, step)
    ensures Take(st, step).log == if Added(st, step).Some? then st.log + [Added(st, step).value] else st.log
  {
  }

  lemma KnownKept(st: State, step: Step)
    requires Known(st) && Enabled(st, step)
    ensures Known(Take(st, step))
  {
    LogGrows(st, step);
    var after, e := Take(st, step), Added(st, step);
    assert after.registered <= after.ops.Keys && after.running + after.failing <= after.ops.Keys;
    forall id
      ensures id in after.ops <==> Requested(id) in after.log
      ensures Ended(id) in after.log ==> id in after.ops
      ensures id in after.registered <==> id in after.ops && !after.ops[id].abandoned && Ended(id) !in after.log
    {
      KnownOf(st, step, id);
      if e.Some? { LoggedToo(st.log, e.value, Requested(id)); LoggedToo(st.log, e.value, Ended(id)); }
    }
    hide *;
    KnownFrom(after);
  }

  lemma LoggedToo(log: seq<Event>, e: Event, x: Event)
    ensures x in log + [e] <==> x in log || x == e
  {
  }

  lemma KnownFrom(st: State)
    requires st.registered <= st.ops.Keys && st.running + st.failing <= st.ops.Keys
    requires forall id :: id in st.ops <==> Requested(id) in st.log
    requires forall id :: Ended(id) in st.log ==> id in st.ops
    requires forall id :: id in st.registered <==> id in st.ops && !st.ops[id].abandoned && Ended(id) !in st.log
    ensures Known(st)
  {
  }

  lemma KnownOf(st: State, step: Step, id: Id)
    requires Known(st) && Enabled(st, step)
    ensures var after, e := Take(st, step), Added(st, step);
            && (id in after.ops <==> id in st.ops || e == Some(Requested(id)))
            && (e == Some(Ended(id)) ==> id in st.ops)
            && (id in after.registered <==>
                  id in after.ops && !after.ops[id].abandoned && Ended(id) !in st.log && e != Some(Ended(id)))
  {
  }

  /** Only an abandon or a cancel marks an operation: the one that it names, and
      only if that was requested and has not ended. */
  lemma MarkedBy(st: State, step: Step, id: Id)
    requires Known(st) && Enabled(st, step) && id in Take(st, step).ops
    ensures var e := Added(st, step);
            Take(st, step).ops[id].abandoned <==>
              (id in st.ops && st.ops[id].abandoned)
              || (e.Some? && Names(e.value, id) && Requested(id) in st.log && Ended(id) !in st.log)
  {
  }

  lemma MarkedKept(st: State, step: Step)
    requires Known(st) && Marked(st) && Enabled(st, step)
    ensures Marked(Take(st, step))
  {
    var after, e := Take(st, step), Added(st, step);
    LogGrows(st, step);
    forall id | id in after.ops ensures after.ops[id].abandoned <==> GivenUp(after.log, id, |after.log|) {
      MarkedBy(st, step, id);
      if e.Some? { GivenUpBy(st.log, e.value, id); }
      if id !in st.ops { NeverRequested(st, id); }
    }
  }

  lemma NeverRequested(st: State, id: Id)
    requires Known(st) && id !in st.ops
    ensures !GivenUp(st.log, id, |st.log|)
  {
  }

  lemma InTimeKept(st: State, step: Step)
    requires Known(st) && Marked(st) && InTime(st) && Enabled(st, step)
    ensures InTime(Take(st, step))
  {
    LogGrows(st, step);
    var e := Added(st, step);
    if e.Some? {
      if e.value.Begun? {
        assert (step.SendStep? || step.FailStep?) && step.id in st.ops && !st.ops[step.id].abandoned;
        assert !GivenUp(st.log, step.id, |st.log|);
      }
      hide *;
      InTimeAdded(st, step);
    }
  }

  lemma InTimeAdded(st: State, step: Step)
    requires Enabled(st, step) && InTime(st) && Added(st, step).Some?
    requires var e := Added(st, step).value; e.Begun? ==> !GivenUp(st.log, e.id, |st.log|)
    ensures InTime(Take(st, step))
  {
    LogGrows(st, step);
    InTimeLogged(st.log, Added(st, step).value);
  }

  lemma FromSendsKept(st: State, step: Step)
    requires FromSends(st) && Enabled(st, step)
    ensures FromSends(Take(st, step))
  {
    var after, e := Take(st, step), Added(st, step);
    LogGrows(st, step);
    PendingFrom(st, step);
    if Queued(st, step).Some? && Queued(st, step).value.OfApplication? { QueuedBegins(st, step); }
    assert e.Some? && IsWrite(e.value) ==> step.WriteStep? && Reply(e.value).value in st.pending;
    hide Take;
    hide Queued;
    hide Added;
    forall a | a in after.pending && a.OfApplication? ensures Begins(after.log, a.write, |after.log|) {
      if a in st.pending && e.Some? { BeginsLonger(st.log, e.value, a.write, |st.log|); }
    }
    forall k | 0 <= k < |after.log| && IsWrite(after.log[k])
      ensures Begins(after.log, Reply(after.log[k]).value.write, k)
    {
      if k < |st.log| {
        assert after.log[k] == st.log[k];
        if e.Some? { BeginsLonger(st.log, e.value, Reply(st.log[k]).value.write, k); }
      } else {
        BeginsLonger(st.log, e.value, Reply(e.value).value.write, |st.log|);
      }
    }
  }

  // ------------------------------------------------------------------ the queue

  /** At most one of the answers that wait is the reader's, and the reader waits for
      it. */
  ghost predicate OneOfReader(st: State) {
    && (forall i, j :: 0 <= i < j < |st.pending| ==> st.pending[i].OfApplication? || st.pending[j].OfApplication?)
    && (forall a :: a in st.pending ==> WaitsFor(st.reader, a))
  }

  predicate WaitsFor(reader: Reader, a: Answer) {
    match a
    case OfApplication(_) => true
    case CanceledTarget(t) => reader.AnsweringTarget? && reader.target == t
    case OfCancel(c, code) => reader == AnsweringCancel(c, code)
  }

  lemma FirstLeaves(pending: seq<Answer>)
    requires pending != []
    requires forall i, j :: 0 <= i < j < |pending| ==> pending[i].OfApplication? || pending[j].OfApplication?
    ensures !pending[0].OfApplication? ==> pending[0] !in pending[1..]
    ensures forall a :: a in pending <==> a == pending[0] || a in pending[1..]
  {
  }

  /** The reader takes its place only when nothing of it waits. */
  lemma ReaderAlone(st: State, step: Step)
    requires OneOfReader(st) && Enabled(st, step) && (step.ReaderStep? || step.CancelStep? || step.RequestStep?)
    ensures forall a :: a in st.pending ==> a.OfApplication?
  {
  }

  lemma ReaderStays(st: State, step: Step)
    requires Enabled(st, step) && !(step.ReaderStep? || step.CancelStep? || step.RequestStep?)
    ensures Take(st, step).reader == st.reader || (st.reader.Upgrading? && Take(st, step).reader == Idle)
    ensures Queued(st, step).Some? ==> Queued(st, step).value.OfApplication?
  {
  }

  lemma QueuedWaits(st: State, step: Step)
    requires Enabled(st, step) && Queued(st, step).Some?
    ensures WaitsFor(Take(st, step).reader, Queued(st, step).value)
  {
  }

  lemma OneOfReaderKept(st: State, step: Step)
    requires OneOfReader(st) && Enabled(st, step)
    ensures OneOfReader(Take(st, step))
  {
    PendingMoves(st, step);
    PendingFrom(st, step);
    if Queued(st, step).Some? { QueuedWaits(st, step); }
    if step.ReaderStep? || step.CancelStep? || step.RequestStep? {
      ReaderAlone(st, step);
    } else {
      ReaderStays(st, step);
    }
    hide Take;
    hide Queued;
    hide Enabled;
  }

  /** The responses that began, in the order they did. */
  function BegunIn(log: seq<Event>): seq<(Id, nat)> {
    if log == [] then []
    else
      var n := |log| - 1;
      BegunIn(log[..n]) + (if log[n].Begun? then [(log[n].id, n)] else [])
  }

  /** Those whose turn came, in that order. */
  function TurnsIn(log: seq<Event>): seq<(Id, nat)> {
    if log == [] then []
    else
      var n := |log| - 1;
      TurnsIn(log[..n]) + (if IsWrite(log[n]) then OneTurn(Reply(log[n]).value) else [])
  }

  function OneTurn(a: Answer): seq<(Id, nat)> {
    if a.OfApplication? then [(a.write.id, a.write.at)] else []
  }

  function TurnsOf(pending: seq<Answer>): seq<(Id, nat)> {
    if pending == [] then [] else OneTurn(pending[0]) + TurnsOf(pending[1..])
  }

  /** No response was lost, doubled or overtaken. */
  ghost predicate InTurn(st: State) {
    TurnsIn(st.log) + TurnsOf(st.pending) == BegunIn(st.log)
  }

  lemma {:induction false} TurnsSnoc(pending: seq<Answer>, a: Answer)
    ensures TurnsOf(pending + [a]) == TurnsOf(pending) + OneTurn(a)
  {
    if pending == [] {
      assert pending + [a] == [a] && [a][1..] == [];
    } else {
      assert (pending + [a])[1..] == pending[1..] + [a];
      TurnsSnoc(pending[1..], a);
    }
  }

  lemma OneMoreEvent(log: seq<Event>, e: Event)
    ensures BegunIn(log + [e]) == BegunIn(log) + (if e.Begun? then [(e.id, |log|)] else [])
    ensures TurnsIn(log + [e]) == TurnsIn(log) + (if IsWrite(e) then OneTurn(Reply(e).value) else [])
  {
    assert (log + [e])[..|log|] == log;
  }

  lemma InTurnWritten(log: seq<Event>, e: Event, pending: seq<Answer>)
    requires pending != [] && !e.Begun? && Reply(e) == Some(pending[0])
    requires TurnsIn(log) + TurnsOf(pending) == BegunIn(log)
    ensures TurnsIn(log + [e]) + TurnsOf(pending[1..]) == BegunIn(log + [e])
  {
    OneMoreEvent(log, e);
    Regroup(TurnsIn(log), OneTurn(pending[0]), TurnsOf(pending[1..]));
    NothingBehind(BegunIn(log));
    assert TurnsOf(pending) == OneTurn(pending[0]) + TurnsOf(pending[1..]);
    hide TurnsIn;
    hide TurnsOf;
    hide BegunIn;
    assert IsWrite(e) || OneTurn(pending[0]) == [];
  }

  lemma NothingBehind<T>(s: seq<T>)
    ensures s + [] == s
  {
  }

  lemma InTurnLogged(log: seq<Event>, e: Event, pending: seq<Answer>, a: Option<Answer>)
    requires !IsWrite(e)
    requires (if a.Some? then OneTurn(a.value) else []) == (if e.Begun? then [(e.id, |log|)] else [])
    requires TurnsIn(log) + TurnsOf(pending) == BegunIn(log)
    ensures TurnsIn(log + [e]) + TurnsOf(if a.Some? then pending + [a.value] else pending) == BegunIn(log + [e])
  {
    OneMoreEvent(log, e);
    NothingBehind(TurnsIn(log));
    NothingBehind(BegunIn(log));
    if a.Some? {
      TurnsSnoc(pending, a.value);
      Regroup(TurnsIn(log), TurnsOf(pending), OneTurn(a.value));
    }
    hide TurnsIn;
    hide TurnsOf;
    hide BegunIn;
  }

  lemma InTurnQueued(log: seq<Event>, pending: seq<Answer>, a: Answer)
    requires OneTurn(a) == [] && TurnsIn(log) + TurnsOf(pending) == BegunIn(log)
    ensures TurnsIn(log) + TurnsOf(pending + [a]) == BegunIn(log)
  {
    TurnsSnoc(pending, a);
    NothingBehind(TurnsOf(pending));
    hide TurnsIn;
    hide TurnsOf;
    hide BegunIn;
  }

  lemma InTurnKept(st: State, step: Step)
    requires InTurn(st) && Enabled(st, step)
    ensures InTurn(Take(st, step))
  {
    var e, a := Added(st, step), Queued(st, step);
    PendingMoves(st, step);
    LogGrows(st, step);
    TurnsMatch(st, step);
    assert step.WriteStep? ==> st.pending != [];
    hide Take;
    hide Enabled;
    hide Queued;
    hide Added;
    hide TurnsIn;
    hide TurnsOf;
    hide BegunIn;
    hide OneTurn;
    if step.WriteStep? {
      InTurnWritten(st.log, e.value, st.pending);
    } else if e.Some? {
      InTurnLogged(st.log, e.value, st.pending, a);
    } else if a.Some? {
      InTurnQueued(st.log, st.pending, a.value);
    }
  }

  lemma TurnsMatch(st: State, step: Step)
    requires Enabled(st, step)
    ensures var e, a := Added(st, step), Queued(st, step);
            && (step.WriteStep? ==> e.Some? && !e.value.Begun? && Reply(e.value) == Some(st.pending[0]))
            && (!step.WriteStep? ==> e.Some? ==> !IsWrite(e.value))
            && (!step.WriteStep? ==>
                  (if a.Some? then OneTurn(a.value) else []) ==
                  (if e.Some? && e.value.Begun? then [(e.value.id, |st.log|)] else []))
  {
  }

  lemma {:induction false} BegunAscend(log: seq<Event>)
    ensures forall i :: 0 <= i < |BegunIn(log)| ==> BegunIn(log)[i].1 < |log|
    ensures forall i, j :: 0 <= i < j < |BegunIn(log)| ==> BegunIn(log)[i].1 < BegunIn(log)[j].1
  {
    if log != [] { BegunAscend(log[..|log| - 1]); }
  }

  /** The turn at position `k` of the log, among all turns. */
  lemma {:induction false} TurnAt(log: seq<Event>, k: nat) returns (i: nat)
    requires k < |log| && IsWrite(log[k])
    ensures i == |TurnsIn(log[..k])| < |TurnsIn(log)|
    ensures [TurnsIn(log)[i]] == OneTurn(Reply(log[k]).value)
    decreases |log|
  {
    var n := |log| - 1;
    if k < n {
      assert log[..n][..k] == log[..k];
      i := TurnAt(log[..n], k);
    } else {
      i := |TurnsIn(log[..k])|;
    }
  }

  // ------------------------------------------------------------------- cancels

  predicate Asks(e: Event, c: Id) {
    e.CancelNamed? && e.cancelId == c
  }

  predicate Answers(e: Event, c: Id) {
    Reply(e).Some? && Reply(e).value.OfCancel? && Reply(e).value.cancelId == c
  }

  predicate Stops(e: Event, t: Id) {
    Reply(e) == Some(CanceledTarget(t))
  }

  ghost predicate Asked(log: seq<Event>, c: Id) {
    exists i :: 0 <= i < |log| && Asks(log[i], c)
  }

  ghost predicate Answered(log: seq<Event>, c: Id) {
    exists k :: 0 <= k < |log| && Answers(log[k], c)
  }

  ghost predicate Stopped(log: seq<Event>, t: Id) {
    exists k :: 0 <= k < |log| && Stops(log[k], t)
  }

  /** The Cancel `c` named `t`, and `t` was then told that it was canceled. */
  ghost predicate StoppedFor(log: seq<Event>, c: Id, t: Id, n: nat)
    requires n <= |log|
  {
    exists i, j :: 0 <= i < j < n && log[i] == CancelNamed(c, Some(t)) && log[j] == Written(CanceledTarget(t))
  }

  ghost predicate AskedOnce(log: seq<Event>) {
    forall i, j :: 0 <= i < j < |log| && log[i].CancelNamed? ==> !Asks(log[j], log[i].cancelId)
  }

  ghost predicate AnsweredOnce(log: seq<Event>) {
    forall k, l, c :: 0 <= k < l < |log| && Answers(log[k], c) ==> !Answers(log[l], c)
  }

  ghost predicate StoppedOnce(log: seq<Event>) {
    forall k, l, t :: 0 <= k < l < |log| && Stops(log[k], t) ==> !Stops(log[l], t)
  }

  /** The answer to a Cancel is still to be written. */
  predicate Owed(st: State, c: Id) {
    match st.reader
    case AnsweringTarget(id, _) => id == c
    case AnsweringCancel(id, code) => id == c && OfCancel(id, code) in st.pending
    case _ => false
  }

  /** A Cancel is owed an answer or was answered once, and nothing else is. */
  ghost predicate Settled(st: State) {
    && AskedOnce(st.log) && AnsweredOnce(st.log)
    && (forall c :: Owed(st, c) ==> Asked(st.log, c) && !Answered(st.log, c))
    && (forall c :: Asked(st.log, c) ==> Owed(st, c) || Answered(st.log, c))
    && (forall c :: Answered(st.log, c) ==> Asked(st.log, c))
  }

  /** An operation is told at most once that it was canceled. */
  ghost predicate ToldOnce(st: State) {
    && StoppedOnce(st.log)
    && (forall t :: Stopped(st.log, t) ==> t in st.ops && st.ops[t].abandoned)
    && (forall t :: CanceledTarget(t) in st.pending ==> !Stopped(st.log, t) && t in st.ops && st.ops[t].abandoned)
  }

  /** A Cancel that is answered with `canceled` has stopped its operation, which
      was told so before. */
  ghost predicate ToldFirst(st: State) {
    && (forall k :: 0 <= k < |st.log| && st.log[k].Dropped? ==> st.closed)
    && (st.reader.AnsweringTarget? ==> TargetTold(st, st.reader.cancelId, st.reader.target))
    && (forall c :: OfCancel(c, CANCELED) in st.pending ==> st.closed || StoppedBy(st.log, c, |st.log|))
    && (forall k :: 0 <= k < |st.log| && Confirms(st.log[k]) ==> StoppedBy(st.log, st.log[k].answer.cancelId, k))
  }

  /** The Cancel named the operation, which was told, or is about to be. */
  ghost predicate TargetTold(st: State, c: Id, t: Id) {
    && CancelNamed(c, Some(t)) in st.log
    && (st.closed || CanceledTarget(t) in st.pending || StoppedFor(st.log, c, t, |st.log|))
  }

  ghost predicate StoppedBy(log: seq<Event>, c: Id, n: nat)
    requires n <= |log|
  {
    exists t :: StoppedFor(log, c, t, n)
  }

  /** A response of the operation. */
  predicate ResponseOf(a: Answer, t: Id) {
    a.OfApplication? && a.write.id == t
  }

  /** Nothing of an operation comes behind the answer that it was canceled. */
  ghost predicate NoneBehind(st: State) {
    && (forall i, j, t ::
          0 <= i < j < |st.pending| && st.pending[i] == CanceledTarget(t) ==> !ResponseOf(st.pending[j], t))
    && (forall i, t :: 0 <= i < |st.pending| && Stopped(st.log, t) ==> !ResponseOf(st.pending[i], t))
    && NoneBehindIn(st.log)
  }

  ghost predicate NoneBehindIn(log: seq<Event>) {
    forall j, k, t :: 0 <= j < k < |log| && Stops(log[j], t) ==>
      !(IsWrite(log[k]) && ResponseOf(Reply(log[k]).value, t))
  }

  predicate Confirms(e: Event) {
    e.Written? && e.answer.OfCancel? && e.answer.code == CANCELED
  }

  lemma AskedMore(log: seq<Event>, e: Event, c: Id)
    ensures Asked(log + [e], c) <==> Asked(log, c) || Asks(e, c)
    ensures Answered(log + [e], c) <==> Answered(log, c) || Answers(e, c)
    ensures Stopped(log + [e], c) <==> Stopped(log, c) || Stops(e, c)
  {
    var more := log + [e];
    assert more[|log|] == e;
    assert forall i :: 0 <= i < |log| ==> more[i] == log[i];
    if Asked(log, c) { var i :| 0 <= i < |log| && Asks(log[i], c); assert Asks(more[i], c); }
    if Answered(log, c) { var i :| 0 <= i < |log| && Answers(log[i], c); assert Answers(more[i], c); }
    if Stopped(log, c) { var i :| 0 <= i < |log| && Stops(log[i], c); assert Stops(more[i], c); }
    hide Asks;
    hide Answers;
    hide Stops;
  }

  lemma OnceMore(log: seq<Event>, e: Event)
    requires AskedOnce(log) && (e.CancelNamed? ==> !Asked(log, e.cancelId))
    requires AnsweredOnce(log) && forall c :: Answers(e, c) ==> !Answered(log, c)
    ensures AskedOnce(log + [e]) && AnsweredOnce(log + [e])
  {
    var more := log + [e];
    assert forall i :: 0 <= i < |log| ==> more[i] == log[i];
    hide Answers;
    forall k, l, c | 0 <= k < l < |more| && Answers(more[k], c) ensures !Answers(more[l], c) {
      assert Answers(log[k], c);
      if l < |log| { assert !Answers(log[l], c); }
    }
    forall i, j | 0 <= i < j < |more| && more[i].CancelNamed? ensures !Asks(more[j], more[i].cancelId) {
      assert Asks(log[i], log[i].cancelId);
      if j < |log| { assert !Asks(log[j], log[i].cancelId); }
    }
  }

  lemma SettledKept(st: State, step: Step)
    requires Settled(st) && OneOfReader(st) && Enabled(st, step)
    ensures Settled(Take(st, step))
  {
    LogGrows(st, step);
    var after, e := Take(st, step), Added(st, step);
    forall c ensures OwedMoves(st, step, c) { OwedMovesSo(st, step, c); }
    if e.Some? {
      assert forall c :: Answers(e.value, c) ==> OwedMoves(st, step, c);
      assert e.value.CancelNamed? ==> !Asked(st.log, e.value.cancelId) by {
        if e.value.CancelNamed? { NotAsked(st, e.value.cancelId); }
      }
      OnceMore(st.log, e.value);
      forall c ensures Owed(after, c) ==> Asked(after.log, c) && !Answered(after.log, c)
               ensures Asked(after.log, c) ==> Owed(after, c) || Answered(after.log, c)
               ensures Answered(after.log, c) ==> Asked(after.log, c)
      {
        AskedMore(st.log, e.value, c);
        assert OwedMoves(st, step, c);
        if Asks(e.value, c) { NotAsked(st, c); }
      }
    } else {
      assert forall c :: OwedMoves(st, step, c);
    }
    hide *;
    SettledFrom(after);
  }

  lemma NotAsked(st: State, c: Id)
    requires Settled(st) && Unused(st, c)
    ensures !Asked(st.log, c) && !Answered(st.log, c)
  {
  }

  /** A Cancel is owed its answer from when it comes until it is answered. */
  ghost predicate OwedMoves(st: State, step: Step, c: Id)
    requires Enabled(st, step)
  {
    var after, e := Take(st, step), Added(st, step);
    && (Owed(after, c) <==> (Owed(st, c) && !(e.Some? && Answers(e.value, c))) || (e.Some? && Asks(e.value, c)))
    && (e.Some? && Answers(e.value, c) ==> Owed(st, c))
    && (e.Some? && Asks(e.value, c) ==> !Owed(st, c) && !Answers(e.value, c) && Unused(st, c))
  }

  lemma OwedMovesSo(st: State, step: Step, c: Id)
    requires OneOfReader(st) && Enabled(st, step)
    ensures OwedMoves(st, step, c)
  {
    PendingMoves(st, step);
    if step.WriteStep? { FirstLeaves(st.pending); }
  }

  lemma SettledFrom(st: State)
    requires AskedOnce(st.log) && AnsweredOnce(st.log)
    requires forall c :: Owed(st, c) ==> Asked(st.log, c) && !Answered(st.log, c)
    requires forall c :: Asked(st.log, c) ==> Owed(st, c) || Answered(st.log, c)
    requires forall c :: Answered(st.log, c) ==> Asked(st.log, c)
    ensures Settled(st)
  {
  }

  lemma StoppedOnceMore(log: seq<Event>, e: Event)
    requires StoppedOnce(log) && forall t :: Stops(e, t) ==> !Stopped(log, t)
    ensures StoppedOnce(log + [e])
  {
    var more := log + [e];
    assert forall i :: 0 <= i < |log| ==> more[i] == log[i];
    hide Stops;
    forall k, l, t | 0 <= k < l < |more| && Stops(more[k], t) ensures !Stops(more[l], t) {
      assert Stops(log[k], t);
      if l < |log| { assert !Stops(log[l], t); }
    }
  }

  lemma StaysAbandoned(st: State, step: Step, t: Id)
    requires Enabled(st, step) && t in st.ops && st.ops[t].abandoned
    ensures t in Take(st, step).ops && Take(st, step).ops[t].abandoned
  {
  }

  /** Only the first that waits stops its operation, and only a Cancel queues the
      answer that does, for an operation that was not given up before. */
  lemma StopsMoves(st: State, step: Step)
    requires Known(st) && Enabled(st, step)
    ensures var e, a, after := Added(st, step), Queued(st, step), Take(st, step);
            && (forall t :: e.Some? && Stops(e.value, t) ==> step.WriteStep? && st.pending[0] == CanceledTarget(t))
            && (forall t :: a == Some(CanceledTarget(t)) ==>
                  t in st.ops && !st.ops[t].abandoned && t in after.ops && after.ops[t].abandoned && !step.WriteStep?)
  {
  }

  lemma ToldOnceKept(st: State, step: Step)
    requires Known(st) && ToldOnce(st) && OneOfReader(st) && Enabled(st, step)
    ensures ToldOnce(Take(st, step))
  {
    LogGrows(st, step);
    StopsMoves(st, step);
    TellsMoves(st, step);
    var after, e := Take(st, step), Added(st, step);
    forall t | t in st.ops && st.ops[t].abandoned ensures t in after.ops && after.ops[t].abandoned {
      StaysAbandoned(st, step, t);
    }
    hide *;
    ToldOnceAfter(st, step, after, e);
  }

  /** The operations about to be told: those that were and are not told now, and the
      one that a Cancel names. */
  lemma TellsMoves(st: State, step: Step)
    requires Known(st) && OneOfReader(st) && Enabled(st, step)
    ensures var e, after := Added(st, step), Take(st, step);
            forall t :: CanceledTarget(t) in after.pending ==>
              && !(e.Some? && Stops(e.value, t))
              && (CanceledTarget(t) in st.pending
                  || (t in st.ops && !st.ops[t].abandoned && t in after.ops && after.ops[t].abandoned))
    ensures forall t :: Added(st, step).Some? && Stops(Added(st, step).value, t) ==> CanceledTarget(t) in st.pending
  {
    PendingMoves(st, step);
    PendingFrom(st, step);
    StopsMoves(st, step);
    if step.WriteStep? { FirstLeaves(st.pending); }
    hide Take;
    hide Added;
    hide Queued;
  }

  lemma ToldOnceAfter(st: State, step: Step, after: State, e: Option<Event>)
    requires ToldOnce(st) && after.log == if e.Some? then st.log + [e.value] else st.log
    requires forall t :: t in st.ops && st.ops[t].abandoned ==> t in after.ops && after.ops[t].abandoned
    requires forall t :: CanceledTarget(t) in after.pending ==>
               && !(e.Some? && Stops(e.value, t))
               && (CanceledTarget(t) in st.pending
                   || (t in st.ops && !st.ops[t].abandoned && t in after.ops && after.ops[t].abandoned))
    requires forall t :: e.Some? && Stops(e.value, t) ==> CanceledTarget(t) in st.pending
    ensures ToldOnce(after)
  {
    hide Stopped;
    hide StoppedOnce;
    hide Stops;
    if e.Some? {
      StoppedOnceMore(st.log, e.value);
      forall t ensures Stopped(after.log, t) <==> Stopped(st.log, t) || Stops(e.value, t) {
        AskedMore(st.log, e.value, t);
      }
    }
  }

  lemma StoppedForLonger(log: seq<Event>, e: Event, c: Id, t: Id, n: nat)
    requires n <= |log| && StoppedFor(log, c, t, n)
    ensures StoppedFor(log + [e], c, t, n) && StoppedFor(log + [e], c, t, |log| + 1)
  {
    var i, j :| 0 <= i < j < n && log[i] == CancelNamed(c, Some(t)) && log[j] == Written(CanceledTarget(t));
    var more := log + [e];
    assert more[i] == CancelNamed(c, Some(t)) && more[j] == Written(CanceledTarget(t));
  }

  lemma StoppedForNow(log: seq<Event>, c: Id, t: Id, i: nat)
    requires i < |log| && log[i] == CancelNamed(c, Some(t))
    ensures StoppedFor(log + [Written(CanceledTarget(t))], c, t, |log| + 1)
  {
    var more := log + [Written(CanceledTarget(t))];
    assert more[i] == CancelNamed(c, Some(t)) && more[|log|] == Written(CanceledTarget(t));
  }

  lemma StoppedByLonger(log: seq<Event>, e: Event, c: Id, n: nat)
    requires n <= |log| && StoppedBy(log, c, n)
    ensures StoppedBy(log + [e], c, n) && StoppedBy(log + [e], c, |log| + 1)
  {
    var t :| StoppedFor(log, c, t, n);
    StoppedForLonger(log, e, c, t, n);
  }

  lemma DroppedKept(st: State, step: Step)
    requires ToldFirst(st) && Enabled(st, step)
    ensures forall k :: 0 <= k < |Take(st, step).log| && Take(st, step).log[k].Dropped? ==> Take(st, step).closed
  {
    LogGrows(st, step);
    var after := Take(st, step);
    forall k | 0 <= k < |after.log| && after.log[k].Dropped? ensures after.closed {
      if k < |st.log| { assert after.log[k] == st.log[k]; }
    }
  }

  /** What a step may do to the operation that the reader is telling. */
  lemma TellingMoves(st: State, step: Step)
    requires Enabled(st, step) && Take(st, step).reader.AnsweringTarget?
    ensures var after, e := Take(st, step), Added(st, step);
            var c, t := after.reader.cancelId, after.reader.target;
            || (e == Some(CancelNamed(c, Some(t))) && CanceledTarget(t) in after.pending)
            || (st.reader == after.reader && (st.closed ==> after.closed)
                && (CanceledTarget(t) in st.pending && !st.closed ==>
                      CanceledTarget(t) in after.pending || e == Some(Written(CanceledTarget(t)))))
  {
    PendingMoves(st, step);
  }

  lemma TargetToldKept(st: State, step: Step)
    requires ToldFirst(st) && Enabled(st, step) && Take(st, step).reader.AnsweringTarget?
    ensures TargetTold(Take(st, step), Take(st, step).reader.cancelId, Take(st, step).reader.target)
  {
    LogGrows(st, step);
    TellingMoves(st, step);
    var after, e := Take(st, step), Added(st, step);
    var c, t := after.reader.cancelId, after.reader.target;
    hide Take;
    hide Added;
    hide Enabled;
    if e == Some(CancelNamed(c, Some(t))) && CanceledTarget(t) in after.pending {
      assert after.log[|st.log|] == CancelNamed(c, Some(t));
    } else {
      var i: nat :| i < |st.log| && st.log[i] == CancelNamed(c, Some(t));
      assert after.log[i] == CancelNamed(c, Some(t));
      if e.Some? && StoppedFor(st.log, c, t, |st.log|) { StoppedForLonger(st.log, e.value, c, t, |st.log|); }
      if e == Some(Written(CanceledTarget(t))) { StoppedForNow(st.log, c, t, i); }
    }
    hide StoppedFor;
  }

  /** The answer 118 is queued only once the reader's target was told. */
  lemma CodeQueued(st: State, step: Step, c: Id)
    requires ToldFirst(st) && Enabled(st, step) && Queued(st, step) == Some(OfCancel(c, CANCELED))
    ensures Added(st, step) == None && Take(st, step).closed == st.closed
    ensures st.closed || StoppedBy(st.log, c, |st.log|)
  {
    assert step.ReaderStep? && st.reader.AnsweringTarget? && st.reader.cancelId == c;
    assert TargetTold(st, c, st.reader.target);
  }

  lemma CodeKept(st: State, step: Step, c: Id)
    requires ToldFirst(st) && Enabled(st, step) && OfCancel(c, CANCELED) in Take(st, step).pending
    ensures Take(st, step).closed || StoppedBy(Take(st, step).log, c, |Take(st, step).log|)
  {
    LogGrows(st, step);
    PendingFrom(st, step);
    assert st.closed ==> Take(st, step).closed;
    if OfCancel(c, CANCELED) in st.pending {
      if Added(st, step).Some? && !st.closed { StoppedByLonger(st.log, Added(st, step).value, c, |st.log|); }
    } else {
      CodeQueued(st, step, c);
    }
    hide StoppedBy;
    hide Take;
  }

  lemma ConfirmsFirst(st: State, step: Step)
    requires Enabled(st, step) && Added(st, step).Some? && Confirms(Added(st, step).value)
    ensures !st.closed && OfCancel(Added(st, step).value.answer.cancelId, CANCELED) in st.pending
  {
  }

  lemma ConfirmsKept(st: State, step: Step)
    requires ToldFirst(st) && Enabled(st, step)
    ensures var log := Take(st, step).log;
            forall k :: 0 <= k < |log| && Confirms(log[k]) ==> StoppedBy(log, log[k].answer.cancelId, k)
  {
    LogGrows(st, step);
    var log, e := Take(st, step).log, Added(st, step);
    if e.Some? && Confirms(e.value) { ConfirmsFirst(st, step); }
    hide Take;
    hide Added;
    hide Enabled;
    forall k | 0 <= k < |log| && Confirms(log[k]) ensures StoppedBy(log, log[k].answer.cancelId, k) {
      if k < |st.log| {
        assert log[k] == st.log[k];
        if e.Some? { StoppedByLonger(st.log, e.value, st.log[k].answer.cancelId, k); }
      } else {
        StoppedByLonger(st.log, e.value, e.value.answer.cancelId, |st.log|);
      }
    }
    hide StoppedBy;
  }

  lemma ToldFirstKept(st: State, step: Step)
    requires ToldFirst(st) && Enabled(st, step)
    ensures ToldFirst(Take(st, step))
  {
    DroppedKept(st, step);
    ConfirmsKept(st, step);
    if Take(st, step).reader.AnsweringTarget? { TargetToldKept(st, step); }
    forall c | OfCancel(c, CANCELED) in Take(st, step).pending
      ensures Take(st, step).closed || StoppedBy(Take(st, step).log, c, |Take(st, step).log|)
    {
      CodeKept(st, step, c);
    }
    hide Take;
    hide Enabled;
    hide StoppedBy;
    hide TargetTold;
  }

  /** An operation that was told, or is about to be, queues nothing more. */
  lemma QueuedElse(st: State, step: Step, t: Id)
    requires Known(st) && ToldOnce(st) && Enabled(st, step)
    requires CanceledTarget(t) in st.pending || Stopped(st.log, t)
    ensures Queued(st, step).Some? ==> !ResponseOf(Queued(st, step).value, t)
  {
    if Queued(st, step).Some? && Queued(st, step).value.OfApplication? { QueuedBegins(st, step); }
  }

  lemma NoneBehindLogged(log: seq<Event>, e: Event)
    requires NoneBehindIn(log)
    requires forall t :: Stopped(log, t) ==> !(IsWrite(e) && ResponseOf(Reply(e).value, t))
    ensures NoneBehindIn(log + [e])
  {
    var more := log + [e];
    assert forall i :: 0 <= i < |log| ==> more[i] == log[i];
    forall j, k, t | 0 <= j < k < |more| && Stops(more[j], t)
      ensures !(IsWrite(more[k]) && ResponseOf(Reply(more[k]).value, t))
    {
      assert Stops(log[j], t);
      if k == |log| { assert Stopped(log, t); }
    }
  }

  lemma NoneBehindKept(st: State, step: Step)
    requires Known(st) && ToldOnce(st) && NoneBehind(st) && Enabled(st, step)
    ensures NoneBehind(Take(st, step))
  {
    LogGrows(st, step);
    PendingMoves(st, step);
    StopsMoves(st, step);
    TurnsMatch(st, step);
    var after, e, a := Take(st, step), Added(st, step), Queued(st, step);
    forall t | CanceledTarget(t) in st.pending || Stopped(st.log, t)
      ensures a.Some? ==> !ResponseOf(a.value, t)
    {
      QueuedElse(st, step, t);
    }
    if e.Some? {
      forall t ensures Stopped(after.log, t) <==> Stopped(st.log, t) || Stops(e.value, t) {
        AskedMore(st.log, e.value, t);
      }
    }
    hide Take;
    hide Added;
    hide Enabled;
    hide Queued;
    hide Known;
    hide ToldOnce;
    hide Stopped;
    if e.Some? {
      forall t | Stopped(st.log, t) ensures !(IsWrite(e.value) && ResponseOf(Reply(e.value).value, t)) {
        assert step.WriteStep? ==> !ResponseOf(st.pending[0], t);
      }
      NoneBehindLogged(st.log, e.value);
    }
    hide NoneBehindIn;
    BehindPending(st, step, after, e, a);
  }

  lemma BehindPending(st: State, step: Step, after: State, e: Option<Event>, a: Option<Answer>)
    requires NoneBehind(st) && NoneBehindIn(after.log)
    requires step.WriteStep? ==> st.pending != []
    requires after.pending ==
             if step.WriteStep? then st.pending[1..] else if a.Some? then st.pending + [a.value] else st.pending
    requires forall t :: (CanceledTarget(t) in st.pending || Stopped(st.log, t)) && a.Some? ==> !ResponseOf(a.value, t)
    requires forall t :: Stopped(after.log, t) ==>
               Stopped(st.log, t) || (step.WriteStep? && st.pending[0] == CanceledTarget(t))
    ensures NoneBehind(after)
  {
    hide Stopped;
    hide NoneBehindIn;
    hide ResponseOf;
    forall i, j, t | 0 <= i < j < |after.pending| && after.pending[i] == CanceledTarget(t)
      ensures !ResponseOf(after.pending[j], t)
    {
      if step.WriteStep? {
        assert st.pending[i + 1] == CanceledTarget(t);
        assert !ResponseOf(st.pending[j + 1], t);
      } else {
        assert st.pending[i] == CanceledTarget(t);
      }
    }
    forall i, t | 0 <= i < |after.pending| && Stopped(after.log, t) ensures !ResponseOf(after.pending[i], t) {
      if step.WriteStep? {
        if !Stopped(st.log, t) { assert st.pending[0] == CanceledTarget(t); }
        assert !ResponseOf(st.pending[i + 1], t);
      } else if i < |st.pending| {
        assert !ResponseOf(st.pending[i], t);
      }
    }
  }

  // ------------------------------------------------------------------ every run

  ghost predicate Inv(st: State) {
    && Known(st) && Marked(st) && InTime(st) && FromSends(st) && OneOfReader(st) && InTurn(st)
    && Settled(st) && ToldOnce(st) && ToldFirst(st) && NoneBehind(st)
  }

  lemma InvStart()
    ensures Inv(START)
  {
  }

  lemma InvKept(st: State, step: Step)
    requires Inv(st) && Enabled(st, step)
    ensures Inv(Take(st, step))
  {
    KnownKept(st, step);
    MarkedKept(st, step);
    InTimeKept(st, step);
    FromSendsKept(st, step);
    OneOfReaderKept(st, step);
    InTurnKept(st, step);
    SettledKept(st, step);
    ToldOnceKept(st, step);
    ToldFirstKept(st, step);
    NoneBehindKept(st, step);
    assert Enabled(st, step);
    hide *;
    InvFrom(Take(st, step));
  }

  lemma InvFrom(st: State)
    requires Known(st) && Marked(st) && InTime(st) && FromSends(st) && OneOfReader(st) && InTurn(st)
    requires Settled(st) && ToldOnce(st) && ToldFirst(st) && NoneBehind(st)
    ensures Inv(st)
  {
  }

  lemma {:induction false} InvHolds(states: seq<State>, steps: seq<Step>, n: nat)
    requires Run(states, steps) && n < |states|
    ensures Inv(states[n])
    decreases n
  {
    if n == 0 {
      InvStart();
    } else {
      InvHolds(states, steps, n - 1);
      InvKept(states[n - 1], steps[n - 1]);
    }
  }

  /** A response that is written, an application's or one that reports its failure,
      was begun before, and at that time nothing had named its operation between
      its request and its end. */
  lemma NothingSentAfterwards(states: seq<State>, steps: seq<Step>, n: nat, k: nat, w: Write)
    requires Run(states, steps) && n < |states|
    requires k < |states[n].log| && states[n].log[k] == Written(OfApplication(w))
    ensures w.at < k && states[n].log[w.at] == Begun(w.id) && !GivenUp(states[n].log, w.id, w.at)
  {
    InvHolds(states, steps, n);
    assert IsWrite(states[n].log[k]);
  }

  /** A send is refused exactly when the connection is closed or its operation was
      named between its request and its end: what an application sends after it
      returned is not refused for an abandon or a cancel that came later still. */
  lemma RefusedExactly(states: seq<State>, steps: seq<Step>, n: nat, id: Id)
    requires Run(states, steps) && n < |states| && Enabled(states[n], SendStep(id))
    ensures var st := states[n];
            Added(st, SendStep(id)) ==
                Some(if st.closed || GivenUp(st.log, id, |st.log|) then Refused(id) else Begun(id))
  {
    InvHolds(states, steps, n);
  }

  /** Responses are written in the order in which they were begun. */
  lemma WrittenInTurn(states: seq<State>, steps: seq<Step>, n: nat, k: nat, l: nat, w: Write, v: Write)
    requires Run(states, steps) && n < |states| && k < l < |states[n].log|
    requires states[n].log[k] == Written(OfApplication(w)) && states[n].log[l] == Written(OfApplication(v))
    ensures w.at < v.at
  {
    var log := states[n].log;
    InvHolds(states, steps, n);
    var i := TurnAt(log, k);
    var j := TurnAt(log, l);
    assert i < j by {
      var m := TurnAt(log[..l], k);
      assert log[..l][..k] == log[..k];
    }
    BegunAscend(log);
    assert TurnsIn(log)[i] == (w.id, w.at) && TurnsIn(log)[j] == (v.id, v.at);
    assert BegunIn(log)[i] == TurnsIn(log)[i] && BegunIn(log)[j] == TurnsIn(log)[j];
  }

  /** Each that began has had its turn or still waits for it, once, and in order. */
  lemma AllInTurn(states: seq<State>, steps: seq<Step>, n: nat)
    requires Run(states, steps) && n < |states|
    ensures TurnsIn(states[n].log) + TurnsOf(states[n].pending) == BegunIn(states[n].log)
  {
    InvHolds(states, steps, n);
  }

  /** Nothing of an operation is written behind the answer that it was canceled. */
  lemma NothingBehindCanceled(states: seq<State>, steps: seq<Step>, n: nat, j: nat, k: nat, t: Id, w: Write)
    requires Run(states, steps) && n < |states| && j < k < |states[n].log|
    requires states[n].log[j] == Written(CanceledTarget(t)) && states[n].log[k] == Written(OfApplication(w))
    ensures w.id != t
  {
    InvHolds(states, steps, n);
    assert Stops(states[n].log[j], t) && IsWrite(states[n].log[k]);
  }

  lemma OneCancel(log: seq<Event>, c: Id)
    requires AskedOnce(log)
    ensures forall x, i :: 0 <= x < i < |log| && Asks(log[x], c) ==> !Asks(log[i], c)
  {
    forall x, i | 0 <= x < i < |log| && Asks(log[x], c) ensures !Asks(log[i], c) {
      assert !Asks(log[i], log[x].cancelId);
    }
  }

  /** Nor behind the 118 that answers the Cancel which named it. */
  lemma NothingBehindCancel(states: seq<State>, steps: seq<Step>, n: nat, i: nat, j: nat, k: nat,
                            c: Id, t: Id, w: Write)
    requires Run(states, steps) && n < |states| && i < |states[n].log| && j < k < |states[n].log|
    requires states[n].log[i] == CancelNamed(c, Some(t)) && states[n].log[j] == Written(OfCancel(c, CANCELED))
    requires states[n].log[k] == Written(OfApplication(w))
    ensures w.id != t
  {
    var log := states[n].log;
    InvHolds(states, steps, n);
    assert Confirms(log[j]);
    var u :| StoppedFor(log, c, u, j);
    var x, y :| 0 <= x < y < j && log[x] == CancelNamed(c, Some(u)) && log[y] == Written(CanceledTarget(u));
    OneCancel(log, c);
    assert Asks(log[i], c) && Asks(log[x], c);
    assert x == i;
    hide *;
    NothingBehindCanceled(states, steps, n, y, k, t, w);
  }

  /** Every Cancel is answered exactly once, unless its answer is still to come: no
      answer without a Cancel, no two answers to one. An answer whose turn comes
      when the connection is closed is dropped, and counts as given. */
  lemma EveryCancelAnsweredOnce(states: seq<State>, steps: seq<Step>, n: nat, c: Id)
    requires Run(states, steps) && n < |states|
    ensures var log := states[n].log;
            && (Asked(log, c) <==> Owed(states[n], c) || Answered(log, c))
            && !(Owed(states[n], c) && Answered(log, c))
            && (forall k, l :: 0 <= k < l < |log| && Answers(log[k], c) ==> !Answers(log[l], c))
  {
    InvHolds(states, steps, n);
  }

  /** The code 118 is written only after the operation named was told that it was
      canceled. */
  lemma CanceledIsTrue(states: seq<State>, steps: seq<Step>, n: nat, k: nat, c: Id)
    requires Run(states, steps) && n < |states|
    requires k < |states[n].log| && states[n].log[k] == Written(OfCancel(c, CANCELED))
    ensures exists t :: StoppedFor(states[n].log, c, t, k)
  {
    InvHolds(states, steps, n);
    assert Confirms(states[n].log[k]);
  }

  /** No operation is told twice that it was canceled. */
  lemma NobodyCanceledTwice(states: seq<State>, steps: seq<Step>, n: nat, k: nat, l: nat, t: Id)
    requires Run(states, steps) && n < |states| && k < l < |states[n].log|
    ensures !(Stops(states[n].log[k], t) && Stops(states[n].log[l], t))
  {
    InvHolds(states, steps, n);
  }

  // ------------------------------------------------------------- late responses

  lemma StaysGivenUp(st: State, step: Step, t: Id)
    requires Enabled(st, step) && t in st.ops && st.ops[t].abandoned
    ensures t in Take(st, step).ops && Take(st, step).ops[t].abandoned
    ensures forall a :: ResponseOf(a, t) && a in Take(st, step).pending ==> a in st.pending
    ensures forall a :: ResponseOf(a, t) && Added(st, step) == Some(Written(a)) ==> a in st.pending
  {
    PendingFrom(st, step);
    if Queued(st, step).Some? && Queued(st, step).value.OfApplication? { QueuedBegins(st, step); }
  }

  /** All responses of `t` that were written from a position on are among these. */
  ghost predicate WrittenFrom(log: seq<Event>, from: nat, waiting: seq<Answer>, t: Id) {
    forall k, a :: from <= k < |log| && log[k] == Written(a) && ResponseOf(a, t) ==> a in waiting
  }

  lemma WrittenFromMore(log: seq<Event>, e: Event, from: nat, waiting: seq<Answer>, t: Id)
    requires WrittenFrom(log, from, waiting, t)
    requires forall a :: e == Written(a) && ResponseOf(a, t) ==> a in waiting
    ensures WrittenFrom(log + [e], from, waiting, t)
  {
    hide ResponseOf;
    assert forall k :: 0 <= k < |log| ==> (log + [e])[k] == log[k];
  }

  lemma OnlyWaitingStays(st: State, step: Step, start: nat, waiting: seq<Answer>, t: Id)
    requires Enabled(st, step) && t in st.ops && st.ops[t].abandoned
    requires forall a :: ResponseOf(a, t) && a in st.pending ==> a in waiting
    requires start <= |st.log| && WrittenFrom(st.log, start, waiting, t)
    ensures WrittenFrom(Take(st, step).log, start, waiting, t)
  {
    StaysGivenUp(st, step, t);
    LogGrows(st, step);
    hide Enabled;
    hide Take;
    hide ResponseOf;
    hide WrittenFrom;
    if Added(st, step).Some? {
      WrittenFromMore(st.log, Added(st, step).value, start, waiting, t);
    }
  }

  /** Of an operation that was given up only what waited then is still written. */
  lemma {:induction false} OnlyTheWaiting(states: seq<State>, steps: seq<Step>, p: nat, n: nat, t: Id)
    requires Run(states, steps) && p <= n < |states| && t in states[p].ops && states[p].ops[t].abandoned
    ensures t in states[n].ops && states[n].ops[t].abandoned
    ensures forall a :: ResponseOf(a, t) && a in states[n].pending ==> a in states[p].pending
    ensures |states[p].log| <= |states[n].log|
    ensures WrittenFrom(states[n].log, |states[p].log|, states[p].pending, t)
    decreases n
  {
    hide Enabled;
    hide Take;
    hide ResponseOf;
    if n > p {
      OnlyTheWaiting(states, steps, p, n - 1, t);
      var st, step := states[n - 1], steps[n - 1];
      assert Enabled(st, step) && states[n] == Take(st, step);
      hide Run;
      StaysGivenUp(st, step, t);
      LogGrows(st, step);
      OnlyWaitingStays(st, step, |states[p].log|, states[p].pending, t);
      hide WrittenFrom;
    }
  }

  // ------------------------------------------------------- which code, and why

  /** Requested before position `n`, and neither ended nor given up. */
  ghost predicate RunsAt(log: seq<Event>, t: Id, n: nat)
    requires n <= |log|
  {
    Requested(t) in log[..n] && Ended(t) !in log[..n] && !GivenUp(log, t, n)
  }

  /** What a Cancel at position `i` is to be answered with. */
  ghost function CodeAt(log: seq<Event>, i: nat): nat
    requires i < |log| && log[i].CancelNamed?
  {
    match log[i].named
    case None => 2
    case Some(t) => if RunsAt(log, t, i) then 118 else 119
  }

  ghost predicate CodeIs(log: seq<Event>, c: Id, code: nat, i: nat) {
    i < |log| && Asks(log[i], c) && code == CodeAt(log, i)
  }

  ghost predicate Coded(log: seq<Event>, c: Id, code: nat) {
    exists i: nat :: CodeIs(log, c, code, i)
  }

  /** Every answer to a Cancel that was written or waits, and the one that the reader
      will come to, has the code that its Cancel asks for. */
  ghost predicate AllCoded(st: State) {
    && (forall k :: 0 <= k < |st.log| && Reply(st.log[k]).Some? && Reply(st.log[k]).value.OfCancel? ==>
          Coded(st.log, Reply(st.log[k]).value.cancelId, Reply(st.log[k]).value.code))
    && (forall a :: a in st.pending && a.OfCancel? ==> Coded(st.log, a.cancelId, a.code))
    && (st.reader.AnsweringTarget? ==> Coded(st.log, st.reader.cancelId, CANCELED))
  }

  lemma CodedLonger(log: seq<Event>, e: Event, c: Id, code: nat)
    requires Coded(log, c, code)
    ensures Coded(log + [e], c, code)
  {
    var i: nat :| CodeIs(log, c, code, i);
    assert i < |log|;
    var more := log + [e];
    assert more[i] == log[i] && more[..i] == log[..i];
    if log[i].named.Some? { GivenUpLonger(log, e, log[i].named.value, i); }
    hide GivenUp;
    assert CodeIs(more, c, code, i);
  }

  lemma CodeAtOnce(st: State, id: Id, named: Option<Id>)
    requires Known(st) && Marked(st) && Enabled(st, CancelStep(id, named))
    ensures var after := CancelRequest(st, id, named);
            after.log == st.log + [CancelNamed(id, named)] && CodeAt(after.log, |st.log|) ==
            match Queued(st, CancelStep(id, named)).value
            case CanceledTarget(_) => CANCELED
            case OfCancel(_, code) => code
            case OfApplication(_) => 0
  {
    var e := CancelNamed(id, named);
    var more := st.log + [e];
    assert more[|st.log|] == e && more[..|st.log|] == st.log;
    if named.Some? { GivenUpLonger(st.log, e, named.value, |st.log|); }
    hide GivenUp;
  }

  lemma CancelCoded(st: State, step: Step)
    requires Known(st) && Marked(st) && Enabled(st, step) && step.CancelStep?
    ensures var after, a := Take(st, step), Queued(st, step).value;
            && (a.OfCancel? ==> Coded(after.log, a.cancelId, a.code))
            && (after.reader.AnsweringTarget? ==>
                 a.CanceledTarget? && Coded(after.log, after.reader.cancelId, CANCELED))
  {
    CodeAtOnce(st, step.cancelId, step.named);
    var after := Take(st, step);
    var code := CodeAt(after.log, |st.log|);
    assert after.log[|st.log|] == CancelNamed(step.cancelId, step.named);
    hide CodeAt;
    assert CodeIs(after.log, step.cancelId, code, |st.log|);
    hide CodeIs;
  }

  /** What other steps do with the answers to Cancels. */
  lemma AnswersMove(st: State, step: Step)
    requires Enabled(st, step) && !step.CancelStep?
    ensures var after, e, a := Take(st, step), Added(st, step), Queued(st, step);
            && (e.Some? && Reply(e.value).Some? && Reply(e.value).value.OfCancel? ==>
                 Reply(e.value).value in st.pending)
            && (a.Some? && a.value.OfCancel? ==>
                  st.reader.AnsweringTarget? && a.value == OfCancel(st.reader.cancelId, CANCELED))
            && (after.reader.AnsweringTarget? ==> after.reader == st.reader)
  {
  }

  lemma AllCodedKept(st: State, step: Step)
    requires Known(st) && Marked(st) && AllCoded(st) && Enabled(st, step)
    ensures AllCoded(Take(st, step))
  {
    LogGrows(st, step);
    PendingFrom(st, step);
    var after, e := Take(st, step), Added(st, step);
    if step.CancelStep? { CancelCoded(st, step); } else { AnswersMove(st, step); }
    assert step.CancelStep? ==> e.Some? && Reply(e.value) == None;
    hide Take;
    hide Queued;
    hide Enabled;
    hide Added;
    hide Known;
    hide Marked;
    forall c, code | Coded(st.log, c, code) ensures Coded(after.log, c, code) {
      if e.Some? { CodedLonger(st.log, e.value, c, code); }
    }
    hide Coded;
    forall k | 0 <= k < |after.log| && Reply(after.log[k]).Some? && Reply(after.log[k]).value.OfCancel?
      ensures Coded(after.log, Reply(after.log[k]).value.cancelId, Reply(after.log[k]).value.code)
    {
      if k < |st.log| { assert after.log[k] == st.log[k]; }
    }
  }

  lemma {:induction false} AllCodedHolds(states: seq<State>, steps: seq<Step>, n: nat)
    requires Run(states, steps) && n < |states|
    ensures AllCoded(states[n])
    decreases n
  {
    if n > 0 {
      AllCodedHolds(states, steps, n - 1);
      InvHolds(states, steps, n - 1);
      AllCodedKept(states[n - 1], steps[n - 1]);
    }
  }

  /** In every run a Cancel is answered with 118 exactly when the operation that it
      names had been requested and neither ended nor been given up, with 119 when it
      names another, and with 2 when it names none. */
  lemma CodesAre(states: seq<State>, steps: seq<Step>, n: nat, k: nat, c: Id, code: nat)
    requires Run(states, steps) && n < |states| && k < |states[n].log|
    requires states[n].log[k] == Written(OfCancel(c, code))
    ensures Coded(states[n].log, c, code)
  {
    AllCodedHolds(states, steps, n);
  }

  // -------------------------------------------------- Unbind and StartTLS

  /** A request of any kind that the reader took up. */
  predicate IsRequest(e: Event) {
    e.Requested? || e.AbandonNamed? || e.CancelNamed?
  }

  /** An Unbind's failure is not reported; and while a StartTLS runs the reader takes
      up nothing. */
  ghost predicate KindsRespected(st: State) {
    && (forall w :: OfApplication(w) in st.pending && w.FailResponse? ==> w.id in st.ops && st.ops[w.id].kind != Unbind)
    && (forall k :: 0 <= k < |st.log| && IsWrite(st.log[k]) && Reply(st.log[k]).value.write.FailResponse? ==>
          var id := Reply(st.log[k]).value.write.id; id in st.ops && st.ops[id].kind != Unbind)
    && (forall id :: id in st.ops && st.ops[id].kind == StartTls && Ended(id) !in st.log ==> st.reader == Upgrading(id))
    && (forall i, j, id :: TakenUpDuring(st, i, j, id) ==> Ended(id) in st.log[..j])
  }

  /** The request at `j` was taken up behind that of the StartTLS. */
  predicate TakenUpDuring(st: State, i: int, j: int, id: Id) {
    && 0 <= i < j < |st.log| && st.log[i] == Requested(id) && IsRequest(st.log[j])
    && id in st.ops && st.ops[id].kind == StartTls
  }

  lemma KindsKept(st: State, step: Step)
    requires Known(st) && KindsRespected(st) && Enabled(st, step)
    ensures KindsRespected(Take(st, step))
  {
    LogGrows(st, step);
    PendingFrom(st, step);
    var after, e := Take(st, step), Added(st, step);
    KindsStay(st, step);
    FailuresFrom(st, step);
    UpgradeStays(st, step);
    hide Take;
    hide Added;
    hide Queued;
    hide Enabled;
    forall k | 0 <= k < |after.log| && IsWrite(after.log[k]) && Reply(after.log[k]).value.write.FailResponse?
      ensures Reply(after.log[k]).value.write.id in after.ops
                && after.ops[Reply(after.log[k]).value.write.id].kind != Unbind
    {
      if k < |st.log| { assert after.log[k] == st.log[k]; }
    }
    forall i, j, id | TakenUpDuring(after, i, j, id)
      ensures Ended(id) in after.log[..j]
    {
      assert after.log[i] == st.log[i];
      assert Requested(id) in st.log;
      assert id in st.ops;
      if j < |st.log| {
        assert after.log[j] == st.log[j] && after.log[..j] == st.log[..j];
        assert TakenUpDuring(st, i, j, id);
      } else {
        assert after.log[..j] == st.log;
      }
    }
  }

  lemma KindsStay(st: State, step: Step)
    requires Enabled(st, step)
    ensures forall id :: id in st.ops ==> id in Take(st, step).ops && Take(st, step).ops[id].kind == st.ops[id].kind
  {
  }

  lemma FailuresFrom(st: State, step: Step)
    requires KindsRespected(st) && Enabled(st, step)
    ensures var e, a := Added(st, step), Queued(st, step);
            && (a.Some? && a.value.OfApplication? && a.value.write.FailResponse? ==>
                  a.value.write.id in st.ops && st.ops[a.value.write.id].kind != Unbind)
            && (e.Some? && IsWrite(e.value) ==> Reply(e.value).value in st.pending)
  {
  }

  lemma UpgradeStays(st: State, step: Step)
    requires Known(st) && KindsRespected(st) && Enabled(st, step)
    ensures var after, e := Take(st, step), Added(st, step);
            && (forall id :: id in after.ops && after.ops[id].kind == StartTls && Ended(id) !in after.log ==>
                  after.reader == Upgrading(id))
            && (e.Some? && IsRequest(e.value) ==>
                  forall id :: id in st.ops && st.ops[id].kind == StartTls ==> Ended(id) in st.log)
  {
    LogGrows(st, step);
  }

  lemma {:induction false} KindsHold(states: seq<State>, steps: seq<Step>, n: nat)
    requires Run(states, steps) && n < |states|
    ensures KindsRespected(states[n])
    decreases n
  {
    if n > 0 {
      KindsHold(states, steps, n - 1);
      InvHolds(states, steps, n - 1);
      KindsKept(states[n - 1], steps[n - 1]);
    }
  }

  /** In every run: nothing is written to report that an Unbind failed, and between the
      request and the end of a StartTLS no other request is taken up. */
  lemma UnbindAndStartTls(states: seq<State>, steps: seq<Step>, n: nat)
    requires Run(states, steps) && n < |states|
    ensures forall k, w :: ReportsFailure(states[n].log, k, w) ==>
              w.id in states[n].ops && states[n].ops[w.id].kind != Unbind
    ensures forall i, j, id :: TakenUpDuring(states[n], i, j, id) ==> Ended(id) in states[n].log[..j]
  {
    KindsHold(states, steps, n);
    forall k, w | ReportsFailure(states[n].log, k, w)
      ensures w.id in states[n].ops && states[n].ops[w.id].kind != Unbind
    {
      assert IsWrite(states[n].log[k]);
    }
  }

  /** A response that reports a failure was written. */
  predicate ReportsFailure(log: seq<Event>, k: int, w: Write) {
    0 <= k < |log| && log[k] == Written(OfApplication(w)) && w.FailResponse?
  }
}
