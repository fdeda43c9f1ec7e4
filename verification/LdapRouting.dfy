/** Routing is exactly once and in order, in every run of the connection: any
    number of operations outstanding, their responses and the questions for their
    results interleaved in any way. */
module LdapRouting {
  import opened Options
  import opened LdapObject

  datatype Step =
    | StartStep(id: Id, kind: Kind)
    | ReceiveStep(message: Message)
    | ResultOneStep(id: Id, intermediates: bool)
    | ResultAllStep(id: Id)
    | AbandonStep(id: Id)

  // ------------------------------------------ what a log says of one operation

  /** A search gets entries and references; any operation, intermediate responses. */
  predicate Belongs(kind: Kind, body: Body) {
    match body
    case Carries(Entry(_)) => kind == Search
    case Carries(Reference(_)) => kind == Search
    case Carries(Intermediate(_)) => true
    case Final(_, _) => false
  }

  lemma BelongsIsQueued(kind: Kind, body: Body)
    ensures Belongs(kind, body) <==> Queues(kind, body)
  {
  }

  /** The items that the server sent for the operation, in the order they came. */
  function ItemsOf(log: seq<Event>, id: Id, kind: Kind): seq<Item> {
    if log == [] then []
    else
      var e := log[|log| - 1];
      ItemsOf(log[..|log| - 1], id, kind) +
      (if e.Received? && e.message.id == id && Belongs(kind, e.message.body) then [e.message.body.item] else [])
  }

  /** The items that left the operation's queue. */
  function OutOf(log: seq<Event>, id: Id): seq<Item> {
    if log == [] then [] else OutOf(log[..|log| - 1], id) + OutBy(log[|log| - 1], id)
  }

  function OutBy(e: Event, id: Id): seq<Item> {
    if (e.HandedOut? || e.PassedOver?) && e.id == id then [e.item]
    else if e.Collected? && e.id == id then e.items
    else []
  }

  /** Those of them that somebody was handed. */
  function HandedOf(log: seq<Event>, id: Id): seq<Item> {
    if log == [] then [] else HandedOf(log[..|log| - 1], id) + HandedBy(log[|log| - 1], id)
  }

  function HandedBy(e: Event, id: Id): seq<Item> {
    if e.HandedOut? && e.id == id then [e.item]
    else if e.Collected? && e.id == id then Given(e.items, e.outcome)
    else []
  }

  /** An item left the operation's queue and nobody got it: it was passed over, or
      was an intermediate response when the rest was collected, or the collecting
      raised the operation's error. */
  predicate Loses(e: Event, id: Id) {
    || (e.PassedOver? && e.id == id)
    || (e.Collected? && e.id == id && e.items != []
        && (e.outcome != Success || exists i :: 0 <= i < |e.items| && e.items[i].Intermediate?))
  }

  /** How the operation ended, by the messages that were not queued: a failure is
      not undone by what comes after it. */
  function VerdictOf(log: seq<Event>, id: Id, kind: Kind): Option<Outcome> {
    if log == [] then None
    else
      var e, before := log[|log| - 1], VerdictOf(log[..|log| - 1], id, kind);
      if e.Received? && e.message.id == id && !Queues(kind, e.message.body) then
        var v := Verdict(kind, e.message.body);
        if v == Success && before.Some? then before else Some(v)
      else before
  }

  predicate Concerns(e: Event, id: Id) {
    (e.Received? && e.message.id == id) || (e.Started? && e.id == id)
  }

  // ----------------------------------------------------------------- the runs

  predicate Enabled(st: State, step: Step) {
    match step
    case StartStep(id, _) => forall i :: 0 <= i < |st.log| ==> !Concerns(st.log[i], id)
    case ReceiveStep(_) => true
    case ResultOneStep(id, _) => id in st.pending
    case ResultAllStep(id) => id in st.pending && st.pending[id].done
    case AbandonStep(_) => true
  }

  function ResultOne(st: State, id: Id, intermediates: bool): State
    requires id in st.pending
  {
    var after := Queued(st, id, intermediates);
    if FirstWanted(st.pending[id].queue, intermediates) == None && st.pending[id].done then Report(after, id) else after
  }

  function Take(st: State, step: Step): State
    requires Enabled(st, step)
  {
    match step
    case StartStep(id, kind) => Start(st, id, kind)
    case ReceiveStep(m) => Dispatch(st, m)
    case ResultOneStep(id, intermediates) => ResultOne(st, id, intermediates)
    case ResultAllStep(id) => Collect(st, id)
    case AbandonStep(id) => Forget(st, id)
  }

  predicate Run(states: seq<State>, steps: seq<Step>) {
    && |states| == |steps| + 1 && states[0] == CONNECTED
    && forall i :: 0 <= i < |steps| ==> Enabled(states[i], steps[i]) && states[i + 1] == Take(states[i], steps[i])
  }

  // ------------------------------------------------------------ the invariant

  ghost predicate WasStarted(log: seq<Event>, id: Id) {
    exists i :: 0 <= i < |log| && log[i].Started? && log[i].id == id
  }

  /** What is out and what is queued make up what came, and the operation is done
      when it was answered, as it was answered. */
  ghost predicate Tracked(st: State, id: Id)
    requires id in st.pending
  {
    var op := st.pending[id];
    && Started(id, op.kind) in st.log
    && OutOf(st.log, id) + op.queue == ItemsOf(st.log, id, op.kind)
    && VerdictOf(st.log, id, op.kind) == (if op.done then Some(EndOf(op)) else None)
    && (op.error.Some? ==> op.done && op.error.value != Success)
  }

  ghost predicate AllTracked(st: State) {
    && (forall id :: id in st.pending ==> Tracked(st, id))
    && (forall id :: !WasStarted(st.log, id) ==> OutOf(st.log, id) == [])
  }

  /** At an event that ends an operation, everything that came for it is out, and
      it ended as it was answered. */
  ghost predicate EndsWell(log: seq<Event>, k: nat)
    requires k < |log|
  {
    var e := log[k];
    (e.Reported? || e.Collected?) ==>
      exists kind ::
        && Started(e.id, kind) in log[..k]
        && OutOf(log[..k + 1], e.id) == ItemsOf(log[..k], e.id, kind)
        && VerdictOf(log[..k], e.id, kind) == Some(e.outcome)
  }

  ghost predicate AllEndWell(log: seq<Event>) {
    forall k :: 0 <= k < |log| ==> EndsWell(log, k)
  }

  lemma OneMore(log: seq<Event>, e: Event, id: Id, kind: Kind)
    ensures OutOf(log + [e], id) == OutOf(log, id) + OutBy(e, id)
    ensures ItemsOf(log + [e], id, kind) ==
            ItemsOf(log, id, kind) +
            (if e.Received? && e.message.id == id && Belongs(kind, e.message.body) then [e.message.body.item] else [])
    ensures VerdictOf(log + [e], id, kind) ==
            if e.Received? && e.message.id == id && !Queues(kind, e.message.body) then
              var v := Verdict(kind, e.message.body);
              if v == Success && VerdictOf(log, id, kind).Some? then VerdictOf(log, id, kind) else Some(v)
            else VerdictOf(log, id, kind)
    ensures WasStarted(log + [e], id) <==> WasStarted(log, id) || (e.Started? && e.id == id)
  {
    assert (log + [e])[..|log + [e]| - 1] == log;
    if WasStarted(log, id) {
      var i :| 0 <= i < |log| && log[i].Started? && log[i].id == id;
      assert (log + [e])[i] == log[i];
    }
    if e.Started? && e.id == id { assert (log + [e])[|log|] == e; }
  }

  /** An event that has nothing to do with an operation changes nothing for it. */
  lemma Elsewhere(log: seq<Event>, e: Event, id: Id, kind: Kind)
    requires OutBy(e, id) == [] && !(e.Received? && e.message.id == id)
    ensures OutOf(log + [e], id) == OutOf(log, id)
    ensures ItemsOf(log + [e], id, kind) == ItemsOf(log, id, kind)
    ensures VerdictOf(log + [e], id, kind) == VerdictOf(log, id, kind)
  {
    OneMore(log, e, id, kind);
  }

  lemma EndsWellMore(log: seq<Event>, e: Event)
    requires AllEndWell(log) && EndsWell(log + [e], |log|)
    ensures AllEndWell(log + [e])
  {
    var more := log + [e];
    forall k | 0 <= k < |more| ensures EndsWell(more, k) {
      if k < |log| {
        assert EndsWell(log, k);
        assert more[..k] == log[..k] && more[..k + 1] == log[..k + 1] && more[k] == log[k];
      }
    }
    hide EndsWell;
  }

  ghost predicate Inv(st: State) {
    AllTracked(st) && AllEndWell(st.log)
  }

  lemma {:induction false} Unheard(log: seq<Event>, id: Id, kind: Kind)
    requires forall i :: 0 <= i < |log| ==> !Concerns(log[i], id)
    ensures ItemsOf(log, id, kind) == [] && VerdictOf(log, id, kind) == None && !WasStarted(log, id)
    decreases |log|
  {
    if log != [] {
      var n := |log| - 1;
      assert !Concerns(log[n], id);
      Unheard(log[..n], id, kind);
    }
  }

  /** What is tracked stays so when an event concerns another operation. */
  lemma OthersTracked(st: State, after: State, e: Event, id: Id)
    requires id in st.pending && id in after.pending && after.pending[id] == st.pending[id] && Tracked(st, id)
    requires after.log == st.log + [e] && OutBy(e, id) == [] && !(e.Received? && e.message.id == id)
    ensures Tracked(after, id)
  {
    Elsewhere(st.log, e, id, st.pending[id].kind);
    hide OutOf;
    hide ItemsOf;
    hide VerdictOf;
  }

  lemma NeverStarted(st: State, e: Event, id: Id)
    requires AllTracked(st) && (OutBy(e, id) != [] ==> WasStarted(st.log, id))
    ensures !WasStarted(st.log + [e], id) ==> OutOf(st.log + [e], id) == []
  {
    OneMore(st.log, e, id, Search);
  }

  lemma StartKeeps(st: State, id: Id, kind: Kind)
    requires Inv(st) && Enabled(st, StartStep(id, kind))
    ensures Inv(Start(st, id, kind))
  {
    var e, after := Started(id, kind), Start(st, id, kind);
    Unheard(st.log, id, kind);
    Elsewhere(st.log, e, id, kind);
    EndsWellMore(st.log, e);
    hide AllEndWell;
    forall i | i in after.pending ensures Tracked(after, i) {
      if i == id {
        assert OutOf(st.log, id) == [];
        assert after.log[|st.log|] == e;
      } else {
        OthersTracked(st, after, e, i);
      }
    }
    forall i | !WasStarted(after.log, i) ensures OutOf(after.log, i) == [] {
      NeverStarted(st, e, i);
    }
  }

  lemma TakenTracked(st: State, m: Message)
    requires m.id in st.pending && Tracked(st, m.id)
    ensures Tracked(Dispatch(st, m), m.id)
  {
    var op, e := st.pending[m.id], Received(m);
    var after := Dispatch(st, m);
    OneMore(st.log, e, m.id, op.kind);
    BelongsIsQueued(op.kind, m.body);
    assert Started(m.id, op.kind) in after.log;
    hide OutOf;
    hide ItemsOf;
    hide VerdictOf;
    if Queues(op.kind, m.body) {
      assert OutOf(st.log, m.id) + (op.queue + [m.body.item]) == OutOf(st.log, m.id) + op.queue + [m.body.item];
    }
  }

  lemma DispatchKeeps(st: State, m: Message)
    requires Inv(st)
    ensures Inv(Dispatch(st, m))
  {
    var e, after := Received(m), Dispatch(st, m);
    EndsWellMore(st.log, e);
    hide AllEndWell;
    forall i | i in after.pending ensures Tracked(after, i) {
      if i == m.id { TakenTracked(st, m); } else { OthersTracked(st, after, e, i); }
    }
    forall i | !WasStarted(after.log, i) ensures OutOf(after.log, i) == [] {
      NeverStarted(st, e, i);
    }
  }

  lemma StartedIs(st: State, id: Id)
    requires AllTracked(st) && id in st.pending
    ensures WasStarted(st.log, id)
  {
    assert Tracked(st, id);
    var i :| 0 <= i < |st.log| && st.log[i] == Started(id, st.pending[id].kind);
  }

  lemma PoppedTracked(st: State, id: Id, e: Event)
    requires id in st.pending && st.pending[id].queue != [] && Tracked(st, id)
    requires e == HandedOut(id, st.pending[id].queue[0]) || e == PassedOver(id, st.pending[id].queue[0])
    ensures Tracked(Logged(Pop(st, id), e), id)
  {
    var op := st.pending[id];
    OneMore(st.log, e, id, op.kind);
    hide OutOf;
    hide ItemsOf;
    hide VerdictOf;
    assert OutOf(st.log, id) + [op.queue[0]] + op.queue[1..] == OutOf(st.log, id) + op.queue;
    assert Started(id, op.kind) in st.log + [e];
  }

  /** One item leaves the front of the queue. */
  lemma PopKeeps(st: State, id: Id, e: Event)
    requires Inv(st) && id in st.pending && st.pending[id].queue != []
    requires e == HandedOut(id, st.pending[id].queue[0]) || e == PassedOver(id, st.pending[id].queue[0])
    ensures Inv(Logged(Pop(st, id), e))
  {
    var after := Logged(Pop(st, id), e);
    StartedIs(st, id);
    EndsWellMore(st.log, e);
    hide EndsWell;
    hide Tracked;
    hide AllEndWell;
    forall i | i in after.pending ensures Tracked(after, i) {
      if i == id { PoppedTracked(st, id, e); } else { OthersTracked(st, after, e, i); }
    }
    forall i | !WasStarted(after.log, i) ensures OutOf(after.log, i) == [] {
      NeverStarted(st, e, i);
    }
  }

  lemma {:induction false} QueuedKeeps(st: State, id: Id, intermediates: bool)
    requires Inv(st) && id in st.pending
    ensures Inv(Queued(st, id, intermediates))
    decreases |st.pending[id].queue|
  {
    hide Inv;
    var queue := st.pending[id].queue;
    if queue != [] {
      if queue[0].Intermediate? && !intermediates {
        PopKeeps(st, id, PassedOver(id, queue[0]));
        QueuedKeeps(Logged(Pop(st, id), PassedOver(id, queue[0])), id, intermediates);
      } else {
        PopKeeps(st, id, HandedOut(id, queue[0]));
      }
    }
  }

  /** An operation is over: reported with nothing left in its queue, collected
      with all that was, or forgotten. */
  lemma EndKeeps(st: State, id: Id, e: Event)
    requires Inv(st) && id in st.pending
    requires (e == Reported(id, EndOf(st.pending[id])) && st.pending[id].queue == [] && st.pending[id].done)
             || (e == Collected(id, st.pending[id].queue, EndOf(st.pending[id])) && st.pending[id].done)
             || e == Forgotten(id)
    ensures Inv(Logged(st.(pending := st.pending - {id}), e))
  {
    var after := Logged(st.(pending := st.pending - {id}), e);
    var op := st.pending[id];
    StartedIs(st, id);
    assert Tracked(st, id);
    EndNow(st, id, e);
    EndsWellMore(st.log, e);
    hide AllEndWell;
    forall i | i in after.pending ensures Tracked(after, i) {
      OthersTracked(st, after, e, i);
    }
    forall i | !WasStarted(after.log, i) ensures OutOf(after.log, i) == [] {
      NeverStarted(st, e, i);
    }
  }

  lemma EndNow(st: State, id: Id, e: Event)
    requires id in st.pending && Tracked(st, id)
    requires (e == Reported(id, EndOf(st.pending[id])) && st.pending[id].queue == [] && st.pending[id].done)
             || (e == Collected(id, st.pending[id].queue, EndOf(st.pending[id])) && st.pending[id].done)
             || e == Forgotten(id)
    ensures EndsWell(st.log + [e], |st.log|)
  {
    var more := st.log + [e];
    assert more[..|st.log|] == st.log && more[..|st.log| + 1] == more && more[|st.log|] == e;
    OneMore(st.log, e, id, st.pending[id].kind);
    hide OutOf;
    hide ItemsOf;
    hide VerdictOf;
    if !e.Forgotten? {
      assert Started(id, st.pending[id].kind) in more[..|st.log|];
    }
  }

  lemma InvKept(st: State, step: Step)
    requires Inv(st) && Enabled(st, step)
    ensures Inv(Take(st, step))
  {
    hide Inv;
    match step
    case StartStep(id, kind) => StartKeeps(st, id, kind);
    case ReceiveStep(m) => DispatchKeeps(st, m);
    case ResultOneStep(id, intermediates) =>
      QueuedKeeps(st, id, intermediates);
      var after := Queued(st, id, intermediates);
      if FirstWanted(st.pending[id].queue, intermediates) == None && st.pending[id].done {
        EndKeeps(after, id, Reported(id, EndOf(after.pending[id])));
      }
    case ResultAllStep(id) => EndKeeps(st, id, Collected(id, st.pending[id].queue, EndOf(st.pending[id])));
    case AbandonStep(id) =>
      if id in st.pending { EndKeeps(st, id, Forgotten(id)); }
  }

  lemma {:induction false} InvHolds(states: seq<State>, steps: seq<Step>, n: nat)
    requires Run(states, steps) && n < |states|
    ensures Inv(states[n])
    decreases n
  {
    if n > 0 {
      InvHolds(states, steps, n - 1);
      InvKept(states[n - 1], steps[n - 1]);
    }
  }

  // ------------------------------------------------------------- the theorems

  /** While an operation is outstanding, what was taken out of its queue, followed
      by what is in it, is what the server sent for it, in the order it came: no
      item lost, doubled, reordered or given to another operation. */
  lemma NothingLostOrDoubled(states: seq<State>, steps: seq<Step>, n: nat, id: Id)
    requires Run(states, steps) && n < |states| && id in states[n].pending
    ensures OutOf(states[n].log, id) + states[n].pending[id].queue ==
            ItemsOf(states[n].log, id, states[n].pending[id].kind)
  {
    InvHolds(states, steps, n);
    assert Tracked(states[n], id);
  }

  lemma {:induction false} FoundIs(queue: seq<Item>)
    ensures |Found(queue)| <= |queue|
    ensures Found(queue) == queue <==> forall i :: 0 <= i < |queue| ==> !queue[i].Intermediate?
    ensures Found(queue) != queue ==> |Found(queue)| < |queue|
  {
    if queue != [] {
      var n := |queue| - 1;
      FoundIs(queue[..n]);
      assert queue == queue[..n] + [queue[n]];
    }
  }

  lemma HandedIs(e: Event, id: Id)
    ensures |HandedBy(e, id)| <= |OutBy(e, id)|
    ensures HandedBy(e, id) == OutBy(e, id) <==> !Loses(e, id)
    ensures Loses(e, id) ==> |HandedBy(e, id)| < |OutBy(e, id)|
  {
    if e.Collected? { FoundIs(e.items); }
  }

  /** All that was taken out of an operation's queue was handed out, in that order,
      exactly when nobody passed an item over, collected an intermediate response,
      or had the collecting raise an error with items still queued. */
  lemma {:induction false} AllHandedOut(log: seq<Event>, id: Id)
    ensures |HandedOf(log, id)| <= |OutOf(log, id)|
    ensures HandedOf(log, id) == OutOf(log, id) <==> forall i :: 0 <= i < |log| ==> !Loses(log[i], id)
    ensures HandedOf(log, id) != OutOf(log, id) ==> |HandedOf(log, id)| < |OutOf(log, id)|
    decreases |log|
  {
    if log != [] {
      var n := |log| - 1;
      AllHandedOut(log[..n], id);
      HandedIs(log[n], id);
      hide Loses;
      hide HandedBy;
      hide OutBy;
      assert forall i :: 0 <= i < n ==> log[..n][i] == log[i];
    }
  }

  /** An operation's end is told only after all its items left its queue, when the
      server has answered it, and as the server answered it. */
  lemma EndComesLast(states: seq<State>, steps: seq<Step>, n: nat, k: nat)
    requires Run(states, steps) && n < |states| && k < |states[n].log|
    requires states[n].log[k].Reported? || states[n].log[k].Collected?
    ensures EndsWell(states[n].log, k)
  {
    InvHolds(states, steps, n);
  }

  // -------------------------------------------------------- one item at a time

  /** The item is handed out to someone who asks, with intermediate responses or
      without. */
  predicate Wanted(item: Item, intermediates: bool) {
    item.Intermediate? ==> intermediates
  }

  /** Asking for one item: the first `p` in the queue are not wanted and are passed
      over in order, the next one is handed out, and those behind it stay. */
  lemma {:induction false} AskingForOne(st: State, id: Id, intermediates: bool) returns (p: nat)
    requires id in st.pending
    ensures p <= |st.pending[id].queue|
    ensures var queue, after := st.pending[id].queue, Queued(st, id, intermediates);
            var over := st.log + seq(p, i requires 0 <= i < p => PassedOver(id, queue[i]));
            && (forall i :: 0 <= i < p ==> !Wanted(queue[i], intermediates))
            && after.pending.Keys == st.pending.Keys
            && (forall i :: i in st.pending && i != id ==> after.pending[i] == st.pending[i])
            && (if p == |queue| then
                  after.log == over && after.pending[id].queue == [] && FirstWanted(queue, intermediates) == None
                else
                  Wanted(queue[p], intermediates) && FirstWanted(queue, intermediates) == Some(queue[p])
                  && after.log == over + [HandedOut(id, queue[p])] && after.pending[id].queue == queue[p + 1..])
    decreases |st.pending[id].queue|
  {
    var queue := st.pending[id].queue;
    if queue == [] || Wanted(queue[0], intermediates) {
      p := 0;
    } else {
      var next := Logged(Pop(st, id), PassedOver(id, queue[0]));
      assert next.pending[id].queue == queue[1..];
      var q := AskingForOne(next, id, intermediates);
      p := q + 1;
      assert st.log + seq(p, i requires 0 <= i < p => PassedOver(id, queue[i])) ==
             next.log + seq(q, i requires 0 <= i < q => PassedOver(id, queue[1..][i]));
    }
  }

  // ------------------------------------------------------------- the outcome

  /** A message that does not make the operation fail. */
  predicate Harmless(kind: Kind, body: Body) {
    Belongs(kind, body) || body == Final(kind, 0)
  }

  /** A message of the operation. */
  predicate IsFor(e: Event, id: Id) {
    e.Received? && e.message.id == id
  }

  /** What the last message of the operation that was not harmless says: the code of
      a final response of its own class, or that the server broke the protocol. */
  ghost predicate LastFailure(log: seq<Event>, id: Id, kind: Kind, outcome: Outcome, i: nat) {
    && i < |log| && IsFor(log[i], id) && !Harmless(kind, log[i].message.body)
    && (forall j :: i < j < |log| && IsFor(log[j], id) ==> Harmless(kind, log[j].message.body))
    && match log[i].message.body
       case Final(k, code) => outcome == if k == kind then Failed(code) else ProtocolError
       case Carries(_) => outcome == ProtocolError
  }

  /** How an operation ends that has these messages: well exactly when all of them
      were harmless and one was its final response. */
  ghost predicate Fits(log: seq<Event>, id: Id, kind: Kind, outcome: Outcome) {
    && (exists i :: 0 <= i < |log| && IsFor(log[i], id) && !Belongs(kind, log[i].message.body))
    && (outcome == Success <==>
          forall i :: 0 <= i < |log| && IsFor(log[i], id) ==> Harmless(kind, log[i].message.body))
    && (outcome != Success ==> exists i :: LastFailure(log, id, kind, outcome, i))
  }

  lemma {:induction false} VerdictFits(log: seq<Event>, id: Id, kind: Kind)
    ensures VerdictOf(log, id, kind) == None ==>
              forall i :: 0 <= i < |log| && IsFor(log[i], id) ==> Belongs(kind, log[i].message.body)
    ensures VerdictOf(log, id, kind).Some? ==> Fits(log, id, kind, VerdictOf(log, id, kind).value)
    decreases |log|
  {
    if log != [] {
      var n := |log| - 1;
      VerdictFits(log[..n], id, kind);
      assert forall i :: 0 <= i < n ==> log[..n][i] == log[i];
      VerdictFitsMore(log[..n], log[n], id, kind);
      assert log == log[..n] + [log[n]];
    }
  }

  lemma VerdictFitsMore(log: seq<Event>, e: Event, id: Id, kind: Kind)
    requires VerdictOf(log, id, kind) == None ==>
               forall i :: 0 <= i < |log| && IsFor(log[i], id) ==> Belongs(kind, log[i].message.body)
    requires VerdictOf(log, id, kind).Some? ==> Fits(log, id, kind, VerdictOf(log, id, kind).value)
    ensures var more := log + [e];
            && (VerdictOf(more, id, kind) == None ==>
                  forall i :: 0 <= i < |more| && IsFor(more[i], id) ==> Belongs(kind, more[i].message.body))
            && (VerdictOf(more, id, kind).Some? ==> Fits(more, id, kind, VerdictOf(more, id, kind).value))
  {
    var more := log + [e];
    OneMore(log, e, id, kind);
    assert more[|log|] == e && forall i :: 0 <= i < |log| ==> more[i] == log[i];
    var before, after := VerdictOf(log, id, kind), VerdictOf(more, id, kind);
    hide VerdictOf;
    if IsFor(e, id) { BelongsIsQueued(kind, e.message.body); }
    if IsFor(e, id) && !Harmless(kind, e.message.body) {
      assert LastFailure(more, id, kind, after.value, |log|);
    } else if before.Some? {
      if before.value != Success {
        var i :| LastFailure(log, id, kind, before.value, i);
        assert LastFailure(more, id, kind, before.value, i);
      }
    }
  }

  /** Every outcome that is reported or collected, in every run, is what the messages
      received for the operation until then say. */
  lemma OutcomeExactly(states: seq<State>, steps: seq<Step>, n: nat, k: nat)
    requires Run(states, steps) && n < |states| && k < |states[n].log|
    requires states[n].log[k].Reported? || states[n].log[k].Collected?
    ensures var log, e := states[n].log, states[n].log[k];
            exists kind :: Started(e.id, kind) in log[..k] && Fits(log[..k], e.id, kind, e.outcome)
  {
    EndComesLast(states, steps, n, k);
    var log, e := states[n].log, states[n].log[k];
    var kind :| Started(e.id, kind) in log[..k] && VerdictOf(log[..k], e.id, kind) == Some(e.outcome);
    VerdictFits(log[..k], e.id, kind);
  }

  lemma {:induction false} VerdictOfOne(log: seq<Event>, id: Id, kind: Kind, k: nat)
    requires k < |log| && log[k].Received? && log[k].message.id == id && !Queues(kind, log[k].message.body)
    requires forall i :: 0 <= i < |log| && i != k && log[i].Received? && log[i].message.id == id ==>
               Queues(kind, log[i].message.body)
    ensures VerdictOf(log, id, kind) == Some(Verdict(kind, log[k].message.body))
    decreases |log|
  {
    var n := |log| - 1;
    if k < n {
      VerdictOfOne(log[..n], id, kind, k);
    } else {
      NoVerdict(log[..n], id, kind);
    }
  }

  lemma {:induction false} NoVerdict(log: seq<Event>, id: Id, kind: Kind)
    requires forall i :: 0 <= i < |log| && log[i].Received? && log[i].message.id == id ==>
               Queues(kind, log[i].message.body)
    ensures VerdictOf(log, id, kind) == None
    decreases |log|
  {
    if log != [] { NoVerdict(log[..|log| - 1], id, kind); }
  }
}
