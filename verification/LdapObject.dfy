/** ldap/ldapobject.py: what comes in on a connection is handed to the operation
    it belongs to, and from there to whoever asks for that operation's results. */
module LdapObject {
  import opened Options

  type Id = nat

  /** What an operation asked for: the class of the result that answers it. */
  datatype Kind = Search | OtherKind(name: string)

  datatype Item = Entry(payload: string) | Reference(payload: string) | Intermediate(payload: string)

  datatype Body = Carries(item: Item) | Final(kind: Kind, code: nat)

  /** A message from the server. */
  datatype Message = Message(id: Id, body: Body)

  /** How an operation ended. */
  datatype Outcome = Success | Failed(code: nat) | ProtocolError

  datatype Event =
    | Started(id: Id, kind: Kind)
    | Received(message: Message)
    | HandedOut(id: Id, item: Item)
    | PassedOver(id: Id, item: Item)
    | Reported(id: Id, outcome: Outcome)
    | Collected(id: Id, items: seq<Item>, outcome: Outcome)
    | Forgotten(id: Id)

  datatype Op = Op(kind: Kind, queue: seq<Item>, done: bool, error: Option<Outcome>)

  datatype State = State(pending: map<Id, Op>, log: seq<Event>)

  const CONNECTED := State(map[], [])

  // -------------------------------------------------- the steps, as functions

  /** Whether the message is one to queue, for an operation of this kind. */
  predicate Queues(kind: Kind, body: Body) {
    body.Carries? && (body.item.Intermediate? || kind == Search)
  }

  /** What a message that is not queued says about how the operation ended. */
  function Verdict(kind: Kind, body: Body): Outcome
    requires !Queues(kind, body)
  {
    if body.Carries? || body.kind != kind then ProtocolError
    else if body.code != 0 then Failed(body.code) else Success
  }

  function OpAfter(op: Op, body: Body): Op {
    if Queues(op.kind, body) then op.(queue := op.queue + [body.item])
    else
      var v := Verdict(op.kind, body);
      op.(done := true, error := if v == Success then op.error else Some(v))
  }

  function Logged(st: State, e: Event): State {
    st.(log := st.log + [e])
  }

  function Start(st: State, id: Id, kind: Kind): State {
    Logged(st.(pending := st.pending[id := Op(kind, [], false, None)]), Started(id, kind))
  }

  function Dispatch(st: State, m: Message): State {
    Logged(if m.id in st.pending then st.(pending := st.pending[m.id := OpAfter(st.pending[m.id], m.body)]) else st,
           Received(m))
  }

  /** One item off the front of an operation's queue. */
  function Pop(st: State, id: Id): State
    requires id in st.pending && st.pending[id].queue != []
  {
    st.(pending := st.pending[id := st.pending[id].(queue := st.pending[id].queue[1..])])
  }

  /** _queued: what is not asked for is passed over, and the next item goes out. */
  function Queued(st: State, id: Id, intermediates: bool): (r: State)
    requires id in st.pending
    ensures r.pending.Keys == st.pending.Keys
    ensures r.pending[id] == st.pending[id].(queue := r.pending[id].queue)
    ensures FirstWanted(st.pending[id].queue, intermediates) == None ==> r.pending[id].queue == []
    decreases |st.pending[id].queue|
  {
    var queue := st.pending[id].queue;
    if queue == [] then st
    else if queue[0].Intermediate? && !intermediates then
      Queued(Logged(Pop(st, id), PassedOver(id, queue[0])), id, intermediates)
    else Logged(Pop(st, id), HandedOut(id, queue[0]))
  }

  function EndOf(op: Op): Outcome {
    if op.error.Some? then op.error.value else Success
  }

  function Report(st: State, id: Id): State
    requires id in st.pending
  {
    Logged(st.(pending := st.pending - {id}), Reported(id, EndOf(st.pending[id])))
  }

  function Collect(st: State, id: Id): State
    requires id in st.pending
  {
    Logged(st.(pending := st.pending - {id}), Collected(id, st.pending[id].queue, EndOf(st.pending[id])))
  }

  function Forget(st: State, id: Id): State {
    if id in st.pending then Logged(st.(pending := st.pending - {id}), Forgotten(id)) else st
  }

  function FirstWanted(queue: seq<Item>, intermediates: bool): Option<Item> {
    if queue == [] then None
    else if queue[0].Intermediate? && !intermediates then FirstWanted(queue[1..], intermediates)
    else Some(queue[0])
  }

  /** _found: everything a search found, in order. */
  function Found(queue: seq<Item>): seq<Item> {
    if queue == [] then []
    else
      var last := queue[|queue| - 1];
      Found(queue[..|queue| - 1]) + (if last.Intermediate? then [] else [last])
  }

  /** What collecting hands out: nothing when it raises the operation's error. */
  function Given(queue: seq<Item>, outcome: Outcome): seq<Item> {
    if outcome == Success then Found(queue) else []
  }

  method FoundLoop(queue: seq<Item>) returns (found: seq<Item>)
    ensures found == Found(queue)
  {
    found := [];
    for i := 0 to |queue|
      invariant found == Found(queue[..i])
    {
      assert queue[..i + 1][..i] == queue[..i];
      if !queue[i].Intermediate? {
        found := found + [queue[i]];
      }
    }
    assert queue[..|queue|] == queue;
  }

  // ------------------------------------------------------------ the connection

  class Pending {
    const kind: Kind
    var queue: seq<Item>
    var done: bool
    var error: Option<Outcome>

    constructor (kind: Kind)
      ensures this.kind == kind && queue == [] && !done && error == None
    {
      this.kind := kind;
      queue, done, error := [], false, None;
    }

    ghost function Now(): Op
      reads this
    {
      Op(kind, queue, done, error)
    }

    method Take(body: Body)
      modifies this
      ensures Now() == OpAfter(old(Now()), body)
    {
      if body.Carries? && (body.item.Intermediate? || kind == Search) {
        queue := queue + [body.item];
        return;
      }
      if body.Carries? || body.kind != kind {
        error := Some(ProtocolError);
      } else if body.code != 0 {
        error := Some(Failed(body.code));
      }
      done := true;
    }
  }

  /** What result4 does with one look at its operation: it hands out an item, has
      to wait, reports the end, or does not know the id. */
  datatype Answer = Handed(item: Item) | Waiting | Ended(outcome: Outcome) | UnknownId

  class Connection {
    var pending: map<Id, Pending>
    ghost var log: seq<Event>

    ghost predicate Valid()
      reads this`pending
    {
      forall i, j :: i in pending && j in pending && pending[i] == pending[j] ==> i == j
    }

    ghost function Ops(): map<Id, Op>
      reads this`pending, pending.Values
    {
      map id | id in pending :: pending[id].Now()
    }

    ghost function Now(): State
      reads this, pending.Values
    {
      State(Ops(), log)
    }

    constructor ()
      ensures Valid() && Now() == CONNECTED
    {
      pending, log := map[], [];
    }

    method Register(id: Id, operation: Pending)
      requires Valid() && forall i :: i in pending ==> pending[i] != operation
      modifies this`pending
      ensures Valid() && pending == old(pending)[id := operation]
      ensures Ops() == old(Ops())[id := operation.Now()]
    {
      pending := pending[id := operation];
    }

    /** _start, once the request is out. */
    method StartOperation(id: Id, kind: Kind)
      requires Valid()
      modifies this
      ensures Valid() && Now() == Start(old(Now()), id, kind)
      ensures forall p :: p in pending.Values ==> p in old(pending.Values) || fresh(p)
    {
      var operation := new Pending(kind);
      assert forall i :: i in pending ==> pending[i] != operation;
      Register(id, operation);
      hide Ops;
      hide Valid;
      log := log + [Started(id, kind)];
    }

    method DispatchMessage(m: Message)
      requires Valid()
      modifies this`log, pending.Values
      ensures Valid() && Now() == Dispatch(old(Now()), m)
    {
      if m.id in pending {
        var operation := pending[m.id];
        operation.Take(m.body);
        assert forall i :: i in pending && i != m.id ==> pending[i] != operation;
      }
      log := log + [Received(m)];
    }

    /** _queued, for an operation that is not finished with. */
    method NextQueued(id: Id, intermediates: bool) returns (r: Option<Item>)
      requires Valid() && id in pending
      modifies this`log, pending[id]
      ensures Valid() && Now() == Queued(old(Now()), id, intermediates)
      ensures r == FirstWanted(old(pending[id].queue), intermediates)
    {
      var operation := pending[id];
      ghost var start := Now();
      assert Ops()[id] == operation.Now();
      hide Ops;
      hide Valid;
      while operation.queue != []
        invariant Valid() && id in Now().pending
        invariant operation.queue == Now().pending[id].queue
        invariant Queued(Now(), id, intermediates) == Queued(start, id, intermediates)
        invariant FirstWanted(operation.queue, intermediates) == FirstWanted(start.pending[id].queue, intermediates)
        decreases |operation.queue|
      {
        var first := operation.queue[0];
        PopQueue(id, operation);
        if first.Intermediate? && !intermediates {
          log := log + [PassedOver(id, first)];
          continue;
        }
        log := log + [HandedOut(id, first)];
        return Some(first);
      }
      r := None;
    }

    method PopQueue(id: Id, operation: Pending)
      requires Valid() && id in pending && pending[id] == operation && operation.queue != []
      modifies operation`queue
      ensures Ops() == Pop(old(Now()), id).pending
      ensures operation.queue == old(operation.queue)[1..] == Ops()[id].queue
    {
      operation.queue := operation.queue[1..];
      assert forall i :: i in pending && i != id ==> pending[i] != operation;
    }

    /** result4 with all=0, from one suspension to the next. */
    method ResultOne(id: Id, intermediates: bool) returns (r: Answer)
      requires Valid()
      modifies this, if id in pending then {pending[id]} else {}
      ensures Valid()
      ensures id !in old(pending) ==> r == UnknownId && Now() == old(Now())
      ensures id in old(pending) ==>
                var st := Queued(old(Now()), id, intermediates);
                var first := FirstWanted(old(pending[id].queue), intermediates);
                if first.Some? then r == Handed(first.value) && Now() == st
                else if old(pending[id].done) then r == Ended(EndOf(old(pending[id].Now()))) && Now() == Report(st, id)
                else r == Waiting && Now() == st
    {
      if id !in pending {
        return UnknownId;
      }
      var operation := pending[id];
      var item := NextQueued(id, intermediates);
      if item.Some? {
        return Handed(item.value);
      }
      if !operation.done {
        return Waiting;
      }
      pending := pending - {id};
      var outcome := if operation.error.Some? then operation.error.value else Success;
      log := log + [Reported(id, outcome)];
      r := Ended(outcome);
    }

    /** result4 with all=1, once the operation is done; an outcome other than Success
        is raised. */
    method ResultAll(id: Id) returns (found: seq<Item>, outcome: Outcome)
      requires Valid() && id in pending && pending[id].done
      modifies this
      ensures Valid() && Now() == Collect(old(Now()), id)
      ensures outcome == EndOf(old(pending[id].Now())) && found == Given(old(pending[id].queue), outcome)
    {
      var operation := pending[id];
      pending := pending - {id};
      outcome := if operation.error.Some? then operation.error.value else Success;
      log := log + [Collected(id, operation.queue, outcome)];
      if outcome != Success {
        return [], outcome;
      }
      found := FoundLoop(operation.queue);
    }

    method Abandon(id: Id)
      requires Valid()
      modifies this
      ensures Valid() && Now() == Forget(old(Now()), id)
    {
      if id !in pending {
        return;
      }
      pending := pending - {id};
      log := log + [Forgotten(id)];
    }
  }
}
