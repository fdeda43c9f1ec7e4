/** app.py's ApplicationServer: operations that run concurrently, abandons and
    cancels that arrive meanwhile. What happens between two points where a task
    can be suspended is one step; the tasks' steps interleave in any way. */
module AppServer {
  import opened Options

  type Id = nat

  datatype Kind = Unbind | StartTls | Ordinary

  /** A response of an application, or one that reports its failure. It was begun
      when the log was `at` long. */
  datatype Write = AppResponse(id: Id, at: nat) | FailResponse(id: Id, at: nat)

  /** What the reader of the connection is doing: nothing, running a StartTLS to
      its end, or waiting until one of a Cancel's two answers was written. */
  datatype Reader =
    | Idle
    | Upgrading(id: Id)
    | AnsweringTarget(cancelId: Id, target: Id)
    | AnsweringCancel(cancelId: Id, code: nat)

  const CANCELED := 118
  const NO_SUCH_OPERATION := 119
  const PROTOCOL_ERROR := 2

  datatype Answer = OfApplication(write: Write) | CanceledTarget(target: Id) | OfCancel(cancelId: Id, code: nat)

  /** What can be seen to happen. */
  datatype Event =
    | Requested(id: Id)
    | AbandonNamed(target: Id)
    | CancelNamed(cancelId: Id, named: Option<Id>)
    | Begun(id: Id)
    | Refused(id: Id)
    | Ended(id: Id)
    | Written(answer: Answer)
    | Dropped(answer: Answer)

  datatype Op = Op(kind: Kind, abandoned: bool)

  /** Every operation there ever was, those registered, those whose application
      runs, and those whose failure is being reported; and the answers that wait for
      the write lock, which is handed to whoever asked for it first. */
  datatype State = State(
    ops: map<Id, Op>,
    registered: set<Id>,
    running: set<Id>,
    failing: set<Id>,
    reader: Reader,
    pending: seq<Answer>,
    closed: bool,
    log: seq<Event>)

  const START := State(map[], {}, {}, {}, Idle, [], false, [])

  // -------------------------------------------------- the steps, as functions

  function Logged(st: State, e: Event): State {
    st.(log := st.log + [e])
  }

  /** abandon: whatever is registered under the id is no longer, and is told. */
  function Abandoned(st: State, target: Id): State {
    if target in st.registered && target in st.ops then
      st.(registered := st.registered - {target},
          ops := st.ops[target := st.ops[target].(abandoned := true)])
    else st
  }

  lemma NoneToAbandon(st: State, target: Id)
    ensures target !in st.registered ==> Abandoned(st, target) == st
  {
  }

  function Request(st: State, id: Id, kind: Kind): State {
    Logged(st.(ops := st.ops[id := Op(kind, false)], registered := st.registered + {id},
               running := st.running + {id},
               reader := if kind == StartTls then Upgrading(id) else st.reader),
           Requested(id))
  }

  function AbandonRequest(st: State, target: Id): State {
    Logged(Abandoned(st, target), AbandonNamed(target))
  }

  /** The reader has an answer to write, and takes its place among those that wait. */
  function Queue(st: State, reader: Reader, answer: Answer): State {
    st.(reader := reader, pending := st.pending + [answer])
  }

  function CancelRequest(st: State, id: Id, named: Option<Id>): State {
    Logged(
      if named.None? then Queue(st, AnsweringCancel(id, PROTOCOL_ERROR), OfCancel(id, PROTOCOL_ERROR))
      else if named.value in st.registered && named.value in st.ops then
        Queue(Abandoned(st, named.value), AnsweringTarget(id, named.value), CanceledTarget(named.value))
      else Queue(st, AnsweringCancel(id, NO_SUCH_OPERATION), OfCancel(id, NO_SUCH_OPERATION)),
      CancelNamed(id, named))
  }

  /** An answer reaches the stream, unless there is no stream any more. */
  function Out(st: State, answer: Answer): State {
    Logged(st, if st.closed then Dropped(answer) else Written(answer))
  }

  /** The answer that the reader waits for is no longer pending. */
  predicate ReaderReady(st: State) {
    match st.reader
    case AnsweringTarget(_, target) => CanceledTarget(target) !in st.pending
    case AnsweringCancel(id, code) => OfCancel(id, code) !in st.pending
    case _ => false
  }

  /** Then the reader goes on: to the Cancel's own answer, or to the next request. */
  function ReaderGoes(st: State): State {
    match st.reader
    case AnsweringTarget(id, _) => Queue(st, AnsweringCancel(id, CANCELED), OfCancel(id, CANCELED))
    case AnsweringCancel(_, _) => st.(reader := Idle)
    case _ => st
  }

  /** An application's send of a response. */
  function Send(st: State, id: Id): State {
    if id !in st.ops then st
    else if st.ops[id].abandoned || st.closed then Logged(st, Refused(id))
    else Logged(st.(pending := st.pending + [OfApplication(AppResponse(id, |st.log|))]), Begun(id))
  }

  /** The application raised. */
  function Fail(st: State, id: Id): State {
    if id !in st.ops then st
    else
      var over := st.(running := st.running - {id}, failing := st.failing + {id});
      if st.ops[id].kind == Unbind || st.ops[id].abandoned || st.closed then over
      else Logged(over.(pending := st.pending + [OfApplication(FailResponse(id, |st.log|))]), Begun(id))
  }

  /** The end of _run_operation. */
  function End(st: State, id: Id): State {
    Logged(st.(running := st.running - {id}, failing := st.failing - {id}, registered := st.registered - {id},
               reader := if st.reader == Upgrading(id) then Idle else st.reader),
           Ended(id))
  }

  /** The first of those that wait is written. */
  function WriteFirst(st: State): State
    requires st.pending != []
  {
    Out(st.(pending := st.pending[1..]), st.pending[0])
  }

  // --------------------------------------------------------------- the server

  class Operation {
    const kind: Kind
    var abandoned: bool

    constructor (kind: Kind)
      ensures this.kind == kind && !abandoned
    {
      this.kind := kind;
      abandoned := false;
    }
  }

  /** `started` keeps the operations that tasks still refer to, whether they are
      registered or not. */
  class ApplicationServer {
    var operations: map<Id, Operation>
    var reader: Reader
    var pending: seq<Answer>
    var closed: bool
    var started: map<Id, Operation>
    ghost var running: set<Id>
    ghost var failing: set<Id>
    var log: seq<Event>

    ghost predicate Valid()
      reads this
    {
      && (forall id :: id in operations ==> id in started && operations[id] == started[id])
      && (forall i, j :: i in started && j in started && started[i] == started[j] ==> i == j)
    }

    ghost function Ops(): map<Id, Op>
      reads this`started, started.Values
    {
      map id | id in started :: Op(started[id].kind, started[id].abandoned)
    }

    ghost function Now(): State
      reads this, started.Values
    {
      State(Ops(), operations.Keys, running, failing, reader, pending, closed, log)
    }

    constructor ()
      ensures Valid() && Now() == START
    {
      operations, reader, pending, closed := map[], Idle, [], false;
      started, running, failing, log := map[], {}, {}, [];
    }

    method Abandon(msgid: Id) returns (found: Option<Operation>)
      requires Valid()
      modifies this`operations, started.Values
      ensures Valid() && started == old(started)
      ensures Now() == Abandoned(old(Now()), msgid)
      ensures found == if msgid in old(operations) then Some(old(operations)[msgid]) else None
    {
      if msgid !in operations {
        return None;
      }
      var operation := operations[msgid];
      operations := operations - {msgid};
      operation.abandoned := true;
      found := Some(operation);
      assert started[msgid] == operation;
      assert forall id :: id in started && id != msgid ==> started[id] != operation;
    }

    method HandleAbandon(target: Id)
      requires Valid() && reader == Idle
      modifies this, started.Values
      ensures Valid() && Now() == AbandonRequest(old(Now()), target)
    {
      hide Ops;
      var _ := Abandon(target);
      log := log + [AbandonNamed(target)];
    }

    /** Up to the first answer that has to be written. */
    method HandleCancel(msgid: Id, target: Option<Id>)
      requires Valid() && reader == Idle
      modifies this, started.Values
      ensures Valid() && Now() == CancelRequest(old(Now()), msgid, target)
    {
      assert target.Some? && target.value in operations ==> target.value in Ops();
      ghost var st := Now();
      assert st.registered == operations.Keys;
      if target.Some? { NoneToAbandon(st, target.value); }
      hide Ops;
      hide Valid;
      hide Abandoned;
      var answering, answer := AnsweringCancel(msgid, PROTOCOL_ERROR), OfCancel(msgid, PROTOCOL_ERROR);
      if target.Some? {
        var operation := Abandon(target.value);
        if operation.None? {
          answering, answer := AnsweringCancel(msgid, NO_SUCH_OPERATION), OfCancel(msgid, NO_SUCH_OPERATION);
        } else {
          answering, answer := AnsweringTarget(msgid, target.value), CanceledTarget(target.value);
        }
      }
      Respond(answering, answer);
      Note(CancelNamed(msgid, target));
    }

    /** The reader's own _respond, up to the lock. */
    method Respond(reader: Reader, answer: Answer)
      requires Valid()
      modifies this`reader, this`pending
      ensures Valid() && Now() == Queue(old(Now()), reader, answer)
    {
      this.reader := reader;
      pending := pending + [answer];
    }

    method Note(e: Event)
      requires Valid()
      modifies this`log
      ensures Valid() && Now() == Logged(old(Now()), e)
    {
      log := log + [e];
    }

    method Register(msgid: Id, operation: Operation)
      requires Valid() && msgid !in started && !operation.abandoned
      requires forall id :: id in started ==> started[id] != operation
      modifies this`started, this`operations
      ensures Valid() && started == old(started)[msgid := operation]
      ensures Ops() == old(Ops())[msgid := Op(operation.kind, false)]
      ensures operations.Keys == old(operations).Keys + {msgid}
    {
      started := started[msgid := operation];
      operations := operations[msgid := operation];
    }

    /** Any other request, under an id that no request had before. */
    method HandleRequest(msgid: Id, kind: Kind) returns (operation: Operation)
      requires Valid() && reader == Idle && msgid !in started
      modifies this
      ensures Valid() && Now() == Request(old(Now()), msgid, kind)
      ensures fresh(operation) && started == old(started)[msgid := operation]
    {
      operation := new Operation(kind);
      assert forall id :: id in started ==> started[id] != operation;
      Register(msgid, operation);
      hide Ops;
      hide Valid;
      if kind == StartTls {
        reader := Upgrading(msgid);
      }
      running, log := running + {msgid}, log + [Requested(msgid)];
    }

    method SendEvent(operation: Operation, msgid: Id) returns (refused: bool)
      requires Valid() && msgid in started && started[msgid] == operation
      modifies this`pending, this`log
      ensures Valid() && Now() == Send(old(Now()), msgid)
      ensures refused == (operation.abandoned || closed)
    {
      if operation.abandoned || closed {
        log := log + [Refused(msgid)];
        return true;
      }
      pending := pending + [OfApplication(AppResponse(msgid, |log|))];
      log := log + [Begun(msgid)];
      refused := false;
    }

    method FailOperation(operation: Operation, msgid: Id)
      requires Valid() && msgid in started && started[msgid] == operation
      modifies this`pending, this`running, this`failing, this`log
      ensures Valid() && Now() == Fail(old(Now()), msgid)
    {
      running, failing := running - {msgid}, failing + {msgid};
      if operation.kind == Unbind || operation.abandoned || closed {
        return;
      }
      pending := pending + [OfApplication(FailResponse(msgid, |log|))];
      log := log + [Begun(msgid)];
    }

    method EndOperation(msgid: Id)
      requires Valid()
      modifies this`operations, this`running, this`failing, this`reader, this`log
      ensures Valid() && Now() == End(old(Now()), msgid)
    {
      hide Ops;
      operations := operations - {msgid};
      running, failing := running - {msgid}, failing - {msgid};
      if reader == Upgrading(msgid) {
        reader := Idle;
      }
      log := log + [Ended(msgid)];
    }

    method WriteNext()
      requires Valid() && pending != []
      modifies this`pending, this`log
      ensures Valid() && Now() == WriteFirst(old(Now()))
    {
      var answer := pending[0];
      pending := pending[1..];
      log := log + [if closed then Dropped(answer) else Written(answer)];
    }

    /** The reader's await of a write is over. */
    method ReaderGoesOn()
      requires Valid() && ReaderReady(Now())
      modifies this`reader, this`pending
      ensures Valid() && Now() == ReaderGoes(old(Now()))
    {
      match reader
      case AnsweringTarget(id, target) =>
        Respond(AnsweringCancel(id, CANCELED), OfCancel(id, CANCELED));
      case AnsweringCancel(id, code) =>
        reader := Idle;
      case _ =>
    }

    method Close()
      requires Valid()
      modifies this`closed
      ensures Valid() && Now() == old(Now()).(closed := true)
    {
      closed := true;
    }
  }
}
