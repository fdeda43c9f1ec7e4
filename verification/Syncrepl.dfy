/** ldap/syncrepl.py: a consumer keeping a copy of what a provider holds, and
    why the copy converges for every provider that keeps to sections 3.3 and 3.4
    of RFC 4533. */
module Syncrepl {
  import opened Options

  type Uuid = string

  // ---------------------------------------------------------------- messages

  datatype SyncState = PresentState | AddState | ModifyState | DeleteState

  /** A control on an entry. */
  datatype EntryControl = SyncStateControl(state: SyncState, uuid: Uuid, cookie: Option<string>) | OtherEntryControl

  /** A control on the final result. */
  datatype DoneControl = SyncDoneControl(cookie: Option<string>, refreshDeletes: Option<bool>) | OtherDoneControl

  datatype Info =
    | NewCookie(value: string)
    | RefreshPresent(cookie: Option<string>, refreshDone: bool)
    | RefreshDelete(cookie: Option<string>, refreshDone: bool)
    | SyncIdSet(refreshDeletes: bool, uuids: seq<Uuid>, cookie: Option<string>)

  /** One message of the search: an entry, an intermediate response, which may
      not be a Sync Info message, or the final result. */
  datatype Message<E> =
    | Entry(entry: E, controls: seq<EntryControl>)
    | Intermediate(info: Option<Info>)
    | Result(doneControls: seq<DoneControl>)

  // ---------------------------------------------- the consumer, as a function

  /** The copy that is kept, the record of what is present, the cookie, and
      whether the refresh is over. */
  datatype State<E> = State(copy: map<Uuid, E>, present: set<Uuid>, cookie: Option<string>, refreshDone: bool)

  function SetCookie<E>(st: State<E>, cookie: Option<string>): State<E> {
    if cookie.Some? then st.(cookie := cookie) else st
  }

  function Record<E>(st: State<E>, uuids: set<Uuid>): State<E> {
    st.(present := st.present + uuids)
  }

  /** syncrepl_present(None, refreshDeletes): the record is started again, and
      unless the provider named what is gone, what is not recorded is gone. */
  function EndPhase<E>(st: State<E>, refreshDeletes: bool): State<E> {
    st.(copy := if refreshDeletes then st.copy else (map u | u in st.copy && u in st.present :: st.copy[u]),
        present := {})
  }

  function Remove<E>(st: State<E>, uuids: set<Uuid>): State<E> {
    st.(copy := st.copy - uuids)
  }

  function Put<E>(st: State<E>, uuid: Uuid, entry: E): State<E> {
    st.(copy := st.copy[uuid := entry])
  }

  function UuidSet(uuids: seq<Uuid>): set<Uuid> {
    set u | u in uuids
  }

  /** The first Sync State control: the others are not looked at. */
  function FirstSync(controls: seq<EntryControl>): Option<EntryControl> {
    if controls == [] then None
    else if controls[0].SyncStateControl? then Some(controls[0])
    else FirstSync(controls[1..])
  }

  function OnEntry<E>(st: State<E>, entry: E, control: EntryControl): State<E>
    requires control.SyncStateControl?
  {
    var after :=
      match control.state
      case PresentState => Record(st, {control.uuid})
      case DeleteState => Remove(st, {control.uuid})
      case _ =>
        var put := Put(st, control.uuid, entry);
        if st.refreshDone then put else Record(put, {control.uuid});
    SetCookie(after, control.cookie)
  }

  function OnDone<E>(st: State<E>, controls: seq<DoneControl>): State<E>
    decreases |controls|
  {
    if controls == [] then st
    else if controls[0].OtherDoneControl? then OnDone(st, controls[1..])
    else
      OnDone(SetCookie(EndPhase(st, controls[0].refreshDeletes == Some(true)), controls[0].cookie), controls[1..])
  }

  function Refreshed<E>(st: State<E>, cookie: Option<string>, refreshDone: bool): State<E> {
    var after := SetCookie(st, cookie);
    if refreshDone then after.(refreshDone := true) else after
  }

  function OnInfo<E>(st: State<E>, info: Info): State<E> {
    match info
    case NewCookie(value) => SetCookie(st, Some(value))
    case RefreshPresent(cookie, refreshDone) => Refreshed(EndPhase(st, false), cookie, refreshDone)
    case RefreshDelete(cookie, refreshDone) => Refreshed(EndPhase(st, true), cookie, refreshDone)
    case SyncIdSet(refreshDeletes, uuids, cookie) =>
      SetCookie(if refreshDeletes then Remove(st, UuidSet(uuids)) else Record(st, UuidSet(uuids)), cookie)
  }

  function OnMessage<E>(st: State<E>, m: Message<E>): State<E> {
    match m
    case Result(controls) => OnDone(st, controls)
    case Entry(entry, controls) =>
      var control := FirstSync(controls);
      if control.Some? && control.value.SyncStateControl? then OnEntry(st, entry, control.value) else st
    case Intermediate(info) => if info.Some? then OnInfo(st, info.value) else st
  }

  function OnMessages<E>(st: State<E>, ms: seq<Message<E>>): State<E>
    decreases |ms|
  {
    if ms == [] then st else OnMessage(OnMessages(st, ms[..|ms| - 1]), ms[|ms| - 1])
  }

  lemma OnNoMessages<E>(st: State<E>, none: seq<Message<E>>)
    requires none == []
    ensures OnMessages(st, none) == st
  {
  }

  lemma OnMessagesNext<E>(st: State<E>, ms: seq<Message<E>>, i: nat)
    requires i < |ms|
    ensures OnMessages(st, ms[..i + 1]) == OnMessage(OnMessages(st, ms[..i]), ms[i])
  {
    assert ms[..i + 1][..i] == ms[..i];
  }

  /** FirstSync finds the first one there is. */
  lemma {:induction false} FirstSyncIs(controls: seq<EntryControl>, i: nat)
    requires i < |controls| && controls[i].SyncStateControl?
    requires forall j :: 0 <= j < i ==> controls[j].OtherEntryControl?
    ensures FirstSync(controls) == Some(controls[i])
    decreases i
  {
    if i > 0 { FirstSyncIs(controls[1..], i - 1); }
  }

  // --------------------------------------------------------------- the cookies

  function OneOrNone(cookie: Option<string>): seq<string> {
    if cookie.Some? then [cookie.value] else []
  }

  function DoneCookies(controls: seq<DoneControl>): seq<string> {
    if controls == [] then []
    else (if controls[0].SyncDoneControl? then OneOrNone(controls[0].cookie) else []) + DoneCookies(controls[1..])
  }

  function EntryCookies(controls: seq<EntryControl>): seq<string> {
    if controls == [] then []
    else if controls[0].SyncStateControl? then OneOrNone(controls[0].cookie) else EntryCookies(controls[1..])
  }

  /** The cookies that a message carries: of a result all, of an entry that of its
      first Sync State control. */
  function CookiesIn<E>(m: Message<E>): seq<string> {
    match m
    case Result(controls) => DoneCookies(controls)
    case Entry(_, controls) => EntryCookies(controls)
    case Intermediate(None) => []
    case Intermediate(Some(NewCookie(value))) => [value]
    case Intermediate(Some(RefreshPresent(cookie, _))) => OneOrNone(cookie)
    case Intermediate(Some(RefreshDelete(cookie, _))) => OneOrNone(cookie)
    case Intermediate(Some(SyncIdSet(_, _, cookie))) => OneOrNone(cookie)
  }

  function CookiesOf<E>(ms: seq<Message<E>>): seq<string> {
    if ms == [] then [] else CookiesOf(ms[..|ms| - 1]) + CookiesIn(ms[|ms| - 1])
  }

  function LastOf(cookies: seq<string>, before: Option<string>): Option<string> {
    if cookies == [] then before else Some(cookies[|cookies| - 1])
  }

  lemma LastOfConcat(a: seq<string>, b: seq<string>, before: Option<string>)
    ensures LastOf(a + b, before) == LastOf(b, LastOf(a, before))
  {
  }

  lemma {:induction false} DoneCookieIsLast<E>(st: State<E>, controls: seq<DoneControl>)
    ensures OnDone(st, controls).cookie == LastOf(DoneCookies(controls), st.cookie)
    decreases |controls|
  {
    if controls != [] {
      var c := controls[0];
      LastOfConcat(if c.SyncDoneControl? then OneOrNone(c.cookie) else [], DoneCookies(controls[1..]), st.cookie);
      if c.SyncDoneControl? {
        DoneCookieIsLast(SetCookie(EndPhase(st, c.refreshDeletes == Some(true)), c.cookie), controls[1..]);
      } else {
        DoneCookieIsLast(st, controls[1..]);
      }
    }
  }

  lemma {:induction false} EntryCookieIsFirst(controls: seq<EntryControl>)
    ensures EntryCookies(controls) ==
            var c := FirstSync(controls);
            if c.Some? && c.value.SyncStateControl? then OneOrNone(c.value.cookie) else []
  {
    if controls != [] { EntryCookieIsFirst(controls[1..]); }
  }

  lemma OneCookieIsLast<E>(st: State<E>, m: Message<E>)
    ensures OnMessage(st, m).cookie == LastOf(CookiesIn(m), st.cookie)
  {
    match m
    case Result(controls) => DoneCookieIsLast(st, controls);
    case Entry(_, controls) => EntryCookieIsFirst(controls);
    case Intermediate(_) =>
  }

  /** The cookie that is stored is the last one that any message carried, or the one
      before if none did. */
  lemma {:induction false} CookieIsLast<E>(st: State<E>, ms: seq<Message<E>>)
    ensures OnMessages(st, ms).cookie == LastOf(CookiesOf(ms), st.cookie)
    decreases |ms|
  {
    if ms != [] {
      var n := |ms| - 1;
      CookieIsLast(st, ms[..n]);
      OneCookieIsLast(OnMessages(st, ms[..n]), ms[n]);
      LastOfConcat(CookiesOf(ms[..n]), CookiesIn(ms[n]), st.cookie);
    }
  }

  // ------------------------------------------------------------- the consumer

  class SyncreplConsumer<E> {
    var copy: map<Uuid, E>
    var present: set<Uuid>
    var cookie: Option<string>
    var refreshDone: bool

    ghost function Now(): State<E>
      reads this
    {
      State(copy, present, cookie, refreshDone)
    }

    constructor ()
      ensures Now() == State(map[], {}, None, false)
    {
      copy, present, cookie, refreshDone := map[], {}, None, false;
    }

    // The hooks, as their documentation says.

    method SyncreplSetCookie(value: string)
      modifies this
      ensures Now() == SetCookie(old(Now()), Some(value))
    {
      cookie := Some(value);
    }

    method SyncreplPresent(uuids: Option<seq<Uuid>>, refreshDeletes: Option<bool>)
      modifies this
      ensures Now() == if uuids.Some? then Record(old(Now()), UuidSet(uuids.value))
                       else EndPhase(old(Now()), refreshDeletes == Some(true))
    {
      if uuids.Some? {
        present := present + UuidSet(uuids.value);
      } else {
        if refreshDeletes != Some(true) {
          copy := map u | u in copy && u in present :: copy[u];
        }
        present := {};
      }
    }

    method SyncreplDelete(uuids: seq<Uuid>)
      modifies this
      ensures Now() == Remove(old(Now()), UuidSet(uuids))
    {
      copy := copy - UuidSet(uuids);
    }

    method SyncreplEntry(entry: E, uuid: Uuid)
      modifies this
      ensures Now() == Put(old(Now()), uuid, entry)
    {
      copy := copy[uuid := entry];
    }

    /** syncrepl_search, with the cookie that it sends if it is given none. */
    method Search() returns (sent: Option<string>)
      modifies this
      ensures Now() == old(Now()).(refreshDone := false) && sent == old(cookie)
    {
      sent := cookie;
      refreshDone := false;
    }

    method SyncreplRefresh(newCookie: Option<string>, done: bool)
      modifies this
      ensures Now() == Refreshed(old(Now()), newCookie, done)
    {
      if newCookie.Some? {
        SyncreplSetCookie(newCookie.value);
      }
      if done {
        refreshDone := true;
      }
    }

    method SyncreplInfo(info: Info)
      modifies this
      ensures Now() == OnInfo(old(Now()), info)
    {
      match info
      case NewCookie(value) => SyncreplSetCookie(value);
      case RefreshPresent(newCookie, done) =>
        SyncreplPresent(None, Some(false));
        SyncreplRefresh(newCookie, done);
      case RefreshDelete(newCookie, done) =>
        SyncreplPresent(None, Some(true));
        SyncreplRefresh(newCookie, done);
      case SyncIdSet(refreshDeletes, uuids, newCookie) =>
        if refreshDeletes {
          SyncreplDelete(uuids);
        } else {
          SyncreplPresent(Some(uuids), Some(false));
        }
        if newCookie.Some? {
          SyncreplSetCookie(newCookie.value);
        }
    }

    method PollEntry(entry: E, controls: seq<EntryControl>)
      modifies this
      ensures Now() == OnMessage(old(Now()), Entry(entry, controls))
    {
      var i := 0;
      while i < |controls|
        invariant 0 <= i <= |controls| && Now() == old(Now())
        invariant FirstSync(controls) == FirstSync(controls[i..])
      {
        var control := controls[i];
        assert controls[i..][1..] == controls[i + 1..];
        if control.SyncStateControl? {
          EntryControlled(entry, control);
          return;
        }
        i := i + 1;
      }
    }

    method EntryControlled(entry: E, control: EntryControl)
      requires control.SyncStateControl?
      modifies this
      ensures Now() == OnEntry(old(Now()), entry, control)
    {
      assert UuidSet([control.uuid]) == {control.uuid};
      if control.state == PresentState {
        SyncreplPresent(Some([control.uuid]), Some(false));
      } else if control.state == DeleteState {
        SyncreplDelete([control.uuid]);
      } else {
        SyncreplEntry(entry, control.uuid);
        if !refreshDone {
          SyncreplPresent(Some([control.uuid]), Some(false));
        }
      }
      if control.cookie.Some? {
        SyncreplSetCookie(control.cookie.value);
      }
    }

    method PollResult(controls: seq<DoneControl>)
      modifies this
      ensures Now() == OnDone(old(Now()), controls)
    {
      var i := 0;
      while i < |controls|
        invariant 0 <= i <= |controls|
        invariant OnDone(Now(), controls[i..]) == OnDone(old(Now()), controls)
      {
        var control := controls[i];
        assert controls[i..][1..] == controls[i + 1..];
        if control.SyncDoneControl? {
          SyncreplPresent(None, control.refreshDeletes);
          if control.cookie.Some? {
            SyncreplSetCookie(control.cookie.value);
          }
        }
        i := i + 1;
      }
    }

    /** syncrepl_poll, on the messages that result4 hands out one after another:
        how many were read, and whether the search is still running. With `all`
        it would wait for more once they are used up. */
    method SyncreplPoll(incoming: seq<Message<E>>, all: bool) returns (read: nat, running: bool)
      requires incoming != []
      modifies this
      ensures 0 < read <= |incoming| && Now() == OnMessages(old(Now()), incoming[..read])
      ensures !running <==> incoming[read - 1].Result?
      ensures forall i :: 0 <= i < read - 1 ==> !incoming[i].Result?
      ensures if all then running ==> read == |incoming| else read == 1
    {
      read, running := 0, true;
      hide OnMessages;
      assert OnMessages(Now(), incoming[..0]) == Now() by { OnNoMessages(Now(), incoming[..0]); }
      while read < |incoming|
        invariant 0 <= read <= |incoming| && running
        invariant Now() == OnMessages(old(Now()), incoming[..read])
        invariant forall i :: 0 <= i < read ==> !incoming[i].Result?
        invariant !all ==> read == 0
      {
        var m := incoming[read];
        OnMessagesNext(old(Now()), incoming, read);
        read := read + 1;
        match m {
          case Result(controls) =>
            PollResult(controls);
            return read, false;
          case Entry(entry, controls) => PollEntry(entry, controls);
          case Intermediate(info) =>
            if info.Some? {
              SyncreplInfo(info.value);
            }
        }
        if !all {
          return read, true;
        }
      }
    }
  }
}
