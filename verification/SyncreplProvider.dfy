/** What a provider may send under sections 3.3 and 3.4 of RFC 4533, and that the
    consumer's copy then becomes the provider's content. */
module SyncreplProvider {
  import opened Options
  import opened Syncrepl

  // ------------------------------------------------------ one phase of a refresh

  /** The entries a message sends whole, says are still there, and says are gone. */
  function SentIn<E>(m: Message<E>): set<Uuid> {
    if m.Entry? then
      var c := FirstSync(m.controls);
      if c.Some? && c.value.SyncStateControl? && (c.value.state == AddState || c.value.state == ModifyState)
      then {c.value.uuid} else {}
    else {}
  }

  function PresentIn<E>(m: Message<E>): set<Uuid> {
    if m.Entry? then
      var c := FirstSync(m.controls);
      if c.Some? && c.value.SyncStateControl? && c.value.state == PresentState then {c.value.uuid} else {}
    else if m.Intermediate? && m.info.Some? && m.info.value.SyncIdSet? && !m.info.value.refreshDeletes
    then UuidSet(m.info.value.uuids) else {}
  }

  function GoneIn<E>(m: Message<E>): set<Uuid> {
    if m.Entry? then
      var c := FirstSync(m.controls);
      if c.Some? && c.value.SyncStateControl? && c.value.state == DeleteState then {c.value.uuid} else {}
    else if m.Intermediate? && m.info.Some? && m.info.value.SyncIdSet? && m.info.value.refreshDeletes
    then UuidSet(m.info.value.uuids) else {}
  }

  function AllSent<E>(ms: seq<Message<E>>): set<Uuid> {
    set i, u | 0 <= i < |ms| && u in SentIn(ms[i]) :: u
  }

  function AllPresent<E>(ms: seq<Message<E>>): set<Uuid> {
    set i, u | 0 <= i < |ms| && u in PresentIn(ms[i]) :: u
  }

  function AllGone<E>(ms: seq<Message<E>>): set<Uuid> {
    set i, u | 0 <= i < |ms| && u in GoneIn(ms[i]) :: u
  }

  ghost predicate Unchanged<E>(u: Uuid, base: map<Uuid, E>, content: map<Uuid, E>) {
    u in base && u in content && base[u] == content[u]
  }

  /** Not the end of the refresh or of one of its phases. */
  predicate WithinPhase<E>(m: Message<E>) {
    match m
    case Entry(_, controls) => FirstSync(controls).Some? && FirstSync(controls).value.SyncStateControl?
    case Intermediate(info) => info.Some? ==> info.value.NewCookie? || info.value.SyncIdSet?
    case Result(_) => false
  }

  /** What the message says is so: an entry sent is as the content has it, one
      said to be still there is as it was, and one said to be gone is. A present
      phase names nothing that is gone, a delete phase nothing that is there. */
  ghost predicate Truthful<E>(m: Message<E>, deletes: bool, base: map<Uuid, E>, content: map<Uuid, E>) {
    && WithinPhase(m)
    && (forall u :: u in SentIn(m) ==> u in content && m.Entry? && content[u] == m.entry)
    && (if deletes then PresentIn(m) == {} else GoneIn(m) == {})
    && (forall u :: u in PresentIn(m) ==> Unchanged(u, base, content))
    && (forall u :: u in GoneIn(m) ==> u !in content)
  }

  /** A present phase mentions all that is there; a delete phase all that is new,
      changed or gone. */
  ghost predicate Complete<E>(ms: seq<Message<E>>, deletes: bool, base: map<Uuid, E>, content: map<Uuid, E>) {
    if deletes then
      && (forall u :: u in content && !Unchanged(u, base, content) ==> u in AllSent(ms))
      && (forall u :: u in base && u !in content ==> u in AllGone(ms))
    else forall u :: u in content ==> u in AllSent(ms) || u in AllPresent(ms)
  }

  ghost predicate AllTruthful<E>(ms: seq<Message<E>>, deletes: bool, base: map<Uuid, E>, content: map<Uuid, E>) {
    forall i :: 0 <= i < |ms| ==> Truthful(ms[i], deletes, base, content)
  }

  lemma TruthfulBefore<E>(ms: seq<Message<E>>, n: nat, deletes: bool, base: map<Uuid, E>, content: map<Uuid, E>)
    requires AllTruthful(ms, deletes, base, content) && n <= |ms|
    ensures AllTruthful(ms[..n], deletes, base, content)
  {
    hide Truthful;
  }

  ghost predicate Phase<E>(ms: seq<Message<E>>, deletes: bool, base: map<Uuid, E>, content: map<Uuid, E>) {
    && AllTruthful(ms, deletes, base, content)
    && Complete(ms, deletes, base, content)
  }

  /** The copy with the entries in `sent` as the content has them and those in
      `gone` taken out. */
  ghost function Blend<E>(copy: map<Uuid, E>, content: map<Uuid, E>, sent: set<Uuid>, gone: set<Uuid>): map<Uuid, E> {
    map u | u in copy.Keys + content.Keys && (if u in sent then u in content else u in copy && u !in gone) ::
      if u in sent then content[u] else copy[u]
  }

  lemma Within<E>(st: State<E>, m: Message<E>)
    requires WithinPhase(m) && !st.refreshDone
    ensures var after := OnMessage(st, m);
            && !after.refreshDone
            && after.present == st.present + (SentIn(m) + PresentIn(m))
            && after.copy == (if SentIn(m) != {} then st.copy + map u | u in SentIn(m) :: m.entry
                              else st.copy - GoneIn(m))
    ensures SentIn(m) != {} ==> m.Entry?
  {
  }

  lemma AllNext<E>(ms: seq<Message<E>>, n: nat)
    requires n < |ms|
    ensures AllSent(ms[..n + 1]) == AllSent(ms[..n]) + SentIn(ms[n])
    ensures AllPresent(ms[..n + 1]) == AllPresent(ms[..n]) + PresentIn(ms[n])
    ensures AllGone(ms[..n + 1]) == AllGone(ms[..n]) + GoneIn(ms[n])
  {
    hide SentIn;
    hide PresentIn;
    hide GoneIn;
    forall i | 0 <= i < n ensures ms[..n + 1][i] == ms[..n][i] {
    }
    assert ms[..n + 1][n] == ms[n];
    forall u | u in SentIn(ms[n]) ensures u in AllSent(ms[..n + 1]) { assert u in SentIn(ms[..n + 1][n]); }
    forall u | u in PresentIn(ms[n]) ensures u in AllPresent(ms[..n + 1]) { assert u in PresentIn(ms[..n + 1][n]); }
    forall u | u in GoneIn(ms[n]) ensures u in AllGone(ms[..n + 1]) { assert u in GoneIn(ms[..n + 1][n]); }
    forall u | u in AllSent(ms[..n]) ensures u in AllSent(ms[..n + 1]) {
      var i :| 0 <= i < n && u in SentIn(ms[..n][i]);
      assert u in SentIn(ms[..n + 1][i]);
    }
    forall u | u in AllPresent(ms[..n]) ensures u in AllPresent(ms[..n + 1]) {
      var i :| 0 <= i < n && u in PresentIn(ms[..n][i]);
      assert u in PresentIn(ms[..n + 1][i]);
    }
    forall u | u in AllGone(ms[..n]) ensures u in AllGone(ms[..n + 1]) {
      var i :| 0 <= i < n && u in GoneIn(ms[..n][i]);
      assert u in GoneIn(ms[..n + 1][i]);
    }
  }

  lemma BlendNext<E>(copy: map<Uuid, E>, content: map<Uuid, E>, sent: set<Uuid>, gone: set<Uuid>,
                     m: Message<E>, deletes: bool, base: map<Uuid, E>)
    requires Truthful(m, deletes, base, content)
    requires forall u :: u in gone ==> u !in content
    requires SentIn(m) != {} ==> m.Entry? && GoneIn(m) == {}
    ensures var was := Blend(copy, content, sent, gone);
            Blend(copy, content, sent + SentIn(m), gone + GoneIn(m)) ==
            if SentIn(m) != {} then was + map u | u in SentIn(m) :: m.entry else was - GoneIn(m)
  {
    hide SentIn;
    hide GoneIn;
    hide PresentIn;
    hide WithinPhase;
  }

  lemma GoneFromContent<E>(ms: seq<Message<E>>, deletes: bool, base: map<Uuid, E>, content: map<Uuid, E>)
    requires AllTruthful(ms, deletes, base, content)
    ensures forall u :: u in AllGone(ms) ==> u !in content
    ensures forall u :: u in AllSent(ms) ==> u in content
    ensures forall u :: u in AllPresent(ms) ==> Unchanged(u, base, content)
    ensures !deletes ==> AllGone(ms) == {}
    ensures deletes ==> AllPresent(ms) == {}
  {
    hide SentIn;
    hide GoneIn;
    hide PresentIn;
    hide WithinPhase;
  }

  lemma SentOrGone<E>(m: Message<E>)
    ensures SentIn(m) != {} ==> m.Entry? && GoneIn(m) == {}
  {
  }

  /** What the messages of a phase do, in whatever order they come. */
  lemma {:induction false} PhaseRuns<E>(st: State<E>, ms: seq<Message<E>>, n: nat, deletes: bool,
                                        base: map<Uuid, E>, content: map<Uuid, E>)
    requires !st.refreshDone && n <= |ms|
    requires AllTruthful(ms, deletes, base, content)
    ensures var after := OnMessages(st, ms[..n]);
            && !after.refreshDone
            && after.present == st.present + (AllSent(ms[..n]) + AllPresent(ms[..n]))
            && after.copy == Blend(st.copy, content, AllSent(ms[..n]), AllGone(ms[..n]))
  {
    hide OnMessage;
    if n == 0 {
      assert ms[..0] == [];
      assert Blend(st.copy, content, {}, {}) == st.copy;
    } else {
      PhaseRuns(st, ms, n - 1, deletes, base, content);
      assert Truthful(ms[n - 1], deletes, base, content);
      OnMessagesNext(st, ms, n - 1);
      AllNext(ms, n - 1);
      TruthfulBefore(ms, n - 1, deletes, base, content);
      GoneFromContent(ms[..n - 1], deletes, base, content);
      SentOrGone(ms[n - 1]);
      hide Truthful;
      Within(OnMessages(st, ms[..n - 1]), ms[n - 1]) by { WithinOf(ms[n - 1], deletes, base, content); }
      BlendNext(st.copy, content, AllSent(ms[..n - 1]), AllGone(ms[..n - 1]), ms[n - 1], deletes, base);
      hide *;
      SetsRegroup(st.present, AllSent(ms[..n - 1]), AllPresent(ms[..n - 1]), SentIn(ms[n - 1]), PresentIn(ms[n - 1]));
    }
  }

  lemma WithinOf<E>(m: Message<E>, deletes: bool, base: map<Uuid, E>, content: map<Uuid, E>)
    requires Truthful(m, deletes, base, content)
    ensures WithinPhase(m)
  {
  }

  lemma SetsRegroup(p: set<Uuid>, a: set<Uuid>, b: set<Uuid>, c: set<Uuid>, d: set<Uuid>)
    ensures p + (a + b) + (c + d) == p + ((a + c) + (b + d))
  {
  }

  /** A present phase that has ended: the copy is the content exactly when the
      record it started with names nothing that the copy holds and the content
      does not. */
  lemma PresentPhase<E>(st: State<E>, ms: seq<Message<E>>, content: map<Uuid, E>)
    requires !st.refreshDone && Phase(ms, false, st.copy, content)
    ensures var after := EndPhase(OnMessages(st, ms), false);
            && after.present == {} && !after.refreshDone
            && (after.copy == content <==> forall u :: u in st.present && u in st.copy ==> u in content)
  {
    PhaseRuns(st, ms, |ms|, false, st.copy, content);
    assert ms[..|ms|] == ms;
    GoneFromContent(ms, false, st.copy, content);
    hide OnMessages;
    hide AllSent;
    hide AllPresent;
    hide AllGone;
    hide AllTruthful;
    hide Blend;
    Kept(st.copy, content, st.present, AllSent(ms), AllPresent(ms));
  }

  /** What is left of a copy when a present phase ends. */
  lemma Kept<E>(copy: map<Uuid, E>, content: map<Uuid, E>, record: set<Uuid>, sent: set<Uuid>, present: set<Uuid>)
    requires forall u :: u in sent ==> u in content
    requires forall u :: u in present ==> Unchanged(u, copy, content)
    requires forall u :: u in content ==> u in sent || u in present
    ensures var blend := Blend(copy, content, sent, {});
            (map u | u in blend && u in record + (sent + present) :: blend[u]) == content <==>
            forall u :: u in record && u in copy ==> u in content
  {
    var blend := Blend(copy, content, sent, {});
    var kept := map u | u in blend && u in record + (sent + present) :: blend[u];
    assert forall u :: u in kept <==> u in content || (u in copy && u in record);
    assert forall u :: u in content ==> kept[u] == content[u];
  }

  /** A delete phase that has ended: the copy is the content, whatever was
      recorded before. */
  lemma DeletePhase<E>(st: State<E>, ms: seq<Message<E>>, content: map<Uuid, E>)
    requires !st.refreshDone && Phase(ms, true, st.copy, content)
    ensures var after := EndPhase(OnMessages(st, ms), true);
            after.present == {} && !after.refreshDone && after.copy == content
  {
    PhaseRuns(st, ms, |ms|, true, st.copy, content);
    assert ms[..|ms|] == ms;
    GoneFromContent(ms, true, st.copy, content);
    hide OnMessages;
    hide AllSent;
    hide AllPresent;
    hide AllGone;
    hide AllTruthful;
  }

  /** A record left over from a refresh that was cut short keeps an entry that
      is gone. */
  lemma LeftoverRecord<E>(u: Uuid, e: E)
    ensures var st := State(map[u := e], {u}, None, false);
            && Phase([], false, st.copy, map[])
            && EndPhase(OnMessages(st, []), false).copy == map[u := e]
  {
    var st := State(map[u := e], {u}, None, false);
    var none: seq<Message<E>> := [];
    assert Phase(none, false, st.copy, map[]);
  }

  // -------------------------------------------------------------- a refresh

  /** How the refresh ends: with the search, or with a Sync Info message after
      which the search goes on. */
  datatype Ending = SearchDone(cookie: Option<string>, others: seq<DoneControl>) | StaysOpen(cookie: Option<string>)

  datatype Refresh<E> =
    | ByPresence(sent: seq<Message<E>>, ending: Ending)
    | ByDeletion(sent: seq<Message<E>>, ending: Ending)
    | PresenceThenDeletion(sent: seq<Message<E>>, cookie: Option<string>, between: map<Uuid, E>,
                           later: seq<Message<E>>, ending: Ending)

  function End<E>(refreshDeletes: bool, ending: Ending): Message<E> {
    match ending
    case SearchDone(cookie, others) =>
      Result(others + [SyncDoneControl(cookie, if refreshDeletes then Some(true) else None)])
    case StaysOpen(cookie) =>
      Intermediate(Some(if refreshDeletes then RefreshDelete(cookie, true) else RefreshPresent(cookie, true)))
  }

  function Transcript<E>(r: Refresh<E>): seq<Message<E>> {
    match r
    case ByPresence(sent, ending) => sent + [End(false, ending)]
    case ByDeletion(sent, ending) => sent + [End(true, ending)]
    case PresenceThenDeletion(sent, cookie, _, later, ending) =>
      sent + [Intermediate(Some(RefreshPresent(cookie, false)))] + later + [End(true, ending)]
  }

  /** A refresh that takes `base` to `content`; between two phases the content
      may have been something else again. */
  ghost predicate Sends<E>(r: Refresh<E>, base: map<Uuid, E>, content: map<Uuid, E>) {
    && (r.ending.SearchDone? ==>
          forall i :: 0 <= i < |r.ending.others| ==> r.ending.others[i].OtherDoneControl?)
    && match r
       case ByPresence(sent, _) => Phase(sent, false, base, content)
       case ByDeletion(sent, _) => Phase(sent, true, base, content)
       case PresenceThenDeletion(sent, _, between, later, _) =>
         Phase(sent, false, base, between) && Phase(later, true, between, content)
  }

  lemma OnMessagesSnoc<E>(st: State<E>, ms: seq<Message<E>>, m: Message<E>)
    ensures OnMessages(st, ms + [m]) == OnMessage(OnMessages(st, ms), m)
  {
    assert (ms + [m])[..|ms|] == ms;
  }

  lemma {:induction false} OnMessagesConcat<E>(st: State<E>, ms: seq<Message<E>>, more: seq<Message<E>>)
    ensures OnMessages(st, ms + more) == OnMessages(OnMessages(st, ms), more)
    decreases |more|
  {
    hide OnMessage;
    if more == [] {
      assert ms + more == ms;
    } else {
      var n := |more| - 1;
      OnMessagesConcat(st, ms, more[..n]);
      assert ms + more == ms + more[..n] + [more[n]];
      OnMessagesSnoc(st, ms + more[..n], more[n]);
    }
  }

  lemma {:induction false} OnDoneSkips<E>(st: State<E>, others: seq<DoneControl>, last: DoneControl)
    requires forall i :: 0 <= i < |others| ==> others[i].OtherDoneControl?
    ensures OnDone(st, others + [last]) == OnDone(st, [last])
    decreases |others|
  {
    if others == [] {
      assert others + [last] == [last];
    } else {
      assert (others + [last])[1..] == others[1..] + [last];
      OnDoneSkips(st, others[1..], last);
    }
  }

  lemma EndEnds<E>(st: State<E>, refreshDeletes: bool, ending: Ending)
    requires ending.SearchDone? ==> forall i :: 0 <= i < |ending.others| ==> ending.others[i].OtherDoneControl?
    ensures var after, ended := OnMessage(st, End(refreshDeletes, ending)), EndPhase(st, refreshDeletes);
            && after.copy == ended.copy && after.present == {}
            && after.refreshDone == (st.refreshDone || ending.StaysOpen?)
  {
    if ending.SearchDone? {
      var last := SyncDoneControl(ending.cookie, if refreshDeletes then Some(true) else None);
      OnDoneSkips(st, ending.others, last);
      assert [last][1..] == [];
    }
  }

  /** Every refresh that a provider may send, begun with an empty record and the
      copy as it was at the cookie, ends with the copy as the provider's content
      is, and with an empty record. */
  lemma RefreshConverges<E>(st: State<E>, r: Refresh<E>, content: map<Uuid, E>)
    requires !st.refreshDone && st.present == {} && Sends(r, st.copy, content)
    ensures var after := OnMessages(st, Transcript(r));
            after.copy == content && after.present == {} && after.refreshDone == r.ending.StaysOpen?
  {
    hide Phase;
    hide OnMessage;
    hide OnMessages;
    hide EndPhase;
    match r
    case ByPresence(sent, ending) =>
      PresentPhase(st, sent, content);
      OnMessagesSnoc(st, sent, End(false, ending));
      KeepsGoing(st, sent, false, st.copy, content);
      EndEnds(OnMessages(st, sent), false, ending);
    case ByDeletion(sent, ending) =>
      DeletePhase(st, sent, content);
      OnMessagesSnoc(st, sent, End(true, ending));
      KeepsGoing(st, sent, true, st.copy, content);
      EndEnds(OnMessages(st, sent), true, ending);
    case PresenceThenDeletion(sent, cookie, between, later, ending) =>
      var middle := Intermediate(Some(RefreshPresent(cookie, false)));
      var st1 := OnMessages(st, sent + [middle]);
      PresentPhase(st, sent, between);
      OnMessagesSnoc(st, sent, middle);
      KeepsGoing(st, sent, false, st.copy, between);
      MiddleEnds(OnMessages(st, sent), cookie);
      DeletePhase(st1, later, content);
      OnMessagesConcat(st, sent + [middle], later);
      OnMessagesSnoc(st, sent + [middle] + later, End(true, ending));
      KeepsGoing(st1, later, true, st1.copy, content);
      EndEnds(OnMessages(st1, later), true, ending);
  }

  lemma KeepsGoing<E>(st: State<E>, ms: seq<Message<E>>, deletes: bool, base: map<Uuid, E>, content: map<Uuid, E>)
    requires !st.refreshDone && Phase(ms, deletes, base, content)
    ensures !OnMessages(st, ms).refreshDone
  {
    PhaseRuns(st, ms, |ms|, deletes, base, content);
    assert ms[..|ms|] == ms;
  }

  lemma MiddleEnds<E>(st: State<E>, cookie: Option<string>)
    ensures var after := OnMessage(st, Intermediate(Some(RefreshPresent(cookie, false))));
            && after.copy == EndPhase(st, false).copy && after.present == {} && after.refreshDone == st.refreshDone
  {
  }

  // ------------------------------------------------------ after the refresh

  /** A message of the persist stage, which takes the content from `before` to
      `after`. */
  ghost predicate Changes<E>(m: Message<E>, before: map<Uuid, E>, after: map<Uuid, E>) {
    match m
    case Entry(entry, controls) =>
      && FirstSync(controls).Some? && FirstSync(controls).value.SyncStateControl?
      && (var c := FirstSync(controls).value;
          match c.state
          case PresentState => false
          case DeleteState => after == before - {c.uuid}
          case _ => after == before[c.uuid := entry])
    case Intermediate(info) =>
      if info.None? || info.value.NewCookie? then after == before
      else info.value.SyncIdSet? && info.value.refreshDeletes && after == before - UuidSet(info.value.uuids)
    case Result(_) => false
  }

  ghost predicate History<E>(ms: seq<Message<E>>, contents: seq<map<Uuid, E>>) {
    |contents| == |ms| + 1 && forall i :: 0 <= i < |ms| ==> Changes(ms[i], contents[i], contents[i + 1])
  }

  lemma ChangeFollowed<E>(st: State<E>, m: Message<E>, after: map<Uuid, E>)
    requires st.refreshDone && Changes(m, st.copy, after)
    ensures OnMessage(st, m).copy == after && OnMessage(st, m).present == st.present && OnMessage(st, m).refreshDone
  {
  }

  /** Once the refresh is over the copy is the content after every message. */
  lemma {:induction false} PersistFollows<E>(st: State<E>, ms: seq<Message<E>>, contents: seq<map<Uuid, E>>, n: nat)
    requires st.refreshDone && History(ms, contents) && st.copy == contents[0] && n <= |ms|
    ensures var after := OnMessages(st, ms[..n]);
            after.copy == contents[n] && after.present == st.present && after.refreshDone
  {
    hide OnMessage;
    if n > 0 {
      PersistFollows(st, ms, contents, n - 1);
      assert Changes(ms[n - 1], contents[n - 1], contents[n]);
      hide Changes;
      OnMessagesNext(st, ms, n - 1);
      ChangeFollowed(OnMessages(st, ms[..n - 1]), ms[n - 1], contents[n]);
    }
  }

  // ---------------------------------------------------------- search after search

  /** One search: its refresh, then, if it stays open, the changes that follow. */
  datatype Session<E> = Session(refresh: Refresh<E>, changes: seq<Message<E>>, contents: seq<map<Uuid, E>>)

  /** What a provider's cookies stand for: the content when the cookie was given,
      and nothing where none is sent. */
  type Cookies<E> = map<string, map<Uuid, E>>

  function ContentAt<E>(at: Cookies<E>, cookie: Option<string>): map<Uuid, E> {
    if cookie.Some? && cookie.value in at then at[cookie.value] else map[]
  }

  /** The search was answered as the cookie that was sent asks for, and the last
      cookie that came, if one did, stands for the content in the end. */
  ghost predicate Serves<E>(s: Session<E>, at: Cookies<E>, sent: Option<string>) {
    && History(s.changes, s.contents)
    && Sends(s.refresh, ContentAt(at, sent), s.contents[0])
    && (s.refresh.ending.SearchDone? ==> s.changes == [])
    && ContentAt(at, LastOf(CookiesOf(Messages(s)), sent)) == ContentAfter(s)
  }

  function Messages<E>(s: Session<E>): seq<Message<E>> {
    Transcript(s.refresh) + s.changes
  }

  function Follow<E>(st: State<E>, s: Session<E>): State<E> {
    OnMessages(st.(refreshDone := false), Messages(s))
  }

  function FollowAll<E>(st: State<E>, ss: seq<Session<E>>): State<E>
    decreases |ss|
  {
    if ss == [] then st else Follow(FollowAll(st, ss[..|ss| - 1]), ss[|ss| - 1])
  }

  function ContentAfter<E>(s: Session<E>): map<Uuid, E>
    requires s.contents != []
  {
    s.contents[|s.contents| - 1]
  }

  /** Each search sends the cookie that is stored when it starts. */
  ghost predicate ServesAll<E>(st: State<E>, ss: seq<Session<E>>, at: Cookies<E>) {
    forall i :: 0 <= i < |ss| ==> ServesNext(st, ss, at, i)
  }

  ghost predicate ServesNext<E>(st: State<E>, ss: seq<Session<E>>, at: Cookies<E>, i: nat)
    requires i < |ss|
  {
    Serves(ss[i], at, FollowAll(st, ss[..i]).cookie)
  }

  lemma ServesBefore<E>(st: State<E>, ss: seq<Session<E>>, at: Cookies<E>, n: nat)
    requires ServesAll(st, ss, at) && n <= |ss|
    ensures ServesAll(st, ss[..n], at)
  {
    hide Serves;
    forall i | 0 <= i < n ensures ServesNext(st, ss[..n], at, i) {
      assert ServesNext(st, ss, at, i);
      assert ss[..n][..i] == ss[..i];
    }
  }

  lemma SessionConverges<E>(st: State<E>, s: Session<E>, at: Cookies<E>)
    requires st.present == {} && st.copy == ContentAt(at, st.cookie) && Serves(s, at, st.cookie)
    ensures var after := Follow(st, s);
            && s.contents != [] && after.copy == ContentAfter(s) && after.present == {}
            && after.copy == ContentAt(at, after.cookie)
  {
    var st0 := st.(refreshDone := false);
    CookieIsLast(st0, Messages(s));
    hide Sends;
    hide OnMessages;
    hide CookiesOf;
    RefreshConverges(st0, s.refresh, s.contents[0]);
    OnMessagesConcat(st0, Transcript(s.refresh), s.changes);
    var st1 := OnMessages(st0, Transcript(s.refresh));
    if s.refresh.ending.StaysOpen? {
      PersistFollows(st1, s.changes, s.contents, |s.changes|);
      assert s.changes[..|s.changes|] == s.changes;
    } else {
      OnNoMessages(st1, s.changes);
    }
  }

  /** Over any number of searches, each of which sends the cookie that the ones before
      it left and gets through its refresh, the copy is the provider's content
      whenever one ends, and the content at the cookie then stored. */
  lemma {:induction false} SessionsConverge<E>(st: State<E>, ss: seq<Session<E>>, at: Cookies<E>)
    requires st.present == {} && st.copy == ContentAt(at, st.cookie) && ServesAll(st, ss, at)
    ensures var after := FollowAll(st, ss); after.present == {} && after.copy == ContentAt(at, after.cookie)
    ensures ss != [] ==> ss[|ss| - 1].contents != [] && FollowAll(st, ss).copy == ContentAfter(ss[|ss| - 1])
    decreases |ss|
  {
    hide Serves;
    hide Follow;
    if ss != [] {
      var n := |ss| - 1;
      ServesBefore(st, ss, at, n);
      SessionsConverge(st, ss[..n], at);
      assert ServesNext(st, ss, at, n);
      SessionConverges(FollowAll(st, ss[..n]), ss[n], at);
    }
  }
}
