/** protocols/ldap/merger.py: one request sent to several servers, whose
    responses come in any order, is answered as if by one server. */
module Merger {
  import opened Options

  datatype Response = Partial(payload: string) | Final(code: nat, payload: string)

  const SUCCESS := 0

  // --------------------------------------------------------------- the handler

  function Successes(rs: seq<Response>): seq<Response> {
    if rs == [] then []
    else
      var last := rs[|rs| - 1];
      Successes(rs[..|rs| - 1]) + (if last.Final? && last.code == SUCCESS then [last] else [])
  }

  /** The response that stands for all of them: the last success, or the last. */
  function Chosen(rs: seq<Response>): Response
    requires rs != []
  {
    var s := Successes(rs);
    if s != [] then s[|s| - 1] else rs[|rs| - 1]
  }

  lemma {:induction false} SuccessesAre(rs: seq<Response>)
    ensures forall r :: r in Successes(rs) <==> r in rs && r.Final? && r.code == SUCCESS
    decreases |rs|
  {
    if rs != [] {
      var n := |rs| - 1;
      SuccessesAre(rs[..n]);
      assert rs == rs[..n] + [rs[n]];
    }
  }

  /** The request succeeds if and only if some server said so. */
  lemma ChosenIsSuccess(rs: seq<Response>)
    requires rs != [] && forall r :: r in rs ==> r.Final?
    ensures Chosen(rs) in rs
    ensures Chosen(rs).code == SUCCESS <==> exists r :: r in rs && r.code == SUCCESS
  {
    SuccessesAre(rs);
    var s := Successes(rs);
    if s != [] {
      assert s[|s| - 1] in s;
    }
    if r :| r in rs && r.code == SUCCESS {
      assert r in s;
    }
  }

  lemma {:induction false} NoSuccess(rs: seq<Response>)
    requires forall j :: 0 <= j < |rs| ==> !(rs[j].Final? && rs[j].code == SUCCESS)
    ensures Successes(rs) == []
  {
    if rs != [] { NoSuccess(rs[..|rs| - 1]); }
  }

  /** Of several successes the one that came last stands for all, and where there is
      none the response that came last. */
  lemma {:induction false} ChosenIs(rs: seq<Response>, i: nat)
    requires i < |rs|
    requires (rs[i].Final? && rs[i].code == SUCCESS) ||
             (i == |rs| - 1 && forall j :: 0 <= j < |rs| ==> !(rs[j].Final? && rs[j].code == SUCCESS))
    requires forall j :: i < j < |rs| ==> !(rs[j].Final? && rs[j].code == SUCCESS)
    ensures Chosen(rs) == rs[i]
    decreases |rs|
  {
    var n := |rs| - 1;
    if rs[i].Final? && rs[i].code == SUCCESS {
      if i < n {
        ChosenIs(rs[..n], i);
        SuccessesAre(rs[..n]);
        assert rs[..n][i] in Successes(rs[..n]);
      }
    } else {
      NoSuccess(rs);
    }
  }

  lemma ChosenIsFinal(rs: seq<Response>)
    requires rs != [] && forall r :: r in rs ==> r.Final?
    ensures Chosen(rs).Final?
  {
    ChosenIsSuccess(rs);
  }

  class Collector {
    const clients: nat
    var finalResponses: seq<Response>

    constructor (clients: nat)
      ensures this.clients == clients && finalResponses == []
    {
      this.clients := clients;
      finalResponses := [];
    }

    /** got_response, up to the reply that it awaits, if there is one. */
    method GotResponse(response: Response) returns (final: bool, reply: Option<Response>)
      modifies this
      ensures final == response.Final?
      ensures finalResponses == old(finalResponses) + (if final then [response] else [])
      ensures reply == if !final then Some(response)
                       else if |finalResponses| == clients then Some(Chosen(finalResponses)) else None
    {
      final := response.Final?;
      if !final {
        return final, Some(response);
      }
      finalResponses := finalResponses + [response];
      if |finalResponses| != clients {
        return final, None;
      }
      var successes := SuccessesLoop(finalResponses);
      reply := Some(if successes != [] then successes[|successes| - 1] else finalResponses[|finalResponses| - 1]);
    }
  }

  method SuccessesLoop(rs: seq<Response>) returns (s: seq<Response>)
    ensures s == Successes(rs)
  {
    s := [];
    for i := 0 to |rs|
      invariant s == Successes(rs[..i])
    {
      assert rs[..i + 1][..i] == rs[..i];
      if rs[i].Final? && rs[i].code == SUCCESS {
        s := s + [rs[i]];
      }
    }
    assert rs[..|rs|] == rs;
  }

  // ------------------------------------------------------------------ the runs

  /** A reply to the client, and the server whose response made for it. */
  datatype Reply = Reply(server: nat, response: Response)

  /** How many of each server's responses were taken up, the reply each handler
      waits for, the final responses so far, and the replies that are out. */
  datatype State = State(taken: seq<nat>, waiting: seq<Option<Response>>, finals: seq<Response>, replied: seq<Reply>)

  datatype Step = TakeUp(server: nat) | WriteOut(server: nat)

  /** What each server sends: any responses that are not final, then one that is. */
  predicate Script(rs: seq<Response>) {
    rs != [] && rs[|rs| - 1].Final? && forall i :: 0 <= i < |rs| - 1 ==> rs[i].Partial?
  }

  predicate Scripts(scripts: seq<seq<Response>>) {
    forall i :: 0 <= i < |scripts| ==> Script(scripts[i])
  }

  function Begin(n: nat): State {
    State(seq(n, i requires 0 <= i < n => 0), seq(n, i requires 0 <= i < n => None), [], [])
  }

  predicate Shaped(scripts: seq<seq<Response>>, st: State) {
    |st.taken| == |st.waiting| == |scripts| && forall i :: 0 <= i < |scripts| ==> st.taken[i] <= |scripts[i]|
  }

  /** A connection takes up its next response when the handler of the one before
      it is done. */
  predicate Enabled(scripts: seq<seq<Response>>, st: State, step: Step) {
    && Shaped(scripts, st) && step.server < |scripts|
    && match step
       case TakeUp(i) => st.waiting[i] == None && st.taken[i] < |scripts[i]|
       case WriteOut(i) => st.waiting[i].Some?
  }

  function Take(scripts: seq<seq<Response>>, st: State, step: Step): State
    requires Enabled(scripts, st, step)
  {
    match step
    case TakeUp(i) =>
      var r := scripts[i][st.taken[i]];
      var finals := st.finals + (if r.Final? then [r] else []);
      var reply := if r.Partial? then Some(r) else if |finals| == |scripts| then Some(Chosen(finals)) else None;
      State(st.taken[i := st.taken[i] + 1], st.waiting[i := reply], finals, st.replied)
    case WriteOut(i) =>
      State(st.taken, st.waiting[i := None], st.finals, st.replied + [Reply(i, st.waiting[i].value)])
  }

  predicate Run(scripts: seq<seq<Response>>, states: seq<State>, steps: seq<Step>) {
    && |states| == |steps| + 1 && states[0] == Begin(|scripts|)
    && forall i :: 0 <= i < |steps| ==>
         Enabled(scripts, states[i], steps[i]) && states[i + 1] == Take(scripts, states[i], steps[i])
  }

  // ------------------------------------------------------------- the invariant

  /** The partial responses of one server that were passed on, in order. */
  function PartialsFrom(replied: seq<Reply>, i: nat): seq<Response> {
    if replied == [] then []
    else
      var last := replied[|replied| - 1];
      PartialsFrom(replied[..|replied| - 1], i) +
      (if last.server == i && last.response.Partial? then [last.response] else [])
  }

  function Partials(rs: seq<Response>): seq<Response> {
    if rs == [] then []
    else
      var last := rs[|rs| - 1];
      Partials(rs[..|rs| - 1]) + (if last.Partial? then [last] else [])
  }

  predicate Finished(scripts: seq<seq<Response>>, st: State, i: nat)
    requires Shaped(scripts, st) && i < |scripts|
  {
    st.taken[i] == |scripts[i]|
  }

  function FinishedSet(scripts: seq<seq<Response>>, st: State): set<nat>
    requires Shaped(scripts, st)
  {
    set i: nat | i < |scripts| && Finished(scripts, st, i)
  }

  function LastOf(rs: seq<Response>): Response
    requires rs != []
  {
    rs[|rs| - 1]
  }

  /** One server's responses: those taken up that are not final are out or waited
      for, the last of them only while more is to come. */
  predicate Tidy(scripts: seq<seq<Response>>, st: State, i: nat)
    requires Shaped(scripts, st) && i < |scripts|
  {
    var held := st.waiting[i].Some? && st.waiting[i].value.Partial?;
    && PartialsFrom(st.replied, i) + (if held then [st.waiting[i].value] else []) == Partials(scripts[i][..st.taken[i]])
    && (held ==> !Finished(scripts, st, i))
  }

  predicate AllTidy(scripts: seq<seq<Response>>, st: State)
    requires Shaped(scripts, st)
  {
    forall i :: 0 <= i < |scripts| ==> Tidy(scripts, st, i)
  }

  /** The final responses are those of the servers that are finished. */
  predicate Counted(scripts: seq<seq<Response>>, st: State)
    requires Shaped(scripts, st) && Scripts(scripts)
  {
    && |st.finals| == |FinishedSet(scripts, st)|
    && (forall i :: 0 <= i < |scripts| && Finished(scripts, st, i) ==> LastOf(scripts[i]) in st.finals)
    && (forall r :: r in st.finals ==> r.Final? && exists i :: 0 <= i < |scripts| && LastOf(scripts[i]) == r)
  }

  predicate OnlyPartials(replied: seq<Reply>) {
    forall k :: 0 <= k < |replied| ==> replied[k].response.Partial?
  }

  /** Some server is not finished: no final reply was made. */
  predicate Open(scripts: seq<seq<Response>>, st: State) {
    && |st.finals| < |scripts| && OnlyPartials(st.replied)
    && forall i :: 0 <= i < |st.waiting| && st.waiting[i].Some? ==> st.waiting[i].value.Partial?
  }

  /** All are finished, and the handler of one waits for the final reply. */
  predicate Pending(scripts: seq<seq<Response>>, st: State, server: nat) {
    && |st.finals| == |scripts| && OnlyPartials(st.replied) && st.finals != []
    && server < |st.waiting| && st.waiting[server] == Some(Chosen(st.finals))
    && forall i :: 0 <= i < |st.waiting| && i != server ==> st.waiting[i] == None
  }

  /** The final reply is out, after all others. */
  predicate Closed(scripts: seq<seq<Response>>, st: State) {
    && |st.finals| == |scripts| && st.finals != [] && st.replied != []
    && LastReply(st.replied).response == Chosen(st.finals) && OnlyPartials(st.replied[..|st.replied| - 1])
    && forall i :: 0 <= i < |st.waiting| ==> st.waiting[i] == None
  }

  function LastReply(replied: seq<Reply>): Reply
    requires replied != []
  {
    replied[|replied| - 1]
  }

  ghost predicate Phase(scripts: seq<seq<Response>>, st: State) {
    Open(scripts, st) || (exists i :: Pending(scripts, st, i)) || Closed(scripts, st)
  }

  ghost predicate Inv(scripts: seq<seq<Response>>, st: State)
    requires Scripts(scripts)
  {
    Shaped(scripts, st) && AllTidy(scripts, st) && Counted(scripts, st) && Phase(scripts, st)
  }

  lemma {:induction false} Below(s: set<nat>, n: nat)
    requires forall x :: x in s ==> x < n
    ensures |s| <= n && (|s| == n ==> forall x :: 0 <= x < n ==> x in s)
  {
    if n > 0 {
      var t := s - {n - 1};
      Below(t, n - 1);
      if n - 1 in s { assert |s| == |t| + 1; } else { assert t == s; }
    } else {
      assert s == {};
    }
  }

  lemma ShapeKept(scripts: seq<seq<Response>>, st: State, step: Step)
    requires Enabled(scripts, st, step)
    ensures Shaped(scripts, Take(scripts, st, step))
  {
  }

  lemma PartialsNext(rs: seq<Response>, n: nat)
    requires n < |rs|
    ensures Partials(rs[..n + 1]) == Partials(rs[..n]) + (if rs[n].Partial? then [rs[n]] else [])
  {
    assert rs[..n + 1][..n] == rs[..n];
  }

  lemma Nothing<T>(s: seq<T>)
    ensures s + [] == s
  {
  }

  lemma TidyTaken(scripts: seq<seq<Response>>, st: State, j: nat)
    requires Scripts(scripts) && Enabled(scripts, st, TakeUp(j)) && Tidy(scripts, st, j)
    requires forall r :: r in st.finals ==> r.Final?
    ensures Tidy(scripts, Take(scripts, st, TakeUp(j)), j)
  {
    var after := Take(scripts, st, TakeUp(j));
    assert Script(scripts[j]);
    PartialsNext(scripts[j], st.taken[j]);
    Nothing(PartialsFrom(st.replied, j));
    Nothing(Partials(scripts[j][..st.taken[j]]));
    if after.finals != [] { ChosenIsFinal(after.finals); }
    hide PartialsFrom;
    hide Partials;
    hide Chosen;
  }

  lemma PartialsFromNext(replied: seq<Reply>, r: Reply, i: nat)
    ensures PartialsFrom(replied + [r], i) ==
            PartialsFrom(replied, i) + (if r.server == i && r.response.Partial? then [r.response] else [])
  {
    assert (replied + [r])[..|replied|] == replied;
  }

  lemma TidyWritten(scripts: seq<seq<Response>>, st: State, j: nat, i: nat)
    requires Enabled(scripts, st, WriteOut(j)) && i < |scripts| && Tidy(scripts, st, i)
    ensures Tidy(scripts, Take(scripts, st, WriteOut(j)), i)
  {
    PartialsFromNext(st.replied, Reply(j, st.waiting[j].value), i);
    Nothing(PartialsFrom(st.replied, i));
    Nothing(PartialsFrom(st.replied + [Reply(j, st.waiting[j].value)], i));
    hide PartialsFrom;
    hide Partials;
  }

  lemma TidyKept(scripts: seq<seq<Response>>, st: State, step: Step)
    requires Scripts(scripts) && Enabled(scripts, st, step) && AllTidy(scripts, st) && Counted(scripts, st)
    ensures AllTidy(scripts, Take(scripts, st, step))
  {
    var after, j := Take(scripts, st, step), step.server;
    ShapeKept(scripts, st, step);
    forall i | 0 <= i < |scripts| ensures Tidy(scripts, after, i) {
      assert Tidy(scripts, st, i);
      if step.WriteOut? {
        TidyWritten(scripts, st, j, i);
      } else if i == j {
        TidyTaken(scripts, st, j);
      }
    }
    hide Tidy;
  }

  lemma CountedKept(scripts: seq<seq<Response>>, st: State, step: Step)
    requires Scripts(scripts) && Enabled(scripts, st, step) && Counted(scripts, st)
    ensures Counted(scripts, Take(scripts, st, step))
  {
    var after, j := Take(scripts, st, step), step.server;
    ShapeKept(scripts, st, step);
    assert Script(scripts[j]);
    if step.TakeUp? && scripts[j][st.taken[j]].Final? {
      assert st.taken[j] == |scripts[j]| - 1;
      assert !Finished(scripts, st, j) && Finished(scripts, after, j);
      assert FinishedSet(scripts, after) == FinishedSet(scripts, st) + {j};
      forall r | r in after.finals ensures r.Final? && exists i :: 0 <= i < |scripts| && LastOf(scripts[i]) == r {
        if r !in st.finals { assert LastOf(scripts[j]) == r; }
      }
    } else {
      NobodyFinished(scripts, st, step);
      hide Finished;
      hide Take;
    }
  }

  lemma NobodyFinished(scripts: seq<seq<Response>>, st: State, step: Step)
    requires Scripts(scripts) && Enabled(scripts, st, step) && Counted(scripts, st)
    requires !(step.TakeUp? && scripts[step.server][st.taken[step.server]].Final?)
    ensures var after := Take(scripts, st, step);
            && Shaped(scripts, after) && FinishedSet(scripts, after) == FinishedSet(scripts, st)
            && after.finals == st.finals
  {
    var after := Take(scripts, st, step);
    ShapeKept(scripts, st, step);
    assert Script(scripts[step.server]);
    forall i: nat | i < |scripts| ensures Finished(scripts, after, i) <==> Finished(scripts, st, i) {
    }
    hide Finished;
  }

  lemma AllFinished(scripts: seq<seq<Response>>, st: State)
    requires Scripts(scripts) && Shaped(scripts, st) && Counted(scripts, st)
    ensures |st.finals| <= |scripts|
    ensures |st.finals| == |scripts| ==> forall i :: 0 <= i < |scripts| ==> Finished(scripts, st, i)
  {
    Below(FinishedSet(scripts, st), |scripts|);
    if |st.finals| == |scripts| {
      forall i | 0 <= i < |scripts| ensures Finished(scripts, st, i) {
        assert i in FinishedSet(scripts, st);
      }
    }
  }

  lemma PhaseKept(scripts: seq<seq<Response>>, st: State, step: Step)
    requires Scripts(scripts) && Inv(scripts, st) && Enabled(scripts, st, step)
    ensures Phase(scripts, Take(scripts, st, step))
  {
    var after, j := Take(scripts, st, step), step.server;
    ShapeKept(scripts, st, step);
    TidyKept(scripts, st, step);
    CountedKept(scripts, st, step);
    AllFinished(scripts, st);
    AllFinished(scripts, after);
    assert Script(scripts[j]);
    if step.TakeUp? {
      assert !Finished(scripts, st, j);
      assert Open(scripts, st);
      if |after.finals| < |scripts| {
        assert Open(scripts, after);
      } else {
        OthersIdle(scripts, after, j);
        assert Pending(scripts, after, j);
      }
    } else {
      WritePhase(scripts, st, j);
    }
  }

  lemma OthersIdle(scripts: seq<seq<Response>>, st: State, j: nat)
    requires Shaped(scripts, st) && AllTidy(scripts, st) && j < |scripts|
    requires forall i :: 0 <= i < |scripts| ==> Finished(scripts, st, i)
    requires forall i :: 0 <= i < |scripts| && i != j && st.waiting[i].Some? ==> st.waiting[i].value.Partial?
    ensures forall i :: 0 <= i < |st.waiting| && i != j ==> st.waiting[i] == None
  {
    forall i | 0 <= i < |st.waiting| && i != j ensures st.waiting[i] == None {
      assert Tidy(scripts, st, i);
    }
  }

  lemma WritePhase(scripts: seq<seq<Response>>, st: State, j: nat)
    requires Scripts(scripts) && Phase(scripts, st) && Enabled(scripts, st, WriteOut(j))
    ensures Phase(scripts, Take(scripts, st, WriteOut(j)))
  {
    var after := Take(scripts, st, WriteOut(j));
    if Open(scripts, st) {
      assert Open(scripts, after);
    } else if i :| Pending(scripts, st, i) {
      assert i == j;
      assert after.replied[..|after.replied| - 1] == st.replied;
      assert Closed(scripts, after);
    }
  }

  lemma InvKept(scripts: seq<seq<Response>>, st: State, step: Step)
    requires Scripts(scripts) && Inv(scripts, st) && Enabled(scripts, st, step)
    ensures Inv(scripts, Take(scripts, st, step))
  {
    ShapeKept(scripts, st, step);
    TidyKept(scripts, st, step);
    CountedKept(scripts, st, step);
    PhaseKept(scripts, st, step);
    hide *;
    InvFrom(scripts, Take(scripts, st, step));
  }

  lemma InvFrom(scripts: seq<seq<Response>>, st: State)
    requires Scripts(scripts) && Shaped(scripts, st)
    requires AllTidy(scripts, st) && Counted(scripts, st) && Phase(scripts, st)
    ensures Inv(scripts, st)
  {
  }

  lemma InvStart(scripts: seq<seq<Response>>)
    requires Scripts(scripts) && scripts != []
    ensures Inv(scripts, Begin(|scripts|))
  {
    var st := Begin(|scripts|);
    forall i | 0 <= i < |scripts| ensures Tidy(scripts, st, i) && !Finished(scripts, st, i) {
      assert Script(scripts[i]);
      assert scripts[i][..0] == [];
    }
    assert FinishedSet(scripts, st) == {};
    assert Open(scripts, st);
  }

  lemma {:induction false} InvHolds(scripts: seq<seq<Response>>, states: seq<State>, steps: seq<Step>, n: nat)
    requires Scripts(scripts) && scripts != [] && Run(scripts, states, steps) && n < |states|
    ensures Inv(scripts, states[n])
    decreases n
  {
    if n == 0 {
      InvStart(scripts);
    } else {
      InvHolds(scripts, states, steps, n - 1);
      InvKept(scripts, states[n - 1], steps[n - 1]);
    }
  }

  // ------------------------------------------------------------- the theorems

  lemma OnlyLast(replied: seq<Reply>, k: nat)
    requires k < |replied| && replied[k].response.Final? && OnlyPartials(replied[..|replied| - 1])
    ensures k == |replied| - 1
  {
    var n := |replied| - 1;
    assert forall i :: 0 <= i < n ==> replied[i] == replied[..n][i];
  }

  /** At no time more than one final reply, and never anything after it. */
  lemma FinalComesLast(scripts: seq<seq<Response>>, states: seq<State>, steps: seq<Step>, n: nat, k: nat)
    requires Scripts(scripts) && scripts != [] && Run(scripts, states, steps) && n < |states|
    requires k < |states[n].replied| && states[n].replied[k].response.Final?
    ensures k == |states[n].replied| - 1
    ensures Shaped(scripts, states[n])
    ensures forall i :: 0 <= i < |scripts| ==> Finished(scripts, states[n], i) && states[n].waiting[i] == None
  {
    InvHolds(scripts, states, steps, n);
    var st := states[n];
    AllFinished(scripts, st);
    if Closed(scripts, st) { OnlyLast(st.replied, k); }
  }

  /** When nothing is left to do, each server's partial responses were passed on,
      each once and in its order, then one final reply was made, which is some
      server's final response, and a success if and only if one of them was. */
  lemma AnsweredAsOne(scripts: seq<seq<Response>>, states: seq<State>, steps: seq<Step>)
    requires Scripts(scripts) && scripts != [] && Run(scripts, states, steps)
    requires forall step :: !Enabled(scripts, states[|steps|], step)
    ensures var replied := states[|steps|].replied;
            && replied != [] && OnlyPartials(replied[..|replied| - 1])
            && (forall i :: 0 <= i < |scripts| ==> PartialsFrom(replied, i) == scripts[i][..|scripts[i]| - 1])
            && LastReply(replied).response.Final?
            && (LastReply(replied).response.code == SUCCESS <==>
                exists i :: 0 <= i < |scripts| && LastOf(scripts[i]).code == SUCCESS)
  {
    var st := states[|steps|];
    InvHolds(scripts, states, steps, |steps|);
    NothingLeft(scripts, st);
    AllFinished(scripts, st);
    forall i | 0 <= i < |scripts| ensures PartialsFrom(st.replied, i) == scripts[i][..|scripts[i]| - 1] {
      assert Tidy(scripts, st, i) && Finished(scripts, st, i) && Script(scripts[i]);
      assert scripts[i][..st.taken[i]] == scripts[i];
      AllButLast(scripts[i]);
    }
    ChosenIsSuccess(st.finals);
    FinalsAre(scripts, st);
  }

  lemma NothingLeft(scripts: seq<seq<Response>>, st: State)
    requires Scripts(scripts) && Inv(scripts, st) && forall step :: !Enabled(scripts, st, step)
    ensures Closed(scripts, st)
  {
    forall i | 0 <= i < |scripts| ensures st.waiting[i] == None && Finished(scripts, st, i) {
      assert !Enabled(scripts, st, WriteOut(i)) && !Enabled(scripts, st, TakeUp(i));
    }
    forall x: nat ensures x in FinishedSet(scripts, st) <==> x < |scripts| {
    }
    Counting(FinishedSet(scripts, st), |scripts|);
  }

  lemma {:induction false} Counting(s: set<nat>, n: nat)
    requires forall x: nat :: x in s <==> x < n
    ensures |s| == n
  {
    if n > 0 {
      var t := s - {n - 1};
      assert n - 1 in s;
      Counting(t, n - 1);
      assert |s| == |t| + 1;
    }
  }

  lemma {:induction false} AllPartial(rs: seq<Response>)
    requires forall i :: 0 <= i < |rs| ==> rs[i].Partial?
    ensures Partials(rs) == rs
    decreases |rs|
  {
    if rs != [] {
      AllPartial(rs[..|rs| - 1]);
      assert rs == rs[..|rs| - 1] + [rs[|rs| - 1]];
    }
  }

  lemma AllButLast(rs: seq<Response>)
    requires Script(rs)
    ensures Partials(rs) == rs[..|rs| - 1]
  {
    AllPartial(rs[..|rs| - 1]);
  }

  lemma FinalsAre(scripts: seq<seq<Response>>, st: State)
    requires Scripts(scripts) && Inv(scripts, st) && Closed(scripts, st)
    ensures (exists r :: r in st.finals && r.code == SUCCESS) <==>
            exists i :: 0 <= i < |scripts| && LastOf(scripts[i]).code == SUCCESS
  {
    AllFinished(scripts, st);
    forall i | 0 <= i < |scripts| ensures LastOf(scripts[i]) in st.finals {
      assert Finished(scripts, st, i);
    }
  }
}
