/** protocols/ldap/ldapsyntax.py: an entry that keeps a journal of what was
    changed since it was fetched or committed. */
module Journal {
  import opened Options
  import opened DistinguishedName
  import opened Attributes

  datatype Status = Ready | Deleted | Invalid

  datatype Fault = BadState | CannotRemoveRdn | NoSuchValue | NoSuchAttribute | Refused

  datatype State = State(local: Attrs, remote: Attrs, journal: seq<Modification>, status: Status, rdn: Rdn)

  // ------------------------------------------------- the changes, as functions

  function Noted(st: State, m: Modification): State {
    st.(journal := st.journal + [m])
  }

  /** The attribute's set is this one from now on. */
  function With(st: State, k: string, values: set<string>): State {
    st.(local := st.local[k := values])
  }

  predicate NamesRdn(rdn: Rdn, k: string) {
    exists i :: 0 <= i < |rdn| && rdn[i].attributeType == k
  }

  predicate IsRdnValue(rdn: Rdn, k: string, v: string) {
    exists i :: 0 <= i < |rdn| && rdn[i].attributeType == k && rdn[i].value == v
  }

  /** What is done to an entry. The last four are done on a set that was looked up
      for an attribute and that the entry holds no more; `held` is what it has. */
  datatype Change =
    | AddValue(key: string, v: string)
    | UpdateValues(key: string, values: set<string>)
    | RemoveValue(key: string, v: string)
    | ClearValues(key: string)
    | Assign(key: string, values: set<string>)
    | Remove(key: string)
    | Undo
    | CommitDone
    | OldAdd(key: string, v: string)
    | OldUpdate(key: string, values: set<string>)
    | OldRemove(key: string, v: string, held: set<string>)
    | OldClear(key: string)

  /** Why a change is refused, if it is. */
  function Refusal(st: State, c: Change): Option<Fault> {
    match c
    case AddValue(k, _) => if k in st.local then None else Some(NoSuchAttribute)
    case UpdateValues(k, _) => if k in st.local then None else Some(NoSuchAttribute)
    case RemoveValue(k, v) =>
      if k !in st.local then Some(NoSuchAttribute)
      else if v !in st.local[k] then Some(NoSuchValue)
      else if st.status != Ready then Some(BadState)
      else if IsRdnValue(st.rdn, k, v) then Some(CannotRemoveRdn) else None
    case ClearValues(k) =>
      if k !in st.local then Some(NoSuchAttribute)
      else if st.status != Ready then Some(BadState)
      else if NamesRdn(st.rdn, k) then Some(CannotRemoveRdn) else None
    case Assign(k, _) =>
      if st.status != Ready then Some(BadState) else if NamesRdn(st.rdn, k) then Some(CannotRemoveRdn) else None
    case Remove(k) =>
      if st.status != Ready then Some(BadState)
      else if NamesRdn(st.rdn, k) then Some(CannotRemoveRdn)
      else if k !in st.local then Some(NoSuchAttribute) else None
    case Undo => if st.status != Ready then Some(BadState) else None
    case CommitDone => if st.status != Ready then Some(BadState) else None
    case OldAdd(_, _) => None
    case OldUpdate(_, _) => None
    case OldRemove(k, v, held) =>
      if v !in held then Some(NoSuchValue)
      else if st.status != Ready then Some(BadState)
      else if IsRdnValue(st.rdn, k, v) then Some(CannotRemoveRdn) else None
    case OldClear(k) =>
      if st.status != Ready then Some(BadState) else if NamesRdn(st.rdn, k) then Some(CannotRemoveRdn) else None
  }

  function After(st: State, c: Change): State
    requires Refusal(st, c) == None
  {
    match c
    case AddValue(k, v) => Noted(With(st, k, st.local[k] + {v}), Modification(Add, k, {v}))
    case UpdateValues(k, vs) => Noted(With(st, k, st.local[k] + vs), Modification(Add, k, vs))
    case RemoveValue(k, v) => Noted(With(st, k, st.local[k] - {v}), Modification(Delete, k, {v}))
    case ClearValues(k) => Noted(With(st, k, {}), Modification(Delete, k, {}))
    case Assign(k, vs) => Noted(With(st, k, vs), Modification(Replace, k, vs))
    case Remove(k) => Noted(st.(local := st.local - {k}), Modification(Delete, k, {}))
    case Undo => st.(local := Rebuilt(st.remote), journal := [])
    case CommitDone => if st.journal == [] then st else st.(remote := Rebuilt(st.local), journal := [])
    case OldAdd(k, v) => Noted(st, Modification(Add, k, {v}))
    case OldUpdate(k, vs) => Noted(st, Modification(Add, k, vs))
    case OldRemove(k, v, _) => Noted(st, Modification(Delete, k, {v}))
    case OldClear(k) => Noted(st, Modification(Delete, k, {}))
  }

  // ---------------------------------------------------------------- the entry

  class AttributeSet {
    const owner: JournaledEntry
    const key: string
    var values: set<string>

    constructor (owner: JournaledEntry, key: string, values: set<string>)
      ensures this.owner == owner && this.key == key && this.values == values
    {
      this.owner := owner;
      this.key := key;
      this.values := values;
    }

    /** The entry holds this set for its attribute: it was not assigned anew,
        removed or undone since the set was looked up. */
    ghost predicate Live()
      reads owner`attributes
    {
      key in owner.attributes && owner.attributes[key] == this
    }

    method Add(value: string)
      requires owner.Valid()
      modifies owner`journal, this
      ensures owner.Valid()
      ensures owner.Now() == After(old(owner.Now()), if Live() then AddValue(key, value) else OldAdd(key, value))
    {
      owner.Note(Modification(Attributes.Add, key, {value}));
      SetValues(values + {value});
    }

    method Update(more: set<string>)
      requires owner.Valid()
      modifies owner`journal, this
      ensures owner.Valid()
      ensures owner.Now() == After(old(owner.Now()), if Live() then UpdateValues(key, more) else OldUpdate(key, more))
    {
      owner.Note(Modification(Attributes.Add, key, more));
      SetValues(values + more);
    }

    method Remove(value: string) returns (r: Option<Fault>)
      requires owner.Valid()
      modifies owner`journal, this
      ensures owner.Valid()
      ensures var c := if Live() then RemoveValue(key, value) else OldRemove(key, value, old(values));
              && r == Refusal(old(owner.Now()), c)
              && owner.Now() == if r == None then After(old(owner.Now()), c) else old(owner.Now())
    {
      if value !in values {
        return Some(NoSuchValue);
      }
      r := owner.CanRemove(key, value);
      if r.Some? {
        return;
      }
      owner.Note(Modification(Delete, key, {value}));
      SetValues(values - {value});
    }

    method Clear() returns (r: Option<Fault>)
      requires owner.Valid()
      modifies owner`journal, this
      ensures owner.Valid()
      ensures var c := if Live() then ClearValues(key) else OldClear(key);
              && r == Refusal(old(owner.Now()), c)
              && owner.Now() == if r == None then After(old(owner.Now()), c) else old(owner.Now())
    {
      r := owner.CanRemoveAll(key);
      if r.Some? {
        return;
      }
      SetValues({});
      owner.Note(Modification(Delete, key, {}));
    }

    method SetValues(values: set<string>)
      requires owner.Valid()
      modifies this`values
      ensures owner.Valid() && this.values == values
      ensures owner.Local() == if Live() then old(owner.Local())[key := values] else old(owner.Local())
    {
      this.values := values;
    }
  }

  class JournaledEntry {
    var attributes: map<string, AttributeSet>
    var remote: Attrs
    var journal: seq<Modification>
    var status: Status
    const rdn: Rdn

    ghost predicate Valid()
      reads this`attributes
    {
      forall k :: k in attributes ==> attributes[k].owner == this && attributes[k].key == k
    }

    ghost function Local(): Attrs
      reads this`attributes, attributes.Values
    {
      map k | k in attributes :: attributes[k].values
    }

    ghost function Now(): State
      reads this, attributes.Values
    {
      State(Local(), remote, journal, status, rdn)
    }

    method Note(m: Modification)
      modifies this`journal
      ensures Now() == Noted(old(Now()), m)
    {
      journal := journal + [m];
    }

    method CanRemove(key: string, value: string) returns (r: Option<Fault>)
      ensures r == if status != Ready then Some(BadState)
                   else if IsRdnValue(rdn, key, value) then Some(CannotRemoveRdn) else None
    {
      if status != Ready {
        return Some(BadState);
      }
      for i := 0 to |rdn|
        invariant forall j :: 0 <= j < i ==> !(rdn[j].attributeType == key && rdn[j].value == value)
      {
        if rdn[i].attributeType == key && rdn[i].value == value {
          return Some(CannotRemoveRdn);
        }
      }
      r := None;
    }

    method CanRemoveAll(key: string) returns (r: Option<Fault>)
      ensures r == if status != Ready then Some(BadState)
                   else if NamesRdn(rdn, key) then Some(CannotRemoveRdn) else None
    {
      if status != Ready {
        return Some(BadState);
      }
      for i := 0 to |rdn|
        invariant forall j :: 0 <= j < i ==> rdn[j].attributeType != key
      {
        if rdn[i].attributeType == key {
          return Some(CannotRemoveRdn);
        }
      }
      r := None;
    }

    method SetItem(key: string, values: set<string>) returns (r: Option<Fault>)
      requires Valid()
      modifies this`attributes, this`journal
      ensures Valid()
      ensures r == Refusal(old(Now()), Assign(key, values))
      ensures Now() == if r == None then After(old(Now()), Assign(key, values)) else old(Now())
      ensures r == None ==> key in attributes && fresh(attributes[key])
    {
      r := CanRemoveAll(key);
      if r.Some? {
        return;
      }
      var new_ := new AttributeSet(this, key, values);
      attributes := attributes[key := new_];
      Note(Modification(Replace, key, values));
    }

    method DelItem(key: string) returns (r: Option<Fault>)
      requires Valid()
      modifies this`attributes, this`journal
      ensures Valid()
      ensures r == Refusal(old(Now()), Remove(key))
      ensures Now() == if r == None then After(old(Now()), Remove(key)) else old(Now())
    {
      r := CanRemoveAll(key);
      if r.Some? {
        return;
      }
      if key !in attributes {
        return Some(NoSuchAttribute);
      }
      attributes := attributes - {key};
      Note(Modification(Delete, key, {}));
    }

    method UndoAll() returns (r: Option<Fault>)
      requires Valid()
      modifies this`attributes, this`journal
      ensures Valid()
      ensures r == Refusal(old(Now()), Undo)
      ensures Now() == if r == None then After(old(Now()), Undo) else old(Now())
      ensures r == None ==> fresh(attributes.Values)
    {
      if status != Ready {
        return Some(BadState);
      }
      Rebuild(Rebuilt(remote));
      journal := [];
      r := None;
    }

    /** A new set for every attribute. */
    method Rebuild(items: Attrs)
      modifies this`attributes
      ensures Valid() && Local() == items && fresh(attributes.Values)
    {
      attributes := map[];
      var left := items.Keys;
      while left != {}
        invariant left <= items.Keys && Valid()
        invariant forall k :: k in attributes <==> k in items && k !in left
        invariant forall k :: k in attributes ==> attributes[k].values == items[k] && fresh(attributes[k])
        decreases |left|
      {
        var k :| k in left;
        var s := new AttributeSet(this, k, items[k]);
        attributes, left := attributes[k := s], left - {k};
      }
    }

    /** commit, with the server's answer to the modify request it sends. */
    method Commit(accepted: bool) returns (r: Option<Fault>)
      requires Valid()
      modifies this`remote, this`journal
      ensures Valid()
      ensures r == if Refusal(old(Now()), CommitDone) != None then Refusal(old(Now()), CommitDone)
                   else if old(journal) != [] && !accepted then Some(Refused) else None
      ensures Now() == if r == None then After(old(Now()), CommitDone) else old(Now())
    {
      if status != Ready {
        return Some(BadState);
      }
      if journal == [] {
        return None;
      }
      if !accepted {
        return Some(Refused);
      }
      remote := Rebuilt(CurrentValues());
      journal := [];
      r := None;
    }

    function CurrentValues(): (r: Attrs)
      reads this`attributes, attributes.Values
      ensures r == Local()
    {
      map k | k in attributes :: attributes[k].values
    }
  }

  // --------------------------------------------------------- what a server does

  /** A modification in a directory where an attribute without values is not
      there: what it leaves, unless it is refused. */
  function Step(m: Modification, a: Attrs): Option<Attrs> {
    match m.kind
    case Add => Some(Held(a[m.key := Values(a, m.key) + m.values]))
    case Delete =>
      if Values(a, m.key) == {} || !(m.values <= Values(a, m.key)) then None
      else Some(Held(a[m.key := if m.values == {} then {} else Values(a, m.key) - m.values]))
    case Replace => Some(Held(a[m.key := m.values]))
  }

  function RunJournal(ms: seq<Modification>, a: Attrs): Option<Attrs>
    decreases |ms|
  {
    if ms == [] then Some(Held(a))
    else
      var before := RunJournal(ms[..|ms| - 1], a);
      if before.None? then None else Step(ms[|ms| - 1], before.value)
  }

  lemma RunJournalSnoc(ms: seq<Modification>, m: Modification, a: Attrs)
    ensures RunJournal(ms + [m], a) == if RunJournal(ms, a).None? then None else Step(m, RunJournal(ms, a).value)
  {
    assert (ms + [m])[..|ms|] == ms;
  }

  lemma StepIsPatch(m: Modification, h: Attrs, a: Attrs)
    requires h == Held(a) && Step(m, h).Some?
    ensures Applicable(m, a) && Held(Applied(m, a)) == Step(m, h).value
  {
    assert forall k :: Values(h, k) == Values(a, k);
    var was, now := Values(a, m.key), Applied(m, a);
    assert forall k :: k != m.key ==> Values(now, k) == Values(a, k);
    assert forall k :: Values(Step(m, h).value, k) == Values(now, k);
    hide Step;
    hide Applied;
    HeldIsSame(Step(m, h).value, now);
    StepHeld(m, h);
  }

  lemma StepHeld(m: Modification, h: Attrs)
    requires Step(m, h).Some?
    ensures Held(Step(m, h).value) == Step(m, h).value
  {
  }

  /** What such a directory accepts, patching as delta.py does accepts too, and
      leaves the same values. */
  lemma {:induction false} JournalIsPatch(ms: seq<Modification>, a: Attrs)
    requires RunJournal(ms, a).Some?
    ensures RunMods(ms, a).Done? && Held(RunMods(ms, a).attrs) == RunJournal(ms, a).value
    decreases |ms|
  {
    if ms != [] {
      var n := |ms| - 1;
      JournalIsPatch(ms[..n], a);
      StepIsPatch(ms[n], RunJournal(ms[..n], a).value, RunMods(ms[..n], a).attrs);
    }
  }

  // ------------------------------------------------------------- the invariant

  /** The journal, run on the remote data, gives what the entry holds. */
  ghost predicate Faithful(st: State) {
    RunJournal(st.journal, st.remote) == Some(Held(st.local))
  }

  /** A whole attribute is deleted while it holds no value. */
  predicate DeletesNothing(st: State, c: Change) {
    (c.ClearValues? || c.Remove?) && Values(st.local, c.key) == {}
  }

  predicate OnOldSet(c: Change) {
    c.OldAdd? || c.OldUpdate? || c.OldRemove? || c.OldClear?
  }

  /** On a set that the entry holds no more, anything but adding values that the
      entry holds all the same. */
  predicate Misleads(st: State, c: Change) {
    match c
    case OldAdd(k, v) => v !in Values(st.local, k)
    case OldUpdate(k, vs) => !(vs <= Values(st.local, k))
    case OldRemove(_, _, _) => true
    case OldClear(_) => true
    case _ => false
  }

  predicate Careless(st: State, c: Change) {
    DeletesNothing(st, c) || Misleads(st, c)
  }

  predicate Resets(c: Change) {
    c.Undo? || c.CommitDone?
  }

  lemma NotedRuns(st: State, m: Modification, local: Attrs)
    requires Faithful(st)
    ensures RunJournal(st.journal + [m], st.remote) == Step(m, Held(st.local))
  {
    RunJournalSnoc(st.journal, m, st.remote);
  }

  /** The one modification a change notes does to the remote data what the change
      did to the local -- unless there was nothing there to delete. */
  lemma StepFollows(st: State, c: Change)
    requires Refusal(st, c) == None && !Resets(c) && !OnOldSet(c)
    ensures var after := After(st, c);
            && |after.journal| == |st.journal| + 1 && after.journal[..|st.journal|] == st.journal
            && after.remote == st.remote
            && Step(after.journal[|st.journal|], Held(st.local)) ==
               (if DeletesNothing(st, c) then None else Some(Held(after.local)))
  {
    var h, k := Held(st.local), c.key;
    assert Values(h, k) == Values(st.local, k);
    match c
    case AddValue(_, v) => HeldPut(st.local, k, st.local[k] + {v});
    case UpdateValues(_, vs) => HeldPut(st.local, k, st.local[k] + vs);
    case RemoveValue(_, v) => HeldPut(st.local, k, st.local[k] - {v});
    case ClearValues(_) => HeldPut(st.local, k, {});
    case Assign(_, vs) => HeldPut(st.local, k, vs);
    case Remove(_) =>
      HeldPut(st.local, k, {});
      assert Held(st.local[k := {}]) == Held(st.local - {k});
  }

  lemma HeldPut(a: Attrs, k: string, vs: set<string>)
    ensures Held(Held(a)[k := vs]) == Held(a[k := vs])
  {
  }

  /** A modification noted without anything done to the entry: the journal still
      gives what the entry holds exactly when it adds values that are there. */
  lemma NotedAlone(st: State, m: Modification)
    requires Faithful(st) && !m.kind.Replace?
    ensures Faithful(Noted(st, m)) <==> m.kind.Add? && m.values <= Values(st.local, m.key)
  {
    var h, k := Held(st.local), m.key;
    NotedRuns(st, m, st.local);
    assert Values(h, k) == Values(st.local, k);
    match m.kind
    case Add =>
      HeldPut(st.local, k, Values(st.local, k) + m.values);
      PutSame(st.local, k, Values(st.local, k) + m.values);
    case Delete =>
      if Step(m, h).Some? {
        var left := if m.values == {} then {} else Values(h, k) - m.values;
        HeldPut(st.local, k, left);
        PutSame(st.local, k, left);
        assert left != Values(h, k) by {
          if m.values != {} { var v :| v in m.values; assert v in Values(h, k) && v !in left; }
        }
      }
  }

  lemma PutSame(a: Attrs, k: string, vs: set<string>)
    ensures Held(a[k := vs]) == Held(a) <==> vs == Values(a, k)
  {
    HeldIsSame(a[k := vs], a);
    assert Values(a[k := vs], k) == vs;
    assert forall x :: x != k ==> Values(a[k := vs], x) == Values(a, x);
  }

  /** After a change that is not refused the journal gives what the entry holds,
      if it did before, exactly when the change did not delete an attribute that
      held no value, and on a set that the entry holds no more did nothing but add
      values that the entry holds. */
  lemma ChangeKeepsFaith(st: State, c: Change)
    requires Faithful(st) && Refusal(st, c) == None
    ensures Faithful(After(st, c)) <==> Resets(c) || !Careless(st, c)
  {
    if Resets(c) {
      HeldRebuiltAttrs(st.remote);
      HeldRebuiltAttrs(st.local);
      hide Rebuilt;
      hide Held;
    } else if OnOldSet(c) {
      OldSetKeepsFaith(st, c);
    } else {
      StepFollows(st, c);
      var after := After(st, c);
      hide After;
      var m := after.journal[|st.journal|];
      assert after.journal == st.journal + [m];
      NotedRuns(st, m, after.local);
      hide Refusal;
      hide Step;
      hide Held;
      hide RunJournal;
      hide Values;
    }
  }

  lemma OldSetKeepsFaith(st: State, c: Change)
    requires Faithful(st) && Refusal(st, c) == None && OnOldSet(c)
    ensures Faithful(After(st, c)) <==> !Careless(st, c)
  {
    hide Faithful;
    hide Values;
    match c
    case OldAdd(k, v) => NotedAlone(st, Modification(Add, k, {v}));
    case OldUpdate(k, vs) => NotedAlone(st, Modification(Add, k, vs));
    case OldRemove(k, v, _) => NotedAlone(st, Modification(Delete, k, {v}));
    case OldClear(k) => NotedAlone(st, Modification(Delete, k, {}));
  }

  lemma HeldRebuiltAttrs(a: Attrs)
    ensures Held(Rebuilt(a)) == Held(a)
  {
    HeldIsSame(Rebuilt(a), a);
  }

  /** A journal that would be refused stays so until it is undone: no later change
      makes up for it. */
  lemma RefusedStaysRefused(st: State, c: Change)
    requires RunJournal(st.journal, st.remote) == None && Refusal(st, c) == None && !Resets(c)
    ensures RunJournal(After(st, c).journal, After(st, c).remote) == None
  {
    var after := After(st, c);
    var m := after.journal[|st.journal|];
    assert after.journal == st.journal + [m];
    RunJournalSnoc(st.journal, m, st.remote);
  }

  // --------------------------------------------------- what a change changes

  /** The value is held for the attribute once the change was made. */
  predicate HeldAfter(st: State, c: Change, k: string, v: string) {
    var was := v in Values(st.local, k);
    match c
    case AddValue(key, value) => was || (k == key && v == value)
    case UpdateValues(key, values) => was || (k == key && v in values)
    case RemoveValue(key, value) => was && !(k == key && v == value)
    case ClearValues(key) => was && k != key
    case Assign(key, values) => if k == key then v in values else was
    case Remove(key) => was && k != key
    case Undo => v in Values(st.remote, k)
    case CommitDone => was
    case OldAdd(_, _) => was
    case OldUpdate(_, _) => was
    case OldRemove(_, _, _) => was
    case OldClear(_) => was
  }

  /** Value by value, what a change leaves of the entry and of the remote data. */
  lemma LocalEffect(st: State, c: Change, k: string, v: string)
    requires Refusal(st, c) == None
    ensures v in Values(After(st, c).local, k) <==> HeldAfter(st, c, k, v)
    ensures v in Values(After(st, c).remote, k) <==>
            v in Values(if c.CommitDone? && st.journal != [] then st.local else st.remote, k)
  {
    assert Same(Rebuilt(st.remote), st.remote) && Same(Rebuilt(st.local), st.local);
    assert Values(Rebuilt(st.remote), k) == Values(st.remote, k);
    assert Values(Rebuilt(st.local), k) == Values(st.local, k);
    hide Rebuilt;
    hide Same;
  }

  /** Which attributes an entry has: assigning one brings it in, deleting it takes it
      out, and emptying it does not. */
  lemma KeysEffect(st: State, c: Change)
    requires Refusal(st, c) == None && !c.Undo?
    ensures After(st, c).local.Keys ==
            st.local.Keys + (if c.Assign? then {c.key} else {}) - (if c.Remove? then {c.key} else {})
  {
    hide Rebuilt;
  }

  /** The RDN's own value, or an attribute that the RDN names. */
  predicate TouchesRdn(st: State, c: Change) {
    match c
    case RemoveValue(k, v) => exists x :: x in st.rdn && x == Ava(k, v)
    case OldRemove(k, v, _) => exists x :: x in st.rdn && x == Ava(k, v)
    case ClearValues(k) => exists x :: x in st.rdn && x.attributeType == k
    case OldClear(k) => exists x :: x in st.rdn && x.attributeType == k
    case Assign(k, _) => exists x :: x in st.rdn && x.attributeType == k
    case Remove(k) => exists x :: x in st.rdn && x.attributeType == k
    case _ => false
  }

  /** What it takes to be changed so is not there. */
  predicate IsMissing(st: State, c: Change) {
    match c
    case AddValue(k, _) => k !in st.local.Keys
    case UpdateValues(k, _) => k !in st.local.Keys
    case RemoveValue(k, v) => v !in Values(st.local, k)
    case ClearValues(k) => k !in st.local.Keys
    case Remove(k) => k !in st.local.Keys
    case OldRemove(_, v, held) => v !in held
    case _ => false
  }

  /** Only adding to a set goes without a look at the entry's status. */
  predicate NeedsReady(c: Change) {
    !(c.AddValue? || c.UpdateValues? || c.OldAdd? || c.OldUpdate?)
  }

  /** A change is refused exactly when it would take something from the RDN, when what
      it needs is not there, or when the entry was deleted or is in a bad state. */
  lemma RefusedExactly(st: State, c: Change)
    ensures Refusal(st, c) != None <==>
            TouchesRdn(st, c) || IsMissing(st, c) || (NeedsReady(c) && st.status != Ready)
    ensures NeedsReady(c) && st.status != Ready && !IsMissing(st, c) ==> Refusal(st, c) == Some(BadState)
    ensures st.status == Ready && TouchesRdn(st, c) && !IsMissing(st, c) ==> Refusal(st, c) == Some(CannotRemoveRdn)
  {
    forall k ensures NamesRdn(st.rdn, k) <==> exists x :: x in st.rdn && x.attributeType == k { NamesIs(st.rdn, k); }
    forall k, v ensures IsRdnValue(st.rdn, k, v) <==>
             exists x :: x in st.rdn && x == Ava(k, v) { ValueIs(st.rdn, k, v); }
    hide NamesRdn;
    hide IsRdnValue;
  }

  lemma NamesIs(rdn: Rdn, k: string)
    ensures NamesRdn(rdn, k) <==> exists x :: x in rdn && x.attributeType == k
  {
    if NamesRdn(rdn, k) {
      var i :| 0 <= i < |rdn| && rdn[i].attributeType == k;
      assert rdn[i] in rdn;
    }
  }

  lemma ValueIs(rdn: Rdn, k: string, v: string)
    ensures IsRdnValue(rdn, k, v) <==> exists x :: x in rdn && x == Ava(k, v)
  {
    if IsRdnValue(rdn, k, v) {
      var i :| 0 <= i < |rdn| && rdn[i].attributeType == k && rdn[i].value == v;
      assert rdn[i] in rdn && rdn[i] == Ava(k, v);
    }
  }

  /** The entry and the remote data hold every value of the RDN. */
  ghost predicate RdnHeld(st: State) {
    forall x :: x in st.rdn ==>
      x.value in Values(st.local, x.attributeType) && x.value in Values(st.remote, x.attributeType)
  }

  lemma RdnKept(st: State, c: Change)
    requires RdnHeld(st) && Refusal(st, c) == None
    ensures RdnHeld(After(st, c))
  {
    RefusedExactly(st, c);
    assert After(st, c).rdn == st.rdn;
    forall x | x in st.rdn
      ensures x.value in Values(After(st, c).local, x.attributeType)
      ensures x.value in Values(After(st, c).remote, x.attributeType)
    {
      LocalEffect(st, c, x.attributeType, x.value);
      assert x == Ava(x.attributeType, x.value);
      hide After;
      hide Refusal;
    }
    hide After;
  }

  // --------------------------------------------------------------- whole runs

  /** An entry as it is fetched. */
  predicate Fetched(st: State) {
    st.local == st.remote && st.journal == []
  }

  /** The states a run of changes leads through, none of them refused, a commit
      only of a journal that the server accepts. */
  ghost predicate Run(states: seq<State>, changes: seq<Change>) {
    && |states| == |changes| + 1 && Fetched(states[0])
    && forall i :: 0 <= i < |changes| ==> Goes(states[i], changes[i], states[i + 1])
  }

  ghost predicate Goes(st: State, c: Change, after: State) {
    && Refusal(st, c) == None && after == After(st, c)
    && (c.CommitDone? ==> RunJournal(st.journal, st.remote).Some?)
  }

  /** Nothing careless was done since the last undo or commit. */
  predicate Careful(states: seq<State>, changes: seq<Change>, n: nat)
    requires n <= |changes| && |states| == |changes| + 1
  {
    n == 0 || Resets(changes[n - 1]) || (Careful(states, changes, n - 1) && !Careless(states[n - 1], changes[n - 1]))
  }

  /** Since then the journal has given what the entry held, at every point. */
  ghost predicate FaithfulSince(states: seq<State>, changes: seq<Change>, n: nat)
    requires n <= |changes| && |states| == |changes| + 1
  {
    Faithful(states[n]) && (n == 0 || Resets(changes[n - 1]) || FaithfulSince(states, changes, n - 1))
  }

  /** Since then all was done on the sets that the entry holds. */
  predicate OwnSets(changes: seq<Change>, n: nat)
    requires n <= |changes|
  {
    n == 0 || Resets(changes[n - 1]) || (OwnSets(changes, n - 1) && !OnOldSet(changes[n - 1]))
  }

  /** Whenever the journal is empty the entry holds what was last committed. */
  lemma {:induction false} NoJournalNoChange(states: seq<State>, changes: seq<Change>, n: nat)
    requires Run(states, changes) && n <= |changes|
    ensures states[n].journal == [] ==> Faithful(states[n]) && Same(states[n].local, states[n].remote)
    decreases n
  {
    if n > 0 {
      NoJournalNoChange(states, changes, n - 1);
      assert Goes(states[n - 1], changes[n - 1], states[n]);
      HeldRebuiltAttrs(states[n - 1].remote);
      HeldRebuiltAttrs(states[n - 1].local);
    }
    if states[n].journal == [] { HeldIsSame(states[n].local, states[n].remote); }
  }

  /** At every point of every run: since the last undo or commit the journal has
      given what the entry held exactly when nothing careless was done since. And
      when no set was used that the entry holds no more, one careless change is
      enough for the journal to be refused from then on. */
  lemma {:induction false} JournalTellsAll(states: seq<State>, changes: seq<Change>, n: nat)
    requires Run(states, changes) && n <= |changes|
    ensures FaithfulSince(states, changes, n) <==> Careful(states, changes, n)
    ensures OwnSets(changes, n) ==>
              RunJournal(states[n].journal, states[n].remote) ==
              if Careful(states, changes, n) then Some(Held(states[n].local)) else None
    decreases n
  {
    if n > 0 {
      JournalTellsAll(states, changes, n - 1);
      var st, c := states[n - 1], changes[n - 1];
      assert Goes(st, c, states[n]);
      hide After;
      hide Refusal;
      hide RunJournal;
      hide Careless;
      if Resets(c) {
        NoJournalNoChange(states, changes, n - 1);
        ResetIsFaithful(st, c);
      } else {
        var careful := Careful(states, changes, n - 1);
        assert Careful(states, changes, n) <==> careful && !Careless(st, c);
        assert FaithfulSince(states, changes, n) <==> careful && Faithful(states[n]);
        assert OwnSets(changes, n) ==> OwnSets(changes, n - 1) && !OnOldSet(c);
        if careful { ChangeKeepsFaith(st, c); }
        if OwnSets(changes, n) { OwnSetStep(st, c, careful); }
        hide Careful;
        hide FaithfulSince;
        hide OwnSets;
        hide Run;
      }
    }
  }

  lemma OwnSetStep(st: State, c: Change, careful: bool)
    requires Refusal(st, c) == None && !Resets(c) && !OnOldSet(c)
    requires RunJournal(st.journal, st.remote) == if careful then Some(Held(st.local)) else None
    ensures RunJournal(After(st, c).journal, After(st, c).remote) ==
            if careful && !Careless(st, c) then Some(Held(After(st, c).local)) else None
  {
    if !careful {
      RefusedStaysRefused(st, c);
    } else if DeletesNothing(st, c) {
      NothingDeleted(st, c);
    } else {
      ChangeKeepsFaith(st, c);
    }
    hide After;
    hide Refusal;
    hide RunJournal;
    hide DeletesNothing;
  }

  lemma NothingDeleted(st: State, c: Change)
    requires Faithful(st) && Refusal(st, c) == None && !Resets(c) && DeletesNothing(st, c)
    ensures RunJournal(After(st, c).journal, After(st, c).remote) == None
  {
    StepFollows(st, c);
    var after := After(st, c);
    var m := after.journal[|st.journal|];
    assert after.journal == st.journal + [m];
    NotedRuns(st, m, after.local);
  }

  lemma ResetIsFaithful(st: State, c: Change)
    requires Refusal(st, c) == None && Resets(c)
    requires c.CommitDone? && st.journal == [] ==> Faithful(st)
    ensures Faithful(After(st, c))
  {
    HeldRebuiltAttrs(st.remote);
    HeldRebuiltAttrs(st.local);
  }

  /** At every point of every run the entry holds what its RDN says, if it did when it
      was fetched. */
  lemma {:induction false} RdnHeldAlways(states: seq<State>, changes: seq<Change>, n: nat)
    requires Run(states, changes) && n <= |changes| && RdnHeld(states[0])
    ensures RdnHeld(states[n])
    decreases n
  {
    if n > 0 {
      RdnHeldAlways(states, changes, n - 1);
      assert Goes(states[n - 1], changes[n - 1], states[n]);
      RdnKept(states[n - 1], changes[n - 1]);
    }
  }

  /** Undo goes back to the values last committed, commit makes them the present
      ones, and both leave an empty journal. */
  lemma UndoAndCommit(st: State)
    requires st.status == Ready && (st.journal == [] ==> Same(st.local, st.remote))
    ensures Same(After(st, Undo).local, st.remote) && After(st, Undo).remote == st.remote
    ensures Same(After(st, CommitDone).remote, st.local) && After(st, CommitDone).local == st.local
    ensures After(st, Undo).journal == [] && After(st, CommitDone).journal == []
  {
  }

  /** What the server holds, if it was what the entry takes it for, is what the
      entry holds once the journal is committed. */
  lemma CommitReachesServer(states: seq<State>, changes: seq<Change>, n: nat, server: Attrs)
    requires Run(states, changes) && n <= |changes| && Careful(states, changes, n)
    requires Same(server, states[n].remote)
    ensures RunMods(states[n].journal, server).Done?
    ensures Same(RunMods(states[n].journal, server).attrs, states[n].local)
  {
    var st := states[n];
    JournalTellsAll(states, changes, n);
    HeldIsSame(server, st.remote);
    RunJournalHeld(st.journal, server, st.remote);
    JournalIsPatch(st.journal, server);
    HeldIsSame(RunMods(st.journal, server).attrs, st.local);
  }

  lemma {:induction false} RunJournalHeld(ms: seq<Modification>, a: Attrs, b: Attrs)
    requires Held(a) == Held(b)
    ensures RunJournal(ms, a) == RunJournal(ms, b)
    decreases |ms|
  {
    if ms != [] { RunJournalHeld(ms[..|ms| - 1], a, b); }
  }

  /** Clearing an attribute twice makes a journal that is refused, and patching as
      delta.py does refuses it too. */
  lemma ClearedTwice(k: string, v: string)
    ensures var st := State(map[k := {v}], map[k := {v}], [], Ready, []);
            && Refusal(st, ClearValues(k)) == None
            && (var once := After(st, ClearValues(k));
                && Refusal(once, ClearValues(k)) == None
                && RunMods(After(once, ClearValues(k)).journal, st.remote) == Raised)
  {
    var m := Modification(Delete, k, {});
    var a: Attrs := map[k := {v}];
    RunModsSnoc([], m, a);
    RunModsSnoc([m], m, a);
    assert [] + [m] == [m];
  }

  lemma AnewThenOld(st: State, k: string, values: set<string>, v: string)
    requires Faithful(st) && Refusal(st, Assign(k, values)) == None && v !in values
    ensures var end := After(After(st, Assign(k, values)), OldAdd(k, v));
            && !Faithful(end) && Values(end.local, k) == values
            && RunJournal(end.journal, end.remote).Some? && v in Values(RunJournal(end.journal, end.remote).value, k)
  {
    var anew := After(st, Assign(k, values));
    ChangeKeepsFaith(st, Assign(k, values));
    ChangeKeepsFaith(anew, OldAdd(k, v));
    NotedRuns(anew, Modification(Add, k, {v}), anew.local);
  }

  /** A set is looked up, its attribute is assigned anew, and a value that the new
      set lacks is added to the old one: the journal then adds what the entry does
      not hold. */
  method OldSetAddsMore(e: JournaledEntry, k: string, values: set<string>, v: string) returns (looked: AttributeSet)
    requires e.Valid() && k in e.attributes && e.status == Ready && !NamesRdn(e.rdn, k)
    requires Faithful(e.Now()) && v !in values
    modifies e`attributes, e`journal, e.attributes[k]
    ensures e.Valid() && !Faithful(e.Now()) && Values(e.Local(), k) == values
    ensures RunJournal(e.journal, e.remote).Some? && v in Values(RunJournal(e.journal, e.remote).value, k)
  {
    hide RunJournal;
    hide Faithful;
    looked := e.attributes[k];
    AnewThenOld(e.Now(), k, values, v);
    var r := e.SetItem(k, values);
    looked.Add(v);
  }
}
