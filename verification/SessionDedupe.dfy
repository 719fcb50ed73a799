/** When equal configurations share one session, over all runs of the store. */
module SessionDedupe {
  import opened Wrappers
  import opened Sessions
  import opened SessionRuns

  ghost predicate UniqueHashes(s: State) {
    forall i, j :: i in s.rows && j in s.rows && s.rows[i].hash.Some? && s.rows[i].hash == s.rows[j].hash ==> i == j
  }

  /** Every row that holds a configuration carries its hash. */
  ghost predicate ReadableHashed(s: State) {
    forall id :: id in s.rows && !s.rows[id].stored.Unreadable? ==> s.rows[id].hash.Some?
  }

  /** A create about to insert has no twin in the table. */
  ghost predicate NoTwinPending(s: State) {
    forall k, id :: k in s.calls && (s.calls[k].Counting? || s.calls[k].Inserting?) && id in s.rows ==>
      !HasHash(s.rows, id, s.calls[k].config)
  }

  ghost predicate DedupeInv(s: State) {
    UniqueHashes(s) && ReadableHashed(s) && HashesRight(s) && NoTwinPending(s)
  }

  /** With every row hashed, a row's hash never changes. */
  lemma StepKeepsHash(s: State, e: Event, id: Id)
    requires Inv(s) && ReadableHashed(s) && id in s.rows && id in Apply(s, e).rows
    ensures Apply(s, e).rows[id].hash == s.rows[id].hash
  {
    StepEvolves(s, e, id);
  }

  lemma StepDedupe(s: State, e: Event)
    requires Inv(s) && DedupeInv(s)
    ensures DedupeInv(Apply(s, e))
  {
    StepHashes(s, e);
    StepUnique(s, e);
    StepNoTwin(s, e);
  }

  /** A row's hash after a step: its old one, or for a new row the hash of the create that inserted it. */
  lemma HashAfter(s: State, e: Event, id: Id)
    requires Inv(s) && ReadableHashed(s) && id in Apply(s, e).rows
    ensures var s' := Apply(s, e);
            if id in s.rows then s'.rows[id].hash == s.rows[id].hash
            else
              && ChangeOf(s, e).Add? && ChangeOf(s, e).id == id
              && s'.rows[id].hash == Some(Digest(ChangeOf(s, e).config))
  {
    if id in s.rows { StepKeepsHash(s, e, id); }
  }

  lemma StepUnique(s: State, e: Event)
    requires Inv(s) && DedupeInv(s)
    ensures UniqueHashes(Apply(s, e)) && ReadableHashed(Apply(s, e))
  {
    var s' := Apply(s, e);
    forall id | id in s'.rows && !s'.rows[id].stored.Unreadable? ensures s'.rows[id].hash.Some? {
      HashAfter(s, e, id);
      if id in s.rows { StepEvolves(s, e, id); }
    }
    forall i, j | i in s'.rows && j in s'.rows && s'.rows[i].hash.Some? && s'.rows[i].hash == s'.rows[j].hash
      ensures i == j
    {
      HashAfter(s, e, i);
      HashAfter(s, e, j);
      NewHashIsNew(s, e);
    }
  }

  lemma NewHashIsNew(s: State, e: Event)
    requires NoTwinPending(s)
    ensures var c := ChangeOf(s, e); c.Add? ==> forall id :: id in s.rows ==> s.rows[id].hash != Some(Digest(c.config))
  {
    var c := ChangeOf(s, e);
    if c.Add? {
      forall id | id in s.rows ensures s.rows[id].hash != Some(Digest(c.config)) {
        assert !HasHash(s.rows, id, s.calls[e.call].config);
      }
    }
  }

  /** A create that counts or inserts after a step was at its SELECT or count before it, and nothing was inserted. */
  lemma StillCounting(s: State, e: Event, k: CallId)
    requires LockInv(s)
    requires k in Apply(s, e).calls && (Apply(s, e).calls[k].Counting? || Apply(s, e).calls[k].Inserting?)
    ensures k in s.calls && s.calls[k].HoldsLock() && s.calls[k].config == Apply(s, e).calls[k].config
    ensures !ChangeOf(s, e).Add?
    ensures s.calls[k].Counting? || s.calls[k].Inserting?
            || (s.calls[k].Selecting? && Apply(s, e).rows == s.rows
                && forall id :: id in s.rows ==> !HasHash(s.rows, id, s.calls[k].config))
  {
    hide Migrate, Touch, NewRow, HasHash;
  }

  lemma StepNoTwin(s: State, e: Event)
    requires Inv(s) && DedupeInv(s)
    ensures NoTwinPending(Apply(s, e))
  {
    hide Apply, Inv, ChangeOf;
    var s' := Apply(s, e);
    forall k, id | k in s'.calls && (s'.calls[k].Counting? || s'.calls[k].Inserting?) && id in s'.rows
      ensures !HasHash(s'.rows, id, s'.calls[k].config)
    {
      assert LockInv(s) by { InvParts(s); }
      HashAfter(s, e, id);
      StillCounting(s, e, k);
    }
  }

  lemma InvParts(s: State)
    requires Inv(s)
    ensures LockInv(s)
  {}

  /** From a table whose rows are all hashed, no run ever stores two rows with one hash. */
  lemma {:induction false} HashesStayUnique(s: State, events: seq<Event>)
    requires Start(s) && HashesRight(s) && UniqueHashes(s) && ReadableHashed(s)
    ensures DedupeInv(Run(s, events))
  {
    if events != [] {
      var shorter := events[..|events| - 1];
      HashesStayUnique(s, shorter);
      RunInv(s, shorter);
      StepDedupe(Run(s, shorter), events[|events| - 1]);
    }
  }

  /** Two finished creates of one configuration gave the same id, if the rows are still there. */
  lemma SameConfigSameSession(s: State, events: seq<Event>, k: CallId, k': CallId)
    requires Start(s) && HashesRight(s) && UniqueHashes(s) && ReadableHashed(s)
    requires var t := Run(s, events);
             k in t.calls && k' in t.calls && t.calls[k].Created? && t.calls[k'].Created?
             && t.calls[k].config == t.calls[k'].config && t.calls[k].id in t.rows && t.calls[k'].id in t.rows
    ensures Run(s, events).calls[k].id == Run(s, events).calls[k'].id
  {
    var t := Run(s, events);
    HashesStayUnique(s, events);
    CreatedRow(s, events, k);
    CreatedRow(s, events, k');
  }

  /** The row a create returned keeps its configuration while it lasts. */
  lemma CreatedRow(s: State, events: seq<Event>, k: CallId)
    requires Start(s) && HashesRight(s)
    requires var t := Run(s, events); k in t.calls && t.calls[k].Created? && t.calls[k].id in t.rows
    ensures var t := Run(s, events); Holds(t.rows[t.calls[k].id], t.calls[k].config)
  {
    var c := Run(s, events).calls[k];
    ResultsWitnessed(s, events, k);
    var i: nat :| Witnessed(s, events, k, c, i);
    assert events[..i] + events[i..] == events;
    RunEvolves(s, events[..i], events[i..], c.id);
  }

  // ---- the condition is necessary ----

  /** An unused id or call number. */
  ghost function Beyond(ids: set<nat>): (n: nat)
    ensures forall i :: i in ids ==> i < n
  {
    if ids == {} then 0 else
    var i := Greatest(ids);
    i + 1
  }

  ghost function Greatest(ids: set<nat>): (n: nat)
    requires ids != {}
    ensures n in ids && forall i :: i in ids ==> i <= n
  {
    var i :| i in ids;
    if ids == {i} then assert forall k :: k in ids ==> k in {i}; i else
    var j := Greatest(ids - {i});
    assert ids == {i} + (ids - {i});
    if i > j then i else j
  }

  lemma RunNothing(s: State)
    ensures Run(s, []) == s
  {}

  lemma Then(s: State, events: seq<Event>, e: Event)
    ensures Run(s, events + [e]) == Apply(Run(s, events), e)
  {
    assert (events + [e])[..|events|] == events;
  }

  lemma DeleteRow(s: State, events: seq<Event>, id: Id) returns (longer: seq<Event>)
    ensures var t, t' := Run(s, events), Run(s, longer);
            t'.rows == t.rows - {id} && t'.lock == t.lock && t'.max == t.max
  {
    hide Run;
    var k := Beyond(Run(s, events).calls.Keys);
    Then(s, events, StartDelete(k, id));
    longer := events + [StartDelete(k, id)];
    Then(s, longer, Advance(k, None, 0));
    longer := longer + [Advance(k, None, 0)];
  }

  /** Other calls can delete every row but one. */
  lemma ClearOthers(s: State, events: seq<Event>, id: Id) returns (longer: seq<Event>)
    requires id in Run(s, events).rows && Run(s, events).lock == None
    ensures var t := Run(s, longer);
            t.rows == map[id := Run(s, events).rows[id]] && t.lock == None && t.max == Run(s, events).max
    decreases |Run(s, events).rows|
  {
    hide Run, Apply;
    var t := Run(s, events);
    if other :| other in t.rows && other != id {
      longer := DeleteRow(s, events, other);
      var t' := Run(s, longer);
      assert |t'.rows.Keys| == |t.rows.Keys - {other}| < |t.rows.Keys|;
      longer := ClearOthers(s, longer, id);
    } else {
      longer := events;
      assert t.rows.Keys == {id};
    }
  }

  /** A create of a configuration that no row is hashed for gets as far as counting the rows. */
  lemma CreateCounts(s: State, events: seq<Event>, config: Config) returns (longer: seq<Event>, k: CallId)
    requires var t := Run(s, events); t.lock == None && forall id :: id in t.rows ==> !HasHash(t.rows, id, config)
    ensures var t := Run(s, events);
            Run(s, longer) == t.(calls := t.calls[k := Counting(config, 0)], lock := Some(k))
  {
    hide Run;
    var t := Run(s, events);
    k := Beyond(t.calls.Keys);
    longer := events;
    Then(s, longer, StartCreate(k, config));
    longer := longer + [StartCreate(k, config)];
    Then(s, longer, Advance(k, None, 0));
    longer := longer + [Advance(k, None, 0)];
    assert Run(s, longer).calls[k] == Selecting(config, 0);
    Then(s, longer, Advance(k, None, 0));
    longer := longer + [Advance(k, None, 0)];
    assert t.calls[k := Waiting(config)][k := Selecting(config, 0)][k := Counting(config, 0)]
      == t.calls[k := Counting(config, 0)];
  }

  /** With one unhashed row left, a create of its configuration mints a second one. */
  lemma CreateBeside(s: State, events: seq<Event>, id: Id) returns (longer: seq<Event>, minted: Id)
    requires var t := Run(s, events);
             t.rows.Keys == {id} && t.rows[id].hash == None && !t.rows[id].stored.Unreadable? && t.lock == None
             && t.max >= 2
    ensures var t, t' := Run(s, events), Run(s, longer);
            minted != id && minted in t'.rows && t'.rows == t.rows[minted := t'.rows[minted]]
            && t'.rows[minted].hash == Some(Digest(t.rows[id].stored.config))
  {
    hide Run;
    var t := Run(s, events);
    minted := Beyond(t.used + {id});
    var k;
    longer, k := CreateCounts(s, events, t.rows[id].stored.config);
    assert |t.rows| == |t.rows.Keys| == 1;
    Then(s, longer, Advance(k, None, 0));
    longer := longer + [Advance(k, None, 0)];
    assert Run(s, longer).calls[k].Inserting?;
    Then(s, longer, Advance(k, Some(minted), 0));
    longer := longer + [Advance(k, Some(minted), 0)];
  }

  /** Reading an unhashed row gives it its hash. */
  lemma Backfill(s: State, events: seq<Event>, id: Id) returns (longer: seq<Event>)
    requires var t := Run(s, events); id in t.rows && t.rows[id].hash == None && !t.rows[id].stored.Unreadable?
    ensures var t, t' := Run(s, events), Run(s, longer);
            id in t'.rows && t'.rows == t.rows[id := t'.rows[id]]
            && t'.rows[id].hash == Some(Digest(t.rows[id].stored.config))
  {
    hide Run;
    var k := Beyond(Run(s, events).calls.Keys);
    longer := events;
    Then(s, longer, StartGet(k, id));
    longer := longer + [StartGet(k, id)];
    Then(s, longer, Advance(k, None, 0));
    longer := longer + [Advance(k, None, 0)];
    Then(s, longer, Advance(k, None, 0));
    longer := longer + [Advance(k, None, 0)];
  }

  /** An unhashed row leads to a run with two rows of one hash. */
  lemma TwinRun(s: State, id: Id) returns (events: seq<Event>)
    requires Start(s) && s.max >= 2
    requires id in s.rows && s.rows[id].hash == None && !s.rows[id].stored.Unreadable?
    ensures !UniqueHashes(Run(s, events))
  {
    var minted;
    events := ClearOthers(s, [], id);
    events, minted := CreateBeside(s, events, id);
    var t := Run(s, events);
    events := Backfill(s, events, id);
    assert Run(s, events).rows[minted] == t.rows[minted];
    assert Run(s, events).rows[minted].hash == Run(s, events).rows[id].hash;
  }

  // ---- a store with room for at most one new row ----

  predicate OneConfig(r: Row, r': Row) {
    !r.stored.Unreadable? && !r'.stored.Unreadable? && r.stored.config == r'.stored.config
  }

  /** No two rows hold one configuration, hashed or not. */
  ghost predicate DistinctConfigs(s: State) {
    forall i, j :: i in s.rows && j in s.rows && OneConfig(s.rows[i], s.rows[j]) ==> i == j
  }

  lemma StepDistinct(s: State, e: Event, bound: nat)
    requires Inv(s) && CapacityInv(s, bound) && s.max <= 1 && DistinctConfigs(s)
    ensures DistinctConfigs(Apply(s, e))
  {
    var s' := Apply(s, e);
    StepKeys(s, e);
    hide Apply, Evolves, OneConfig, PendingInv, LockInv;
    if ChangeOf(s, e).Add? {
      assert |s.rows.Keys| == |s.rows| == 0;
    } else {
      forall id | id in s'.rows ensures id in s.rows && Evolves(s.rows[id], s'.rows[id]) {
        StepEvolves(s, e, id);
      }
      forall i, j | i in s'.rows && j in s'.rows && OneConfig(s'.rows[i], s'.rows[j]) ensures i == j {
        OneConfigBefore(s.rows[i], s'.rows[i], s.rows[j], s'.rows[j]);
      }
    }
  }

  lemma OneConfigBefore(r: Row, r': Row, q: Row, q': Row)
    requires Evolves(r, r') && Evolves(q, q') && OneConfig(r', q')
    ensures OneConfig(r, q)
  {}

  lemma {:induction false} ConfigsStayDistinct(s: State, events: seq<Event>)
    requires Start(s) && HashesRight(s) && s.max <= 1 && DistinctConfigs(s)
    ensures DistinctConfigs(Run(s, events)) && UniqueHashes(Run(s, events))
  {
    RunHashes(s, events);
    if events != [] {
      var shorter := events[..|events| - 1];
      ConfigsStayDistinct(s, shorter);
      RunInv(s, shorter);
      StepDistinct(Run(s, shorter), events[|events| - 1], if s.max > |s.rows| then s.max else |s.rows|);
    }
    DistinctHashes(Run(s, events));
  }

  lemma DistinctHashes(s: State)
    requires HashesRight(s) && DistinctConfigs(s)
    ensures UniqueHashes(s)
  {
    forall i, j | i in s.rows && j in s.rows && s.rows[i].hash.Some? && s.rows[i].hash == s.rows[j].hash
      ensures i == j
    {
      assert RowHashed(s.rows[i]) && RowHashed(s.rows[j]);
    }
  }

  /** Makes sure a readable row is hashed. */
  lemma EnsureHashed(s: State, events: seq<Event>, id: Id) returns (longer: seq<Event>)
    requires var t := Run(s, events); id in t.rows && !t.rows[id].stored.Unreadable? && RowHashed(t.rows[id])
    ensures var t, t' := Run(s, events), Run(s, longer);
            id in t'.rows && t'.rows == t.rows[id := t'.rows[id]]
            && t'.rows[id].hash == Some(Digest(t.rows[id].stored.config))
  {
    if Run(s, events).rows[id].hash.None? { longer := Backfill(s, events, id); } else { longer := events; }
  }

  /** Two rows of one configuration become twins once both have been read. */
  lemma BackfilledTwins(s: State, i: Id, j: Id) returns (events: seq<Event>)
    requires Start(s) && HashesRight(s)
    requires i in s.rows && j in s.rows && i != j
    requires OneConfig(s.rows[i], s.rows[j])
    ensures !UniqueHashes(Run(s, events))
  {
    RunNothing(s);
    assert RowHashed(s.rows[i]) && RowHashed(s.rows[j]);
    events := EnsureHashed(s, [], i);
    var t := Run(s, events);
    assert t.rows[j] == s.rows[j];
    events := EnsureHashed(s, events, j);
    assert Run(s, events).rows[i] == t.rows[i];
    assert Run(s, events).rows[i].hash == Run(s, events).rows[j].hash;
  }

  /**
    Exactly when hashes stay unique over every run: no row that holds a configuration
    lacks its hash when the store is opened, or, in a store limited to one row, none holds
    the configuration of another.
   */
  lemma HashesStayUniqueIff(s: State)
    requires Start(s) && HashesRight(s) && UniqueHashes(s)
    ensures (forall events :: UniqueHashes(Run(s, events)))
            <==> if s.max >= 2 then ReadableHashed(s) else DistinctConfigs(s)
  {
    if s.max >= 2 {
      if ReadableHashed(s) {
        forall events ensures UniqueHashes(Run(s, events)) {
          HashesStayUnique(s, events);
        }
      } else {
        var id :| id in s.rows && !s.rows[id].stored.Unreadable? && s.rows[id].hash.None?;
        var events := TwinRun(s, id);
      }
    } else if DistinctConfigs(s) {
      forall events ensures UniqueHashes(Run(s, events)) {
        ConfigsStayDistinct(s, events);
      }
    } else {
      var i, j :| i in s.rows && j in s.rows && OneConfig(s.rows[i], s.rows[j]) && i != j;
      var events := BackfilledTwins(s, i, j);
    }
  }
}
