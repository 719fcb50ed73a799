/** What holds over whole runs of the session store, under every interleaving of its calls. */
module SessionRuns {
  import opened Wrappers
  import opened Sessions

  // ---- runs ----

  /** The invariants of one step, carried over a run from any table. */
  lemma {:induction false} RunInv(s: State, events: seq<Event>)
    requires Start(s)
    ensures var t := Run(s, events);
            && Inv(t) && MigratedInv(t) && t.max == s.max
            && CapacityInv(t, if s.max > |s.rows| then s.max else |s.rows|)
  {
    if events == [] {
      StartInv(s);
    } else {
      var before := Run(s, events[..|events| - 1]);
      var e := events[|events| - 1];
      RunInv(s, events[..|events| - 1]);
      StepInv(before, e);
      StepMigrated(before, e);
      StepUsed(before, e);
      StepCapacity(before, e, if s.max > |s.rows| then s.max else |s.rows|);
    }
  }

  // ---- capacity ----

  /** The table never outgrows the larger of its limit and its size when it was opened. */
  lemma CapacityHolds(s: State, events: seq<Event>)
    requires Start(s)
    ensures |Run(s, events).rows| <= if s.max > |s.rows| then s.max else |s.rows|
  {
    RunInv(s, events);
  }

  // ---- deletion and migration ----

  /** From any moment on: a missing id stays missing, and a row that stays only evolves. */
  lemma {:induction false} RunEvolves(s: State, before: seq<Event>, after: seq<Event>, id: Id)
    requires Start(s)
    ensures var now, later := Run(s, before), Run(s, before + after);
            && now.used <= later.used
            && (id in now.used && id !in now.rows ==> id !in later.rows)
            && (id in now.rows && id in later.rows ==> Evolves(now.rows[id], later.rows[id]))
  {
    if after == [] {
      assert before + after == before;
    } else {
      var shorter := after[..|after| - 1];
      var e := after[|after| - 1];
      var last := Run(s, before + shorter);
      assert (before + after)[..|before + after| - 1] == before + shorter;
      RunEvolves(s, before, shorter, id);
      RunInv(s, before);
      RunInv(s, before + shorter);
      StepUsed(last, e);
      if id in last.rows && id in Apply(last, e).rows {
        StepEvolves(last, e, id);
      }
    }
  }

  /** A row that a finished `get_config` returned is encrypted and hashed from then on, while it lasts. */
  lemma ReturnedRowsAreMigrated(s: State, events: seq<Event>, k: CallId)
    requires Start(s)
    requires var t := Run(s, events); k in t.calls && t.calls[k].Got? && t.calls[k].id in t.rows
    ensures var t := Run(s, events);
            var row := t.rows[t.calls[k].id];
            row.stored.Token? && row.hash.Some?
  {
    RunInv(s, events);
  }

  // ---- the table as a map of configurations ----

  function View(s: State): map<Id, Config> {
    map id | id in s.rows && s.rows[id].stored != Unreadable :: s.rows[id].stored.config
  }

  datatype Change = Nothing | Add(id: Id, config: Config) | Remove(id: Id)

  function Effect(m: map<Id, Config>, c: Change): map<Id, Config> {
    match c
    case Nothing => m
    case Add(id, config) => m[id := config]
    case Remove(id) => m - {id}
  }

  /** Only the INSERT of `create` and the DELETE of `delete` change the map. */
  function ChangeOf(s: State, e: Event): Change {
    if e.Advance? && e.call in s.calls then
      var c := s.calls[e.call];
      if c.Inserting? && e.choice.Some? && e.choice.value !in s.used then Add(e.choice.value, c.config)
      else if c.Deleting? then Remove(c.id)
      else Nothing
    else Nothing
  }

  function Changes(s: State, events: seq<Event>): seq<Change> {
    if events == [] then [] else
    var shorter := events[..|events| - 1];
    Changes(s, shorter) + [ChangeOf(Run(s, shorter), events[|events| - 1])]
  }

  function Effects(m: map<Id, Config>, changes: seq<Change>): map<Id, Config> {
    if changes == [] then m else Effect(Effects(m, changes[..|changes| - 1]), changes[|changes| - 1])
  }

  lemma StepKeys(s: State, e: Event)
    requires Inv(s)
    ensures var s' := Apply(s, e);
            match ChangeOf(s, e)
            case Nothing => s'.rows.Keys == s.rows.Keys
            case Add(id, config) => id !in s.rows && s'.rows.Keys == s.rows.Keys + {id}
              && Holds(s'.rows[id], config)
            case Remove(id) => s'.rows.Keys == s.rows.Keys - {id}
  {}

  lemma StepRefines(s: State, e: Event)
    requires Inv(s)
    ensures View(Apply(s, e)) == Effect(View(s), ChangeOf(s, e))
  {
    StepKeys(s, e);
    var s' := Apply(s, e);
    var v, v' := Effect(View(s), ChangeOf(s, e)), View(s');
    forall id ensures (id in v <==> id in v') && (id in v ==> v[id] == v'[id]) {
      if id in s.rows && id in s'.rows { StepEvolves(s, e, id); }
    }
  }

  /** Every run of the store is a run of a plain map in which reads write nothing. */
  lemma {:induction false} RunRefines(s: State, events: seq<Event>)
    requires Start(s)
    ensures View(Run(s, events)) == Effects(View(s), Changes(s, events))
  {
    if events != [] {
      var shorter := events[..|events| - 1];
      RunRefines(s, shorter);
      RunInv(s, shorter);
      StepRefines(Run(s, shorter), events[|events| - 1]);
      var changes := Changes(s, events);
      assert changes[..|changes| - 1] == Changes(s, shorter);
    }
  }

  // ---- results are true at some instant of the call ----

  ghost predicate Live(t: State, id: Id, config: Config) {
    id in t.rows && Holds(t.rows[id], config)
  }

  /** Call k is under way in `t`, and `t` is as the result says. */
  ghost predicate Supports(t: State, k: CallId, result: Call) {
    k in t.calls && !t.calls[k].Ended() &&
    match result
    case Touching(config, _, id) => Live(t, id, config)
    case CreateCommitting(config, id) => Live(t, id, config)
    case Created(config, id) => Live(t, id, config)
    case CapacityReached(config) => |t.rows| >= t.max && t.calls[k].Counting?
    case GetUpdating(id, _, seen) => id in t.rows && seen.stored != Unreadable && Live(t, id, seen.stored.config)
    case GetCommitting(config, id) => Live(t, id, config)
    case Got(config, id) => Live(t, id, config)
    case NoSession(id) => id !in t.rows && t.calls[k].GetSelecting?
    case NotJson(id) => id in t.rows && t.rows[id].stored == Unreadable && t.calls[k].GetSelecting?
    case DeleteCommitting(id, found) => t.calls[k].Deleting? && (found <==> id in t.rows)
    case Deleted(id, found) => t.calls[k].Deleting? && (found <==> id in t.rows)
    case _ => true
  }

  ghost predicate Witnessed(s: State, events: seq<Event>, k: CallId, result: Call, i: nat) {
    i <= |events| && Supports(Run(s, events[..i]), k, result)
  }

  predicate Claims(c: Call) {
    c.Touching? || c.CreateCommitting? || c.Created? || c.CapacityReached? || c.GetUpdating? || c.GetCommitting?
    || c.Got? || c.NoSession? || c.NotJson? || c.DeleteCommitting? || c.Deleted?
  }

  predicate MakesClaim(s: State, k: CallId) {
    k in s.calls && Claims(s.calls[k])
  }

  predicate Creating(c: Call) {
    c.Waiting? || c.Selecting? || c.Counting? || c.Inserting?
  }

  lemma NewCreateClaim(s: State, e: Event, k: CallId)
    requires HashesRight(s) && k in s.calls && Creating(s.calls[k])
    requires MakesClaim(Apply(s, e), k)
    ensures var c := Apply(s, e).calls[k]; Supports(s, k, c) || Supports(Apply(s, e), k, c)
  {
    hide Migrate, Touch, Evolves, HashesRight, RowHashed;
    var c := s.calls[k];
    assert e == Advance(k, e.choice, e.now);
    if c.Selecting? { HashOwner(s, e.choice.value); }
  }

  lemma HashOwner(s: State, id: Id)
    requires HashesRight(s) && id in s.rows && s.rows[id].hash.Some?
    ensures Holds(s.rows[id], s.rows[id].hash.value.canonical)
  {
    assert RowHashed(s.rows[id]);
  }

  lemma NewReadClaim(s: State, e: Event, k: CallId)
    requires k in s.calls && (s.calls[k].GetSelecting? || s.calls[k].Deleting?)
    requires MakesClaim(Apply(s, e), k)
    ensures Supports(s, k, Apply(s, e).calls[k])
  {
    assert e == Advance(k, e.choice, e.now);
  }

  lemma NewClaim(s: State, e: Event, k: CallId)
    requires HashesRight(s)
    requires MakesClaim(Apply(s, e), k) && !MakesClaim(s, k)
    ensures var c := Apply(s, e).calls[k]; Supports(s, k, c) || Supports(Apply(s, e), k, c)
  {
    ClaimFrom(s, e, k);
    hide Apply, Supports;
    if Creating(s.calls[k]) { NewCreateClaim(s, e, k); } else { NewReadClaim(s, e, k); }
  }

  lemma ClaimFrom(s: State, e: Event, k: CallId)
    requires MakesClaim(Apply(s, e), k) && !MakesClaim(s, k)
    ensures k in s.calls && (Creating(s.calls[k]) || s.calls[k].GetSelecting? || s.calls[k].Deleting?)
  {}

  lemma OldClaim(s: State, e: Event, k: CallId, t: State)
    requires MakesClaim(Apply(s, e), k) && MakesClaim(s, k)
    requires Supports(t, k, s.calls[k])
    ensures Supports(t, k, Apply(s, e).calls[k])
  {
    hide Live, Migrate, Touch, NewRow, HasHash;
  }

  /**
    Every result was true at an instant of its call: a created id was live with that
    configuration, a read configuration was the row's, a missing session was missing, a
    deletion found what it says.
   */
  lemma {:induction false} ResultsWitnessed(s: State, events: seq<Event>, k: CallId)
    requires Start(s) && HashesRight(s)
    requires MakesClaim(Run(s, events), k)
    ensures exists i: nat :: Witnessed(s, events, k, Run(s, events).calls[k], i)
  {
    var n := |events| - 1;
    var shorter, e := events[..n], events[n];
    var before, after := Run(s, shorter), Run(s, events);
    RunHashes(s, shorter);
    RunInv(s, shorter);
    var c := after.calls[k];
    if MakesClaim(before, k) {
      ResultsWitnessed(s, shorter, k);
      var i: nat :| Witnessed(s, shorter, k, before.calls[k], i);
      assert events[..i] == shorter[..i];
      OldClaim(before, e, k, Run(s, events[..i]));
      assert Witnessed(s, events, k, c, i);
    } else {
      NewClaim(before, e, k);
      assert events[..n + 1] == events;
      assert Witnessed(s, events, k, c, n) || Witnessed(s, events, k, c, n + 1);
    }
  }

  lemma StepHashes(s: State, e: Event)
    requires Inv(s) && HashesRight(s)
    ensures HashesRight(Apply(s, e))
  {
    var s' := Apply(s, e);
    forall id | id in s'.rows ensures RowHashed(s'.rows[id]) {
      if id in s.rows { StepEvolves(s, e, id); }
    }
  }

  lemma {:induction false} RunHashes(s: State, events: seq<Event>)
    requires Start(s) && HashesRight(s)
    ensures HashesRight(Run(s, events))
  {
    if events != [] {
      RunHashes(s, events[..|events| - 1]);
      RunInv(s, events[..|events| - 1]);
      StepHashes(Run(s, events[..|events| - 1]), events[|events| - 1]);
    }
  }
}
