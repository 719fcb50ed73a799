/**
  The session table under concurrent calls. Every SQL statement is one atomic step, and
  any other call may run between two steps of a call; only `create` holds a lock.
 */
module Sessions {
  import opened Wrappers

  type Id = nat
  type CallId = nat
  type Time = nat
  /** A configuration, by its canonical JSON. */
  type Config = string

  /** SHA-256 of a canonical configuration, taken as injective. */
  datatype Digest = Digest(canonical: Config)

  /** A column value: an encrypted configuration, one still in plain JSON, or neither. */
  datatype Stored = Token(config: Config) | PlainText(config: Config) | Unreadable

  datatype Row = Row(stored: Stored, hash: Option<Digest>, createdAt: Time, lastUsedAt: Time)

  type Table = map<Id, Row>

  // ---- SQL statements ----

  predicate HasHash(rows: Table, id: Id, config: Config) {
    id in rows && rows[id].hash == Some(Digest(config))
  }

  function Touch(rows: Table, id: Id, at: Time): Table {
    if id in rows then rows[id := rows[id].(lastUsedAt := at)] else rows
  }

  function NewRow(config: Config, at: Time): Row {
    Row(Token(config), Some(Digest(config)), at, at)
  }

  /** The write of `get_config`, computed from the row it read and applied to the row there is now. */
  function Migrate(rows: Table, id: Id, seen: Row, at: Time): Table
    requires !seen.stored.Unreadable?
  {
    if id !in rows then rows else
    var config := seen.stored.config;
    var hash := if seen.hash.Some? then seen.hash else Some(Digest(config));
    var stored := if seen.stored.PlainText? then Token(config) else rows[id].stored;
    rows[id := rows[id].(stored := stored, hash := hash, lastUsedAt := at)]
  }

  // ---- calls in progress ----

  /** Where a call stands: the statement it runs next, or how it ended. */
  datatype Call =
    | Waiting(config: Config)
    | Selecting(config: Config, at: Time)
    | Touching(config: Config, at: Time, id: Id)
    | Counting(config: Config, at: Time)
    | Inserting(config: Config, at: Time)
    | CreateCommitting(config: Config, id: Id)
    | Created(config: Config, id: Id)
    | CapacityReached(config: Config)
    | GetSelecting(id: Id)
    | GetUpdating(id: Id, at: Time, seen: Row)
    | GetCommitting(config: Config, id: Id)
    | Got(config: Config, id: Id)
    | NoSession(id: Id)
    | NotJson(id: Id)
    | Deleting(id: Id)
    | DeleteCommitting(id: Id, found: bool)
    | Deleted(id: Id, found: bool)
    | Cancelled
  {
    predicate HoldsLock() {
      Selecting? || Touching? || Counting? || Inserting? || CreateCommitting?
    }

    predicate Ended() {
      Created? || CapacityReached? || Got? || NoSession? || NotJson? || Deleted? || Cancelled?
    }
  }

  /** `used` remembers every id the table ever held. */
  datatype State = State(rows: Table, used: set<Id>, lock: Option<CallId>, calls: map<CallId, Call>, max: nat)

  /** `Advance` runs one statement; `choice` is the id a SELECT finds or `uuid4` mints. */
  datatype Event =
    | StartCreate(call: CallId, config: Config)
    | StartGet(call: CallId, id: Id)
    | StartDelete(call: CallId, id: Id)
    | Advance(call: CallId, choice: Option<Id>, now: Time)
    | Cancel(call: CallId)

  function At(s: State, k: CallId, c: Call): State {
    s.(calls := s.calls[k := c])
  }

  function Released(s: State, k: CallId): State {
    if s.lock == Some(k) then s.(lock := None) else s
  }

  /** An event that cannot happen in a state leaves it unchanged. */
  function Apply(s: State, e: Event): State {
    match e
    case StartCreate(k, config) => if k in s.calls then s else At(s, k, Waiting(config))
    case StartGet(k, id) => if k in s.calls then s else At(s, k, GetSelecting(id))
    case StartDelete(k, id) => if k in s.calls then s else At(s, k, Deleting(id))
    case Cancel(k) =>
      if k in s.calls && !s.calls[k].Ended() then At(Released(s, k), k, Cancelled) else s
    case Advance(k, choice, now) => if k in s.calls then Statement(s, k, s.calls[k], choice, now) else s
  }

  function Statement(s: State, k: CallId, call: Call, choice: Option<Id>, now: Time): State {
    match call
    case Waiting(config) =>
      if s.lock.None? then At(s.(lock := Some(k)), k, Selecting(config, now)) else s
    case Selecting(config, at) =>
      if choice.Some? && HasHash(s.rows, choice.value, config) then At(s, k, Touching(config, at, choice.value))
      else if choice.None? && forall id :: id in s.rows ==> !HasHash(s.rows, id, config)
      then At(s, k, Counting(config, at))
      else s
    case Touching(config, at, id) => At(s.(rows := Touch(s.rows, id, at)), k, CreateCommitting(config, id))
    case Counting(config, at) =>
      if |s.rows| >= s.max then At(Released(s, k), k, CapacityReached(config))
      else At(s, k, Inserting(config, at))
    case Inserting(config, at) =>
      if choice.Some? && choice.value !in s.used
      then At(s.(rows := s.rows[choice.value := NewRow(config, at)], used := s.used + {choice.value}),
              k, CreateCommitting(config, choice.value))
      else s
    case CreateCommitting(config, id) => At(Released(s, k), k, Created(config, id))
    case GetSelecting(id) =>
      if id !in s.rows then At(s, k, NoSession(id))
      else if s.rows[id].stored.Unreadable? then At(s, k, NotJson(id))
      else At(s, k, GetUpdating(id, now, s.rows[id]))
    case GetUpdating(id, at, seen) =>
      if seen.stored.Unreadable? then s
      else At(s.(rows := Migrate(s.rows, id, seen, at)), k, GetCommitting(seen.stored.config, id))
    case GetCommitting(config, id) => At(s, k, Got(config, id))
    case Deleting(id) => At(s.(rows := s.rows - {id}), k, DeleteCommitting(id, id in s.rows))
    case DeleteCommitting(id, found) => At(s, k, Deleted(id, found))
    case _ => s
  }

  function Run(s: State, events: seq<Event>): State {
    if events == [] then s else Apply(Run(s, events[..|events| - 1]), events[|events| - 1])
  }

  /** A store just opened on some table. */
  ghost predicate Start(s: State) {
    s.lock == None && s.calls == map[] && s.used == s.rows.Keys
  }

  // ---- what every step keeps ----

  ghost predicate LockInv(s: State) {
    && (forall k :: k in s.calls && s.calls[k].HoldsLock() ==> s.lock == Some(k))
    && (s.lock.Some? ==> s.lock.value in s.calls && s.calls[s.lock.value].HoldsLock())
  }

  /** The row holds this configuration, encrypted or in plain text. */
  predicate Holds(r: Row, config: Config) {
    r.stored == Token(config) || r.stored == PlainText(config)
  }

  /** How a row may differ from an earlier reading of it: migrated, backfilled with its own hash, no more. */
  predicate Evolves(r: Row, r': Row) {
    && (r'.stored == r.stored || (r.stored.PlainText? && r'.stored == Token(r.stored.config)))
    && (r'.hash == r.hash || (r.hash.None? && !r.stored.Unreadable? && r'.hash == Some(Digest(r.stored.config))))
    && r'.createdAt == r.createdAt
  }

  /** A pending write of `get_config` holds an older reading of its row. */
  ghost predicate PendingInv(s: State) {
    forall k :: k in s.calls && s.calls[k].GetUpdating? ==>
      var c := s.calls[k];
      !c.seen.stored.Unreadable? && c.id in s.used && (c.id in s.rows ==> Evolves(c.seen, s.rows[c.id]))
  }

  /** A hash, where there is one, is the hash of the row's configuration. */
  ghost predicate RowHashed(r: Row) {
    r.hash.Some? ==> Holds(r, r.hash.value.canonical)
  }

  ghost predicate HashesRight(s: State) {
    forall id :: id in s.rows ==> RowHashed(s.rows[id])
  }

  ghost predicate CapacityInv(s: State, bound: nat) {
    && s.max <= bound && |s.rows| <= bound
    && (forall k :: k in s.calls && s.calls[k].Inserting? ==> |s.rows| < s.max)
  }

  ghost predicate MigratedInv(s: State) {
    forall k :: k in s.calls && (s.calls[k].GetCommitting? || s.calls[k].Got?) && s.calls[k].id in s.rows ==>
      s.rows[s.calls[k].id].stored.Token? && s.rows[s.calls[k].id].hash.Some?
  }

  ghost predicate Inv(s: State) {
    s.rows.Keys <= s.used && LockInv(s) && PendingInv(s)
  }

  lemma StartInv(s: State)
    requires Start(s)
    ensures Inv(s) && CapacityInv(s, if s.max > |s.rows| then s.max else |s.rows|) && MigratedInv(s)
  {}

  lemma StepInv(s: State, e: Event)
    requires Inv(s)
    ensures Inv(Apply(s, e))
  {
    StepLock(s, e);
    StepPending(s, e);
  }

  /** Call k moved from `s` to `t`, and the lock with it. */
  predicate LockMoves(s: State, k: CallId, t: State) {
    && k in t.calls && t.calls == s.calls[k := t.calls[k]]
    && (if k in s.calls && s.calls[k].HoldsLock()
        then if t.calls[k].HoldsLock() then t.lock == s.lock else t.lock == None
        else if t.calls[k].HoldsLock() then s.lock == None && t.lock == Some(k) else t.lock == s.lock)
  }

  lemma LockMovesInv(s: State, k: CallId, t: State)
    requires LockInv(s) && LockMoves(s, k, t)
    ensures LockInv(t)
  {}

  lemma CreateStatementLock(s: State, k: CallId, c: Call, choice: Option<Id>, now: Time)
    requires k in s.calls && s.calls[k] == c && (c.HoldsLock() <==> s.lock == Some(k)) && (c.Waiting? || c.HoldsLock())
    ensures var t := Statement(s, k, c, choice, now); t == s || LockMoves(s, k, t)
  {
    hide HasHash, Touch, NewRow;
  }

  lemma OtherStatementLock(s: State, k: CallId, c: Call, choice: Option<Id>, now: Time)
    requires k in s.calls && s.calls[k] == c && !c.HoldsLock() && !c.Waiting?
    ensures var t := Statement(s, k, c, choice, now); t == s || LockMoves(s, k, t)
  {
    hide Migrate;
  }

  lemma StepLock(s: State, e: Event)
    requires LockInv(s)
    ensures LockInv(Apply(s, e))
  {
    var t, k := Apply(s, e), e.call;
    assert k in s.calls ==> (s.calls[k].HoldsLock() <==> s.lock == Some(k));
    if e.Advance? && k in s.calls {
      var c := s.calls[k];
      if c.Waiting? || c.HoldsLock() {
        CreateStatementLock(s, k, c, e.choice, e.now);
      } else {
        OtherStatementLock(s, k, c, e.choice, e.now);
      }
    }
    hide Statement, LockInv;
    if t != s { LockMovesInv(s, k, t); }
  }

  /** A row that is there before and after a step evolves. */
  lemma StepEvolves(s: State, e: Event, id: Id)
    requires Inv(s)
    requires id in s.rows && id in Apply(s, e).rows
    ensures Evolves(s.rows[id], Apply(s, e).rows[id])
  {}

  lemma StepUsed(s: State, e: Event)
    requires s.rows.Keys <= s.used
    ensures var s' := Apply(s, e);
            s'.rows.Keys <= s'.used && s.used <= s'.used && s'.max == s.max
            && forall id :: id in s.used && id !in s.rows ==> id !in s'.rows
  {}

  lemma StepPending(s: State, e: Event)
    requires Inv(s)
    ensures PendingInv(Apply(s, e)) && Apply(s, e).rows.Keys <= Apply(s, e).used
  {
    var s' := Apply(s, e);
    StepUsed(s, e);
    hide LockInv, MigratedInv;
    forall k | k in s'.calls && s'.calls[k].GetUpdating?
      ensures var c := s'.calls[k];
              !c.seen.stored.Unreadable? && c.id in s'.used && (c.id in s'.rows ==> Evolves(c.seen, s'.rows[c.id]))
    {
      var c := s'.calls[k];
      if k in s.calls && s.calls[k] == c {
        if c.id in s'.rows { StepEvolves(s, e, c.id); }
      }
    }
  }

  lemma StepCapacity(s: State, e: Event, bound: nat)
    requires Inv(s) && CapacityInv(s, bound)
    ensures CapacityInv(Apply(s, e), bound)
  {
    StepSize(s, e);
    StepOthers(s, e);
    var t := Apply(s, e);
    hide Apply, PendingInv;
    forall k | k in t.calls && t.calls[k].Inserting? ensures |t.rows| < t.max {
      if k != e.call { assert k in s.calls && s.calls[k].Inserting?; }
    }
  }

  /** A step adds a row only where a create inserts it. */
  lemma StepSize(s: State, e: Event)
    requires s.rows.Keys <= s.used
    ensures var t := Apply(s, e);
            && t.max == s.max
            && (|t.rows| <= |s.rows|
                || (|t.rows| == |s.rows| + 1 && e.call in s.calls && s.calls[e.call].Inserting?
                    && !t.calls[e.call].Inserting?))
  {
    if e.Advance? && e.call in s.calls {
      var c := s.calls[e.call];
      if c.Inserting? {
        InsertSize(s, e.call, c, e.choice, e.now);
      } else {
        OtherSize(s, e.call, c, e.choice, e.now);
      }
    }
    hide Statement;
  }

  lemma InsertSize(s: State, k: CallId, c: Call, choice: Option<Id>, now: Time)
    requires c.Inserting? && s.rows.Keys <= s.used
    ensures var t := Statement(s, k, c, choice, now);
            t == s || (|t.rows| == |s.rows| + 1 && t.max == s.max && k in t.calls && !t.calls[k].Inserting?)
  {
    var t := Statement(s, k, c, choice, now);
    if t != s {
      assert t.rows.Keys == s.rows.Keys + {choice.value};
      assert |t.rows| == |t.rows.Keys| && |s.rows| == |s.rows.Keys|;
    }
  }

  lemma OtherSize(s: State, k: CallId, c: Call, choice: Option<Id>, now: Time)
    requires !c.Inserting?
    ensures var t := Statement(s, k, c, choice, now); t.max == s.max && |t.rows| <= |s.rows|
  {
    OtherKeys(s, k, c, choice, now);
    hide Statement;
    if c.Deleting? { WithoutSize(s.rows, c.id); } else { SameSize(s.rows, Statement(s, k, c, choice, now).rows); }
  }

  lemma OtherKeys(s: State, k: CallId, c: Call, choice: Option<Id>, now: Time)
    requires !c.Inserting?
    ensures var t := Statement(s, k, c, choice, now);
            t.max == s.max && if c.Deleting? then t.rows == s.rows - {c.id} else t.rows.Keys == s.rows.Keys
  {
    hide HasHash;
  }

  lemma SameSize(rows: Table, rows': Table)
    requires rows.Keys == rows'.Keys
    ensures |rows'| == |rows|
  {
    assert |rows| == |rows.Keys| && |rows'| == |rows'.Keys|;
  }

  lemma WithoutSize(rows: Table, id: Id)
    ensures |rows - {id}| <= |rows|
  {
    var fewer := rows - {id};
    assert |rows| == |rows.Keys| && |fewer| == |fewer.Keys|;
    assert fewer.Keys == rows.Keys - {id};
    if id !in rows { assert fewer.Keys == rows.Keys; }
  }

  /** It moves no other call, and one comes to insert only below the limit. */
  lemma StepOthers(s: State, e: Event)
    ensures var t, k := Apply(s, e), e.call;
            && (forall j :: j != k && j in t.calls ==> j in s.calls && t.calls[j] == s.calls[j])
            && (k in t.calls && t.calls[k].Inserting? ==> t.rows == s.rows)
            && (k in t.calls && t.calls[k].Inserting? ==>
                  (k in s.calls && s.calls[k].Inserting?) || |s.rows| < s.max)
  {
    hide HasHash, Touch, Migrate, NewRow;
  }

  lemma StepMigrated(s: State, e: Event)
    requires Inv(s) && MigratedInv(s)
    ensures MigratedInv(Apply(s, e))
  {
    var t := Apply(s, e);
    forall k | k in t.calls && (t.calls[k].GetCommitting? || t.calls[k].Got?) && t.calls[k].id in t.rows
      ensures var row := t.rows[t.calls[k].id]; row.stored.Token? && row.hash.Some?
    {
      StillMigrated(s, e, k);
    }
  }

  lemma StillMigrated(s: State, e: Event, k: CallId)
    requires Inv(s) && MigratedInv(s)
    requires var t := Apply(s, e);
             k in t.calls && (t.calls[k].GetCommitting? || t.calls[k].Got?) && t.calls[k].id in t.rows
    ensures var row := Apply(s, e).rows[Apply(s, e).calls[k].id]; row.stored.Token? && row.hash.Some?
  {
    var t := Apply(s, e);
    var id := t.calls[k].id;
    StepUsed(s, e);
    assert k in s.calls && (s.calls[k].GetUpdating? || s.calls[k].GetCommitting? || s.calls[k].Got?);
    assert s.calls[k].id == id;
    if s.calls[k].GetUpdating? {
      assert t.rows == Migrate(s.rows, id, s.calls[k].seen, s.calls[k].at);
      assert Evolves(s.calls[k].seen, s.rows[id]);
    } else {
      if id in s.rows { StepEvolves(s, e, id); }
      hide Apply;
    }
  }
}
