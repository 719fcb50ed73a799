/**
  The store's operations as they run when nothing interrupts them. Each is proved
  against the statement functions of the concurrent model, and shown to be one of its runs.
 */
module SessionStores {
  import opened Wrappers
  import opened Sessions
  import opened SessionDedupe

  datatype StoreError = SessionCapacityError | NotJsonError | ValidationError

  /** The concurrent model, opened on a table. */
  ghost function Opened(rows: Table, max: nat): (s: State)
    ensures Start(s)
  {
    State(rows, rows.Keys, None, map[], max)
  }

  /** A create on its own, up to its first SELECT. */
  lemma BeginAlone(rows: Table, max: nat, config: Config, now: Time) returns (events: seq<Event>)
    ensures Run(Opened(rows, max), events) == State(rows, rows.Keys, Some(0), map[0 := Selecting(config, now)], max)
  {
    hide Run;
    var s := Opened(rows, max);
    events := [];
    RunNothing(s);
    Then(s, events, StartCreate(0, config));
    events := events + [StartCreate(0, config)];
    Then(s, events, Advance(0, None, now));
    events := events + [Advance(0, None, now)];
  }

  /** A create on its own that finds its configuration. */
  lemma ReuseAlone(rows: Table, max: nat, config: Config, now: Time, id: Id) returns (events: seq<Event>)
    requires HasHash(rows, id, config)
    ensures Run(Opened(rows, max), events)
            == State(Touch(rows, id, now), rows.Keys, None, map[0 := Created(config, id)], max)
  {
    hide Run;
    var s := Opened(rows, max);
    events := BeginAlone(rows, max, config, now);
    Then(s, events, Advance(0, Some(id), now));
    events := events + [Advance(0, Some(id), now)];
    Then(s, events, Advance(0, None, now));
    events := events + [Advance(0, None, now)];
    Then(s, events, Advance(0, None, now));
    events := events + [Advance(0, None, now)];
  }

  /** A create on its own that does not, up to the verdict on the capacity. */
  lemma CountAlone(rows: Table, max: nat, config: Config, now: Time) returns (events: seq<Event>)
    requires forall id :: id in rows ==> !HasHash(rows, id, config)
    ensures Run(Opened(rows, max), events)
            == if |rows| >= max then State(rows, rows.Keys, None, map[0 := CapacityReached(config)], max)
               else State(rows, rows.Keys, Some(0), map[0 := Inserting(config, now)], max)
  {
    hide Run;
    var s := Opened(rows, max);
    events := BeginAlone(rows, max, config, now);
    Then(s, events, Advance(0, None, now));
    events := events + [Advance(0, None, now)];
    Then(s, events, Advance(0, None, now));
    events := events + [Advance(0, None, now)];
  }

  lemma InsertAlone(rows: Table, max: nat, config: Config, now: Time, minted: Id, counted: seq<Event>)
    returns (events: seq<Event>)
    requires minted !in rows
    requires Run(Opened(rows, max), counted) == State(rows, rows.Keys, Some(0), map[0 := Inserting(config, now)], max)
    ensures Run(Opened(rows, max), events)
            == State(rows[minted := NewRow(config, now)], rows.Keys + {minted}, None,
                     map[0 := Created(config, minted)], max)
  {
    hide Run;
    var s := Opened(rows, max);
    events := counted;
    Then(s, events, Advance(0, Some(minted), now));
    events := events + [Advance(0, Some(minted), now)];
    Then(s, events, Advance(0, None, now));
    events := events + [Advance(0, None, now)];
  }

  lemma DeleteAlone(rows: Table, max: nat, id: Id) returns (events: seq<Event>)
    ensures Run(Opened(rows, max), events)
            == State(rows - {id}, rows.Keys, None, map[0 := Deleted(id, id in rows)], max)
  {
    hide Run;
    var s := Opened(rows, max);
    events := [];
    RunNothing(s);
    Then(s, events, StartDelete(0, id));
    events := events + [StartDelete(0, id)];
    assert Run(s, events) == State(rows, rows.Keys, None, map[0 := Deleting(id)], max);
    Then(s, events, Advance(0, None, 0));
    events := events + [Advance(0, None, 0)];
    assert Run(s, events) == State(rows - {id}, rows.Keys, None, map[0 := DeleteCommitting(id, id in rows)], max);
    Then(s, events, Advance(0, None, 0));
    events := events + [Advance(0, None, 0)];
  }

  class SessionStore {
    var rows: Table
    const maxSessions: nat

    constructor (rows: Table, maxSessions: nat)
      ensures this.rows == rows && this.maxSessions == maxSessions
    {
      this.rows := rows;
      this.maxSessions := maxSessions;
    }

    /** `minted` is the id `uuid4` would give. */
    method Create(config: Config, now: Time, minted: Id) returns (r: Result<Id, StoreError>, ghost events: seq<Event>)
      requires minted !in rows
      modifies this`rows
      ensures r.Ok? ==> r.value in rows && rows[r.value].hash == Some(Digest(config))
      ensures (exists id :: id in old(rows) && old(rows)[id].hash == Some(Digest(config))) ==>
                r.Ok? && r.value in old(rows) && old(rows)[r.value].hash == Some(Digest(config))
                && rows == old(rows)[r.value := old(rows)[r.value].(lastUsedAt := now)]
      ensures !(exists id :: id in old(rows) && old(rows)[id].hash == Some(Digest(config)))
              && |old(rows)| >= maxSessions ==>
                r == Err(SessionCapacityError) && rows == old(rows)
      ensures !(exists id :: id in old(rows) && old(rows)[id].hash == Some(Digest(config)))
              && |old(rows)| < maxSessions ==>
                r == Ok(minted) && rows == old(rows)[minted := Row(Token(config), Some(Digest(config)), now, now)]
      ensures var t := Run(Opened(old(rows), maxSessions), events);
              t.rows == rows && t.lock == None
              && t.calls == map[0 := if r.Ok? then Created(config, r.value) else CapacityReached(config)]
    {
      if id :| id in rows && HasHash(rows, id, config) {
        events := ReuseAlone(rows, maxSessions, config, now, id);
        rows := Touch(rows, id, now);
        r := Ok(id);
      } else {
        events := CountAlone(rows, maxSessions, config, now);
        if |rows| >= maxSessions {
          return Err(SessionCapacityError), events;
        }
        events := InsertAlone(rows, maxSessions, config, now, minted, events);
        rows := rows[minted := NewRow(config, now)];
        r := Ok(minted);
      }
    }

    /**
      A missing session is `None`; a row whose text is no JSON raises and is left as it was.
      `accepts` says which configurations the model of the addon accepts; one it does not
      raises after its row has been migrated.
     */
    method GetConfig(id: Id, now: Time, accepts: Config -> bool)
      returns (r: Result<Option<Config>, StoreError>, ghost events: seq<Event>)
      modifies this`rows
      ensures id !in old(rows) ==> r == Ok(None) && rows == old(rows)
      ensures r == Err(NotJsonError) <==> id in old(rows) && old(rows)[id].stored == Unreadable
      ensures id in old(rows) && old(rows)[id].stored == Unreadable ==> rows == old(rows)
      ensures forall c ::
                id in old(rows) && (old(rows)[id].stored == PlainText(c) || old(rows)[id].stored == Token(c)) ==>
                  && var hash := old(rows)[id].hash;
                  && r == (if accepts(c) then Ok(Some(c)) else Err(ValidationError))
                  && rows == old(rows)[id := Row(
                       Token(c), if hash.Some? then hash else Some(Digest(c)), old(rows)[id].createdAt, now)]
      ensures var t := Run(Opened(old(rows), maxSessions), events);
              t.rows == rows
              && t.calls == map[0 := if id !in old(rows) then NoSession(id)
                                     else if old(rows)[id].stored == Unreadable then NotJson(id)
                                     else Got(old(rows)[id].stored.config, id)]
    {
      hide Run;
      ghost var s := Opened(rows, maxSessions);
      events := [];
      RunNothing(s);
      Then(s, events, StartGet(0, id));
      events := events + [StartGet(0, id)];
      Then(s, events, Advance(0, None, now));
      events := events + [Advance(0, None, now)];
      if id !in rows {
        return Ok(None), events;
      }
      var seen := rows[id];
      if seen.stored.Unreadable? {
        return Err(NotJsonError), events;
      }
      rows := Migrate(rows, id, seen, now);
      Then(s, events, Advance(0, None, now));
      events := events + [Advance(0, None, now)];
      Then(s, events, Advance(0, None, now));
      events := events + [Advance(0, None, now)];
      r := if accepts(seen.stored.config) then Ok(Some(seen.stored.config)) else Err(ValidationError);
    }

    method Delete(id: Id) returns (found: bool, ghost events: seq<Event>)
      modifies this`rows
      ensures found <==> id in old(rows)
      ensures rows == old(rows) - {id}
      ensures var t := Run(Opened(old(rows), maxSessions), events);
              t.rows == rows && t.calls == map[0 := Deleted(id, found)]
    {
      events := DeleteAlone(rows, maxSessions, id);
      found := id in rows;
      rows := rows - {id};
    }
  }
}
