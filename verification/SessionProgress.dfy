/** What one statement does where it can run, and that no call of a store is ever stuck. */
module SessionProgress {
  import opened Wrappers
  import opened Sessions
  import opened SessionDedupe

  // ---- reading a row, statement by statement ----

  /** A SELECT goes on with the row it found if that holds a configuration, in either form, and ends otherwise. */
  lemma SelectSplits(s: State, k: CallId, id: Id, choice: Option<Id>, now: Time)
    requires k in s.calls && s.calls[k] == GetSelecting(id)
    ensures var t := Apply(s, Advance(k, choice, now));
            && t.rows == s.rows && t.lock == s.lock
            && (id !in s.rows ==> t.calls == s.calls[k := NoSession(id)])
            && (id in s.rows && s.rows[id].stored == Unreadable ==> t.calls == s.calls[k := NotJson(id)])
            && (forall c :: id in s.rows && (s.rows[id].stored == PlainText(c) || s.rows[id].stored == Token(c)) ==>
                 t.calls == s.calls[k := GetUpdating(id, now, s.rows[id])])
  {}

  /**
    The write after it: whatever has become of the row since, a reading in plain text leaves
    the row encrypted, and either reading leaves it hashed; nothing else is written but the
    time.
   */
  lemma UpdateMigrates(s: State, k: CallId, id: Id, at: Time, seen: Row, c: Config, choice: Option<Id>, now: Time)
    requires k in s.calls && s.calls[k] == GetUpdating(id, at, seen)
    requires seen.stored == PlainText(c) || seen.stored == Token(c)
    ensures var t := Apply(s, Advance(k, choice, now));
            && t.calls == s.calls[k := GetCommitting(c, id)]
            && (id !in s.rows ==> t.rows == s.rows)
            && (id in s.rows ==>
                 t.rows == s.rows[id := Row(
                   if seen.stored == PlainText(c) then Token(c) else s.rows[id].stored,
                   if seen.hash.Some? then seen.hash else Some(Digest(c)),
                   s.rows[id].createdAt, at)])
  {}

  /** Over every run: where a plain text was read, its row is encrypted once written, if it is still there. */
  lemma PlainTextMigrates(s: State, events: seq<Event>, k: CallId, c: Config, choice: Option<Id>, now: Time)
    requires Start(s)
    requires var t := Run(s, events);
             k in t.calls && t.calls[k].GetUpdating?
             && (t.calls[k].seen.stored == PlainText(c) || t.calls[k].seen.stored == Token(c))
    ensures var t, t' := Run(s, events), Run(s, events + [Advance(k, choice, now)]);
            var id := t.calls[k].id;
            && t'.calls[k] == GetCommitting(c, id) && t'.rows.Keys == t.rows.Keys
            && (id in t'.rows ==> t'.rows[id].stored == Token(c) && t'.rows[id].hash.Some?)
  {
    SessionRuns.RunInv(s, events);
    var t := Run(s, events);
    Then(s, events, Advance(k, choice, now));
    UpdateMigrates(t, k, t.calls[k].id, t.calls[k].at, t.calls[k].seen, c, choice, now);
  }

  // ---- cancelling ----

  /** A cancelled call ends, lets go of the lock, and leaves rows and other calls alone. */
  lemma CancelLetsGo(s: State, k: CallId)
    requires LockInv(s) && k in s.calls && !s.calls[k].Ended()
    ensures var t := Apply(s, Cancel(k));
            && t.calls == s.calls[k := Cancelled] && t.rows == s.rows && t.used == s.used
            && t.lock == (if s.calls[k].HoldsLock() then None else s.lock)
  {}

  // ---- no call is ever stuck ----

  /** How many statements a call has before it at most. */
  function Left(c: Call): nat {
    match c
    case Waiting(_) => 5
    case Selecting(_, _) => 4
    case Touching(_, _, _) => 2
    case Counting(_, _) => 3
    case Inserting(_, _) => 2
    case CreateCommitting(_, _) => 1
    case GetSelecting(_) => 3
    case GetUpdating(_, _, _) => 2
    case GetCommitting(_, _) => 1
    case Deleting(_) => 2
    case DeleteCommitting(_, _) => 1
    case _ => 0
  }

  /** What the id a statement is given has to be. */
  ghost predicate Suits(s: State, c: Call, choice: Option<Id>) {
    && (c.Selecting? ==>
         if choice.Some? then HasHash(s.rows, choice.value, c.config)
         else forall id :: id in s.rows ==> !HasHash(s.rows, id, c.config))
    && (c.Inserting? ==> choice.Some? && choice.value !in s.used)
  }

  /** The id a SELECT finds, or one never used. */
  lemma SomeChoice(s: State, c: Call) returns (choice: Option<Id>)
    ensures Suits(s, c, choice)
  {
    if c.Selecting? {
      if id :| id in s.rows && HasHash(s.rows, id, c.config) { choice := Some(id); } else { choice := None; }
    } else {
      choice := Some(Beyond(s.used));
    }
  }

  /** A statement moves its call on, and no other. */
  ghost predicate MovesOn(s: State, k: CallId, c: Call, t: State) {
    k in t.calls && t.calls == s.calls[k := t.calls[k]]
    && Left(t.calls[k]) < Left(c) && !t.calls[k].Waiting? && t.calls[k] != Cancelled
  }

  lemma CreateMovesOn(s: State, k: CallId, c: Call, choice: Option<Id>, now: Time)
    requires Suits(s, c, choice) && (c.Waiting? ==> s.lock.None?)
    requires c.Waiting? || c.HoldsLock()
    ensures MovesOn(s, k, c, Statement(s, k, c, choice, now))
  {
    hide HasHash, Touch, NewRow;
  }

  lemma OtherMovesOn(s: State, k: CallId, c: Call, choice: Option<Id>, now: Time)
    requires !c.Ended() && !c.Waiting? && !c.HoldsLock() && (c.GetUpdating? ==> !c.seen.stored.Unreadable?)
    ensures MovesOn(s, k, c, Statement(s, k, c, choice, now))
  {
    hide Migrate;
  }

  /** A call that is not waiting for the lock can run its statement, alone. */
  lemma CanAdvance(s: State, k: CallId, now: Time) returns (e: Event)
    requires Inv(s) && k in s.calls && !s.calls[k].Ended()
    requires s.calls[k].Waiting? ==> s.lock.None?
    ensures MovesOn(s, k, s.calls[k], Apply(s, e))
  {
    hide MovesOn, Statement, LockInv, Evolves;
    var c := s.calls[k];
    var choice := SomeChoice(s, c);
    if c.Waiting? || c.HoldsLock() {
      CreateMovesOn(s, k, c, choice, now);
    } else {
      OtherMovesOn(s, k, c, choice, now);
    }
    e := Advance(k, choice, now);
  }

  /** And so run to its end, while all others stand still. */
  lemma {:induction false} CanEnd(s: State, events: seq<Event>, k: CallId, now: Time) returns (longer: seq<Event>)
    requires var t := Run(s, events);
             Inv(t) && k in t.calls && t.calls[k] != Cancelled && (t.calls[k].Waiting? ==> t.lock.None?)
    ensures var t, t' := Run(s, events), Run(s, longer);
            && Inv(t') && k in t'.calls && t'.calls == t.calls[k := t'.calls[k]]
            && t'.calls[k].Ended() && t'.calls[k] != Cancelled
    decreases Left(Run(s, events).calls[k])
  {
    hide Run, Apply, Inv;
    var t := Run(s, events);
    if t.calls[k].Ended() {
      longer := events;
      assert t.calls == t.calls[k := t.calls[k]];
    } else {
      var e := CanAdvance(t, k, now);
      Then(s, events, e);
      StepInv(t, e);
      longer := CanEnd(s, events + [e], k, now);
    }
  }

  /**
    However a run has gone, every call that was not cancelled can end with a result of its
    own: at worst the one call that holds the lock has to end first.
   */
  lemma NoCallIsStuck(s: State, events: seq<Event>, k: CallId, now: Time) returns (longer: seq<Event>)
    requires Start(s)
    requires var t := Run(s, events); k in t.calls && t.calls[k] != Cancelled
    ensures var t' := Run(s, longer); k in t'.calls && t'.calls[k].Ended() && t'.calls[k] != Cancelled
  {
    SessionRuns.RunInv(s, events);
    var t := Run(s, events);
    longer := events;
    if t.lock.Some? && t.lock.value != k {
      longer := CanEnd(s, events, t.lock.value, now);
    }
    LockFreeFor(t, Run(s, longer), k);
    longer := CanEnd(s, longer, k, now);
  }

  /** Once the holder has ended, and no other call moved, no other call has the lock. */
  lemma LockFreeFor(t: State, t': State, k: CallId)
    requires LockInv(t) && LockInv(t') && k in t.calls
    requires t.lock.None? || t.lock.value == k ==> t' == t
    requires t.lock.Some? && t.lock.value != k ==>
               t.lock.value in t'.calls && t'.calls[t.lock.value].Ended()
               && t'.calls == t.calls[t.lock.value := t'.calls[t.lock.value]]
    ensures k in t'.calls && t'.calls[k] == t.calls[k]
    ensures t'.calls[k].Waiting? ==> t'.lock.None?
  {}
}
