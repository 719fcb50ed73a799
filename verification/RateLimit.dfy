/**
  The in-memory sliding-window limiter, against a log of every admission it ever made.
 */
module RateLimit {
  import opened Wrappers

  /** A client, by the address requests are counted under. */
  datatype Client = Client(address: string)

  datatype Admission = Admission(client: Client, at: real)

  // ---- the log, read from its last admission backwards ----

  /** When a client was admitted, oldest first. */
  function TimesOf(log: seq<Admission>, client: Client): seq<real> {
    if log == [] then []
    else
      var last := log[|log| - 1];
      TimesOf(log[..|log| - 1], client) + if last.client == client then [last.at] else []
  }

  /** How many of the times lie after `from`. */
  function CountAfter(times: seq<real>, from: real): nat {
    if times == [] then 0
    else CountAfter(times[..|times| - 1], from) + if times[|times| - 1] > from then 1 else 0
  }

  /** How many lie in the half-open interval after `from`, up to and including `upTo`. */
  function CountBetween(times: seq<real>, from: real, upTo: real): nat {
    if times == [] then 0
    else CountBetween(times[..|times| - 1], from, upTo)
         + if from < times[|times| - 1] <= upTo then 1 else 0
  }

  predicate Sorted(times: seq<real>) {
    forall i, j :: 0 <= i < j < |times| ==> times[i] <= times[j]
  }

  /** The later of a time and a loss. */
  function Since(from: real, lost: Option<real>): real {
    if lost.Some? && lost.value > from then lost.value else from
  }

  /** Every admission found fewer than `requests` before it in its own window, and after the loss. */
  predicate Paced(times: seq<real>, requests: nat, window: real, lost: Option<real>) {
    times != [] ==>
      var n := |times| - 1;
      && Paced(times[..n], requests, window, lost)
      && CountAfter(times[..n], Since(times[n] - window, lost)) < requests
  }

  // ---- facts about times ----

  lemma {:induction false} CountConcat(a: seq<real>, b: seq<real>, from: real)
    ensures CountAfter(a + b, from) == CountAfter(a, from) + CountAfter(b, from)
  {
    if b == [] {
      assert a + b == a;
    } else {
      assert (a + b)[..|a + b| - 1] == a + b[..|b| - 1];
      CountConcat(a, b[..|b| - 1], from);
    }
  }

  lemma {:induction false} CountNone(times: seq<real>, from: real)
    requires forall i :: 0 <= i < |times| ==> times[i] <= from
    ensures CountAfter(times, from) == 0
  {
    if times != [] { CountNone(times[..|times| - 1], from); }
  }

  lemma {:induction false} CountAll(times: seq<real>, from: real)
    requires forall i :: 0 <= i < |times| ==> times[i] > from
    ensures CountAfter(times, from) == |times|
  {
    if times != [] { CountAll(times[..|times| - 1], from); }
  }

  lemma {:induction false} CountAtMost(times: seq<real>, from: real)
    ensures CountAfter(times, from) <= |times|
  {
    if times != [] { CountAtMost(times[..|times| - 1], from); }
  }

  lemma {:induction false} CountShrinks(times: seq<real>, from: real, later: real)
    requires from <= later
    ensures CountAfter(times, later) <= CountAfter(times, from)
  {
    if times != [] { CountShrinks(times[..|times| - 1], from, later); }
  }

  /** Pacing since one loss is pacing since any later one. */
  lemma {:induction false} PacedLater(times: seq<real>, requests: nat, window: real, lost: Option<real>, later: real)
    requires Paced(times, requests, window, lost) && (lost.Some? ==> lost.value <= later)
    ensures Paced(times, requests, window, Some(later))
  {
    if times != [] {
      var n := |times| - 1;
      PacedLater(times[..n], requests, window, lost, later);
      CountShrinks(times[..n], Since(times[n] - window, lost), Since(times[n] - window, Some(later)));
    }
  }

  lemma {:induction false} CountBetweenAtMost(times: seq<real>, from: real, upTo: real, start: real)
    requires start <= from
    ensures CountBetween(times, from, upTo) <= CountAfter(times, start)
  {
    if times != [] { CountBetweenAtMost(times[..|times| - 1], from, upTo, start); }
  }

  /** Paced admissions fit any half-open interval of window length that starts no earlier than the loss. */
  lemma {:induction false} IntervalBound(
    times: seq<real>, requests: nat, window: real, lost: Option<real>, from: real)
    requires Paced(times, requests, window, lost) && (lost.Some? ==> from >= lost.value)
    ensures CountBetween(times, from, from + window) <= requests
  {
    if times != [] {
      var n := |times| - 1;
      IntervalBound(times[..n], requests, window, lost, from);
      if from < times[n] <= from + window {
        CountBetweenAtMost(times[..n], from, from + window, Since(times[n] - window, lost));
      }
    }
  }

  // ---- the table of queues ----

  /** The newest admission that a client lost to a forced eviction. */
  function LossOf(lost: map<Client, real>, k: Client): Option<real> {
    if k in lost then Some(lost[k]) else None
  }

  predicate Increasing(times: seq<real>, upTo: real) {
    Sorted(times) && (times != [] ==> times[|times| - 1] <= upTo)
  }

  /**
    The queue is the newest part of the client's history, and what it lacks is out of
    the window or no newer than what was lost to a forced eviction.
   */
  ghost predicate Represents(
    queue: seq<real>, history: seq<real>, cutoff: real, lost: map<Client, real>, client: Client)
  {
    |queue| <= |history|
    && var d := |history| - |queue|;
       history[d..] == queue
       && forall i :: 0 <= i < d ==> history[i] <= cutoff || (client in lost && history[i] <= lost[client])
  }

  function Queue(events: map<Client, seq<real>>, client: Client): seq<real> {
    if client in events then events[client] else []
  }

  predicate Stale(queue: seq<real>, cutoff: real) {
    queue == [] || queue[|queue| - 1] <= cutoff
  }

  /** Dictionary order: the keys still present, in the order they were inserted. */
  function Keep(order: seq<Client>, keys: set<Client>): seq<Client> {
    if order == [] then []
    else (if order[0] in keys then [order[0]] else []) + Keep(order[1..], keys)
  }

  function Live(events: map<Client, seq<real>>, cutoff: real): map<Client, seq<real>> {
    map k | k in events && !Stale(events[k], cutoff) :: events[k]
  }

  function Members(order: seq<Client>): set<Client> {
    if order == [] then {} else {order[0]} + Members(order[1..])
  }

  predicate Distinct(order: seq<Client>) {
    order == [] || (order[0] !in Members(order[1..]) && Distinct(order[1..]))
  }

  predicate Orders(order: seq<Client>, keys: set<Client>) {
    Distinct(order) && Members(order) == keys
  }

  lemma {:induction false} KeepMembers(order: seq<Client>, keys: set<Client>)
    ensures Members(Keep(order, keys)) == Members(order) * keys
    ensures Distinct(order) ==> Distinct(Keep(order, keys))
  {
    if order != [] {
      KeepMembers(order[1..], keys);
      var rest := Keep(order[1..], keys);
      assert ([order[0]] + rest)[1..] == rest && [] + rest == rest;
    }
  }

  lemma KeptOrder(order: seq<Client>, keys: set<Client>, fewer: set<Client>)
    requires Orders(order, keys) && fewer <= keys
    ensures Orders(Keep(order, fewer), fewer)
  {
    KeepMembers(order, fewer);
    assert keys * fewer == fewer;
  }

  /** What is kept stays in the order it was in: each key is kept or not, on its own. */
  lemma {:induction false} KeepParts(a: seq<Client>, b: seq<Client>, keys: set<Client>)
    ensures Keep(a + b, keys) == Keep(a, keys) + Keep(b, keys)
  {
    if a == [] {
      assert a + b == b;
    } else {
      KeepParts(a[1..], b, keys);
      assert (a + b)[0] == a[0] && (a + b)[1..] == a[1..] + b;
      var first := if a[0] in keys then [a[0]] else [];
      assert first + (Keep(a[1..], keys) + Keep(b, keys)) == first + Keep(a[1..], keys) + Keep(b, keys);
    }
  }

  lemma KeepOne(k: Client, keys: set<Client>)
    ensures Keep([k], keys) == if k in keys then [k] else []
  {
    assert [k][1..] == [] && Keep([], keys) == [];
  }

  lemma {:induction false} KeepTwice(order: seq<Client>, keys: set<Client>, fewer: set<Client>)
    requires fewer <= keys
    ensures Keep(Keep(order, keys), fewer) == Keep(order, fewer)
  {
    if order != [] {
      KeepTwice(order[1..], keys, fewer);
      var rest := Keep(order[1..], keys);
      assert ([order[0]] + rest)[1..] == rest && [] + rest == rest;
    }
  }

  lemma {:induction false} KeepAll(order: seq<Client>, keys: set<Client>)
    requires Members(order) <= keys
    ensures Keep(order, keys) == order
  {
    if order != [] { KeepAll(order[1..], keys); }
  }

  lemma {:induction false} MembersAppend(order: seq<Client>, client: Client)
    requires Distinct(order) && client !in Members(order)
    ensures Orders(order + [client], Members(order) + {client})
  {
    if order == [] {
      assert (order + [client])[1..] == [];
    } else {
      MembersAppend(order[1..], client);
      assert (order + [client])[1..] == order[1..] + [client];
    }
  }

  // ---- how queues go on representing histories ----

  lemma RepresentsLater(
    queue: seq<real>, history: seq<real>, cutoff: real, later: real, lost: map<Client, real>, k: Client)
    requires Represents(queue, history, cutoff, lost, k) && cutoff <= later
    ensures Represents(queue, history, later, lost, k)
  {}

  lemma RepresentsTrimmed(
    queue: seq<real>, n: nat, history: seq<real>, cutoff: real, lost: map<Client, real>, k: Client)
    requires Represents(queue, history, cutoff, lost, k)
    requires n <= |queue| && forall i :: 0 <= i < n ==> queue[i] <= cutoff
    ensures Represents(queue[n..], history, cutoff, lost, k)
  {
    var d := |history| - |queue|;
    forall i | 0 <= i < d + n ensures history[i] <= cutoff || (k in lost && history[i] <= lost[k]) {
      if i >= d { assert history[d..][i - d] == queue[i - d]; }
    }
    assert history[d + n..] == history[d..][n..];
  }

  lemma RepresentsGrown(queue: seq<real>, history: seq<real>, x: real, cutoff: real, lost: map<Client, real>, k: Client)
    requires Represents(queue, history, cutoff, lost, k)
    ensures Represents(queue + [x], history + [x], cutoff, lost, k)
  {
    var d := |history| - |queue|;
    assert (history + [x])[d..] == history[d..] + [x];
  }

  /** A forced eviction forgets a queue; its newest entry bounds everything forgotten. */
  lemma RepresentsEvicted(queue: seq<real>, history: seq<real>, cutoff: real, lost: map<Client, real>, k: Client)
    requires Represents(queue, history, cutoff, lost, k) && queue != [] && Sorted(history)
    ensures Represents([], history, cutoff, lost[k := queue[|queue| - 1]], k)
  {
    var d := |history| - |queue|;
    assert history[d..][|queue| - 1] == history[|history| - 1];
  }

  lemma RepresentsStale(queue: seq<real>, history: seq<real>, cutoff: real, lost: map<Client, real>, k: Client)
    requires Represents(queue, history, cutoff, lost, k) && Stale(queue, cutoff) && Sorted(history)
    ensures Represents([], history, cutoff, lost, k)
  {
    var d := |history| - |queue|;
    if queue != [] {
      assert history[d..][|queue| - 1] == history[|history| - 1];
    }
  }

  lemma IncreasingGrown(times: seq<real>, x: real)
    requires Increasing(times, x)
    ensures Increasing(times + [x], x)
  {}

  lemma TimesOfAppend(log: seq<Admission>, a: Admission, client: Client)
    ensures TimesOf(log + [a], client) == TimesOf(log, client) + if a.client == client then [a.at] else []
  {
    assert (log + [a])[..|log|] == log;
  }

  /** What a decision counts: the trimmed queue against the whole history. */
  lemma Decides(queue: seq<real>, history: seq<real>, cutoff: real, lost: map<Client, real>, k: Client)
    requires Represents(queue, history, cutoff, lost, k)
    requires forall i :: 0 <= i < |queue| ==> queue[i] > cutoff
    ensures CountAfter(history, Since(cutoff, LossOf(lost, k))) <= |queue| <= CountAfter(history, cutoff)
    ensures k !in lost || lost[k] <= cutoff ==> |queue| == CountAfter(history, cutoff)
  {
    var d := |history| - |queue|;
    assert history == history[..d] + queue;
    CountConcat(history[..d], queue, cutoff);
    CountAll(queue, cutoff);
    var since := Since(cutoff, LossOf(lost, k));
    CountConcat(history[..d], queue, since);
    CountNone(history[..d], since);
    CountAtMost(queue, since);
    if k !in lost || lost[k] <= cutoff { CountNone(history[..d], cutoff); }
  }

  // ---- the whole table at once ----

  /** Everything the limiter keeps, as a value. */
  datatype Table = Table(events: map<Client, seq<real>>, log: seq<Admission>, lost: map<Client, real>, clock: real)

  /** A loss is past, and no entry of the queue is older. */
  predicate LossBefore(queue: seq<real>, lost: Option<real>, clock: real) {
    lost.Some? ==> lost.value <= clock && forall i :: 0 <= i < |queue| ==> queue[i] >= lost.value
  }

  ghost predicate HistoryOk(t: Table, window: real, k: Client) {
    && Increasing(TimesOf(t.log, k), t.clock)
    && LossBefore(Queue(t.events, k), LossOf(t.lost, k), t.clock)
    && Represents(Queue(t.events, k), TimesOf(t.log, k), t.clock - window, t.lost, k)
  }

  ghost predicate Histories(t: Table, window: real) {
    forall k :: HistoryOk(t, window, k)
  }

  lemma HistoriesLater(t: Table, window: real, now: real)
    requires Histories(t, window) && now >= t.clock
    ensures Histories(t.(clock := now), window)
  {
    forall k ensures HistoryOk(t.(clock := now), window, k) {
      assert HistoryOk(t, window, k);
      RepresentsLater(Queue(t.events, k), TimesOf(t.log, k), t.clock - window, now - window, t.lost, k);
    }
  }

  lemma HistoriesPurged(t: Table, window: real)
    requires Histories(t, window)
    ensures Histories(t.(events := Live(t.events, t.clock - window)), window)
  {
    var t' := t.(events := Live(t.events, t.clock - window));
    forall k ensures HistoryOk(t', window, k) {
      assert HistoryOk(t, window, k);
      if k !in t'.events { RepresentsStale(Queue(t.events, k), TimesOf(t.log, k), t.clock - window, t.lost, k); }
    }
  }

  lemma HistoriesEvicted(t: Table, window: real, client: Client)
    requires Histories(t, window) && client in t.events && t.events[client] != []
    ensures Histories(t.(events := t.events - {client}, lost := t.lost[client := Newest(t.events[client])]), window)
  {
    var t' := t.(events := t.events - {client}, lost := t.lost[client := Newest(t.events[client])]);
    forall k ensures HistoryOk(t', window, k) {
      assert HistoryOk(t, window, k);
      if k == client { RepresentsEvicted(t.events[k], TimesOf(t.log, k), t.clock - window, t.lost, k); }
    }
  }

  lemma HistoriesTrimmed(t: Table, window: real, client: Client, n: nat)
    requires Histories(t, window) && n <= |Queue(t.events, client)|
    requires forall i :: 0 <= i < n ==> Queue(t.events, client)[i] <= t.clock - window
    ensures Histories(t.(events := t.events[client := Queue(t.events, client)[n..]]), window)
  {
    var t' := t.(events := t.events[client := Queue(t.events, client)[n..]]);
    forall k ensures HistoryOk(t', window, k) {
      assert HistoryOk(t, window, k);
      if k == client {
        RepresentsTrimmed(Queue(t.events, k), n, TimesOf(t.log, k), t.clock - window, t.lost, k);
      }
    }
  }

  function Admitted(t: Table, client: Client): Table
    requires client in t.events
  {
    t.(events := t.events[client := t.events[client] + [t.clock]], log := t.log + [Admission(client, t.clock)])
  }

  lemma HistoriesAdmitted(t: Table, window: real, client: Client)
    requires Histories(t, window) && client in t.events
    ensures Histories(Admitted(t, client), window)
  {
    forall k ensures HistoryOk(Admitted(t, client), window, k) {
      assert HistoryOk(t, window, k);
      HistoryAdmitted(t, window, client, k);
    }
  }

  lemma HistoryAdmitted(t: Table, window: real, client: Client, k: Client)
    requires HistoryOk(t, window, k) && client in t.events
    ensures HistoryOk(Admitted(t, client), window, k)
  {
    hide Sorted, TimesOf, Represents;
    TimesOfAppend(t.log, Admission(client, t.clock), k);
    var times := TimesOf(t.log, k);
    if k == client {
      IncreasingGrown(times, t.clock);
      RepresentsGrown(t.events[k], times, t.clock, t.clock - window, t.lost, k);
    } else {
      assert times + [] == times;
    }
  }

  ghost predicate PacedFor(log: seq<Admission>, lost: map<Client, real>, requests: nat, window: real, k: Client) {
    Paced(TimesOf(log, k), requests, window, LossOf(lost, k))
  }

  ghost predicate AllPaced(log: seq<Admission>, lost: map<Client, real>, requests: nat, window: real) {
    forall k :: PacedFor(log, lost, requests, window, k)
  }

  lemma PacedAdmitted(
    log: seq<Admission>, lost: map<Client, real>, requests: nat, window: real, client: Client, now: real)
    requires AllPaced(log, lost, requests, window)
    requires CountAfter(TimesOf(log, client), Since(now - window, LossOf(lost, client))) < requests
    ensures AllPaced(log + [Admission(client, now)], lost, requests, window)
  {
    forall k ensures PacedFor(log + [Admission(client, now)], lost, requests, window, k) {
      assert PacedFor(log, lost, requests, window, k);
      TimesOfAppend(log, Admission(client, now), k);
      var times := TimesOf(log, k);
      assert (times + [now])[..|times|] == times && times + [] == times;
    }
  }

  lemma LiveSmaller(events: map<Client, seq<real>>, cutoff: real)
    ensures Live(events, cutoff).Keys <= events.Keys && |Live(events, cutoff)| <= |events|
  {
    SubsetSize(Live(events, cutoff).Keys, events.Keys);
    assert |Live(events, cutoff).Keys| == |Live(events, cutoff)| && |events.Keys| == |events|;
  }

  /** The clients left after a purge: those last admitted after the cutoff. */
  lemma LiveIff(events: map<Client, seq<real>>, cutoff: real)
    ensures forall k :: k in Live(events, cutoff) <==>
              k in events && events[k] != [] && events[k][|events[k]| - 1] > cutoff
    ensures forall k :: k in Live(events, cutoff) ==> Live(events, cutoff)[k] == events[k]
  {}

  /** A client whose queue is not stale has an admission after the cutoff in the log. */
  lemma LiveInLog(t: Table, window: real, k: Client, cutoff: real)
    requires HistoryOk(t, window, k) && k in t.events && !Stale(t.events[k], cutoff)
    ensures CountAfter(TimesOf(t.log, k), cutoff) >= 1
  {
    var queue, history := t.events[k], TimesOf(t.log, k);
    assert history[|history| - |queue|..][|queue| - 1] == history[|history| - 1];
  }

  /** So a history is only forced out while every client in the table has an admission in the window. */
  lemma ForcedOutOfLog(
    t: Table, order: seq<Client>, limits: Limits, client: Client, now: real, lost: map<Client, real>)
    requires Faithful(t, limits) && ForcedOut(t, order, limits, client, now, lost)
    ensures forall k :: k in t.events ==> CountAfter(TimesOf(t.log, k), now - limits.window) >= 1
  {
    forall k | k in t.events ensures CountAfter(TimesOf(t.log, k), now - limits.window) >= 1 {
      assert HistoryOk(t, limits.window, k);
      LiveInLog(t, limits.window, k, now - limits.window);
    }
  }

  lemma NothingPurged(events: map<Client, seq<real>>, cutoff: real)
    requires |Live(events, cutoff)| >= |events|
    ensures Live(events, cutoff) == events && forall k :: k in events ==> !Stale(events[k], cutoff)
  {
    var live := Live(events, cutoff);
    assert |live.Keys| == |live| && |events.Keys| == |events|;
    SameKeys(live.Keys, events.Keys);
  }

  lemma InsertKey(events: map<Client, seq<real>>, client: Client, queue: seq<real>)
    ensures events[client := queue].Keys == events.Keys + {client}
    ensures |events[client := queue]| == |events| + if client in events then 0 else 1
  {
    var e' := events[client := queue];
    assert e'.Keys == events.Keys + {client};
    assert |e'.Keys| == |e'| && |events.Keys| == |events|;
  }

  lemma SameKeys(fewer: set<Client>, keys: set<Client>)
    requires fewer <= keys && |fewer| >= |keys|
    ensures fewer == keys
  {
    if k :| k in keys && k !in fewer {
      assert fewer <= keys - {k};
      SubsetSize(fewer, keys - {k});
    }
  }

  lemma {:induction false} SubsetSize(a: set<Client>, b: set<Client>)
    requires a <= b
    ensures |a| <= |b|
  {
    if k :| k in a {
      SubsetSize(a - {k}, b - {k});
    }
  }

  /** The queue of a sorted history has nothing stale left once its head is not. */
  lemma QueueIncreasing(queue: seq<real>, history: seq<real>, cutoff: real)
    requires |queue| <= |history| && history[|history| - |queue|..] == queue && Sorted(history)
    requires queue != [] ==> queue[0] > cutoff
    ensures forall i :: 0 <= i < |queue| ==> queue[i] > cutoff
  {
    var d := |history| - |queue|;
    forall i | 0 <= i < |queue| ensures queue[i] > cutoff {
      assert queue[i] == history[d + i] && queue[0] == history[d];
    }
  }

  lemma KeepsAll(events: map<Client, seq<real>>, order: seq<Client>, limits: Limits)
    requires Shape(events, order, limits)
    ensures Keep(order, events.Keys) == order
  {
    KeepAll(order, events.Keys);
  }

  lemma AllButStale(events: map<Client, seq<real>>, cutoff: real, stale: set<Client>)
    requires stale == set k | k in events && Stale(events[k], cutoff)
    ensures events - stale == Live(events, cutoff)
  {}

  lemma RemoveOne(events: map<Client, seq<real>>, all: set<Client>, stale: set<Client>, client: Client)
    requires stale <= all && client in stale
    ensures events - (all - stale) - {client} == events - (all - (stale - {client}))
    ensures |stale - {client}| < |stale|
  {
    assert (all - stale) + {client} == all - (stale - {client});
  }

  function Newest(queue: seq<real>): real
    requires queue != []
  {
    queue[|queue| - 1]
  }

  datatype Limits = Limits(requests: nat, window: real, maxClients: nat)

  /** No queue is over the limit, and none is empty unless the limit admits nothing. */
  ghost predicate QueuesOk(events: map<Client, seq<real>>, requests: nat) {
    forall k :: k in events ==> |events[k]| <= requests && (requests >= 1 ==> events[k] != [])
  }

  /** The table is in order and within its bounds. */
  ghost predicate Shape(events: map<Client, seq<real>>, order: seq<Client>, limits: Limits) {
    && Orders(order, events.Keys) && |events| <= limits.maxClients && QueuesOk(events, limits.requests)
  }

  /** The queues say what the log says, and the log is paced. */
  ghost predicate Faithful(t: Table, limits: Limits) {
    Histories(t, limits.window) && AllPaced(t.log, t.lost, limits.requests, limits.window)
  }

  /**
    When a history may be dropped though it is live: for a new client, in a full table
    where every client has an admission in the window; the one longest in the table goes.
   */
  ghost predicate ForcedOut(
    t: Table, order: seq<Client>, limits: Limits, client: Client, now: real, lost: map<Client, real>)
  {
    && client !in t.events && |t.events| == limits.maxClients && order != [] && order[0] in t.events
    && (forall k :: k in t.events ==> !Stale(t.events[k], now - limits.window))
    && lost == t.lost[order[0] := Newest(t.events[order[0]])]
  }

  function Evicted(t: Table, client: Client): Table
    requires client in t.events && t.events[client] != []
  {
    t.(events := t.events - {client}, lost := t.lost[client := Newest(t.events[client])])
  }

  /** The table after purging, at the time of a call. */
  function Purged(t: Table, limits: Limits, now: real): Table {
    t.(clock := now, events := Live(t.events, now - limits.window))
  }

  /** The limiter's whole state: the table and the order of its keys. */
  datatype Store = Store(table: Table, order: seq<Client>)

  /** Room for a client: nothing if there is some; else without the stale clients; else also without the oldest. */
  ghost function WithRoom(s: Store, limits: Limits, client: Client, now: real): Store {
    if client in s.table.events || |s.table.events| < limits.maxClients then s.(table := s.table.(clock := now))
    else
      var t := Purged(s.table, limits, now);
      var order := Keep(s.order, t.events.Keys);
      if |t.events| < limits.maxClients || order == [] || order[0] !in t.events || t.events[order[0]] == []
      then Store(t, order)
      else Store(Evicted(t, order[0]), order[1..])
  }

  /** A queue without the expired entries at its front. */
  function Unexpired(queue: seq<real>, cutoff: real): seq<real> {
    if queue != [] && queue[0] <= cutoff then Unexpired(queue[1..], cutoff) else queue
  }

  /** The state a decision leaves. */
  ghost function AfterAllow(s: Store, limits: Limits, client: Client, now: real): Store {
    var roomy := WithRoom(s, limits, client, now);
    var events := roomy.table.events;
    Store(Decided(roomy.table, limits, client, Unexpired(Queue(events, client), now - limits.window)),
          if client in events then roomy.order else roomy.order + [client])
  }

  lemma PurgedShape(events: map<Client, seq<real>>, order: seq<Client>, limits: Limits, cutoff: real)
    requires Shape(events, order, limits)
    ensures var live := Live(events, cutoff);
            Shape(live, Keep(order, live.Keys), limits)
            && live.Keys <= events.Keys && |events| <= limits.maxClients
            && (|live| >= |events| ==>
                 && live == events && Keep(order, live.Keys) == order
                 && forall k :: k in events ==> !Stale(events[k], cutoff))
  {
    var live := Live(events, cutoff);
    LiveSmaller(events, cutoff);
    KeptOrder(order, events.Keys, live.Keys);
    if |live| >= |events| {
      NothingPurged(events, cutoff);
      KeepAll(order, live.Keys);
    }
  }

  lemma PurgedFaithful(t: Table, limits: Limits, now: real)
    requires Faithful(t, limits) && now >= t.clock
    ensures Faithful(t.(clock := now), limits) && Faithful(Purged(t, limits, now), limits)
  {
    HistoriesLater(t, limits.window, now);
    HistoriesPurged(t.(clock := now), limits.window);
  }

  lemma EvictedShape(events: map<Client, seq<real>>, order: seq<Client>, limits: Limits)
    requires Shape(events, order, limits) && events != map[]
    ensures order != [] && order[0] in events
    ensures Shape(events - {order[0]}, order[1..], limits) && |events - {order[0]}| == |events| - 1
  {
    assert |events.Keys| == |events|;
    var fewer := events - {order[0]};
    assert fewer.Keys == events.Keys - {order[0]};
    assert |fewer.Keys| == |fewer|;
  }

  lemma EvictedFaithful(t: Table, limits: Limits, client: Client)
    requires Faithful(t, limits) && client in t.events && t.events[client] != []
    ensures Faithful(Evicted(t, client), limits)
  {
    HistoriesEvicted(t, limits.window, client);
    var e := Evicted(t, client);
    forall k ensures PacedFor(e.log, e.lost, limits.requests, limits.window, k) {
      assert PacedFor(t.log, t.lost, limits.requests, limits.window, k);
      if k == client {
        assert HistoryOk(t, limits.window, k);
        PacedLater(
          TimesOf(t.log, k), limits.requests, limits.window, LossOf(t.lost, k), Newest(t.events[k]));
      }
    }
  }

  /** The decision on a client's trimmed queue, and the table it leaves. */
  function Decided(t: Table, limits: Limits, client: Client, trimmed: seq<real>): Table {
    var t' := t.(events := t.events[client := trimmed]);
    if |trimmed| < limits.requests then Admitted(t', client) else t'
  }

  lemma InsertedShape(
    events: map<Client, seq<real>>, order: seq<Client>, limits: Limits, client: Client, queue: seq<real>)
    requires Shape(events, order, limits) && (client in events || |events| < limits.maxClients)
    requires |queue| <= limits.requests && (limits.requests >= 1 ==> queue != [])
    ensures Shape(events[client := queue], if client in events then order else order + [client], limits)
  {
    InsertKey(events, client, queue);
    if client !in events { MembersAppend(order, client); } else { assert events.Keys + {client} == events.Keys; }
  }

  lemma Overwritten(events: map<Client, seq<real>>, client: Client, a: seq<real>, b: seq<real>)
    ensures events[client := a][client := b] == events[client := b]
  {}

  lemma DecidedParts(t: Table, limits: Limits, client: Client, trimmed: seq<real>)
    ensures var d := Decided(t, limits, client, trimmed);
            && d.lost == t.lost && d.clock == t.clock
            && d.events == (if |trimmed| < limits.requests
                            then t.events[client := trimmed][client := trimmed + [t.clock]]
                            else t.events[client := trimmed])
            && d.log == t.log + (if |trimmed| < limits.requests then [Admission(client, t.clock)] else [])
  {}

  /** What is left of a queue after trimming decides as the whole history would. */
  lemma TrimmedFaithful(t: Table, limits: Limits, client: Client, n: nat)
    requires Faithful(t, limits)
    requires n <= |Queue(t.events, client)|
    requires forall i :: 0 <= i < n ==> Queue(t.events, client)[i] <= t.clock - limits.window
    requires n < |Queue(t.events, client)| ==> Queue(t.events, client)[n] > t.clock - limits.window
    ensures var trimmed := Queue(t.events, client)[n..];
            var count := CountAfter(TimesOf(t.log, client), t.clock - limits.window);
            && Faithful(t.(events := t.events[client := trimmed]), limits)
            && |trimmed| <= count
            && CountAfter(TimesOf(t.log, client), Since(t.clock - limits.window, LossOf(t.lost, client))) <= |trimmed|
            && (client !in t.lost || t.lost[client] <= t.clock - limits.window ==> |trimmed| == count)
  {
    var trimmed := Queue(t.events, client)[n..];
    var t' := t.(events := t.events[client := trimmed]);
    HistoriesTrimmed(t, limits.window, client, n);
    assert HistoryOk(t', limits.window, client);
    QueueIncreasing(trimmed, TimesOf(t.log, client), t.clock - limits.window);
    Decides(trimmed, TimesOf(t.log, client), t.clock - limits.window, t.lost, client);
  }

  lemma AdmittedFaithful(t: Table, limits: Limits, client: Client)
    requires Faithful(t, limits) && client in t.events
    requires CountAfter(TimesOf(t.log, client), Since(t.clock - limits.window, LossOf(t.lost, client)))
               < limits.requests
    ensures Faithful(Admitted(t, client), limits)
  {
    hide CountAfter, TimesOf, Since, LossOf, PacedFor, HistoryOk;
    HistoriesAdmitted(t, limits.window, client);
    PacedAdmitted(t.log, t.lost, limits.requests, limits.window, client, t.clock);
  }

  lemma DecidedShape(t: Table, order: seq<Client>, limits: Limits, client: Client, trimmed: seq<real>)
    requires Shape(t.events, order, limits) && (client in t.events || |t.events| < limits.maxClients)
    requires |trimmed| <= |Queue(t.events, client)|
    ensures var order' := if client in t.events then order else order + [client];
            Shape(Decided(t, limits, client, trimmed).events, order', limits)
  {
    Overwritten(t.events, client, trimmed, trimmed + [t.clock]);
    var queue := if |trimmed| < limits.requests then trimmed + [t.clock] else trimmed;
    InsertedShape(t.events, order, limits, client, queue);
  }

  lemma DecidedFaithful(t: Table, limits: Limits, client: Client, n: nat)
    requires Faithful(t, limits)
    requires n <= |Queue(t.events, client)|
    requires forall i :: 0 <= i < n ==> Queue(t.events, client)[i] <= t.clock - limits.window
    requires n < |Queue(t.events, client)| ==> Queue(t.events, client)[n] > t.clock - limits.window
    ensures Faithful(Decided(t, limits, client, Queue(t.events, client)[n..]), limits)
  {
    TrimmedFaithful(t, limits, client, n);
    var trimmed := Queue(t.events, client)[n..];
    if |trimmed| < limits.requests {
      AdmittedFaithful(t.(events := t.events[client := trimmed]), limits, client);
    }
  }

  /**
    In a faithful table, a client was admitted at most `requests` times in any half-open
    interval of window length that starts no earlier than the newest admission it lost to
    a forced eviction; over all time, if it lost none.
   */
  lemma WindowHolds(t: Table, limits: Limits, client: Client, from: real)
    requires Faithful(t, limits) && (client in t.lost ==> from >= t.lost[client])
    ensures CountBetween(TimesOf(t.log, client), from, from + limits.window) <= limits.requests
  {
    assert PacedFor(t.log, t.lost, limits.requests, limits.window, client);
    IntervalBound(
      TimesOf(t.log, client), limits.requests, limits.window, LossOf(t.lost, client), from);
  }

  // ---- a client that lost its history ----

  /** The state after some calls, all at time zero. */
  ghost function Calls(limits: Limits, clients: seq<Client>): Store {
    if clients == [] then Store(Table(map[], [], map[], 0.0), [])
    else AfterAllow(Calls(limits, clients[..|clients| - 1]), limits, clients[|clients| - 1], 0.0)
  }

  lemma OneMoreCall(limits: Limits, clients: seq<Client>, c: Client)
    ensures Calls(limits, clients + [c]) == AfterAllow(Calls(limits, clients), limits, c, 0.0)
  {
    assert (clients + [c])[..|clients|] == clients;
  }

  function Victim(): Client {
    Client("")
  }

  function Other(m: nat): Client {
    Client(seq(m + 1, _ => 'a'))
  }

  lemma OthersDiffer(m: nat, n: nat)
    ensures Other(m) != Victim() && (Other(m) == Other(n) ==> m == n)
  {
    assert |Other(m).address| == m + 1 && |Other(n).address| == n + 1;
  }

  function Zeros(n: nat): seq<real> {
    seq(n, _ => 0.0)
  }

  /** The state after the first client's first calls. */
  ghost predicate VictimAlone(s: Store, i: nat) {
    && s.order == [Victim()] && s.table.events == map[Victim() := Zeros(i)] && s.table.clock == 0.0
    && TimesOf(s.table.log, Victim()) == Zeros(i)
  }

  lemma FirstCall(limits: Limits)
    requires limits.window > 0.0 && limits.maxClients >= 1 && limits.requests >= 1
    ensures VictimAlone(Calls(limits, [Victim()]), 1)
  {
    var s := Calls(limits, []);
    OneMoreCall(limits, [], Victim());
    assert [] + [Victim()] == [Victim()];
    assert |s.table.events| == 0;
    NewAdmitted(s, limits, Victim());
    hide AfterAllow;
    TimesOfAppend(s.table.log, Admission(Victim(), 0.0), Victim());
    assert Zeros(1) == [0.0];
    assert s.table.events[Victim() := [0.0]] == map[Victim() := Zeros(1)];
    assert s.order + [Victim()] == [Victim()];
    assert TimesOf(s.table.log, Victim()) + [0.0] == [0.0];
  }

  lemma NextCall(s: Store, limits: Limits, i: nat)
    requires limits.window > 0.0 && 1 <= i < limits.requests && VictimAlone(s, i)
    ensures VictimAlone(AfterAllow(s, limits, Victim(), 0.0), i + 1)
  {
    assert WithRoom(s, limits, Victim(), 0.0) == s;
    var queue := Zeros(i);
    assert Queue(s.table.events, Victim()) == queue && Unexpired(queue, 0.0 - limits.window) == queue;
    DecidedParts(s.table, limits, Victim(), queue);
    hide Decided;
    TimesOfAppend(s.table.log, Admission(Victim(), 0.0), Victim());
    assert Zeros(i + 1) == queue + [0.0];
    Overwritten(s.table.events, Victim(), queue, queue + [0.0]);
    assert s.table.events[Victim() := queue + [0.0]] == map[Victim() := Zeros(i + 1)];
  }

  /** The first client's calls, up to its limit. */
  lemma {:induction false} VictimCalls(limits: Limits, i: nat) returns (clients: seq<Client>)
    requires limits.window > 0.0 && limits.maxClients >= 1 && 1 <= i <= limits.requests
    ensures VictimAlone(Calls(limits, clients), i)
  {
    hide VictimAlone, AfterAllow, Calls;
    if i == 1 {
      clients := [Victim()];
      FirstCall(limits);
    } else {
      clients := VictimCalls(limits, i - 1);
      NextCall(Calls(limits, clients), limits, i - 1);
      OneMoreCall(limits, clients, Victim());
      clients := clients + [Victim()];
    }
  }

  /** Every client in the table has an admission now. */
  ghost predicate AllNow(events: map<Client, seq<real>>) {
    forall k :: k in events ==> events[k] != [] && Newest(events[k]) == 0.0
  }

  /** A new client, if there is room. */
  lemma NewAdmitted(s: Store, limits: Limits, c: Client)
    requires Shape(s.table.events, s.order, limits) && AllNow(s.table.events) && s.table.clock == 0.0
    requires c !in s.table.events && |s.table.events| < limits.maxClients && limits.requests >= 1
    ensures var s' := AfterAllow(s, limits, c, 0.0);
            && s'.table.events == s.table.events[c := [0.0]] && s'.order == s.order + [c] && s'.table.clock == 0.0
            && s'.table.log == s.table.log + [Admission(c, 0.0)]
            && Shape(s'.table.events, s'.order, limits) && AllNow(s'.table.events)
  {
    assert WithRoom(s, limits, c, 0.0) == s;
    assert Unexpired([], 0.0 - limits.window) == [];
    DecidedParts(s.table, limits, c, []);
    DecidedShape(s.table, s.order, limits, c, []);
    hide Shape, Decided;
    assert [] + [0.0] == [0.0];
    Overwritten(s.table.events, c, [], [0.0]);
  }

  lemma NoneStale(s: Store, limits: Limits)
    requires Shape(s.table.events, s.order, limits) && AllNow(s.table.events) && limits.window > 0.0
    ensures Live(s.table.events, 0.0 - limits.window) == s.table.events && Keep(s.order, s.table.events.Keys) == s.order
  {
    KeepsAll(s.table.events, s.order, limits);
  }

  /** A new client, if there is none: the oldest goes, whenever it was last admitted. */
  lemma OldestGoes(s: Store, limits: Limits, c: Client)
    requires Shape(s.table.events, s.order, limits) && AllNow(s.table.events) && s.table.clock == 0.0
    requires c !in s.table.events && |s.table.events| == limits.maxClients >= 1
    requires limits.requests >= 1 && limits.window > 0.0
    ensures s.order != [] && s.order[0] in s.table.events
    ensures var s' := AfterAllow(s, limits, c, 0.0);
            && s'.table.events == (s.table.events - {s.order[0]})[c := [0.0]] && s'.table.clock == 0.0
            && s'.table.log == s.table.log + [Admission(c, 0.0)]
            && Shape(s'.table.events, s'.order, limits) && AllNow(s'.table.events)
            && |s'.table.events| == limits.maxClients
  {
    NoneStale(s, limits);
    EvictedShape(s.table.events, s.order, limits);
    var roomy := Store(Evicted(s.table, s.order[0]), s.order[1..]);
    assert Purged(s.table, limits, 0.0) == s.table;
    assert WithRoom(s, limits, c, 0.0) == roomy;
    assert WithRoom(roomy, limits, c, 0.0) == roomy;
    NewAdmitted(roomy, limits, c);
    hide Shape, Decided;
    InsertKey(roomy.table.events, c, [0.0]);
  }

  /** Other clients fill the table behind the first one. */
  ghost predicate Filled(s: Store, limits: Limits, j: nat) {
    && Shape(s.table.events, s.order, limits) && AllNow(s.table.events) && s.table.clock == 0.0
    && |s.table.events| == j && s.order != [] && s.order[0] == Victim()
    && (forall m: nat :: m >= j ==> Other(m) !in s.table.events)
    && TimesOf(s.table.log, Victim()) == Zeros(limits.requests)
  }

  lemma {:induction false} FillUp(limits: Limits, j: nat) returns (clients: seq<Client>)
    requires limits.window > 0.0 && limits.requests >= 1 && 1 <= j <= limits.maxClients
    ensures Filled(Calls(limits, clients), limits, j)
  {
    if j == 1 {
      clients := VictimCalls(limits, limits.requests);
      FilledByOne(Calls(limits, clients), limits);
    } else {
      clients := FillUp(limits, j - 1);
      var s := Calls(limits, clients);
      OneMoreCall(limits, clients, Other(j - 1));
      clients := clients + [Other(j - 1)];
      FilledByNext(s, limits, j);
    }
  }

  lemma FilledByOne(s: Store, limits: Limits)
    requires limits.maxClients >= 1 && limits.requests >= 1
    requires s.order == [Victim()] && s.table.events == map[Victim() := Zeros(limits.requests)] && s.table.clock == 0.0
    requires TimesOf(s.table.log, Victim()) == Zeros(limits.requests)
    ensures Filled(s, limits, 1)
  {
    assert s.table.events.Keys == {Victim()};
    assert |s.table.events| == |s.table.events.Keys| == 1;
    assert Members([Victim()]) == {Victim()} + Members([]);
    forall m: nat ensures Other(m) !in s.table.events {
      OthersDiffer(m, m);
    }
  }

  lemma FilledByNext(s: Store, limits: Limits, j: nat)
    requires 2 <= j <= limits.maxClients && limits.requests >= 1 && Filled(s, limits, j - 1)
    ensures Filled(AfterAllow(s, limits, Other(j - 1), 0.0), limits, j)
  {
    var c := Other(j - 1);
    NewAdmitted(s, limits, c);
    hide AfterAllow, Shape;
    OthersDiffer(j - 1, 0);
    InsertKey(s.table.events, c, [0.0]);
    TimesOfAppend(s.table.log, Admission(c, 0.0), Victim());
    assert Zeros(limits.requests) + [] == Zeros(limits.requests);
    forall m: nat | m >= j ensures Other(m) !in s.table.events[c := [0.0]] {
      OthersDiffer(m, j - 1);
    }
  }

  /** A full table without the first client, which was admitted up to its limit. */
  ghost predicate ForcedAway(s: Store, limits: Limits) {
    && Shape(s.table.events, s.order, limits) && AllNow(s.table.events) && s.table.clock == 0.0
    && |s.table.events| == limits.maxClients && Victim() !in s.table.events
    && TimesOf(s.table.log, Victim()) == Zeros(limits.requests)
  }

  lemma VictimForcedAway(s: Store, limits: Limits)
    requires limits.window > 0.0 && limits.requests >= 1 && limits.maxClients >= 1
    requires Filled(s, limits, limits.maxClients)
    ensures ForcedAway(AfterAllow(s, limits, Other(limits.maxClients), 0.0), limits)
  {
    var c := Other(limits.maxClients);
    OthersDiffer(limits.maxClients, 0);
    OldestGoes(s, limits, c);
    hide AfterAllow, Shape;
    TimesOfAppend(s.table.log, Admission(c, 0.0), Victim());
    assert Zeros(limits.requests) + [] == Zeros(limits.requests);
  }

  lemma OneMoreZero(n: nat)
    ensures Zeros(n) + [0.0] == Zeros(n + 1)
  {}

  lemma VictimBack(s: Store, limits: Limits)
    requires limits.window > 0.0 && limits.requests >= 1 && limits.maxClients >= 1
    requires ForcedAway(s, limits)
    ensures TimesOf(AfterAllow(s, limits, Victim(), 0.0).table.log, Victim()) == Zeros(limits.requests + 1)
  {
    hide AfterAllow, Shape, TimesOf, AllNow;
    OldestGoes(s, limits, Victim());
    TimesOfAppend(s.table.log, Admission(Victim(), 0.0), Victim());
    OneMoreZero(limits.requests);
  }

  /**
    So the exclusion is needed: under any limits there are calls, all at one time, that
    admit a client once more than its limit, after others forced it out.
   */
  lemma EvictedClientExceeds(limits: Limits) returns (clients: seq<Client>)
    requires limits.window > 0.0 && limits.requests >= 1 && limits.maxClients >= 1
    ensures CountBetween(TimesOf(Calls(limits, clients).table.log, Victim()), 0.0 - limits.window, 0.0)
            == limits.requests + 1
  {
    hide AfterAllow, Calls, Filled, ForcedAway;
    clients := FillUp(limits, limits.maxClients);
    VictimForcedAway(Calls(limits, clients), limits);
    OneMoreCall(limits, clients, Other(limits.maxClients));
    clients := clients + [Other(limits.maxClients)];
    VictimBack(Calls(limits, clients), limits);
    OneMoreCall(limits, clients, Victim());
    clients := clients + [Victim()];
    AllCounted(limits.requests + 1, 0.0 - limits.window);
  }

  lemma {:induction false} AllCounted(n: nat, from: real)
    requires from < 0.0
    ensures CountBetween(Zeros(n), from, 0.0) == n
  {
    if n > 0 {
      assert Zeros(n)[..n - 1] == Zeros(n - 1);
      AllCounted(n - 1, from);
    }
  }

  datatype LimiterError = NoClientToForget

  lemma NoClients(events: map<Client, seq<real>>, order: seq<Client>, limits: Limits)
    requires Shape(events, order, limits)
    ensures limits.maxClients == 0 ==> events == map[]
    ensures limits.maxClients > 0 && |events| >= limits.maxClients ==> events != map[]
  {
    assert |events| == 0 ==> events == map[];
  }

  /** After a purge no queue is empty. */
  lemma AllFull(events: map<Client, seq<real>>, cutoff: real)
    requires forall k :: k in events ==> !Stale(events[k], cutoff)
    ensures forall k :: k in events ==> events[k] != []
  {}

  class InMemoryRateLimiter {
    const requests: nat
    const window: real
    const maxClients: nat
    var events: map<Client, seq<real>>
    /** The keys of `events` in dictionary order. */
    var order: seq<Client>

    /** Every admission, the newest one each client lost to a forced eviction, and the latest call's time. */
    ghost var log: seq<Admission>
    ghost var lost: map<Client, real>
    ghost var clock: real

    ghost function Contents(): Table
      reads this
    {
      Table(events, log, lost, clock)
    }

    function Bounds(): Limits {
      Limits(requests, window, maxClients)
    }

    ghost predicate Valid()
      reads this
    {
      Shape(events, order, Bounds()) && Faithful(Contents(), Bounds())
    }

    constructor (requests: nat, window: real, maxClients: nat, ghost start: real)
      ensures Valid() && Contents() == Table(map[], [], map[], start)
      ensures this.requests == requests && this.window == window && this.maxClients == maxClients
    {
      this.requests, this.window, this.maxClients := requests, window, maxClients;
      events, order, log, lost, clock := map[], [], [], map[], start;
    }

    /** Drops the clients whose last admission is at or before the cutoff. */
    method PurgeStale(cutoff: real)
      requires Shape(events, order, Bounds())
      modifies this`events, this`order
      ensures forall k :: k in events <==>
                k in old(events) && old(events)[k] != [] && old(events)[k][|old(events)[k]| - 1] > cutoff
      ensures forall k :: k in events ==> events[k] == old(events)[k]
      ensures events == Live(old(events), cutoff)
      ensures order == Keep(old(order), events.Keys)
    {
      LiveIff(events, cutoff);
      hide Shape, Keep, Live, Stale;
      var stale := set k | k in events && Stale(events[k], cutoff);
      ghost var all := stale;
      KeepsAll(events, order, Bounds());
      AllButStale(events, cutoff, all);
      while stale != {}
        invariant stale <= all
        invariant events == old(events) - (all - stale)
        invariant order == Keep(old(order), events.Keys)
        decreases |stale|
      {
        var client :| client in stale;
        ghost var keys := events.Keys;
        RemoveOne(old(events), all, stale, client);
        stale := stale - {client};
        events := events - {client};
        order := Keep(order, events.Keys);
        KeepTwice(old(order), keys, events.Keys);
      }
    }

    /**
      Room for a client: when the table is full and it is new, stale clients go, and only
      if there are none the longest-standing one does. A table for no clients at all has
      none to forget, which raises.
     */
    method MakeRoom(client: Client, now: real) returns (raised: bool)
      requires Valid() && now >= clock
      modifies this`events, this`order, this`lost, this`clock
      ensures Valid() && clock == now && (raised <==> maxClients == 0)
      ensures !raised ==> client in events || |events| < maxClients
      ensures Queue(events, client) == Queue(old(events), client)
      ensures lost == old(lost) || ForcedOut(old(Contents()), old(order), Bounds(), client, now, lost)
      ensures lost != old(lost) ==>
                forall k :: k in old(events) ==> CountAfter(TimesOf(old(log), k), now - window) >= 1
      ensures client in old(lost) <==> client in lost
      ensures client in lost ==> lost[client] == old(lost)[client]
      ensures Store(Contents(), order) == WithRoom(old(Store(Contents(), order)), Bounds(), client, now)
    {
      hide Faithful, Shape, Live, Keep, Stale, TimesOf, CountAfter;
      ghost var t := Contents();
      PurgedFaithful(t, Bounds(), now);
      PurgedShape(events, order, Bounds(), now - window);
      clock := now;
      NoClients(events, order, Bounds());
      raised := false;
      if client !in events && |events| >= maxClients {
        PurgeStale(now - window);
        assert Contents() == Purged(t, Bounds(), now);
        NoClients(events, order, Bounds());
        if |events| >= maxClients {
          if events == map[] { return true; }
          AllFull(events, now - window);
          EvictOldest();
          ForcedOutOfLog(t, old(order), Bounds(), client, now, lost);
        }
      }
    }

    /** Forgets the client that has been in the table longest. */
    method EvictOldest()
      requires Valid() && events != map[] && forall k :: k in events ==> events[k] != []
      modifies this`events, this`order, this`lost
      ensures Valid() && |events| == |old(events)| - 1
      ensures old(order) != [] && old(order)[0] in old(events) && old(events)[old(order)[0]] != []
      ensures Contents() == Evicted(old(Contents()), old(order)[0]) && order == old(order)[1..]
    {
      EvictedShape(events, order, Bounds());
      EvictedFaithful(Contents(), Bounds(), order[0]);
      lost := lost[order[0] := Newest(events[order[0]])];
      events := events - {order[0]};
      order := order[1..];
    }

    /**
      A decision. It counts exactly the client's admissions in the window ending now,
      unless one of them was lost to a forced eviction; then it can only be too lenient.
     */
    method Allow(client: Client, now: real) returns (r: Result<bool, LimiterError>)
      requires Valid() && now >= clock
      modifies this
      ensures Valid() && clock == now && (r.Err? <==> maxClients == 0)
      ensures log == old(log) + if r == Ok(true) then [Admission(client, now)] else []
      ensures r.Ok? && (client !in old(lost) || old(lost)[client] <= now - window) ==>
                (r.value <==> CountAfter(TimesOf(old(log), client), now - window) < requests)
      ensures r.Ok? && CountAfter(TimesOf(old(log), client), now - window) < requests ==> r.value
      ensures lost == old(lost) || ForcedOut(old(Contents()), old(order), Bounds(), client, now, lost)
      ensures lost != old(lost) ==>
                forall k :: k in old(events) ==> CountAfter(TimesOf(old(log), k), now - window) >= 1
      ensures Store(Contents(), order)
              == if r.Ok? then AfterAllow(old(Store(Contents(), order)), Bounds(), client, now)
                 else WithRoom(old(Store(Contents(), order)), Bounds(), client, now)
    {
      hide Faithful, Shape, ForcedOut, TimesOf, CountAfter, Queue, WithRoom, Unexpired, Keep, Live, Stale, Decided;
      ghost var count := CountAfter(TimesOf(log, client), now - window);
      var raised := MakeRoom(client, now);
      if raised { return Err(NoClientToForget); }
      ghost var t := Contents();
      var queue := Queue(events, client);
      var trimmed := Trim(queue, now - window);
      TrimmedFaithful(t, Bounds(), client, |queue| - |trimmed|);
      assert |trimmed| <= count;
      DecidedFaithful(t, Bounds(), client, |queue| - |trimmed|);
      DecidedShape(t, order, Bounds(), client, trimmed);
      DecidedParts(t, Bounds(), client, trimmed);
      if client !in events { order := order + [client]; }
      events := events[client := trimmed];
      r := Ok(|trimmed| < requests);
      if r.value {
        log := log + [Admission(client, now)];
        events := events[client := trimmed + [now]];
      }
      assert Contents() == Decided(t, Bounds(), client, trimmed);
    }
  }

  /** The loop that pops expired entries from the left of a queue. */
  method Trim(queue: seq<real>, cutoff: real) returns (trimmed: seq<real>)
    ensures |trimmed| <= |queue| && trimmed == queue[|queue| - |trimmed|..]
    ensures forall i :: 0 <= i < |queue| - |trimmed| ==> queue[i] <= cutoff
    ensures trimmed != [] ==> trimmed[0] > cutoff
    ensures trimmed == Unexpired(queue, cutoff)
  {
    trimmed := queue;
    while trimmed != [] && trimmed[0] <= cutoff
      invariant |trimmed| <= |queue| && trimmed == queue[|queue| - |trimmed|..]
      invariant forall i :: 0 <= i < |queue| - |trimmed| ==> queue[i] <= cutoff
      invariant Unexpired(trimmed, cutoff) == Unexpired(queue, cutoff)
      decreases |trimmed|
    {
      trimmed := trimmed[1..];
    }
  }
}
