/**
  One proxied playback: the byte streamer, the heartbeat task beside it, the stop event
  they share, and everything they do to the outside as one trace.
 */
module Playback {
  import opened Wrappers
  import opened Position

  const PING_INTERVAL := 10.0

  datatype Media = Media(total: Option<int>, start: int, durationMs: int)

  datatype Kind = Playing | Stopped

  /** What the outside sees: chunks read and yielded, the stop event, and timeline requests. */
  datatype Act =
    | Read(chunk: seq<char>)
    | Yield(chunk: seq<char>)
    | StopSet
    | Closed
    | Begin(kind: Kind, at: real, timeMs: int)
    | End(kind: Kind)

  datatype Streamer = Reading | Suspended | Stopping | Closing | Joining | Reporting | Finished

  datatype Heartbeat = None_ | Created | Sending | Sleeping(since: real) | Over

  datatype State = State(
    streamer: Streamer, heartbeat: Heartbeat, startedAt: Option<real>, stopped: bool, clock: real, trace: seq<Act>)

  /**
    `ReadEnds` is the end of the stream, a read timeout or any other failed read;
    `LoseChunk` is a read cancelled after the upstream delivered; `Close` is the consumer
    going away, at a yield or during a read.
   */
  datatype Event =
    | Tick(seconds: real)
    | ReadChunk(chunk: seq<char>)
    | LoseChunk(chunk: seq<char>)
    | ReadEnds
    | Resume
    | Close
    | SetStop
    | CloseUpstream
    | Join
    | StopReported
    | BeatStart
    | BeatSent
    | BeatWake
    | BeatTimeout

  function Opened(clock: real): State {
    State(Reading, None_, None, false, clock, [])
  }

  function Report(m: Media, s: State, kind: Kind, now: real): (r: Act)
    ensures r.Begin? && r.kind == kind && r.at == now
  {
    var startedAt := if s.startedAt.Some? then s.startedAt.value else now;
    Begin(kind, now, SentMs(PositionMs(m.total, m.start, m.durationMs, startedAt, now)))
  }

  function Acted(s: State, a: Act): State {
    s.(trace := s.trace + [a])
  }

  /** An event that cannot happen in a state leaves it unchanged. */
  function Apply(m: Media, s: State, e: Event): State {
    match e
    case Tick(seconds) => if seconds >= 0.0 then s.(clock := s.clock + seconds) else s
    case ReadChunk(chunk) =>
      if !s.streamer.Reading? || chunk == [] then s else
      var first := s.startedAt.None?;
      Acted(Acted(s, Read(chunk)), Yield(chunk))
        .(streamer := Suspended,
          startedAt := if first then Some(s.clock) else s.startedAt,
          heartbeat := if first then Created else s.heartbeat)
    case LoseChunk(chunk) => if s.streamer.Reading? then Acted(s, Read(chunk)).(streamer := Stopping) else s
    case ReadEnds => if s.streamer.Reading? then s.(streamer := Stopping) else s
    case Resume => if s.streamer.Suspended? then s.(streamer := Reading) else s
    case Close => if s.streamer.Suspended? || s.streamer.Reading? then s.(streamer := Stopping) else s
    case SetStop => if s.streamer.Stopping? then Acted(s, StopSet).(streamer := Closing, stopped := true) else s
    case CloseUpstream =>
      if s.streamer.Closing? then Acted(s, Closed).(streamer := if s.heartbeat.None_? then Finished else Joining) else s
    case Join =>
      if s.streamer.Joining? && s.heartbeat.Over? then Acted(s, Report(m, s, Stopped, s.clock)).(streamer := Reporting)
      else s
    case StopReported => if s.streamer.Reporting? then Acted(s, End(Stopped)).(streamer := Finished) else s
    case BeatStart =>
      if s.heartbeat.Created? && s.startedAt.Some?
      then Acted(s, Report(m, s, Playing, s.startedAt.value)).(heartbeat := Sending) else s
    case BeatSent =>
      if s.heartbeat.Sending? then Acted(s, End(Playing)).(heartbeat := if s.stopped then Over else Sleeping(s.clock))
      else s
    case BeatWake => if s.heartbeat.Sleeping? && s.stopped then s.(heartbeat := Over) else s
    case BeatTimeout =>
      if s.heartbeat.Sleeping? && s.clock >= s.heartbeat.since + PING_INTERVAL
      then Acted(s, Report(m, s, Playing, s.clock)).(heartbeat := Sending) else s
  }

  function Run(m: Media, clock: real, events: seq<Event>): State {
    if events == [] then Opened(clock) else Apply(m, Run(m, clock, events[..|events| - 1]), events[|events| - 1])
  }

  // ---- readings of a trace, from its last act backwards ----

  function Init(t: seq<Act>): seq<Act>
    requires t != []
  {
    t[..|t| - 1]
  }

  function Last(t: seq<Act>): Act
    requires t != []
  {
    t[|t| - 1]
  }

  /** The timeline requests made. */
  function Timeline(t: seq<Act>): (r: seq<Act>)
    ensures forall i :: 0 <= i < |r| ==> r[i].Begin?
  {
    if t == [] then [] else Timeline(Init(t)) + if Last(t).Begin? then [Last(t)] else []
  }

  /** The starts and ends of timeline requests. */
  function Requests(t: seq<Act>): seq<Act> {
    if t == [] then [] else Requests(Init(t)) + if Last(t).Begin? || Last(t).End? then [Last(t)] else []
  }

  function BytesRead(t: seq<Act>): seq<char> {
    if t == [] then [] else BytesRead(Init(t)) + if Last(t).Read? then Last(t).chunk else []
  }

  function BytesYielded(t: seq<Act>): seq<char> {
    if t == [] then [] else BytesYielded(Init(t)) + if Last(t).Yield? then Last(t).chunk else []
  }

  function PlaysAfterStop(t: seq<Act>): nat {
    if t == [] then 0
    else PlaysAfterStop(Init(t)) + if Last(t).Begin? && Last(t).kind == Playing && StopSet in Init(t) then 1 else 0
  }

  lemma Extend(t: seq<Act>, a: Act)
    ensures Init(t + [a]) == t && Last(t + [a]) == a
  {}

  // ---- the promises about a trace ----

  /** `playing` requests, and at most one `stopped`, which is last and not first. */
  predicate PlaysThenStop(timeline: seq<Act>) {
    forall i :: 0 <= i < |timeline| ==>
      timeline[i].Begin? && (timeline[i].kind == Stopped ==> 0 < i == |timeline| - 1)
  }

  /** Every request ends before the next begins. */
  predicate OneAtATime(requests: seq<Act>) {
    forall i :: 0 <= i < |requests| ==> InTurn(requests, i)
  }

  predicate InTurn(requests: seq<Act>, i: nat)
    requires i < |requests|
  {
    if i % 2 == 0 then requests[i].Begin?
    else requests[i].End? && requests[i - 1].Begin? && requests[i].kind == requests[i - 1].kind
  }

  /** Nothing is read or yielded after the upstream is closed, and `stopped` is only sent after that. */
  predicate ClosedInOrder(t: seq<Act>) {
    t != [] ==>
      ClosedInOrder(Init(t))
      && (Last(t).Read? || Last(t).Yield? || Last(t).Closed? ==> Closed !in Init(t))
      && (Last(t).Begin? && Last(t).kind == Stopped ==> Closed in Init(t))
  }

  /** Clock readings: the first is the start, `playing` ones are ten seconds apart, none goes back. */
  predicate Spaced(timeline: seq<Act>, startedAt: real) {
    && (forall i :: 0 <= i < |timeline| ==> timeline[i].Begin?)
    && (timeline != [] ==> timeline[0].at == startedAt)
    && (forall i :: 0 < i < |timeline| ==>
         timeline[i].at >= timeline[i - 1].at + if timeline[i].kind == Playing then PING_INTERVAL else 0.0)
  }

  predicate TimesReported(m: Media, timeline: seq<Act>, startedAt: real) {
    forall i :: 0 <= i < |timeline| ==>
      timeline[i].Begin?
      && timeline[i].timeMs == SentMs(PositionMs(m.total, m.start, m.durationMs, startedAt, timeline[i].at))
  }

  // ---- the invariant ----

  predicate AllPlaying(timeline: seq<Act>) {
    forall i :: 0 <= i < |timeline| ==> timeline[i].Begin? && timeline[i].kind == Playing
  }

  predicate EndsStopped(timeline: seq<Act>) {
    |timeline| >= 2 && timeline[|timeline| - 1].Begin? && timeline[|timeline| - 1].kind == Stopped
    && AllPlaying(timeline[..|timeline| - 1])
  }

  predicate Winding(s: Streamer) {
    s.Closing? || s.Joining? || s.Reporting? || s.Finished?
  }

  /** How the two tasks fit together. */
  predicate Coupled(s: State) {
    && (s.heartbeat.None_? <==> s.startedAt.None?)
    && (s.stopped <==> Winding(s.streamer))
    && (s.streamer.Joining? ==> !s.heartbeat.None_?)
    && (s.streamer.Reporting? ==> s.heartbeat.Over?)
    && (s.streamer.Finished? ==> s.heartbeat.Over? || s.heartbeat.None_?)
    && (s.heartbeat.Over? ==> s.stopped)
  }

  predicate TimelineInv(s: State) {
    var tl := Timeline(s.trace);
    && (s.heartbeat.None_? || s.heartbeat.Created? ==> tl == [])
    && (s.heartbeat.Sending? || s.heartbeat.Sleeping? || s.heartbeat.Over? ==> tl != [])
    && (if !s.heartbeat.None_? && (s.streamer.Reporting? || s.streamer.Finished?) then EndsStopped(tl)
        else AllPlaying(tl))
  }

  predicate RequestsInv(s: State) {
    var rq := Requests(s.trace);
    && OneAtATime(rq)
    && (if s.heartbeat.Sending? then |rq| % 2 == 1 && rq[|rq| - 1].Begin? && rq[|rq| - 1].kind == Playing
        else if s.streamer.Reporting? then |rq| % 2 == 1 && rq[|rq| - 1].Begin? && rq[|rq| - 1].kind == Stopped
        else |rq| % 2 == 0)
  }

  predicate BytesInv(s: State) {
    && BytesYielded(s.trace) <= BytesRead(s.trace)
    && (s.streamer.Reading? || s.streamer.Suspended? ==> BytesYielded(s.trace) == BytesRead(s.trace))
    && (BytesYielded(s.trace) == [] <==> s.startedAt.None?)
  }

  predicate StopInv(s: State) {
    && (StopSet in s.trace <==> s.stopped)
    && PlaysAfterStop(s.trace) <= 1
    && (PlaysAfterStop(s.trace) == 1 ==> s.stopped && (s.heartbeat.Sending? || s.heartbeat.Over?))
  }

  predicate CloseInv(s: State) {
    && ClosedInOrder(s.trace)
    && (Closed in s.trace <==> s.streamer.Joining? || s.streamer.Reporting? || s.streamer.Finished?)
  }

  predicate ClockInv(m: Media, s: State) {
    var tl := Timeline(s.trace);
    && (s.startedAt.Some? ==>
         s.startedAt.value <= s.clock && Spaced(tl, s.startedAt.value) && TimesReported(m, tl, s.startedAt.value))
    && (tl != [] ==> Last(tl).at <= s.clock)
    && (s.heartbeat.Sleeping? && tl != [] ==> Last(tl).at <= s.heartbeat.since)
  }

  predicate Inv(m: Media, s: State) {
    Coupled(s) && TimelineInv(s) && RequestsInv(s) && BytesInv(s) && StopInv(s) && CloseInv(s) && ClockInv(m, s)
  }

  lemma StepCoupled(m: Media, s: State, e: Event)
    requires Coupled(s)
    ensures Coupled(Apply(m, s, e))
  {}

  /** What a step adds to the trace. */
  function Added(m: Media, s: State, e: Event): seq<Act> {
    match e
    case ReadChunk(chunk) => if s.streamer.Reading? && chunk != [] then [Read(chunk), Yield(chunk)] else []
    case LoseChunk(chunk) => if s.streamer.Reading? then [Read(chunk)] else []
    case SetStop => if s.streamer.Stopping? then [StopSet] else []
    case CloseUpstream => if s.streamer.Closing? then [Closed] else []
    case Join => if s.streamer.Joining? && s.heartbeat.Over? then [Report(m, s, Stopped, s.clock)] else []
    case StopReported => if s.streamer.Reporting? then [End(Stopped)] else []
    case BeatStart =>
      if s.heartbeat.Created? && s.startedAt.Some? then [Report(m, s, Playing, s.startedAt.value)] else []
    case BeatSent => if s.heartbeat.Sending? then [End(Playing)] else []
    case BeatTimeout =>
      if s.heartbeat.Sleeping? && s.clock >= s.heartbeat.since + PING_INTERVAL
      then [Report(m, s, Playing, s.clock)] else []
    case _ => []
  }

  lemma Adds(m: Media, s: State, e: Event)
    ensures Apply(m, s, e).trace == s.trace + Added(m, s, e)
    ensures |Added(m, s, e)| <= 1 || (e.ReadChunk? && Added(m, s, e) == [Read(e.chunk), Yield(e.chunk)])
  {
    hide Report;
    assert s.trace + [] == s.trace;
    if e.ReadChunk? {
      assert s.trace + [Read(e.chunk)] + [Yield(e.chunk)] == s.trace + [Read(e.chunk), Yield(e.chunk)];
    }
  }

  /** What every reading of a trace makes of one more act. */
  predicate Reads(t: seq<Act>, a: Act) {
    && Timeline(t + [a]) == Timeline(t) + (if a.Begin? then [a] else [])
    && Requests(t + [a]) == Requests(t) + (if a.Begin? || a.End? then [a] else [])
    && BytesRead(t + [a]) == BytesRead(t) + (if a.Read? then a.chunk else [])
    && BytesYielded(t + [a]) == BytesYielded(t) + (if a.Yield? then a.chunk else [])
    && PlaysAfterStop(t + [a]) == PlaysAfterStop(t) + (if a.Begin? && a.kind == Playing && StopSet in t then 1 else 0)
    && (ClosedInOrder(t + [a]) <==>
        && ClosedInOrder(t)
        && (a.Read? || a.Yield? || a.Closed? ==> Closed !in t)
        && (a.Begin? && a.kind == Stopped ==> Closed in t))
    && (StopSet in t + [a] <==> StopSet in t || a.StopSet?)
    && (Closed in t + [a] <==> Closed in t || a.Closed?)
  }

  lemma ExtendReads(t: seq<Act>, a: Act)
    ensures Reads(t, a)
  {
    Extend(t, a);
  }

  lemma Grow(m: Media, s: State, e: Event)
    ensures var t, u, t' := s.trace, Added(m, s, e), Apply(m, s, e).trace;
            && (u == [] ==> t' == t)
            && (|u| == 1 ==> t' == t + [u[0]] && Reads(t, u[0]))
            && (|u| >= 2 ==> |u| == 2 && t' == t + [u[0]] + [u[1]] && Reads(t, u[0]) && Reads(t + [u[0]], u[1]))
  {
    Adds(m, s, e);
    hide Apply, Added, Reads;
    var t, u := s.trace, Added(m, s, e);
    if u == [] {
      assert t + u == t;
    } else if |u| == 1 {
      assert u == [u[0]];
      ExtendReads(t, u[0]);
    } else {
      assert t + u == t + [u[0]] + [u[1]];
      ExtendReads(t, u[0]);
      ExtendReads(t + [u[0]], u[1]);
    }
  }

  lemma TimelineGrows(m: Media, s: State, e: Event)
    ensures var u := Added(m, s, e);
            Timeline(Apply(m, s, e).trace) == Timeline(s.trace) + (if |u| == 1 && u[0].Begin? then [u[0]] else [])
    ensures |Added(m, s, e)| == 1 ==> Added(m, s, e) == [Added(m, s, e)[0]]
  {
    hide Timeline, Requests, BytesRead, BytesYielded, PlaysAfterStop, ClosedInOrder, Apply;
    Grow(m, s, e);
  }

  lemma StepTimeline(m: Media, s: State, e: Event)
    requires Coupled(s) && TimelineInv(s)
    ensures TimelineInv(Apply(m, s, e))
  {
    hide Timeline, Report;
    TimelineGrows(m, s, e);
    var u := Added(m, s, e);
    if |u| == 1 && u[0].Begin? {
      var tl := Timeline(s.trace);
      assert (tl + [u[0]])[..|tl|] == tl;
    }
  }

  lemma StepRequests(m: Media, s: State, e: Event)
    requires Coupled(s) && TimelineInv(s) && RequestsInv(s)
    ensures RequestsInv(Apply(m, s, e))
  {
    hide Timeline, Requests, BytesRead, BytesYielded, PlaysAfterStop, ClosedInOrder, Report, TimelineInv, OneAtATime;
    Grow(m, s, e);
    var u := Added(m, s, e);
    if |u| == 1 && (u[0].Begin? || u[0].End?) {
      var rq := Requests(s.trace);
      OneMore(rq, u[0]);
      assert (rq + [u[0]])[|rq|] == u[0];
      assert (|rq| + 1) % 2 == 1 - |rq| % 2;
      assert Requests(Apply(m, s, e).trace) == rq + [u[0]];
    } else {
      assert Requests(Apply(m, s, e).trace) == Requests(s.trace);
    }
  }

  lemma OneMore(rq: seq<Act>, a: Act)
    requires OneAtATime(rq)
    requires if |rq| % 2 == 0 then a.Begin? else a.End? && rq[|rq| - 1].Begin? && a.kind == rq[|rq| - 1].kind
    ensures OneAtATime(rq + [a])
  {
    var more := rq + [a];
    forall i | 0 <= i < |more| ensures InTurn(more, i) {
      assert i > 0 ==> more[i - 1] == rq[i - 1];
      assert i < |rq| ==> InTurn(rq, i) && more[i] == rq[i];
    }
  }

  lemma StepBytes(m: Media, s: State, e: Event)
    requires Coupled(s) && BytesInv(s)
    ensures BytesInv(Apply(m, s, e))
  {
    hide Timeline, Requests, BytesRead, BytesYielded, PlaysAfterStop, ClosedInOrder, Report;
    Grow(m, s, e);
  }

  lemma StepStop(m: Media, s: State, e: Event)
    requires Coupled(s) && StopInv(s)
    ensures StopInv(Apply(m, s, e))
  {
    hide Timeline, Requests, BytesRead, BytesYielded, PlaysAfterStop, ClosedInOrder, Report;
    Grow(m, s, e);
  }

  lemma StepClose(m: Media, s: State, e: Event)
    requires Coupled(s) && CloseInv(s)
    ensures CloseInv(Apply(m, s, e))
  {
    hide Timeline, Requests, BytesRead, BytesYielded, PlaysAfterStop, ClosedInOrder, Report;
    Grow(m, s, e);
  }

  lemma StepClock(m: Media, s: State, e: Event)
    requires Coupled(s) && TimelineInv(s) && ClockInv(m, s)
    ensures ClockInv(m, Apply(m, s, e))
  {
    hide Timeline, Requests, BytesRead, BytesYielded, PlaysAfterStop, ClosedInOrder, PositionMs, SentMs;
    Grow(m, s, e);
  }

  // ---- whole runs ----

  lemma {:induction false} RunInv(m: Media, clock: real, events: seq<Event>)
    ensures Inv(m, Run(m, clock, events))
  {
    if events != [] {
      var s, e := Run(m, clock, events[..|events| - 1]), events[|events| - 1];
      RunInv(m, clock, events[..|events| - 1]);
      StepCoupled(m, s, e);
      StepTimeline(m, s, e);
      StepRequests(m, s, e);
      StepBytes(m, s, e);
      StepStop(m, s, e);
      StepClose(m, s, e);
      StepClock(m, s, e);
    }
  }

  /**
    However the two tasks, the clock, the upstream and the consumer interleave: the
    timeline is `playing` requests with at most one `stopped` at the end, one request at a
    time, at most one `playing` begun after the stop event, nothing read after the
    upstream is closed and `stopped` only then, and what was yielded is a prefix of what
    was read.
   */
  lemma TraceShape(m: Media, clock: real, events: seq<Event>)
    ensures var t := Run(m, clock, events).trace;
            && PlaysThenStop(Timeline(t)) && OneAtATime(Requests(t))
            && PlaysAfterStop(t) <= 1 && ClosedInOrder(t)
            && BytesYielded(t) <= BytesRead(t)
  {
    RunInv(m, clock, events);
    var s := Run(m, clock, events);
    var tl := Timeline(s.trace);
    if EndsStopped(tl) {
      forall i | 0 <= i < |tl| - 1 ensures tl[i].Begin? && tl[i].kind == Playing {
        assert tl[..|tl| - 1][i] == tl[i];
      }
    }
  }

  /**
    A finished playback reported nothing if it yielded nothing, and otherwise reported
    `playing` at least once and `stopped` exactly once, at the end, with no request open.
   */
  lemma FinishedTrace(m: Media, clock: real, events: seq<Event>)
    requires Run(m, clock, events).streamer.Finished?
    ensures var t := Run(m, clock, events).trace;
            && Closed in t && |Requests(t)| % 2 == 0
            && (if BytesYielded(t) == [] then Timeline(t) == [] else EndsStopped(Timeline(t)))
  {
    RunInv(m, clock, events);
  }

  /**
    The times sent start at the offset's share of the duration, never go back, stay
    within the duration and within the offset plus the wall time gone by when each is sent,
    and between two `playing` requests gain ten seconds or reach the end.
   */
  lemma TimesSent(m: Media, clock: real, events: seq<Event>)
    requires WellFormed(m.total, m.start, m.durationMs)
    ensures var s := Run(m, clock, events);
            var tl := Timeline(s.trace);
            var initial := Initial(m.total, m.start, m.durationMs);
            && (tl != [] ==> s.startedAt.Some? && tl[0].timeMs == initial)
            && (forall i :: 0 <= i < |tl| ==>
                 0 <= tl[i].timeMs <= m.durationMs && s.startedAt.value <= tl[i].at <= s.clock
                 && tl[i].timeMs as real <= initial as real + Elapsed(s.startedAt.value, tl[i].at))
            && (forall i :: 0 < i < |tl| ==>
                 tl[i - 1].timeMs <= tl[i].timeMs
                 && (tl[i].kind == Playing ==>
                      tl[i].timeMs >= tl[i - 1].timeMs + 10000 || tl[i].timeMs == m.durationMs))
  {
    RunInv(m, clock, events);
    hide Run, Timeline, PositionMs, Initial;
    var s := Run(m, clock, events);
    var tl := Timeline(s.trace);
    if tl != [] {
      var startedAt := s.startedAt.value;
      StartsAtOffset(m.total, m.start, m.durationMs, startedAt);
      InitialBounds(m.total, m.start, m.durationMs);
      forall i | 0 <= i < |tl| ensures startedAt <= tl[i].at <= s.clock {
        ReadingsOrdered(tl, startedAt, 0, i);
        ReadingsOrdered(tl, startedAt, i, |tl| - 1);
      }
      forall i | 0 <= i < |tl|
        ensures 0 <= tl[i].timeMs <= m.durationMs
        ensures tl[i].timeMs == PositionMs(m.total, m.start, m.durationMs, startedAt, tl[i].at)
        ensures tl[i].timeMs as real <= Initial(m.total, m.start, m.durationMs) as real + Elapsed(startedAt, tl[i].at)
      {
        PositionBounds(m.total, m.start, m.durationMs, startedAt, tl[i].at);
      }
      forall i | 0 < i < |tl|
        ensures tl[i - 1].timeMs <= tl[i].timeMs
        ensures tl[i].kind == Playing ==> tl[i].timeMs >= tl[i - 1].timeMs + 10000 || tl[i].timeMs == m.durationMs
      {
        var gap := if tl[i].kind == Playing then 10 else 0;
        PositionAdvances(m.total, m.start, m.durationMs, startedAt, tl[i - 1].at, tl[i].at, gap);
      }
    }
  }

  lemma {:induction false} ReadingsOrdered(tl: seq<Act>, startedAt: real, i: nat, j: nat)
    requires Spaced(tl, startedAt) && i <= j < |tl|
    ensures tl[i].at <= tl[j].at
    decreases j
  {
    if i < j { ReadingsOrdered(tl, startedAt, i, j - 1); }
  }

  /** The streamer leaves its loop: the consumer goes away, the stop event is set, the upstream is closed. */
  function LeaveLoop(m: Media, s: State): State {
    Apply(m, Apply(m, Apply(m, s, Close), SetStop), CloseUpstream)
  }

  /** The heartbeat runs to its end, and the streamer behind it. */
  function RunDown(m: Media, s: State): State {
    Apply(m, Apply(m, Apply(m, Apply(m, Apply(m, s, BeatStart), BeatSent), BeatWake), Join), StopReported)
  }

  lemma LeavesLoop(m: Media, s: State)
    requires Coupled(s)
    ensures var t := LeaveLoop(m, s);
            Coupled(t) && (t.streamer.Joining? || t.streamer.Reporting? || t.streamer.Finished?)
  {
    StepCoupled(m, s, Close);
    StepCoupled(m, Apply(m, s, Close), SetStop);
    StepCoupled(m, Apply(m, Apply(m, s, Close), SetStop), CloseUpstream);
  }

  lemma RunsDown(m: Media, s: State)
    requires Coupled(s) && (s.streamer.Joining? || s.streamer.Reporting? || s.streamer.Finished?)
    ensures RunDown(m, s).streamer.Finished?
  {
    var t := Apply(m, Apply(m, Apply(m, s, BeatStart), BeatSent), BeatWake);
    assert t.streamer == s.streamer && (s.streamer.Joining? ==> t.heartbeat.Over?);
  }

  /** From every reachable state a playback can finish without waiting for the clock. */
  lemma ShutdownNeedsNoPing(m: Media, clock: real, events: seq<Event>)
    ensures RunDown(m, LeaveLoop(m, Run(m, clock, events))).streamer.Finished?
  {
    RunInv(m, clock, events);
    LeavesLoop(m, Run(m, clock, events));
    RunsDown(m, LeaveLoop(m, Run(m, clock, events)));
  }
}
