/** What a playback gets done: the reports that are due are sent, and the bytes that arrive go out. */
module PlaybackProgress {
  import opened Wrappers
  import opened Position
  import opened Playback

  lemma Then(m: Media, clock: real, events: seq<Event>, e: Event)
    ensures Run(m, clock, events + [e]) == Apply(m, Run(m, clock, events), e)
  {
    assert (events + [e])[..|events|] == events;
  }

  function TimelineOf(s: State): seq<Act> {
    Timeline(s.trace)
  }

  /** One more request on the timeline. */
  predicate Sends(s: State, t: State, kind: Kind, at: real) {
    |TimelineOf(t)| == |TimelineOf(s)| + 1
    && TimelineOf(t) == TimelineOf(s) + [TimelineOf(t)[|TimelineOf(s)|]]
    && TimelineOf(t)[|TimelineOf(s)|].kind == kind && TimelineOf(t)[|TimelineOf(s)|].at == at
  }

  // ---- the heartbeat ----

  /** A sleeping heartbeat reports once ten seconds have gone by, at that time, and not before. */
  lemma PingWhenDue(m: Media, clock: real, events: seq<Event>)
    requires Run(m, clock, events).heartbeat.Sleeping?
    ensures var s, t := Run(m, clock, events), Run(m, clock, events + [BeatTimeout]);
            if s.clock >= s.heartbeat.since + 10.0
            then Sends(s, t, Playing, s.clock) && t.heartbeat == Sending && t.clock == s.clock
            else t == s
  {
    var s := Run(m, clock, events);
    Then(m, clock, events, BeatTimeout);
    hide Run;
    TimelineGrows(m, s, BeatTimeout);
  }

  /** A request that was answered leaves the heartbeat asleep from then on, or done if the playback is. */
  lemma PingSent(m: Media, s: State)
    requires s.heartbeat == Sending
    ensures var t := Apply(m, s, BeatSent);
            && TimelineOf(t) == TimelineOf(s) && t.clock == s.clock && t.stopped == s.stopped
            && t.heartbeat == (if s.stopped then Over else Sleeping(s.clock))
  {
    TimelineGrows(m, s, BeatSent);
  }

  /** Ten seconds of a playback that goes on. */
  function Round(): seq<Event> {
    [Tick(10.0), BeatTimeout, BeatSent]
  }

  /** No heartbeat sleeps from a time to come. */
  lemma {:induction false} AsleepSince(m: Media, clock: real, events: seq<Event>)
    ensures var s := Run(m, clock, events); s.heartbeat.Sleeping? ==> s.heartbeat.since <= s.clock
  {
    if events != [] {
      AsleepSince(m, clock, events[..|events| - 1]);
      hide Report;
    }
  }

  /** However the playback got there: ten more seconds of sleep bring exactly one more report, then sleep again. */
  lemma NextPing(m: Media, clock: real, events: seq<Event>)
    requires var s := Run(m, clock, events); s.heartbeat.Sleeping? && !s.stopped
    ensures var s, t := Run(m, clock, events), Run(m, clock, events + Round());
            && t.clock == s.clock + 10.0 && t.heartbeat == Sleeping(t.clock) && !t.stopped
            && t.streamer == s.streamer && t.startedAt == s.startedAt && Sends(s, t, Playing, t.clock)
  {
    hide Run, Timeline;
    var s := Run(m, clock, events);
    AsleepSince(m, clock, events);
    Then(m, clock, events, Tick(10.0));
    Then(m, clock, events + [Tick(10.0)], BeatTimeout);
    PingWhenDue(m, clock, events + [Tick(10.0)]);
    Then(m, clock, events + [Tick(10.0)] + [BeatTimeout], BeatSent);
    PingSent(m, Run(m, clock, events + [Tick(10.0)] + [BeatTimeout]));
    assert events + Round() == events + [Tick(10.0)] + [BeatTimeout] + [BeatSent];
  }

  /** A playback of one chunk that is then left alone for some rounds. */
  function Watching(chunk: seq<char>, rounds: nat): seq<Event> {
    if rounds == 0 then [ReadChunk(chunk), BeatStart, BeatSent] else Watching(chunk, rounds - 1) + Round()
  }

  /** A report at the start and one after every ten seconds. */
  predicate EveryTenSeconds(timeline: seq<Act>, clock: real, rounds: nat) {
    |timeline| == rounds + 1
    && forall i :: 0 <= i <= rounds ==>
         timeline[i].Begin? && timeline[i].kind == Playing && timeline[i].at == clock + 10.0 * i as real
  }

  lemma {:induction false} WatchingPings(m: Media, clock: real, chunk: seq<char>, rounds: nat)
    requires chunk != []
    ensures var s := Run(m, clock, Watching(chunk, rounds));
            && EveryTenSeconds(TimelineOf(s), clock, rounds)
            && s.clock == clock + 10.0 * rounds as real && s.heartbeat == Sleeping(s.clock)
            && !s.stopped && s.streamer == Suspended && s.startedAt == Some(clock)
  {
    if rounds == 0 {
      FirstPing(m, clock, chunk);
    } else {
      WatchingPings(m, clock, chunk, rounds - 1);
      NextPing(m, clock, Watching(chunk, rounds - 1));
      hide Run;
      assert 10.0 * rounds as real == 10.0 * (rounds - 1) as real + 10.0;
    }
  }

  lemma FirstPing(m: Media, clock: real, chunk: seq<char>)
    requires chunk != []
    ensures var s := Run(m, clock, [ReadChunk(chunk), BeatStart, BeatSent]);
            && EveryTenSeconds(TimelineOf(s), clock, 0) && s.clock == clock && s.heartbeat == Sleeping(clock)
            && !s.stopped && s.streamer == Suspended && s.startedAt == Some(clock)
  {
    FirstEvents(m, clock, chunk);
    hide Run, Apply, Timeline;
    var start := Opened(clock);
    var first := Apply(m, start, ReadChunk(chunk));
    var second := Apply(m, first, BeatStart);
    FirstChunk(m, clock, chunk);
    StartPings(m, first);
    PingSent(m, second);
    assert Apply(m, second, BeatSent).streamer == Suspended && Apply(m, second, BeatSent).startedAt == Some(clock) by {
      SentKeeps(m, second);
    }
  }

  lemma FirstEvents(m: Media, clock: real, chunk: seq<char>)
    ensures Run(m, clock, [ReadChunk(chunk), BeatStart, BeatSent])
            == Apply(m, Apply(m, Apply(m, Opened(clock), ReadChunk(chunk)), BeatStart), BeatSent)
  {
    assert [] + [ReadChunk(chunk)] == [ReadChunk(chunk)];
    assert [ReadChunk(chunk)] + [BeatStart] == [ReadChunk(chunk), BeatStart];
    assert [ReadChunk(chunk), BeatStart] + [BeatSent] == [ReadChunk(chunk), BeatStart, BeatSent];
    assert Run(m, clock, []) == Opened(clock);
    hide Run, Apply;
    Then(m, clock, [], ReadChunk(chunk));
    Then(m, clock, [ReadChunk(chunk)], BeatStart);
    Then(m, clock, [ReadChunk(chunk), BeatStart], BeatSent);
  }

  /** The first chunk starts the playback, with the heartbeat about to begin. */
  lemma FirstChunk(m: Media, clock: real, chunk: seq<char>)
    requires chunk != []
    ensures var s := Apply(m, Opened(clock), ReadChunk(chunk));
            && TimelineOf(s) == [] && s.clock == clock && s.heartbeat == Created
            && !s.stopped && s.streamer == Suspended && s.startedAt == Some(clock)
  {
    TimelineGrows(m, Opened(clock), ReadChunk(chunk));
    NoActs();
    hide Timeline;
  }

  /** It begins with a report of the start. */
  lemma StartPings(m: Media, s: State)
    requires s.heartbeat == Created && s.startedAt.Some?
    ensures var t := Apply(m, s, BeatStart);
            && Sends(s, t, Playing, s.startedAt.value)
            && t.heartbeat == Sending && t.clock == s.clock && t.stopped == s.stopped
            && t.streamer == s.streamer && t.startedAt == s.startedAt
  {
    hide Timeline;
    TimelineGrows(m, s, BeatStart);
  }

  lemma SentKeeps(m: Media, s: State)
    ensures var t := Apply(m, s, BeatSent); t.streamer == s.streamer && t.startedAt == s.startedAt
  {}

  lemma NoActs()
    ensures Timeline([]) == [] && BytesYielded([]) == [] && BytesRead([]) == []
  {}

  // ---- the streamer ----

  /** Every chunk that arrives goes out, and the next one is read when the consumer comes back for it. */
  lemma ChunkGoesOut(m: Media, s: State, chunk: seq<char>)
    requires s.streamer == Reading && chunk != []
    ensures var t := Apply(m, s, ReadChunk(chunk));
            && BytesYielded(t.trace) == BytesYielded(s.trace) + chunk && t.streamer == Suspended
            && Apply(m, t, Resume) == t.(streamer := Reading)
  {
    hide Timeline, Requests, BytesRead, BytesYielded, PlaysAfterStop, ClosedInOrder;
    Grow(m, s, ReadChunk(chunk));
  }

  function Fetching(chunks: seq<seq<char>>): seq<Event> {
    if chunks == [] then []
    else Fetching(chunks[..|chunks| - 1]) + [ReadChunk(chunks[|chunks| - 1]), Resume]
  }

  function Joined(chunks: seq<seq<char>>): seq<char> {
    if chunks == [] then [] else Joined(chunks[..|chunks| - 1]) + chunks[|chunks| - 1]
  }

  /** An upstream read to its end by a patient consumer is passed on whole. */
  lemma {:induction false} WholeFileGoesOut(m: Media, clock: real, chunks: seq<seq<char>>)
    requires forall i :: 0 <= i < |chunks| ==> chunks[i] != []
    ensures var s := Run(m, clock, Fetching(chunks));
            s.streamer == Reading && BytesYielded(s.trace) == Joined(chunks)
    ensures Run(m, clock, Fetching(chunks) + [ReadEnds]).streamer == Stopping
  {
    hide Apply, BytesYielded;
    Then(m, clock, Fetching(chunks), ReadEnds);
    if chunks == [] {
      NoActs();
      LeavesWhileReading(m, Run(m, clock, []), []);
    } else {
      var n := |chunks| - 1;
      var events := Fetching(chunks[..n]);
      var s := Run(m, clock, events);
      WholeFileGoesOut(m, clock, chunks[..n]);
      Then(m, clock, events, ReadChunk(chunks[n]));
      Then(m, clock, events + [ReadChunk(chunks[n])], Resume);
      assert Fetching(chunks) == events + [ReadChunk(chunks[n])] + [Resume];
      ChunkGoesOut(m, s, chunks[n]);
      LeavesWhileReading(m, Run(m, clock, Fetching(chunks)), []);
    }
  }

  /** The loop is left when the upstream ends or fails, and when the consumer goes away. */
  lemma LeavesWhileReading(m: Media, s: State, chunk: seq<char>)
    requires s.streamer == Reading
    ensures Apply(m, s, ReadEnds) == s.(streamer := Stopping) && Apply(m, s, Close) == s.(streamer := Stopping)
    ensures var t := Apply(m, s, LoseChunk(chunk));
            t.streamer == Stopping && BytesRead(t.trace) == BytesRead(s.trace) + chunk
            && BytesYielded(t.trace) == BytesYielded(s.trace)
  {
    hide Timeline, Requests, BytesRead, BytesYielded, PlaysAfterStop, ClosedInOrder;
    Grow(m, s, LoseChunk(chunk));
  }

  /** The last report, made once the heartbeat is done, says where the playback is then. */
  lemma StoppedWhenJoined(m: Media, s: State)
    requires s.streamer == Joining && s.heartbeat == Over && s.startedAt.Some?
    ensures var t := Apply(m, s, Join);
            && Sends(s, t, Stopped, s.clock) && t.streamer == Reporting
            && TimelineOf(t)[|TimelineOf(s)|].timeMs
               == SentMs(PositionMs(m.total, m.start, m.durationMs, s.startedAt.value, s.clock))
  {
    hide PositionMs, SentMs;
    TimelineGrows(m, s, Join);
  }

  /** Whatever the headers say, no time sent is negative. */
  lemma NoNegativeTime(m: Media, clock: real, events: seq<Event>)
    ensures forall i :: 0 <= i < |TimelineOf(Run(m, clock, events))| ==>
              TimelineOf(Run(m, clock, events))[i].timeMs >= 0
  {
    RunInv(m, clock, events);
    hide PositionMs, Run;
  }
}
