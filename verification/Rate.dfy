/** The per-stream rate limiter of filter/rate.go. */
module Rate {
  import opened Utilities

  /** time.Second; time is counted in nanoseconds. */
  const SECOND := 1_000_000_000

  /** The state of one stream with what happened to its messages so far. */
  datatype Stream = Stream(lastReset: int, count: int, filtered: int, ignore: bool, reported: int, accepted: nat,
                           rejected: nat)

  function NewStream(now: int, ignore: bool): Stream { Stream(now, 0, 0, ignore, 0, 0, 0) }

  function Max(a: int, b: int): int { if a < b then b else a }

  predicate Expired(s: Stream, now: int) { now - s.lastReset > SECOND }

  /** A window that has expired makes room for a new one. */
  function Reset(limit: int, s: Stream, now: int): Stream {
    if !Expired(s, now) then s
    else s.(lastReset := now, count := 0,
      filtered := if s.count > limit then s.filtered + (s.count - limit) else s.filtered)
  }

  function AfterMessage(limit: int, s: Stream, now: int): Stream {
    if s.ignore then s.(accepted := s.accepted + 1)
    else
      var r := Reset(limit, s, now);
      var counted := r.(count := r.count + 1);
      if counted.count > limit then counted.(rejected := counted.rejected + 1)
        else counted.(accepted := counted.accepted + 1)
  }

  function AfterUpdate(s: Stream): Stream {
    if s.ignore then s else s.(filtered := 0, reported := s.reported + s.filtered)
  }

  datatype Event = Message(now: int) | Update

  function After(limit: int, s: Stream, events: seq<Event>): Stream {
    if events == [] then s
    else
      var before := After(limit, s, events[..|events| - 1]);
      match events[|events| - 1]
      case Message(now) => AfterMessage(limit, before, now)
      case Update => AfterUpdate(before)
  }

  // --------------------------------------------------------------- accounting

  /** Every rejected message has been reported, waits to be reported, or is in the running window. */
  predicate Accounted(limit: int, s: Stream) {
    s.count >= 0 && s.rejected == s.reported + s.filtered + Max(0, s.count - limit)
  }

  lemma {:induction false} AccountedAfter(limit: int, s: Stream, events: seq<Event>)
    requires limit >= 0 && Accounted(limit, s) && !s.ignore
    ensures Accounted(limit, After(limit, s, events)) && !After(limit, s, events).ignore
  {
    if events != [] { AccountedAfter(limit, s, events[..|events| - 1]); }
  }

  /** From a new stream on no rejection gets lost or is reported twice, exactly if the limit is
      not negative. */
  lemma AccountedIff(limit: int, start: int)
    ensures limit >= 0 <==> forall events :: Accounted(limit, After(limit, NewStream(start, false), events))
  {
    if limit >= 0 {
      forall events ensures Accounted(limit, After(limit, NewStream(start, false), events)) {
        AccountedAfter(limit, NewStream(start, false), events);
      }
    } else {
      assert !Accounted(limit, After(limit, NewStream(start, false), []));
    }
  }

  /** An update reports everything: what is left is what the running window has rejected so far. */
  lemma UpdateReportsAll(limit: int, start: int, events: seq<Event>)
    requires limit >= 0
    ensures var s := After(limit, NewStream(start, false), events + [Update]);
      s.filtered == 0 && s.rejected == s.reported + Max(0, s.count - limit)
  {
    assert (events + [Update])[..|events|] == events;
    AccountedAfter(limit, NewStream(start, false), events);
  }

  /** All messages of an ignored stream pass, whatever the limit; nothing of it is ever filtered. */
  lemma {:induction false} IgnoredPasses(limit: int, s: Stream, events: seq<Event>)
    requires s.ignore
    ensures After(limit, s, events) == s.(accepted := s.accepted + Messages(events))
  {
    if events != [] { IgnoredPasses(limit, s, events[..|events| - 1]); }
  }

  // -------------------------------------------------------------------- the rate

  /** All messages fall into the second after `start`. */
  predicate Within(events: seq<Event>, start: int) {
    forall i :: 0 <= i < |events| && events[i].Message? ==> start <= events[i].now <= start + SECOND
  }

  /** As long as the window stays open it accepts what is left of it; once it was reset within the
      second, it stays open. */
  lemma {:induction false} AcceptedWithin(limit: int, s: Stream, events: seq<Event>, start: int)
    requires Within(events, start) && s.count >= 0 && !s.ignore
    ensures var r := After(limit, s, events);
      && r.count >= 0 && !r.ignore
      && if r.lastReset == s.lastReset
         then r.accepted + Max(0, limit - r.count) == s.accepted + Max(0, limit - s.count)
         else
           && r.lastReset >= start
           && r.accepted + Max(0, limit - r.count) <= s.accepted + Max(0, limit - s.count) + Max(0, limit)
  {
    if events != [] {
      var n := |events| - 1;
      AcceptedWithin(limit, s, events[..n], start);
    }
  }

  /** Within any second, at whatever point of a run it starts, at most twice the limit passes. */
  lemma AtMostTwiceTheLimit(limit: int, s: Stream, events: seq<Event>, start: int)
    requires Within(events, start) && s.count >= 0 && !s.ignore
    ensures After(limit, s, events).accepted - s.accepted <= 2 * Max(0, limit)
  {
    AcceptedWithin(limit, s, events, start);
  }

  lemma {:induction false} CountStays(limit: int, s: Stream, events: seq<Event>)
    requires s.count >= 0
    ensures After(limit, s, events).count >= 0
  {
    if events != [] { CountStays(limit, s, events[..|events| - 1]); }
  }

  lemma {:induction false} AfterAppend(limit: int, s: Stream, a: seq<Event>, b: seq<Event>)
    ensures After(limit, s, a + b) == After(limit, After(limit, s, a), b)
  {
    if b == [] {
      assert a + b == a;
    } else {
      assert (a + b)[..|a + b| - 1] == a + b[..|b| - 1];
      AfterAppend(limit, s, a, b[..|b| - 1]);
    }
  }

  lemma {:induction false} IgnoreStays(limit: int, s: Stream, events: seq<Event>)
    ensures After(limit, s, events).ignore == s.ignore
  {
    if events != [] { IgnoreStays(limit, s, events[..|events| - 1]); }
  }

  /** The same for any stretch of a run that starts with a new stream. */
  lemma AnySecondOfARun(limit: int, first: int, before: seq<Event>, during: seq<Event>, start: int)
    requires Within(during, start)
    ensures var run := After(limit, NewStream(first, false), before);
      After(limit, NewStream(first, false), before + during).accepted - run.accepted <= 2 * Max(0, limit)
  {
    var s := NewStream(first, false);
    AfterAppend(limit, s, before, during);
    CountStays(limit, s, before);
    IgnoreStays(limit, s, before);
    AtMostTwiceTheLimit(limit, After(limit, s, before), during, start);
  }

  // The exact number: what is left of the window that was open, then what fits into the next.

  function Min(a: int, b: int): int { if a < b then a else b }

  function Messages(events: seq<Event>): nat {
    if events == [] then 0
    else Messages(events[..|events| - 1]) + if events[|events| - 1].Message? then 1 else 0
  }

  /** Where the window that was opened at `reset` is found to have expired. */
  function FirstExpired(events: seq<Event>, reset: int): (k: nat)
    ensures k <= |events|
    ensures forall i :: 0 <= i < k && events[i].Message? ==> events[i].now - reset <= SECOND
    ensures k < |events| ==> events[k].Message? && events[k].now - reset > SECOND
  {
    if events == [] then 0
    else if events[0].Message? && events[0].now - reset > SECOND then 0
    else
      assert forall i :: 1 <= i < |events| ==> events[i] == events[1..][i - 1];
      1 + FirstExpired(events[1..], reset)
  }

  predicate AllOpen(events: seq<Event>, reset: int) {
    forall i :: 0 <= i < |events| && events[i].Message? ==> events[i].now - reset <= SECOND
  }

  lemma {:induction false} WindowAccepts(limit: int, s: Stream, events: seq<Event>)
    requires AllOpen(events, s.lastReset) && s.count >= 0 && !s.ignore
    ensures var r := After(limit, s, events);
      && r.lastReset == s.lastReset && r.count == s.count + Messages(events) && !r.ignore
      && r.accepted == s.accepted + Min(Messages(events), Max(0, limit - s.count))
  {
    if events != [] { WindowAccepts(limit, s, events[..|events| - 1]); }
  }

  /** A message that finds an expired window starts a new one. */
  lemma {:induction false} ResetFirst(limit: int, s: Stream, events: seq<Event>)
    requires events != [] && events[0].Message? && !s.ignore
    ensures After(limit, s, events) == After(limit, Reset(limit, s, events[0].now), events)
  {
    var init := events[..|events| - 1];
    if init != [] {
      ResetFirst(limit, s, init);
    } else {
      assert After(limit, s, init) == s;
    }
  }

  /** The messages of a second before the reset get what is left of the old window, those from the
      reset on get the limit. */
  lemma AcceptedExactly(limit: int, s: Stream, events: seq<Event>, start: int)
    requires Within(events, start) && s.count >= 0 && !s.ignore
    ensures var k := FirstExpired(events, s.lastReset);
      After(limit, s, events).accepted - s.accepted
        == Min(Messages(events[..k]), Max(0, limit - s.count)) + Min(Messages(events[k..]), Max(0, limit))
  {
    var k := FirstExpired(events, s.lastReset);
    var head, tail := events[..k], events[k..];
    assert events == head + tail;
    AfterAppend(limit, s, head, tail);
    WindowAccepts(limit, s, head);
    if tail != [] {
      var mid := After(limit, s, head);
      var now := tail[0].now;
      ResetFirst(limit, mid, tail);
      assert AllOpen(tail, now);
      WindowAccepts(limit, Reset(limit, mid, now), tail);
    }
  }

  /** The same for any stretch of a run that starts with a new stream. */
  lemma ExactlyInARun(limit: int, first: int, before: seq<Event>, during: seq<Event>, start: int)
    requires Within(during, start)
    ensures var run := After(limit, NewStream(first, false), before);
      var k := FirstExpired(during, run.lastReset);
      After(limit, NewStream(first, false), before + during).accepted - run.accepted
        == Min(Messages(during[..k]), Max(0, limit - run.count)) + Min(Messages(during[k..]), Max(0, limit))
  {
    var s := NewStream(first, false);
    AfterAppend(limit, s, before, during);
    CountStays(limit, s, before);
    IgnoreStays(limit, s, before);
    AcceptedExactly(limit, After(limit, s, before), during, start);
  }

  function Burst(n: nat, now: int): seq<Event> { if n == 0 then [] else Burst(n - 1, now) + [Message(now)] }

  /** Messages at the same time, while the window has room. */
  lemma {:induction false} BurstPasses(limit: int, s: Stream, n: nat, now: int)
    requires !s.ignore && !Expired(s, now) && s.count >= 0 && s.count + n <= limit
    ensures After(limit, s, Burst(n, now)) == s.(count := s.count + n, accepted := s.accepted + n)
  {
    if n > 0 { BurstPasses(limit, s, n - 1, now); }
  }

  lemma {:induction false} BurstWithin(n: nat, now: int, start: int)
    requires start <= now <= start + SECOND
    ensures Within(Burst(n, now), start)
  {
    if n > 0 { BurstWithin(n - 1, now, start); }
  }

  lemma AfterOne(limit: int, s: Stream, now: int)
    ensures After(limit, s, [Message(now)]) == AfterMessage(limit, s, now)
  {
    assert [Message(now)][..0] == [];
  }

  lemma WithinAppend(a: seq<Event>, now: int, b: seq<Event>, start: int)
    requires Within(a, start) && Within(b, start) && start <= now <= start + SECOND
    ensures Within(a + ([Message(now)] + b), start)
  {
  }

  /** The bound is reached: a full window may end a nanosecond before the next one starts. */
  lemma TwiceTheLimitPasses(limit: nat)
    requires limit > 0
    ensures var events := Burst(limit, SECOND) + ([Message(SECOND + 1)] + Burst(limit - 1, SECOND + 1));
      Within(events, SECOND) && After(limit, NewStream(0, false), events).accepted == 2 * limit
  {
    hide After, Burst, Within;
    var s := NewStream(0, false);
    var head := [Message(SECOND + 1)];
    BurstWithin(limit, SECOND, SECOND);
    BurstWithin(limit - 1, SECOND + 1, SECOND);
    WithinAppend(Burst(limit, SECOND), SECOND + 1, Burst(limit - 1, SECOND + 1), SECOND);
    BurstPasses(limit, s, limit, SECOND);
    AfterAppend(limit, s, Burst(limit, SECOND), head + Burst(limit - 1, SECOND + 1));
    var full := After(limit, s, Burst(limit, SECOND));
    AfterAppend(limit, full, head, Burst(limit - 1, SECOND + 1));
    AfterOne(limit, full, SECOND + 1);
    var reset := After(limit, full, head);
    BurstPasses(limit, reset, limit - 1, SECOND + 1);
  }

  // ------------------------------------------------------------------- the filter

  datatype Operation = Arrives(stream: nat, now: int) | Updates

  type Streams = map<nat, Stream>

  function NewFilter(ignored: set<nat>, now: int): Streams {
    map stream | stream in ignored :: NewStream(now - SECOND, true)
  }

  function StreamOf(streams: Streams, stream: nat, now: int): Stream {
    if stream in streams then streams[stream] else NewStream(now, false)
  }

  function Operated(limit: int, streams: Streams, op: Operation): Streams {
    match op
    case Arrives(stream, now) => streams[stream := AfterMessage(limit, StreamOf(streams, stream, now), now)]
    case Updates => map stream | stream in streams :: AfterUpdate(streams[stream])
  }

  /** The answer for one message. */
  predicate Passes(limit: int, streams: Streams, stream: nat, now: int) {
    var before := StreamOf(streams, stream, now);
    AfterMessage(limit, before, now).accepted == before.accepted + 1
  }

  function FilterAfter(limit: int, streams: Streams, ops: seq<Operation>): Streams {
    if ops == [] then streams
    else Operated(limit, FilterAfter(limit, streams, ops[..|ops| - 1]), ops[|ops| - 1])
  }

  /** What happens to one stream. */
  function EventsOf(ops: seq<Operation>, stream: nat): seq<Event> {
    if ops == [] then []
    else
      EventsOf(ops[..|ops| - 1], stream) +
      match ops[|ops| - 1]
      case Arrives(other, now) => if other == stream then [Message(now)] else []
      case Updates => [Update]
  }

  /** When the first message of a stream arrives. */
  function Arrival(ops: seq<Operation>, stream: nat): Option<int> {
    if ops == [] then None
    else if Arrival(ops[..|ops| - 1], stream).Some? then Arrival(ops[..|ops| - 1], stream)
    else
      match ops[|ops| - 1]
      case Arrives(other, now) => if other == stream then Some(now) else None
      case Updates => None
  }

  /** How a stream starts in the filter. */
  function First(ignored: set<nat>, start: int, ops: seq<Operation>, stream: nat): Option<Stream> {
    if stream in ignored then Some(NewStream(start - SECOND, true))
    else if Arrival(ops, stream).Some? then Some(NewStream(Arrival(ops, stream).value, false))
    else None
  }

  lemma {:induction false} UpdatesOnly(limit: int, ops: seq<Operation>, stream: nat, start: int, ignore: bool)
    requires Arrival(ops, stream).None?
    ensures After(limit, NewStream(start, ignore), EventsOf(ops, stream)) == NewStream(start, ignore)
  {
    if ops != [] {
      var n := |ops| - 1;
      UpdatesOnly(limit, ops[..n], stream, start, ignore);
      AfterOneMore(limit, NewStream(start, ignore), ops, stream);
    }
  }

  lemma AfterOneMore(limit: int, s: Stream, ops: seq<Operation>, stream: nat)
    requires ops != []
    ensures var n := |ops| - 1; var before := After(limit, s, EventsOf(ops[..n], stream));
      After(limit, s, EventsOf(ops, stream)) ==
        match ops[n]
        case Arrives(other, now) => if other == stream then AfterMessage(limit, before, now) else before
        case Updates => AfterUpdate(before)
  {
    var events := EventsOf(ops[..|ops| - 1], stream);
    assert events + [] == events;
    match ops[|ops| - 1]
    case Arrives(other, now) => assert (events + [Message(now)])[..|events|] == events;
    case Updates => assert (events + [Update])[..|events|] == events;
  }

  /** The filter treats each stream on its own: a stream is what its own messages and the updates have
      made of it since its first message, and only the ones configured are ignored. */
  lemma {:induction false} StreamsAreSeparate(limit: int, ignored: set<nat>, start: int, ops: seq<Operation>,
                                              stream: nat)
    ensures var streams := FilterAfter(limit, NewFilter(ignored, start), ops);
      var first := First(ignored, start, ops, stream);
      && (stream in streams <==> first.Some?)
      && (first.Some? ==> streams[stream] == After(limit, first.value, EventsOf(ops, stream)))
      && (first.Some? ==> (streams[stream].ignore <==> stream in ignored))
  {
    if ops != [] {
      var n := |ops| - 1;
      StreamsAreSeparate(limit, ignored, start, ops[..n], stream);
      var first := First(ignored, start, ops, stream);
      if first.Some? {
        AfterOneMore(limit, first.value, ops, stream);
        IgnoreStays(limit, first.value, EventsOf(ops, stream));
        if Arrival(ops[..n], stream).None? {
          UpdatesOnly(limit, ops[..n], stream, first.value.lastReset, first.value.ignore);
        }
      }
    }
  }

  /** At any time a message of an ignored stream passes, and no other stream is taken for one. */
  lemma IgnoredAlwaysPass(limit: int, ignored: set<nat>, start: int, ops: seq<Operation>, stream: nat, now: int)
    requires stream in ignored
    ensures Passes(limit, FilterAfter(limit, NewFilter(ignored, start), ops), stream, now)
  {
    StreamsAreSeparate(limit, ignored, start, ops, stream);
  }

  lemma {:induction false} PartsOfOperations(a: seq<Operation>, b: seq<Operation>, stream: nat)
    ensures EventsOf(a + b, stream) == EventsOf(a, stream) + EventsOf(b, stream)
    ensures Arrival(a + b, stream) == if Arrival(a, stream).Some? then Arrival(a, stream) else Arrival(b, stream)
  {
    if b == [] {
      assert a + b == a;
    } else {
      assert (a + b)[..|a + b| - 1] == a + b[..|b| - 1];
      PartsOfOperations(a, b[..|b| - 1], stream);
    }
  }

  function AcceptedOf(streams: Streams, stream: nat): nat {
    if stream in streams then streams[stream].accepted else 0
  }

  /** In any second of the filter's life at most twice the limit of a stream passes that is not
      ignored, whatever other streams do. */
  lemma FilterLimits(limit: int, ignored: set<nat>, start: int, before: seq<Operation>, during: seq<Operation>,
                     stream: nat, second: int)
    requires stream !in ignored && Within(EventsOf(during, stream), second)
    ensures AcceptedOf(FilterAfter(limit, NewFilter(ignored, start), before + during), stream)
            - AcceptedOf(FilterAfter(limit, NewFilter(ignored, start), before), stream) <= 2 * Max(0, limit)
  {
    StreamsAreSeparate(limit, ignored, start, before, stream);
    StreamsAreSeparate(limit, ignored, start, before + during, stream);
    PartsOfOperations(before, during, stream);
    var arrival := Arrival(before + during, stream);
    if arrival.Some? {
      AnySecondOfARun(limit, arrival.value, EventsOf(before, stream), EventsOf(during, stream), second);
      if Arrival(before, stream).None? { UpdatesOnly(limit, before, stream, arrival.value, false); }
    }
  }

  class Filter {
    const rateLimit: int
    var state: Streams

    constructor (rateLimit: int, ignored: set<nat>, now: int)
      ensures this.rateLimit == rateLimit && state == NewFilter(ignored, now)
    {
      this.rateLimit := rateLimit;
      state := map stream | stream in ignored :: NewStream(now - SECOND, true);
    }

    /** One message of a stream at a time; no other stream changes. */
    method Accepts(stream: nat, now: int) returns (yes: bool)
      modifies this
      ensures state == Operated(rateLimit, old(state), Arrives(stream, now))
      ensures yes <==> Passes(rateLimit, old(state), stream, now)
      ensures !yes <==> state[stream].rejected == StreamOf(old(state), stream, now).rejected + 1
    {
      if stream !in state { state := state[stream := NewStream(now, false)]; }
      var s := state[stream];
      if s.ignore {
        state := state[stream := s.(accepted := s.accepted + 1)];
        return true;
      }
      if now - s.lastReset > SECOND {
        var numFiltered := s.count;
        s := s.(lastReset := now, count := 0);
        if numFiltered > rateLimit { s := s.(filtered := s.filtered + (numFiltered - rateLimit)); }
      }
      s := s.(count := s.count + 1);
      yes := s.count <= rateLimit;
      s := if yes then s.(accepted := s.accepted + 1) else s.(rejected := s.rejected + 1);
      state := state[stream := s];
    }

    /** All streams report what they filtered. */
    method UpdateMetrics()
      modifies this
      ensures state == Operated(rateLimit, old(state), Updates)
    {
      var todo := state.Keys;
      while todo != {}
        invariant todo <= state.Keys == old(state).Keys
        invariant forall stream :: stream in state ==>
          state[stream] == if stream in todo then old(state)[stream] else AfterUpdate(old(state)[stream])
        decreases |todo|
      {
        var stream :| stream in todo;
        todo := todo - {stream};
        var s := state[stream];
        if !s.ignore {
          var numFiltered := s.filtered;
          state := state[stream := s.(filtered := 0, reported := s.reported + numFiltered)];
        }
      }
    }
  }
}
