/** The metrics cog: per-author and per-channel message counters kept in memory, flushed to
    the snapshot collection once an hour, and the range query behind the `metrics` command.
    The clock reading and the collection contents are parameters. */
module Metrics {
  import opened Outcomes
  import opened Counts
  import Calendar
  import Graphing

  /** The parts of a chat message the listener reads; ids are already `str(...)`-converted. */
  datatype Message = Message(authorId: string, channelId: string, authorIsBot: bool)

  /** The cog's state between two hourly dumps. */
  datatype Tracker = Tracker(
    loadedTime: Calendar.Time,
    lastStoredTime: Option<Calendar.Time>,
    authorCache: Counts,
    channelCache: Counts,
    cachedMessageCount: int)

  /** Each counted message is counted once per author and once per channel, and a key is
      present only once it has been counted. */
  predicate Valid(t: Tracker) {
    && KeysUnique(t.authorCache) && KeysUnique(t.channelCache)
    && AllPositive(t.authorCache) && AllPositive(t.channelCache)
    && t.cachedMessageCount == Sum(t.authorCache)
    && t.cachedMessageCount == Sum(t.channelCache)
  }

  /** The state right after the cog is loaded at time `now`. */
  function Init(now: Calendar.Time): (t: Tracker)
    ensures Valid(t)
    ensures t.authorCache == [] && t.channelCache == [] && t.cachedMessageCount == 0
    ensures t.loadedTime == now && t.lastStoredTime.None?
  {
    Tracker(now, None, [], [], 0)
  }

  /** The message listener: bots are ignored, everyone else bumps three counters. */
  function OnMessage(t: Tracker, msg: Message): (t': Tracker)
    ensures msg.authorIsBot ==> t' == t
    ensures !msg.authorIsBot ==>
              && Get(t'.authorCache, msg.authorId) == Some(Get(t.authorCache, msg.authorId).GetOr(0) + 1)
              && Get(t'.channelCache, msg.channelId) == Some(Get(t.channelCache, msg.channelId).GetOr(0) + 1)
              && t'.cachedMessageCount == t.cachedMessageCount + 1
    ensures forall a :: a != msg.authorId ==> Get(t'.authorCache, a) == Get(t.authorCache, a)
    ensures forall c :: c != msg.channelId ==> Get(t'.channelCache, c) == Get(t.channelCache, c)
    ensures t'.loadedTime == t.loadedTime && t'.lastStoredTime == t.lastStoredTime
  {
    if msg.authorIsBot then t
    else
      t.(authorCache := Bump(t.authorCache, msg.authorId),
         channelCache := Bump(t.channelCache, msg.channelId),
         cachedMessageCount := t.cachedMessageCount + 1)
  }

  /** The listener keeps the caches well formed and the count equal to their totals. */
  lemma OnMessageKeepsValid(t: Tracker, msg: Message)
    requires Valid(t)
    ensures Valid(OnMessage(t, msg))
  {
    if !msg.authorIsBot {
      BumpKeepsShape(t.authorCache, msg.authorId);
      BumpKeepsShape(t.channelCache, msg.channelId);
    }
  }

  /** What one run of the hourly task produces: the document it inserted, if any, and the
      state afterwards. */
  datatype Dump = Dump(written: Option<Graphing.Document>, next: Tracker)

  /** The hourly task: write a snapshot when either cache holds a key, then empty both
      caches and the count whether or not anything was written. */
  function MetricsDump(t: Tracker, now: Calendar.Time): (r: Dump)
    ensures r.written.Some? <==> t.authorCache != [] || t.channelCache != []
    ensures r.written.Some? ==> r.written.value == Graphing.Document(now, t.authorCache, t.channelCache)
    ensures r.next.authorCache == [] && r.next.channelCache == [] && r.next.cachedMessageCount == 0
    ensures r.next.lastStoredTime == Some(now) && r.next.loadedTime == t.loadedTime
    ensures Valid(r.next)
  {
    var written :=
      if t.authorCache != [] || t.channelCache != [] then
        Some(Graphing.Document(now, t.authorCache, t.channelCache))
      else
        None;
    Dump(written, Tracker(t.loadedTime, Some(now), [], [], 0))
  }

  /** Under the counter invariant a snapshot is written exactly when a message was counted. */
  lemma DumpWritesIffCounted(t: Tracker, now: Calendar.Time)
    requires Valid(t)
    ensures MetricsDump(t, now).written.Some? <==> t.cachedMessageCount > 0
  {
    SumPositive(t.authorCache);
    SumPositive(t.channelCache);
  }

  /** A written snapshot, read back through `parse_data`, reports the cached total and the
      cached per-author and per-channel counts. */
  lemma DumpedSnapshotReadsBack(t: Tracker, now: Calendar.Time)
    requires Valid(t) && t.cachedMessageCount > 0
    ensures MetricsDump(t, now).written.Some?
    ensures var m := Graphing.ParseData(MetricsDump(t, now).written.value);
            && m.time == now
            && Graphing.TotalCount(m) == t.cachedMessageCount
            && (forall a :: Graphing.GetPersonalCount(m, a) ==
                  if HasKey(t.authorCache, a) then Ok(Get(t.authorCache, a).value) else Err(Graphing.UnknownObject(a)))
            && (forall c :: Graphing.GetChannelCount(m, c) ==
                  if HasKey(t.channelCache, c) then Ok(Get(t.channelCache, c).value) else Err(Graphing.UnknownObject(c)))
  {
    DumpWritesIffCounted(t, now);
  }

  /** The two things that touch the counters: a chat message, and a firing of the hourly task. */
  datatype Event = Observe(msg: Message) | Tick(now: Calendar.Time)

  function Step(t: Tracker, e: Event): Tracker {
    match e
    case Observe(msg) => OnMessage(t, msg)
    case Tick(now) => MetricsDump(t, now).next
  }

  function Replay(t: Tracker, events: seq<Event>): Tracker
    decreases |events|
  {
    if events == [] then t else Replay(Step(t, events[0]), events[1..])
  }

  /** The counter invariant holds after any interleaving of messages and dumps. */
  lemma {:induction false} ReplayKeepsCounters(t: Tracker, events: seq<Event>)
    requires Valid(t)
    ensures Valid(Replay(t, events))
    decreases |events|
  {
    if events != [] {
      if events[0].Observe? {
        OnMessageKeepsValid(t, events[0].msg);
      }
      ReplayKeepsCounters(Step(t, events[0]), events[1..]);
    }
  }

  /** Number of messages in `events` written by non-bot authors. */
  function HumanMessages(events: seq<Event>): nat {
    if events == [] then 0
    else (if events[0].Observe? && !events[0].msg.authorIsBot then 1 else 0) + HumanMessages(events[1..])
  }

  /** Between two dumps the count is exactly the number of human messages seen. */
  lemma {:induction false} CountIsHumanMessages(t: Tracker, events: seq<Event>)
    requires forall i :: 0 <= i < |events| ==> events[i].Observe?
    ensures Replay(t, events).cachedMessageCount == t.cachedMessageCount + HumanMessages(events)
    decreases |events|
  {
    if events != [] {
      CountIsHumanMessages(Step(t, events[0]), events[1..]);
    }
  }

  datatype QueryError =
    | OutOfRange      // `now - timedelta(hours=amt)` raises OverflowError
    | NegativeLength  // the driver refuses a negative result length

  /** Every stored document no older than `since`, in collection order. */
  function Matching(collection: seq<Graphing.Document>, since: int): (r: seq<Graphing.Document>)
    ensures forall d :: d in r <==> d in collection && d.datetime >= since
    ensures |r| <= |collection|
  {
    if collection == [] then []
    else if collection[0].datetime >= since then [collection[0]] + Matching(collection[1..], since)
    else Matching(collection[1..], since)
  }

  /** Filtering keeps the collection order: the matches of a concatenation are the matches
      of the first part followed by those of the second. */
  lemma {:induction false} MatchingConcat(a: seq<Graphing.Document>, b: seq<Graphing.Document>, since: int)
    ensures Matching(a + b, since) == Matching(a, since) + Matching(b, since)
  {
    if a == [] {
      assert a + b == b;
    } else {
      assert (a + b)[0] == a[0];
      assert (a + b)[1..] == a[1..] + b;
      MatchingConcat(a[1..], b, since);
    }
  }

  /** `find({"datetime": {"$gte": since}}).to_list(length=limit)`, as one pass over the
      collection that stops once `limit` documents are collected. */
  function TakeMatching(collection: seq<Graphing.Document>, since: int, limit: Option<nat>): (r: seq<Graphing.Document>)
    ensures limit.None? ==> r == Matching(collection, since)
    ensures limit.Some? ==> |r| == Min(limit.value, |Matching(collection, since)|)
    ensures limit.Some? ==> r == Matching(collection, since)[..|r|]
    decreases |collection|
  {
    if collection == [] || limit == Some(0) then []
    else if collection[0].datetime >= since then
      var rest := TakeMatching(collection[1..], since, if limit.Some? then Some(limit.value - 1) else None);
      [collection[0]] + rest
    else
      TakeMatching(collection[1..], since, limit)
  }

  function Min(a: int, b: int): int {
    if a <= b then a else b
  }

  /** `now` with the current hour and minute taken off: the same day, at 00:00 and the
      current second. */
  function StartOfDay(now: Calendar.Time): (r: int)
    ensures 0 <= r <= now
    ensures r / Calendar.SecondsPerDay == now / Calendar.SecondsPerDay
    ensures r % Calendar.SecondsPerDay == now % Calendar.SecondsPerMinute
  {
    var dt := Calendar.ToDateTime(now);
    now - (dt.hour * Calendar.SecondsPerHour + dt.minute * Calendar.SecondsPerMinute)
  }

  /** `now - timedelta(hours=hours)` can be computed: the duration fits in a `timedelta`
      and the instant it reaches fits in a `datetime`. */
  predicate LookbackInRange(now: Calendar.Time, hours: int) {
    && Calendar.DeltaInRange(hours * Calendar.SecondsPerHour)
    && Calendar.DateInRange(now - hours * Calendar.SecondsPerHour)
  }

  /** The `metrics [amt]` query. With `amt`, the documents of the last `amt` hours, at most
      `amt` of them; without it, every document since the start of the current day. The
      start of the window is computed before the length is checked. */
  function MetricsWindow(collection: seq<Graphing.Document>, now: Calendar.Time, amt: Option<int>)
    : (r: Result<seq<Graphing.Document>, QueryError>)
    ensures r == Err(OutOfRange) <==> amt.Some? && !LookbackInRange(now, amt.value)
    ensures r == Err(NegativeLength) <==> amt.Some? && LookbackInRange(now, amt.value) && amt.value < 0
    ensures r.Ok? && amt.Some? ==> |r.value| <= amt.value
    ensures r.Ok? && amt.Some? ==>
              && |r.value| == Min(amt.value, |Matching(collection, now - amt.value * Calendar.SecondsPerHour)|)
              && (forall d :: d in r.value ==> d in collection && d.datetime >= now - amt.value * Calendar.SecondsPerHour)
              && r.value == Matching(collection, now - amt.value * Calendar.SecondsPerHour)[..|r.value|]
    ensures amt.None? ==> r == Ok(Matching(collection, StartOfDay(now)))
  {
    match amt
    case None => Ok(TakeMatching(collection, StartOfDay(now), None))
    case Some(n) =>
      if !LookbackInRange(now, n) then Err(OutOfRange)
      else if n < 0 then Err(NegativeLength)
      else
        var r := TakeMatching(collection, now - n * Calendar.SecondsPerHour, Some(n));
        var all := Matching(collection, now - n * Calendar.SecondsPerHour);
        assert forall d :: d in r ==> d in all;
        Ok(r)
  }

  /** On 1 January 2021, `metrics 20000000` reaches back before year 1 and fails, while
      `metrics 24` does not. */
  lemma ExampleLookbackTooFar(collection: seq<Graphing.Document>)
    ensures MetricsWindow(collection, 1609459200, Some(20000000)) == Err(OutOfRange)
    ensures MetricsWindow(collection, 1609459200, Some(24)).Ok?
  {
  }
}
