/**
 * The two read-only summaries in frontend/src/mock.js: `getMostRecentEvent`
 * (a `reduce` with a strict `>`) and `calculateStats` (a counter per
 * category, incremented in a `forEach`).
 */
module Aggregator {
  import opened Wrappers
  import opened Tally
  import opened CameraLoader
  import opened EventSimulator

  /**
   * The callback of `events.reduce(...)` applied from position `i` on, with
   * `latest` as the accumulator: a later event replaces it only when its
   * time is strictly greater.
   */
  function ReduceLatest(events: seq<Event>, latest: Event, i: nat): (r: Event)
    requires i <= |events|
    ensures r == latest || r in events[i..]
    ensures r.detectedAt >= latest.detectedAt
    ensures forall j :: i <= j < |events| ==> events[j].detectedAt <= r.detectedAt
    decreases |events| - i
  {
    if i == |events| then latest
    else ReduceLatest(events, if events[i].detectedAt > latest.detectedAt then events[i] else latest, i + 1)
  }

  /** `getMostRecentEvent(events)`: `null` for no events, else the reduce seeded with the first one. */
  function MostRecent(events: seq<Event>): (r: Option<Event>)
    ensures r.None? <==> events == []
    ensures r.Some? ==> r.value in events
    ensures r.Some? ==> forall j :: 0 <= j < |events| ==> events[j].detectedAt <= r.value.detectedAt
  {
    if |events| == 0 then None else Some(ReduceLatest(events, events[0], 1))
  }

  /**
   * Position `m` holds a latest event of `events[..n]`, and no earlier
   * position of that prefix is as late.
   */
  predicate LeftmostLatest(events: seq<Event>, n: nat, m: nat)
    requires n <= |events|
  {
    && m < n
    && (forall j :: 0 <= j < n ==> events[j].detectedAt <= events[m].detectedAt)
    && (forall j :: 0 <= j < m ==> events[j].detectedAt < events[m].detectedAt)
  }

  /** The position the reduce's accumulator holds, from position `i` on, when it starts at position `m`. */
  function LatestIndex(events: seq<Event>, m: nat, i: nat): (k: nat)
    requires m < i <= |events|
    ensures k < |events|
    decreases |events| - i
  {
    if i == |events| then m
    else LatestIndex(events, if events[i].detectedAt > events[m].detectedAt then i else m, i + 1)
  }

  /** The reduce's accumulator is always the event at that position. */
  lemma {:induction false} ReduceLatestAt(events: seq<Event>, m: nat, i: nat)
    requires m < i <= |events|
    ensures ReduceLatest(events, events[m], i) == events[LatestIndex(events, m, i)]
    decreases |events| - i
  {
    if i < |events| {
      var m' := if events[i].detectedAt > events[m].detectedAt then i else m;
      assert ReduceLatest(events, events[m], i) == ReduceLatest(events, events[m'], i + 1);
      ReduceLatestAt(events, m', i + 1);
    }
  }

  /** Starting from the leftmost latest position of a prefix, the reduce ends at that of the whole list. */
  lemma {:induction false} LatestIndexIsLeftmost(events: seq<Event>, m: nat, i: nat)
    requires m < i <= |events| && LeftmostLatest(events, i, m)
    ensures LeftmostLatest(events, |events|, LatestIndex(events, m, i))
    decreases |events| - i
  {
    if i < |events| {
      var m' := if events[i].detectedAt > events[m].detectedAt then i else m;
      assert LeftmostLatest(events, i + 1, m');
      LatestIndexIsLeftmost(events, m', i + 1);
    }
  }

  /**
   * `getMostRecentEvent` returns `null` exactly for no events, and
   * otherwise the event at the leftmost position of the latest time.
   */
  lemma MostRecentIsLeftmostLatest(events: seq<Event>)
    ensures MostRecent(events).None? <==> events == []
    ensures events != [] ==> exists k: nat :: LeftmostLatest(events, |events|, k) && MostRecent(events) == Some(events[k])
  {
    if events != [] {
      assert LeftmostLatest(events, 1, 0);
      ReduceLatestAt(events, 0, 1);
      LatestIndexIsLeftmost(events, 0, 1);
    }
  }

  /** The leftmost latest position is unique, so the tie-break determines the answer. */
  lemma LeftmostLatestUnique(events: seq<Event>, k: nat, k': nat)
    requires LeftmostLatest(events, |events|, k) && LeftmostLatest(events, |events|, k')
    ensures k == k'
  {
    assert events[k].detectedAt == events[k'].detectedAt;
  }

  /** A single event is its own most recent one. */
  lemma MostRecentSingle(e: Event)
    ensures MostRecent([e]) == Some(e)
  {
  }

  /** Of two events with the same time, the first one wins. */
  lemma MostRecentTieKeepsFirst(a: Event, b: Event)
    requires a.detectedAt == b.detectedAt
    ensures MostRecent([a, b]) == Some(a)
  {
    assert ReduceLatest([a, b], a, 1) == ReduceLatest([a, b], a, 2);
  }

  /** The category of each event, in order. */
  function TypesOf(events: seq<Event>): (types: seq<string>)
    ensures |types| == |events|
    ensures forall i :: 0 <= i < |events| ==> types[i] == events[i].eventType
  {
    seq(|events|, i requires 0 <= i < |events| => events[i].eventType)
  }

  /** The counters `calculateStats` ends with: one per category, the number of events of that category. */
  function TypeCounts(categories: seq<string>, events: seq<Event>): map<string, nat>
  {
    map c | c in categories :: Count(TypesOf(events), c)
  }

  /**
   * `calculateStats(events)`: a zeroed counter for each category (the four
   * of `EventTypes` in the source), then one increment per event whose type
   * has a counter; other types are skipped.
   */
  method CalculateStats(categories: seq<string>, events: seq<Event>) returns (stats: map<string, nat>)
    ensures stats == TypeCounts(categories, events)
  {
    stats := map c | c in categories :: 0;
    assert TypesOf(events[..0]) == [];
    var i := 0;
    while i < |events|
      invariant 0 <= i <= |events|
      invariant stats == TypeCounts(categories, events[..i])
    {
      var t := events[i].eventType;
      assert TypesOf(events[..i + 1]) == TypesOf(events[..i]) + [t];
      forall c | c in categories
        ensures Count(TypesOf(events[..i + 1]), c) == Count(TypesOf(events[..i]), c) + (if t == c then 1 else 0)
      {
        CountAppend(TypesOf(events[..i]), t, c);
      }
      if t in stats {
        stats := stats[t := stats[t] + 1];
      }
      i := i + 1;
    }
    assert events[..i] == events;
  }

  /**
   * The counters have exactly the categories as keys, and each one is the
   * number of positions whose event has that category.
   */
  lemma TypeCountsMeaning(categories: seq<string>, events: seq<Event>)
    ensures TypeCounts(categories, events).Keys == set c | c in categories
    ensures forall c :: c in categories ==>
              TypeCounts(categories, events)[c] == |set i: nat | i < |events| && events[i].eventType == c|
  {
    forall c | c in categories
      ensures TypeCounts(categories, events)[c] == |set i: nat | i < |events| && events[i].eventType == c|
    {
      CountIsPositions(TypesOf(events), c);
      assert Positions(TypesOf(events), c) == set i: nat | i < |events| && events[i].eventType == c;
    }
  }

  /** In mock.js the statistics have exactly the four keys, each zero for no events. */
  lemma StatsOfNoEvents()
    ensures TypeCounts(EventTypes, []).Keys == {"fire", "dense_traffic", "sparse_traffic", "accident"}
    ensures forall c :: c in TypeCounts(EventTypes, []) ==> TypeCounts(EventTypes, [])[c] == 0
  {
    assert TypesOf([]) == [];
  }

  /**
   * Over distinct categories the stored counters sum to at most the number
   * of events, and to exactly that number precisely when every event's
   * type is one of the categories.
   */
  lemma StatsSumBound(categories: seq<string>, events: seq<Event>)
    requires Distinct(categories)
    ensures SumOf(categories, TypeCounts(categories, events)) <= |events|
    ensures SumOf(categories, TypeCounts(categories, events)) == |events| <==>
              forall i :: 0 <= i < |events| ==> events[i].eventType in categories
  {
    TotalIsSumOf(categories, categories, events);
    TotalBound(categories, TypesOf(events));
  }

  /**
   * End to end: every simulated event has one of the categories, so the
   * counters of a simulated batch sum to the number of events.
   */
  lemma SimulatedStatsSumToCount(eventTypes: seq<string>, cameras: seq<Camera>, d: Draws, clock: seq<int>)
    requires Distinct(eventTypes)
    requires |eventTypes| > 0
    requires Admissible(cameras, d, clock)
    ensures var events := SimulateEvents(eventTypes, cameras, d, clock);
            SumOf(eventTypes, TypeCounts(eventTypes, events)) == |events|
  {
    StatsSumBound(eventTypes, SimulateEvents(eventTypes, cameras, d, clock));
  }

  /** The sum of the counters stored under `keys`. */
  function SumOf(keys: seq<string>, counts: map<string, nat>): nat
  {
    if |keys| == 0 then 0 else (if keys[0] in counts then counts[keys[0]] else 0) + SumOf(keys[1..], counts)
  }

  lemma {:induction false} TotalIsSumOf(keys: seq<string>, categories: seq<string>, events: seq<Event>)
    requires forall k :: k in keys ==> k in categories
    ensures Total(keys, TypesOf(events)) == SumOf(keys, TypeCounts(categories, events))
  {
    if |keys| > 0 {
      assert keys[0] in keys;
      TotalIsSumOf(keys[1..], categories, events);
    }
  }

  /**
   * A refresh end to end: ten cameras left in place by the shuffle, a
   * percentage of 0.25, type draws giving fire then accident and
   * confidences 0.85 and 0.92 select the first two cameras; the counters
   * are fire 1, accident 1 and zero otherwise, and the later of the two is
   * the most recent one (the first on a tie).
   */
  lemma TenCameraRefresh(cameras: seq<Camera>, t0: int, t1: int)
    requires |cameras| == 10
    ensures var d := Draws(0.5, cameras, seq(10, i => if i == 1 then 0.75 else 0.0),
                           seq(10, i => if i == 1 then 11.0 / 15.0 else 0.5));
            var clock := seq(10, i => if i == 0 then t0 else t1);
            Admissible(cameras, d, clock) &&
            var events := SimulateEvents(EventTypes, cameras, d, clock);
            && events == [Event(cameras[0], "fire", t0, 0.85), Event(cameras[1], "accident", t1, 0.92)]
            && TypeCounts(EventTypes, events) == map["fire" := 1, "dense_traffic" := 0, "sparse_traffic" := 0, "accident" := 1]
            && MostRecent(events) == Some(if t1 > t0 then events[1] else events[0])
  {
    var d := Draws(0.5, cameras, seq(10, i => if i == 1 then 0.75 else 0.0),
                   seq(10, i => if i == 1 then 11.0 / 15.0 else 0.5));
    var clock := seq(10, i => if i == 0 then t0 else t1);
    assert Admissible(cameras, d, clock);
    assert EventCount(10, 0.5) == 2 by {
      assert (10.0 * Percentage(0.5)).Floor == 2;
    }
    assert TypeIndex(0.75, 4) == 3 && TypeIndex(0.0, 4) == 0;
    var events := SimulateEvents(EventTypes, cameras, d, clock);
    assert events == [Event(cameras[0], "fire", t0, 0.85), Event(cameras[1], "accident", t1, 0.92)];
    TwoEventCounts(events);
    assert ReduceLatest(events, events[0], 1) == ReduceLatest(events, if t1 > t0 then events[1] else events[0], 2);
  }

  lemma TwoEventCounts(events: seq<Event>)
    requires |events| == 2 && events[0].eventType == "fire" && events[1].eventType == "accident"
    ensures TypeCounts(EventTypes, events) == map["fire" := 1, "dense_traffic" := 0, "sparse_traffic" := 0, "accident" := 1]
  {
    var types := TypesOf(events);
    assert types == ["fire", "accident"];
    assert types == ([] + ["fire"]) + ["accident"];
    forall c | c in EventTypes
      ensures Count(types, c) == (if c == "fire" || c == "accident" then 1 else 0)
    {
      CountAppend([], "fire", c);
      CountAppend(["fire"], "accident", c);
    }
  }
}
