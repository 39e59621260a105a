/**
 * The statistics of frontend/src/components/Sidebar.jsx: for every key of
 * `eventConfig`, the events whose `type` is that key, their number and
 * their mean confidence (or the text '0.00' when there are none).
 *
 * Sidebar reads plain event objects, so events here are records; the float
 * value of the mean and its `toFixed(2)` text are not modelled -- what is
 * kept is which confidences would be summed and what they are divided by.
 */
module SidebarStats {
  import opened Json
  import opened Tally
  import opened EventSimulator

  /** One entry of `eventConfig`: the key and its legend data. */
  datatype ConfigEntry = ConfigEntry(key: string, displayLabel: string, color: string, icon: string)

  /** `eventConfig`, whose keys the sidebar iterates in insertion order. */
  const EventConfig: seq<ConfigEntry> := [
    ConfigEntry("traffic", "Traffic", "#ef4444", "\U{1F6A6}"),
    ConfigEntry("construction", "Construction", "#f97316", "\U{1F6A7}"),
    ConfigEntry("accident", "Accident", "#a855f7", "\U{1F691}"),
    ConfigEntry("flood", "Flood", "#3b82f6", "\U{1F30A}")
  ]

  /** `Object.keys(config)`. */
  function ConfigKeys(config: seq<ConfigEntry>): (keys: seq<string>)
    ensures |keys| == |config|
    ensures forall i :: 0 <= i < |config| ==> keys[i] == config[i].key
  {
    seq(|config|, i requires 0 <= i < |config| => config[i].key)
  }

  /** `e.type === t`. */
  predicate HasType(e: Record, t: string)
  {
    Get(e, "type") == Str(t)
  }

  /**
   * `events.filter(e => e.type === t)`: the events of type `t`, in their
   * order (`TypeEventsAppend`), each as often as it occurs and no other
   * event (`TypeEventsMultiset`).
   */
  function TypeEvents(events: seq<Record>, t: string): (r: seq<Record>)
    ensures |r| <= |events|
    ensures forall e :: e in r ==> e in events && HasType(e, t)
    ensures forall e :: e in events && HasType(e, t) ==> e in r
  {
    if |events| == 0 then []
    else
      var n := |events| - 1;
      assert forall e :: e in events <==> e in events[..n] || e == events[n] by {
        assert events == events[..n] + [events[n]];
      }
      TypeEvents(events[..n], t) + (if HasType(events[n], t) then [events[n]] else [])
  }

  /** Filtering a list with one more event at the end. */
  lemma TypeEventsSnoc(xs: seq<Record>, e: Record, t: string)
    ensures TypeEvents(xs + [e], t) == TypeEvents(xs, t) + (if HasType(e, t) then [e] else [])
  {
    assert (xs + [e])[..|xs|] == xs;
  }

  /**
   * The filter distributes over concatenation, so it keeps the matching
   * events in their order: filtering a list piece by piece and joining the
   * pieces gives the same list.
   */
  lemma {:induction false} TypeEventsAppend(a: seq<Record>, b: seq<Record>, t: string)
    ensures TypeEvents(a + b, t) == TypeEvents(a, t) + TypeEvents(b, t)
  {
    if |b| == 0 {
      assert a + b == a;
    } else {
      var n := |b| - 1;
      assert b == b[..n] + [b[n]];
      assert a + b == (a + b[..n]) + [b[n]];
      TypeEventsSnoc(a + b[..n], b[n], t);
      TypeEventsSnoc(b[..n], b[n], t);
      TypeEventsAppend(a, b[..n], t);
    }
  }

  /** One event is kept exactly when it has type `t`. */
  lemma TypeEventsSingle(e: Record, t: string)
    ensures TypeEvents([e], t) == if HasType(e, t) then [e] else []
  {
    assert [e][..0] == [];
  }

  /** The filter keeps each event of type `t` as often as it occurs, and no other event. */
  lemma {:induction false} TypeEventsMultiset(events: seq<Record>, t: string, e: Record)
    ensures multiset(TypeEvents(events, t))[e] == if HasType(e, t) then multiset(events)[e] else 0
  {
    if |events| > 0 {
      var n := |events| - 1;
      TypeEventsMultiset(events[..n], t, e);
      assert events == events[..n] + [events[n]];
      assert multiset(events) == multiset(events[..n]) + multiset{events[n]};
    }
  }

  /**
   * The property `k` of each event, in order: `e.type` for the filter and
   * `e.confidence` for what the `reduce` adds up.
   */
  function Fields(events: seq<Record>, k: string): (vs: seq<Value>)
    ensures |vs| == |events|
    ensures forall i :: 0 <= i < |events| ==> vs[i] == Get(events[i], k)
  {
    seq(|events|, i requires 0 <= i < |events| => Get(events[i], k))
  }

  /** The filter keeps one event per position whose `type` is `t`. */
  lemma {:induction false} TypeEventsCount(events: seq<Record>, t: string)
    ensures |TypeEvents(events, t)| == Count(Fields(events, "type"), Str(t))
  {
    if |events| > 0 {
      var n := |events| - 1;
      TypeEventsCount(events[..n], t);
      assert Fields(events, "type") == Fields(events[..n], "type") + [Get(events[n], "type")];
      CountAppend(Fields(events[..n], "type"), Get(events[n], "type"), Str(t));
    }
  }

  /**
   * `avgConfidence`: the literal '0.00' when no event has the type, so no
   * division happens; otherwise the confidences that are summed and the
   * count they are divided by.
   */
  datatype Average = Literal(text: string) | Quotient(summands: seq<Value>, divisor: nat)

  /** `stats[t]`. */
  datatype TypeStat = TypeStat(count: nat, avgConfidence: Average)

  /** The statistic Sidebar computes for the key `t`. */
  function StatFor(events: seq<Record>, t: string): (s: TypeStat)
    ensures s.count == Count(Fields(events, "type"), Str(t))
    ensures s.avgConfidence.Literal? <==> s.count == 0
    ensures s.avgConfidence.Literal? ==> s.avgConfidence.text == "0.00"
    ensures s.avgConfidence.Quotient? ==>
              s.avgConfidence.divisor == s.count > 0 && |s.avgConfidence.summands| == s.count
    ensures s.avgConfidence.Quotient? ==>
              multiset(s.avgConfidence.summands) == multiset(Fields(TypeEvents(events, t), "confidence"))
  {
    var te := TypeEvents(events, t);
    TypeEventsCount(events, t);
    TypeStat(|te|, if |te| > 0 then Quotient(Fields(te, "confidence"), |te|) else Literal("0.00"))
  }

  /** The event has type `t` and confidence `v`. */
  predicate Carries(e: Record, t: string, v: Value)
  {
    HasType(e, t) && Get(e, "confidence") == v
  }

  /** The events of type `t` whose confidence is `v`, by position. */
  ghost function MatchingAt(events: seq<Record>, t: string, v: Value): set<nat>
  {
    set i: nat | i < |events| && Carries(events[i], t, v)
  }

  lemma MatchingAtStep(events: seq<Record>, t: string, v: Value)
    requires |events| > 0
    ensures var n := |events| - 1;
            |MatchingAt(events, t, v)| ==
            |MatchingAt(events[..n], t, v)| + (if Carries(events[n], t, v) then 1 else 0)
  {
    var n := |events| - 1;
    var last: set<nat> := if Carries(events[n], t, v) then {n} else {};
    MatchingAtSplit(events, t, v);
    assert MatchingAt(events[..n], t, v) !! last;
  }

  /** The matching positions of a list are those of its prefix plus, possibly, the last one. */
  lemma MatchingAtSplit(events: seq<Record>, t: string, v: Value)
    requires |events| > 0
    ensures var n := |events| - 1;
            MatchingAt(events, t, v) ==
            MatchingAt(events[..n], t, v) + (if Carries(events[n], t, v) then {n} else {})
  {
    var n := |events| - 1;
    var whole, init := MatchingAt(events, t, v), MatchingAt(events[..n], t, v);
    var last: set<nat> := if Carries(events[n], t, v) then {n} else {};
    forall i | i in whole ensures i in init + last {
      if i < n { assert events[..n][i] == events[i]; }
    }
    forall i | i in init + last ensures i in whole {
      if i in init { assert events[..n][i] == events[i]; }
    }
  }

  /**
   * The summed values are exactly the `confidence` properties of the
   * events of type `t`: each value occurs once per such event carrying it.
   */
  lemma {:induction false} SummandsAreMatchingConfidences(events: seq<Record>, t: string, v: Value)
    ensures multiset(Fields(TypeEvents(events, t), "confidence"))[v] == |MatchingAt(events, t, v)|
  {
    if |events| == 0 {
      assert MatchingAt(events, t, v) == {};
    } else {
      var n := |events| - 1;
      SummandsAreMatchingConfidences(events[..n], t, v);
      MatchingAtStep(events, t, v);
      var teN := TypeEvents(events[..n], t);
      var extra := if HasType(events[n], t) then [events[n]] else [];
      assert Fields(teN + extra, "confidence") == Fields(teN, "confidence") + Fields(extra, "confidence");
    }
  }

  /**
   * `calculateStats()`: an empty object filled key by key while iterating
   * over the keys of `config` (`eventConfig` in the source).
   */
  method CalculateStats(config: seq<ConfigEntry>, events: seq<Record>) returns (stats: map<string, TypeStat>)
    ensures forall t :: t in stats <==> t in ConfigKeys(config)
    ensures forall t :: t in stats ==> stats[t] == StatFor(events, t)
  {
    var keys := ConfigKeys(config);
    stats := map[];
    for i := 0 to |keys|
      invariant forall t :: t in stats <==> t in keys[..i]
      invariant forall t :: t in stats ==> stats[t] == StatFor(events, t)
    {
      assert keys[..i + 1] == keys[..i] + [keys[i]];
      stats := stats[keys[i] := StatFor(events, keys[i])];
    }
    assert keys[..|keys|] == keys;
  }

  /** The sidebar's statistics have one entry for each of its four categories. */
  lemma ConfigCategories()
    ensures ConfigKeys(EventConfig) == ["traffic", "construction", "accident", "flood"]
    ensures Distinct(ConfigKeys(EventConfig))
  {
  }

  /** Each count is the number of positions whose event has `type` equal to the key. */
  lemma CountIsEventsOfType(events: seq<Record>, t: string)
    ensures StatFor(events, t).count == |set i: nat | i < |events| && HasType(events[i], t)|
  {
    CountIsPositions(Fields(events, "type"), Str(t));
    assert Positions(Fields(events, "type"), Str(t)) == set i: nat | i < |events| && HasType(events[i], t);
  }

  /** The counts stored for `keys`, summed. */
  function SumOfCounts(keys: seq<string>, events: seq<Record>): nat
  {
    if |keys| == 0 then 0 else StatFor(events, keys[0]).count + SumOfCounts(keys[1..], events)
  }

  /** Each key as the string value `type` is compared with. */
  function AsValues(keys: seq<string>): (vs: seq<Value>)
    ensures |vs| == |keys|
    ensures forall i :: 0 <= i < |keys| ==> vs[i] == Str(keys[i])
  {
    seq(|keys|, i requires 0 <= i < |keys| => Str(keys[i]))
  }

  lemma {:induction false} SumOfCountsIsTotal(keys: seq<string>, events: seq<Record>)
    ensures SumOfCounts(keys, events) == Total(AsValues(keys), Fields(events, "type"))
  {
    if |keys| > 0 {
      SumOfCountsIsTotal(keys[1..], events);
      assert AsValues(keys)[1..] == AsValues(keys[1..]);
    }
  }

  /**
   * An event whose `type` is not a key is counted nowhere: over distinct
   * keys the counts sum to at most the number of events, and to exactly
   * that number precisely when every event's `type` is one of the keys.
   */
  lemma SumOfCountsBound(keys: seq<string>, events: seq<Record>)
    requires Distinct(keys)
    ensures SumOfCounts(keys, events) <= |events|
    ensures SumOfCounts(keys, events) == |events| <==>
              forall i :: 0 <= i < |events| ==> exists k :: k in keys && HasType(events[i], k)
  {
    SumOfCountsIsTotal(keys, events);
    var vs := AsValues(keys);
    assert Distinct(vs);
    TotalBound(vs, Fields(events, "type"));
    forall i | 0 <= i < |events|
      ensures Fields(events, "type")[i] in vs <==> exists k :: k in keys && HasType(events[i], k)
    {
      if Fields(events, "type")[i] in vs {
        var j :| 0 <= j < |vs| && vs[j] == Fields(events, "type")[i];
        assert keys[j] in keys && HasType(events[i], keys[j]);
      }
      if exists k :: k in keys && HasType(events[i], k) {
        var k :| k in keys && HasType(events[i], k);
        var j :| 0 <= j < |keys| && keys[j] == k;
        assert vs[j] == Fields(events, "type")[i];
      }
    }
  }

  /**
   * A simulated event as the plain object mock.js builds: the camera's
   * properties with `eventType`, `detectedAt` (as its millisecond value)
   * and `confidence` set over them.
   */
  function AsRecord(e: Event): (r: Record)
    ensures r.Keys == e.camera.Keys + {"eventType", "detectedAt", "confidence"}
    ensures Get(r, "eventType") == Str(e.eventType) && Get(r, "confidence") == Num(e.confidence)
    ensures Get(r, "detectedAt") == Num(e.detectedAt as real)
    ensures forall k :: k in e.camera && k !in {"eventType", "detectedAt", "confidence"} ==> Get(r, k) == e.camera[k]
  {
    e.camera["eventType" := Str(e.eventType)]["detectedAt" := Num(e.detectedAt as real)]["confidence" := Num(e.confidence)]
  }

  /**
   * The two vocabularies do not meet: mock.js sets `eventType`, Sidebar
   * reads `type`, so events simulated from cameras without a `type`
   * property count zero under every key.
   */
  lemma SimulatedEventsCountNowhere(events: seq<Event>, t: string)
    requires forall i :: 0 <= i < |events| ==> "type" !in events[i].camera
    ensures StatFor(seq(|events|, i requires 0 <= i < |events| => AsRecord(events[i])), t).count == 0
  {
    var records := seq(|events|, i requires 0 <= i < |events| => AsRecord(events[i]));
    var types := Fields(records, "type");
    forall i | 0 <= i < |types| ensures types[i] != Str(t) {
      assert records[i] == AsRecord(events[i]);
      assert "type" !in records[i];
    }
    CountAbsent(types, Str(t));
  }

  /**
   * The vocabularies meet only through the camera: the spread copies a
   * camera's own `type` into its event, and Sidebar counts it.
   */
  lemma CameraTypeIsCounted(e: Event, t: string)
    requires Get(e.camera, "type") == Str(t)
    ensures StatFor([AsRecord(e)], t).count == 1
  {
    var types := Fields([AsRecord(e)], "type");
    assert types == [] + [Str(t)];
    CountAppend([], Str(t), Str(t));
  }
}
