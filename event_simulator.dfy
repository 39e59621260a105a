/**
 * `simulateEvents` (frontend/src/mock.js): pick 20-30% of the cameras,
 * at least one, by shuffling a copy and taking a prefix, and decorate each
 * pick with an event type, a detection time and a confidence.
 *
 * The source calls `Math.random()` and `new Date()` directly; here their
 * outcomes are parameters (see `Draws`), so the simulator is a function.
 */
module EventSimulator {
  import opened Json
  import opened CameraLoader
  import opened Tally

  /** The category vocabulary of mock.js. */
  const EventTypes: seq<string> := ["fire", "dense_traffic", "sparse_traffic", "accident"]

  /**
   * A camera's data plus the three properties the simulator assigns. The
   * source spreads the camera and then sets these three, so they win over
   * any camera property of the same name; here they are separate fields.
   * `detectedAt` is the clock reading in milliseconds.
   */
  datatype Event = Event(camera: Camera, eventType: string, detectedAt: int, confidence: real)

  /**
   * The outcomes of the random source for one call: the draw behind the
   * percentage, the order the random-comparator sort leaves the copy in,
   * and one draw for the type and one for the confidence of each event.
   */
  datatype Draws = Draws(fractionDraw: real, shuffled: seq<Camera>, typeDraws: seq<real>, confidenceDraws: seq<real>)

  /** What `Math.random()` returns. */
  predicate UnitInterval(x: real)
  {
    0.0 <= x < 1.0
  }

  predicate AllUnit(xs: seq<real>)
  {
    forall i :: 0 <= i < |xs| ==> UnitInterval(xs[i])
  }

  predicate NonDecreasing(clock: seq<int>)
  {
    forall i, j :: 0 <= i <= j < |clock| ==> clock[i] <= clock[j]
  }

  /**
   * The draws and clock readings a call over `cameras` can see: every draw
   * in [0, 1), the sort's outcome a reordering of the copy, and enough
   * draws and readings for every camera. The wall clock may step back.
   */
  predicate Admissible(cameras: seq<Camera>, d: Draws, clock: seq<int>)
  {
    && UnitInterval(d.fractionDraw)
    && multiset(d.shuffled) == multiset(cameras)
    && |d.typeDraws| >= |cameras| && AllUnit(d.typeDraws)
    && |d.confidenceDraws| >= |cameras| && AllUnit(d.confidenceDraws)
    && |clock| >= |cameras|
  }

  /** `0.2 + Math.random() * 0.1`, the selected fraction. */
  function Percentage(fractionDraw: real): (p: real)
    requires UnitInterval(fractionDraw)
    ensures 0.2 <= p < 0.3
  {
    0.2 + fractionDraw * 0.1
  }

  /**
   * `Math.floor(n * percentage)`, raised to 1 when it is 0 and there is a
   * camera: the floor of `n * p` whenever that is at least one, else one.
   */
  function EventCount(n: nat, fractionDraw: real): (count: nat)
    requires UnitInterval(fractionDraw)
    ensures n == 0 ==> count == 0
    ensures n > 0 ==> 1 <= count <= n
    ensures n > 0 && n as real * Percentage(fractionDraw) >= 1.0 ==>
              count as real <= n as real * Percentage(fractionDraw) < count as real + 1.0
    ensures n > 0 && n as real * Percentage(fractionDraw) < 1.0 ==> count == 1
  {
    var p := Percentage(fractionDraw);
    assert 0.0 <= n as real * p <= n as real * 0.3 by {
      assert n as real * p - n as real * 0.3 == n as real * (p - 0.3);
    }
    var floor := (n as real * p).Floor;
    if floor == 0 && n > 0 then 1 else floor
  }

  /** `Math.floor(Math.random() * k)`: an index into a list of `k` categories. */
  function TypeIndex(draw: real, k: nat): (i: nat)
    requires UnitInterval(draw) && k > 0
    ensures i < k
  {
    assert 0.0 <= draw * k as real < k as real by {
      assert k as real - draw * k as real == (1.0 - draw) * k as real;
    }
    (draw * k as real).Floor
  }

  /** `Math.random() * 0.3 + 0.7`. */
  function Confidence(draw: real): (c: real)
    requires UnitInterval(draw)
    ensures 0.7 <= c < 1.0
  {
    draw * 0.3 + 0.7
  }

  /** The cameras the events were made from, in order. */
  function CamerasOf(events: seq<Event>): (cams: seq<Camera>)
    ensures |cams| == |events|
    ensures forall i :: 0 <= i < |events| ==> cams[i] == events[i].camera
  {
    seq(|events|, i requires 0 <= i < |events| => events[i].camera)
  }

  /**
   * `simulateEvents(cameras)`: no cameras, no events; otherwise the first
   * `EventCount` cameras of the shuffled copy, the i-th decorated with the
   * i-th type draw, clock reading and confidence draw. `eventTypes` is the
   * category list (`EventTypes` in the source).
   */
  function SimulateEvents(eventTypes: seq<string>, cameras: seq<Camera>, d: Draws, clock: seq<int>): (events: seq<Event>)
    requires |eventTypes| > 0
    requires Admissible(cameras, d, clock)
    ensures cameras == [] ==> events == []
    ensures cameras != [] ==> |events| == EventCount(|cameras|, d.fractionDraw)
    ensures cameras != [] ==> 1 <= |events| <= |cameras|
    ensures |events| <= |d.shuffled|
    ensures CamerasOf(events) == d.shuffled[..|events|]
    ensures forall i :: 0 <= i < |events| ==>
              events[i].eventType == eventTypes[TypeIndex(d.typeDraws[i], |eventTypes|)] &&
              events[i].confidence == Confidence(d.confidenceDraws[i]) &&
              events[i].detectedAt == clock[i]
    ensures forall i :: 0 <= i < |events| ==> events[i].eventType in eventTypes
    ensures forall i :: 0 <= i < |events| ==> 0.7 <= events[i].confidence < 1.0
  {
    if |cameras| == 0 then []
    else
      assert |d.shuffled| == |cameras| by {
        assert |multiset(d.shuffled)| == |multiset(cameras)|;
      }
      var count := EventCount(|cameras|, d.fractionDraw);
      seq(count, i requires 0 <= i < count =>
        Event(d.shuffled[i],
              eventTypes[TypeIndex(d.typeDraws[i], |eventTypes|)],
              clock[i],
              Confidence(d.confidenceDraws[i])))
  }

  /**
   * Detection times follow the clock: when the clock does not step back
   * during the call, neither do the events' times.
   */
  lemma DetectionTimesFollowClock(eventTypes: seq<string>, cameras: seq<Camera>, d: Draws, clock: seq<int>)
    requires |eventTypes| > 0
    requires Admissible(cameras, d, clock)
    requires NonDecreasing(clock)
    ensures var events := SimulateEvents(eventTypes, cameras, d, clock);
            forall i, j :: 0 <= i <= j < |events| ==> events[i].detectedAt <= events[j].detectedAt
  {
    var events := SimulateEvents(eventTypes, cameras, d, clock);
    forall i, j | 0 <= i <= j < |events| ensures events[i].detectedAt <= events[j].detectedAt {
      assert events[i].detectedAt == clock[i] && events[j].detectedAt == clock[j];
    }
  }

  /** Every event's camera is a camera of the input: a prefix of a reordering is a sub-multiset of the input. */
  lemma SelectionIsSubMultiset(eventTypes: seq<string>, cameras: seq<Camera>, d: Draws, clock: seq<int>)
    requires |eventTypes| > 0
    requires Admissible(cameras, d, clock)
    ensures multiset(CamerasOf(SimulateEvents(eventTypes, cameras, d, clock))) <= multiset(cameras)
    ensures forall e :: e in SimulateEvents(eventTypes, cameras, d, clock) ==> e.camera in cameras
  {
    var events := SimulateEvents(eventTypes, cameras, d, clock);
    var k := |events|;
    assert |d.shuffled| == |cameras| by {
      assert |multiset(d.shuffled)| == |multiset(cameras)|;
    }
    assert d.shuffled == d.shuffled[..k] + d.shuffled[k..];
    assert multiset(d.shuffled[..k]) <= multiset(d.shuffled);
    forall e | e in events ensures e.camera in cameras {
      var i :| 0 <= i < k && events[i] == e;
      assert CamerasOf(events)[i] == e.camera;
      assert e.camera in multiset(cameras);
    }
  }

  /** A list with no repeated element has every multiplicity at most one, and conversely. */
  lemma {:induction false} DistinctMultiplicity<T>(s: seq<T>)
    ensures Distinct(s) <==> (forall x :: multiset(s)[x] <= 1)
  {
    if |s| > 0 {
      var n := |s| - 1;
      var init := s[..n];
      assert s == init + [s[n]];
      DistinctMultiplicity(init);
      if Distinct(s) {
        assert Distinct(init) by {
          forall i, j | 0 <= i < j < |init| ensures init[i] != init[j] {
            assert init[i] == s[i] && init[j] == s[j];
          }
        }
        assert s[n] !in init by {
          forall i | 0 <= i < |init| ensures init[i] != s[n] {
            assert init[i] == s[i];
          }
        }
      } else {
        var i, j :| 0 <= i < j < |s| && s[i] == s[j];
        assert multiset(s) == multiset(init) + multiset{s[n]};
        if j < n {
          assert init[i] == init[j];
          var x :| multiset(init)[x] > 1;
          assert multiset(s)[x] > 1;
        } else {
          assert s[i] in init by { assert init[i] == s[i]; }
          assert multiset(s)[s[n]] == multiset(init)[s[n]] + 1;
        }
      }
    }
  }

  /**
   * Selection is without replacement: if the input holds no camera twice,
   * neither does the result.
   */
  lemma NoCameraTwice(eventTypes: seq<string>, cameras: seq<Camera>, d: Draws, clock: seq<int>)
    requires |eventTypes| > 0
    requires Admissible(cameras, d, clock)
    requires Distinct(cameras)
    ensures var events := SimulateEvents(eventTypes, cameras, d, clock);
            Distinct(CamerasOf(events))
  {
    var events := SimulateEvents(eventTypes, cameras, d, clock);
    var cams := CamerasOf(events);
    SelectionIsSubMultiset(eventTypes, cameras, d, clock);
    DistinctMultiplicity(cameras);
    DistinctMultiplicity(cams);
    forall i, j | 0 <= i < j < |events| ensures events[i].camera != events[j].camera {
      assert cams[i] == events[i].camera && cams[j] == events[j].camera;
    }
  }

  /**
   * With identifiers unique across the input, the selected cameras'
   * identifiers are pairwise distinct.
   */
  lemma DistinctKeys(eventTypes: seq<string>, cameras: seq<Camera>, d: Draws, clock: seq<int>)
    requires |eventTypes| > 0
    requires Admissible(cameras, d, clock)
    requires forall i, j :: 0 <= i < j < |cameras| ==> Get(cameras[i], "key") != Get(cameras[j], "key")
    ensures var events := SimulateEvents(eventTypes, cameras, d, clock);
            forall i, j :: 0 <= i < j < |events| ==> Get(events[i].camera, "key") != Get(events[j].camera, "key")
  {
    var events := SimulateEvents(eventTypes, cameras, d, clock);
    SelectionIsSubMultiset(eventTypes, cameras, d, clock);
    NoCameraTwice(eventTypes, cameras, d, clock);
    forall i, j | 0 <= i < j < |events|
      ensures Get(events[i].camera, "key") != Get(events[j].camera, "key")
    {
      assert events[i] in events && events[j] in events;
      var a :| 0 <= a < |cameras| && cameras[a] == events[i].camera;
      var b :| 0 <= b < |cameras| && cameras[b] == events[j].camera;
      assert a != b;
    }
  }

  /** Up to six cameras always give exactly one event: six times 0.3 is below two. */
  lemma FewCamerasOneEvent(n: nat, fractionDraw: real)
    requires 1 <= n <= 6 && UnitInterval(fractionDraw)
    ensures EventCount(n, fractionDraw) == 1
  {
    var x := n as real * Percentage(fractionDraw);
    assert x < 2.0 by {
      if n == 1 { } else if n == 2 { } else if n == 3 { } else if n == 4 { } else if n == 5 { } else { assert n == 6; }
    }
    assert x.Floor <= 1 by {
      assert x.Floor as real <= x;
    }
  }
}
