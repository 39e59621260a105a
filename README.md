# Urban event dashboard: simulation and aggregation core

A Dafny model of the logic behind a live-monitoring dashboard that shows
synthetic events on a map of traffic cameras. Three pieces are modelled:

- the camera loader's shape normalisation (`loadCameras` in
  `frontend/src/mock.js`): a nested `[ {cameras: [...]} ]` file or a flat
  list becomes a flat list of camera records, and anything else becomes `[]`;
- the event simulator (`simulateEvents`): for a fraction p drawn in
  [0.2, 0.3) it picks `floor(n·p)` of the n cameras, at least one, through a
  shuffled copy, and gives each pick an event type, a
  detection time and a confidence;
- the aggregators: `getMostRecentEvent` and the per-category counters of
  `calculateStats` in `mock.js`, and the per-key statistics of the sidebar
  (`calculateStats` inside `frontend/src/components/Sidebar.jsx`).

Modules, one per concern:

- `Wrappers`: `Option`.
- `Json`: the JavaScript values these helpers see. It covers `undefined`,
  `null`, booleans, numbers (as exact reals), strings, arrays and plain
  objects. It also defines truthiness, `||`, `v.k` (which throws on a
  nullish `v`), `v?.k` and `{...v}`.
- `Tally`: counting labels, summing counters over distinct keys, and the
  bound "sum ≤ number of labels, with equality exactly when every label is a key".
- `CameraLoader`, `EventSimulator`, `Aggregator`: the three parts of `mock.js`.
- `SidebarStats`: the sidebar's statistics.

The randomness and the clock are parameters (`EventSimulator.Draws` and
`clock`):

- the draw behind the percentage;
- the order the random-comparator sort leaves the copy in, as any
  reordering of the input;
- one draw for each event's type and one for its confidence, all in [0, 1);
- one clock reading per event (`new Date()` is read once per event). This is
  wall-clock time, which may step back, so the readings are arbitrary integers.

The simulator is therefore a function, and a repeated call with the same
draws gives the same events. Nothing here says how likely any selection is.

The repository has two inconsistencies. First, `mock.js` sets `eventType`
using the vocabulary fire/dense_traffic/sparse_traffic/accident, while the
sidebar reads `type` using traffic/construction/accident/flood. The model
keeps both as written, so events simulated from cameras that carry no
`type` property count nowhere in the sidebar (`SimulatedEventsCountNowhere`).
A camera's own `type` is copied into its event by the spread and is then
counted (`CameraTypeIsCounted`). Second, `frontend/src/App.js` imports
`initialEvents` and `simulateRefresh`, which `mock.js` does not export; the
orchestrator is not modelled (see "Left out").

Both category lists are parameters of the operations that use them. The
source's lists are constants: `EventSimulator.EventTypes` and
`SidebarStats.EventConfig`.

## Model

| member | source | states |
|---|---|---|
| `CameraLoader.NormaliseNested` | frontend/src/mock.js:16-21 | a nested entry throws exactly when it is nullish; otherwise it keeps every own property except `lat`, `lon` and `key`, adds exactly those three, copies `lat`/`lon` from `latitude`/`longitude`, and its `key` is `key` when truthy, else `id` |
| `CameraLoader.NormaliseFlat` | frontend/src/mock.js:26-29 | a flat entry throws exactly when it is nullish; otherwise it keeps every own property except `key`, adds `key`, and its `key` is `id` when truthy, else `key` (the reverse precedence) |
| `CameraLoader.MapAll` | frontend/src/mock.js:16-29 | `map` with a throwing callback succeeds exactly when the callback succeeds on every element, and then gives one result per element, in order |
| `CameraLoader.Normalise` | frontend/src/mock.js:13-36 | a parsed value that is not an array loads as `[]` |
| `CameraLoader.NestedShape` | frontend/src/mock.js:15-21 | when `data[0].cameras` is an array, the result has one camera per entry, each the nested normalisation of that entry; it is `[]` if some entry is nullish (the TypeError is caught) |
| `CameraLoader.FlatShape` | frontend/src/mock.js:25-30 | when `data[0]?.cameras` is falsy, the result has one camera per element of the array, each the flat normalisation of that element; it is `[]` if some element is nullish |
| `CameraLoader.NestedNonArray` | frontend/src/mock.js:15-35 | a truthy `cameras` that is not an array makes `.map` throw, so the load yields `[]` |
| `CameraLoader.KeyPrecedenceReversed` | frontend/src/mock.js:20-28 | a camera whose `key` and `id` are truthy and differ gets its `key` when nested and its `id` when flat |
| `EventSimulator.Percentage` | frontend/src/mock.js:45 | the fraction lies in [0.2, 0.3) for every draw in [0, 1) |
| `EventSimulator.EventCount` | frontend/src/mock.js:45-51 | zero cameras give zero; otherwise the count lies in [1, n]; it is the floor of n·p when n·p ≥ 1, and 1 when n·p < 1 |
| `EventSimulator.FewCamerasOneEvent` | frontend/src/mock.js:46-51 | one to six cameras always give exactly one event |
| `EventSimulator.TypeIndex` | frontend/src/mock.js:60 | `floor(draw * k)` is a valid index into the k categories |
| `EventSimulator.Confidence` | frontend/src/mock.js:62 | `draw * 0.3 + 0.7` lies in [0.7, 1.0) |
| `EventSimulator.SimulateEvents` | frontend/src/mock.js:42-64 | no cameras give no events; otherwise the number of events is `EventCount` and lies in [1, len]; the event cameras are exactly a prefix of the shuffled copy; the i-th event takes the type picked by the i-th type draw, the confidence of the i-th confidence draw and the i-th clock reading; every type is one of the categories; every confidence lies in [0.7, 1.0) |
| `EventSimulator.DetectionTimesFollowClock` | frontend/src/mock.js:61 | if the clock does not step back during the call, detection times never decrease along the result |
| `EventSimulator.SelectionIsSubMultiset` | frontend/src/mock.js:54-55 | the selected cameras form a sub-multiset of the input, so every event's camera is an input camera |
| `EventSimulator.NoCameraTwice` | frontend/src/mock.js:54-55 | if the input holds no camera twice, no camera is selected twice |
| `EventSimulator.DistinctKeys` | frontend/src/mock.js:54-59 | if the input cameras' `key`s are pairwise distinct, so are the selected cameras' `key`s |
| `Aggregator.ReduceLatest` | frontend/src/mock.js:71-73 | a later event replaces the accumulator only when its time is strictly greater: the result is the seed or a later event, no earlier than the seed and no earlier than any remaining event |
| `Aggregator.MostRecent` | frontend/src/mock.js:69-74 | `null` exactly for no events; otherwise the reduce seeded with the first event gives an event of the list whose time is ≥ every event's |
| `Aggregator.MostRecentIsLeftmostLatest` | frontend/src/mock.js:69-74 | the result is `null` exactly for no events; otherwise it is the event at a position whose time is ≥ every time, with every earlier position strictly earlier (leftmost wins ties) |
| `Aggregator.ReduceLatestAt` | frontend/src/mock.js:71-73 | the reduce's accumulator is always the event at the tracked position |
| `Aggregator.LatestIndexIsLeftmost` | frontend/src/mock.js:71-73 | the strict `>` step keeps the leftmost latest position of the prefix seen so far |
| `Aggregator.LeftmostLatestUnique` | frontend/src/mock.js:72 | the leftmost latest position is unique, so the tie-break fixes the answer |
| `Aggregator.MostRecentSingle` | frontend/src/mock.js:70-73 | a single event is returned as is |
| `Aggregator.MostRecentTieKeepsFirst` | frontend/src/mock.js:72 | of two events with the same time, the first is returned |
| `Aggregator.CalculateStats` | frontend/src/mock.js:79-94 | the loop ends with exactly the counters of `TypeCounts`: a zeroed counter per category, plus one per event whose type has a counter |
| `Aggregator.TypeCountsMeaning` | frontend/src/mock.js:80-91 | the keys are exactly the categories, and each counter equals the number of positions whose event has that type |
| `Aggregator.StatsOfNoEvents` | frontend/src/mock.js:80-85 | with the mock.js categories the keys are exactly fire, dense_traffic, sparse_traffic and accident, all 0 for no events |
| `Aggregator.StatsSumBound` | frontend/src/mock.js:87-91 | unknown types are skipped: the counters sum to at most the number of events, and to exactly that number if and only if every type is known |
| `Aggregator.SimulatedStatsSumToCount` | frontend/src/mock.js:42-94 | for any simulated batch over distinct categories, the counters sum to exactly the number of events, since every simulated type is a category |
| `Aggregator.TenCameraRefresh` | frontend/src/mock.js:42-93 | ten cameras with fraction 0.25 give two events (fire with 0.85, accident with 0.92); their counters are fire 1, accident 1 and 0 otherwise; the most recent event is the later one, or the first on a tie |
| `SidebarStats.ConfigKeys` | frontend/src/components/Sidebar.jsx:17 | `Object.keys` gives one key per entry, in order |
| `SidebarStats.ConfigCategories` | frontend/src/components/Sidebar.jsx:7-12 | the keys are exactly traffic, construction, accident and flood, with none repeated |
| `SidebarStats.TypeEvents` | frontend/src/components/Sidebar.jsx:18 | the filter returns no more events than it was given; it keeps exactly the events whose `type` is the key |
| `SidebarStats.TypeEventsAppend` | frontend/src/components/Sidebar.jsx:18 | filtering a concatenation gives the concatenation of the filtered pieces, so the kept events stay in their input order |
| `SidebarStats.TypeEventsSingle` | frontend/src/components/Sidebar.jsx:18 | a single event is kept exactly when its `type` is the key |
| `SidebarStats.TypeEventsMultiset` | frontend/src/components/Sidebar.jsx:18 | the filter keeps each event of the type exactly as often as it occurs in the input, and no other event |
| `SidebarStats.TypeEventsCount` | frontend/src/components/Sidebar.jsx:18-20 | the filtered length equals the number of `type` fields equal to the key |
| `SidebarStats.StatFor` | frontend/src/components/Sidebar.jsx:18-24 | `count` is the number of events of the type; `avgConfidence` takes the literal '0.00' branch, with no division, exactly when the count is 0; otherwise it divides the confidences of the filtered events, as many as the count, by the count, which is non-zero |
| `SidebarStats.SummandsAreMatchingConfidences` | frontend/src/components/Sidebar.jsx:18-22 | the values the `reduce` adds up are the `confidence` properties of the events of the type: each value occurs once per such event that carries it |
| `SidebarStats.CalculateStats` | frontend/src/components/Sidebar.jsx:15-27 | the loop over the config keys ends with exactly one entry per key, each that key's `StatFor` |
| `SidebarStats.CountIsEventsOfType` | frontend/src/components/Sidebar.jsx:18-20 | each count equals the number of positions whose event's `type` is the key |
| `SidebarStats.SumOfCountsBound` | frontend/src/components/Sidebar.jsx:17-20 | over distinct keys, the counts sum to at most the number of events, and to exactly that number if and only if every event's `type` is a key |
| `SidebarStats.AsRecord` | frontend/src/mock.js:58-63 | a simulated event as an object has the camera's properties plus `eventType`, `detectedAt` and `confidence`, which override any camera property of the same name |
| `SidebarStats.CameraTypeIsCounted` | frontend/src/mock.js:58-59 | an event made from a camera whose own `type` is the key counts once under that key, because the spread copies the camera's `type` |
| `SidebarStats.SimulatedEventsCountNowhere` | frontend/src/components/Sidebar.jsx:18 | simulated events from cameras without a `type` property count 0 under every sidebar key, because mock.js sets `eventType` while the sidebar reads `type` |

## Left out

- The `fetch('/cameras.json')` call, `response.json()` and `console.error` are I/O. They are not modelled; `CameraLoader.Normalise` starts from the parsed value. A fetch or parse failure also yields `[]`, which the model does not show.
- Spreading a non-object element (`{..."abc"}`, `{...[1, 2]}`) copies indexed properties in JavaScript. The model copies none.
- Property reads that reach the prototype chain are not modelled. Examples are `"abc".length`, or a counter named `toString` that `stats[...] !== undefined` would find. Every name outside the listed categories is treated as unknown.
- The insertion order of object keys is not modelled; records are maps.
- Floating point is not modelled. Percentages, draws and confidences are exact reals, so `0.2 + r*0.1` never rounds up to 0.3. The sidebar's mean confidence is not computed, and neither is its `toFixed(2)` text; the model keeps which values would be summed and the divisor.
- Event lists are typed: every event is an object. `getMostRecentEvent`, the `calculateStats` of `mock.js` and the sidebar's filter would throw a TypeError on a `null` element (`null.detectedAt`, `null.eventType`, `null.type`). The simulator only builds objects, so this path is not modelled.
- Dates are integers (milliseconds). `toISOString()` and `new Date(...)` parsing are not modelled, and no date is invalid.
- The interleaving of the `Math.random()` calls between the percentage, the sort comparator and the per-event draws is not modelled. Each use has its own injected sequence.
- `EventSimulator.SimulateEvents`: it requires a type draw, a confidence draw and a clock reading for every camera, not only for the selected ones. The injected streams stand for an unbounded random source.
- The uniformity of `Math.random()` and of the comparator shuffle, and any claim about probabilities, are left out. The shuffle is only "some reordering".
- `frontend/src/App.js` (React state, the refresh delay and filter toggling) is not part of this model. It imports `initialEvents` and `simulateRefresh`, which `mock.js` does not define.
- `frontend/src/components/MapView.jsx` (Leaflet rendering and popup formatting) and all JSX rendering in the sidebar are not part of this model.
- "The events list is not modified" holds by construction, since every operation here is a function of values or a method that changes only its own result.
