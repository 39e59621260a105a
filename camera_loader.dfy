/**
 * The shape normalisation inside `loadCameras` (frontend/src/mock.js): what
 * the loader returns once `response.json()` has produced a value. The fetch
 * itself is not modelled; the `catch` that turns any TypeError into `[]` is,
 * since the normalisation is what throws.
 */
module CameraLoader {
  import opened Wrappers
  import opened Json

  /** A camera record: the object the loader hands to the simulator. */
  type Camera = Record

  /** The properties both normalisations assign after the spread. */
  const Assigned: set<string> := {"lat", "lon", "key"}

  /**
   * One element of a nested `cameras` list: `{...cam, lat: cam.latitude,
   * lon: cam.longitude, key: cam.key || cam.id}`; None is the TypeError a
   * nullish element raises.
   */
  function NormaliseNested(cam: Value): (r: Option<Camera>)
    ensures r.None? <==> Nullish(cam)
    ensures r.Some? ==> r.value.Keys == OwnFields(cam).Keys + Assigned
    ensures r.Some? ==> r.value["lat"] == OptionalMember(cam, "latitude")
    ensures r.Some? ==> r.value["lon"] == OptionalMember(cam, "longitude")
    ensures r.Some? && Truthy(OptionalMember(cam, "key")) ==> r.value["key"] == OptionalMember(cam, "key")
    ensures r.Some? && !Truthy(OptionalMember(cam, "key")) ==> r.value["key"] == OptionalMember(cam, "id")
    ensures r.Some? ==> forall k :: k in OwnFields(cam) && k !in Assigned ==> r.value[k] == OwnFields(cam)[k]
  {
    match (Member(cam, "latitude"), Member(cam, "longitude"), Member(cam, "key"), Member(cam, "id"))
    case (Some(lat), Some(lon), Some(key), Some(id)) =>
      Some(OwnFields(cam)["lat" := lat]["lon" := lon]["key" := Or(key, id)])
    case _ => None
  }

  /**
   * One element of a flat list: `{...cam, key: cam.id || cam.key}` -- the
   * identifier now comes first; None is the TypeError of a nullish element.
   */
  function NormaliseFlat(cam: Value): (r: Option<Camera>)
    ensures r.None? <==> Nullish(cam)
    ensures r.Some? ==> r.value.Keys == OwnFields(cam).Keys + {"key"}
    ensures r.Some? && Truthy(OptionalMember(cam, "id")) ==> r.value["key"] == OptionalMember(cam, "id")
    ensures r.Some? && !Truthy(OptionalMember(cam, "id")) ==> r.value["key"] == OptionalMember(cam, "key")
    ensures r.Some? ==> forall k :: k in OwnFields(cam) && k != "key" ==> r.value[k] == OwnFields(cam)[k]
  {
    match (Member(cam, "id"), Member(cam, "key"))
    case (Some(id), Some(key)) => Some(OwnFields(cam)["key" := Or(id, key)])
    case _ => None
  }

  /** `Array.prototype.map` with a callback that may throw: the first throw aborts the whole map. */
  function MapAll(xs: seq<Value>, f: Value -> Option<Camera>): (r: Option<seq<Camera>>)
    ensures r.Some? <==> forall i :: 0 <= i < |xs| ==> f(xs[i]).Some?
    ensures r.Some? ==> |r.value| == |xs| && forall i :: 0 <= i < |xs| ==> f(xs[i]) == Some(r.value[i])
  {
    if |xs| == 0 then Some([])
    else
      match (f(xs[0]), MapAll(xs[1..], f))
      case (Some(c), Some(rest)) => Some([c] + rest)
      case _ => None
  }

  /**
   * What `loadCameras` resolves to for the parsed value `data`: a nested
   * `[ {cameras: [...]} ]` list, a flat list, or `[]` for anything else and
   * for every TypeError the `catch` swallows.
   */
  function Normalise(data: Value): (cameras: seq<Camera>)
    ensures !data.Arr? ==> cameras == []
  {
    match data
    case Arr(items) =>
      var nested := OptionalMember(if |items| > 0 then items[0] else Undefined, "cameras");
      if Truthy(nested) then
        match nested
        case Arr(cams) => MapAll(cams, NormaliseNested).GetOr([])
        case _ => []     // `.map` is not a function: TypeError, caught
      else
        MapAll(items, NormaliseFlat).GetOr([])
    case _ => []
  }

  /** No element of the list is `null` or `undefined`. */
  predicate NoNullish(xs: seq<Value>)
  {
    forall i :: 0 <= i < |xs| ==> !Nullish(xs[i])
  }

  /**
   * The nested shape: when the first element holds a `cameras` array, that
   * array is normalised element by element, one camera per entry, or the
   * whole load yields `[]` if one of its entries is nullish.
   */
  lemma NestedShape(items: seq<Value>, cams: seq<Value>)
    requires |items| > 0 && OptionalMember(items[0], "cameras") == Arr(cams)
    ensures NoNullish(cams) ==> |Normalise(Arr(items))| == |cams|
    ensures NoNullish(cams) ==> forall i :: 0 <= i < |cams| ==> NormaliseNested(cams[i]) == Some(Normalise(Arr(items))[i])
    ensures !NoNullish(cams) ==> Normalise(Arr(items)) == []
  {
  }

  /**
   * The flat shape: when the first element has no truthy `cameras` (or the
   * list is empty), the list itself is normalised, one camera per entry, or
   * `[]` if one of its entries is nullish.
   */
  lemma FlatShape(items: seq<Value>)
    requires !Truthy(OptionalMember(if |items| > 0 then items[0] else Undefined, "cameras"))
    ensures NoNullish(items) ==> |Normalise(Arr(items))| == |items|
    ensures NoNullish(items) ==> forall i :: 0 <= i < |items| ==> NormaliseFlat(items[i]) == Some(Normalise(Arr(items))[i])
    ensures !NoNullish(items) ==> Normalise(Arr(items)) == []
  {
  }

  /** A truthy `cameras` that is not an array makes `.map` throw: the load yields `[]`. */
  lemma NestedNonArray(items: seq<Value>)
    requires |items| > 0
    requires Truthy(OptionalMember(items[0], "cameras")) && !OptionalMember(items[0], "cameras").Arr?
    ensures Normalise(Arr(items)) == []
  {
  }

  /**
   * The two shapes resolve `key` with opposite precedence: a camera whose
   * `key` and `id` are both truthy and differ keeps its `key` when nested
   * and gets its `id` when flat.
   */
  lemma KeyPrecedenceReversed(f: Record)
    requires Truthy(Get(f, "key")) && Truthy(Get(f, "id")) && Get(f, "key") != Get(f, "id")
    ensures NormaliseNested(Obj(f)).value["key"] == Get(f, "key")
    ensures NormaliseFlat(Obj(f)).value["key"] == Get(f, "id")
    ensures NormaliseNested(Obj(f)).value["key"] != NormaliseFlat(Obj(f)).value["key"]
  {
  }
}
