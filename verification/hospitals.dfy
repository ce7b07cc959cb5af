/**
 * The decision logic of the hospital locator page: take the first geocoding
 * candidate, then turn the map provider's elements into hospital records.
 * Coordinates of map elements are integers (microdegrees); as in Python, a
 * coordinate of zero is falsy and counts as missing.
 */
module Hospitals {
  import opened Wrappers

  const DefaultName := "Unnamed Hospital"

  /** The `center` object the map provider attaches to ways and relations. */
  datatype Center = Center(lat: Option<int>, lon: Option<int>)

  /** One map element: its own point coordinate, an optional center, and the `name` tag. */
  datatype Element = Element(lat: Option<int>, lon: Option<int>, center: Option<Center>, name: Option<string>)

  datatype Hospital = Hospital(name: string, latitude: int, longitude: int)

  /** Python truthiness of a numeric coordinate: present and non-zero. */
  predicate Truthy(c: Option<int>)
  {
    c.Some? && c.value != 0
  }

  /** `element.get('lat') or (center.get('lat') if center else None)`. */
  function Lat(e: Element): Option<int>
  {
    if Truthy(e.lat) then e.lat
    else if e.center.Some? then e.center.value.lat
    else None
  }

  /** The same fallback for the longitude. */
  function Lon(e: Element): Option<int>
  {
    if Truthy(e.lon) then e.lon
    else if e.center.Some? then e.center.value.lon
    else None
  }

  /** `if lat_h and lon_h`: whether the element yields a hospital record. */
  predicate Kept(e: Element)
  {
    Truthy(Lat(e)) && Truthy(Lon(e))
  }

  /** The record appended for a kept element. */
  function ToHospital(e: Element): (h: Hospital)
    requires Kept(e)
    ensures h.latitude != 0 && h.longitude != 0
    ensures e.name.Some? ==> h.name == e.name.value
    ensures e.name.None? ==> h.name == DefaultName
  {
    Hospital(e.name.GetOr(DefaultName), Lat(e).value, Lon(e).value)
  }

  /** The hospital records for `es`, in provider order. */
  function Hospitals(es: seq<Element>): (hs: seq<Hospital>)
    ensures |hs| <= |es|
    ensures hs == [] <==> forall i :: 0 <= i < |es| ==> !Kept(es[i])
    ensures forall k :: 0 <= k < |hs| ==> hs[k].latitude != 0 && hs[k].longitude != 0
  {
    if es == [] then []
    else
      var rest := Hospitals(es[1..]);
      assert forall i :: 1 <= i < |es| ==> es[i] == es[1..][i - 1];
      if Kept(es[0]) then [ToHospital(es[0])] + rest else rest
  }

  /** One element alone: kept exactly when both coordinates are truthy. */
  lemma HospitalsOfOne(e: Element)
    ensures Kept(e) ==> Hospitals([e]) == [ToHospital(e)]
    ensures !Kept(e) ==> Hospitals([e]) == []
  {
    assert [e][1..] == [];
  }

  /** Filtering distributes over concatenation, so the output keeps the provider's order. */
  lemma {:induction false} HospitalsAppend(a: seq<Element>, b: seq<Element>)
    ensures Hospitals(a + b) == Hospitals(a) + Hospitals(b)
  {
    if a == [] {
      assert a + b == b;
    } else {
      assert (a + b)[1..] == a[1..] + b;
      HospitalsAppend(a[1..], b);
    }
  }

  /** An element is kept exactly when each coordinate is truthy on the element itself or on its
      center, and the record takes the element's own coordinate before the center's. */
  lemma KeptExactly(e: Element)
    ensures Kept(e) <==> (&& (Truthy(e.lat) || (e.center.Some? && Truthy(e.center.value.lat)))
                          && (Truthy(e.lon) || (e.center.Some? && Truthy(e.center.value.lon))))
    ensures Kept(e) ==> (&& ToHospital(e).latitude == (if Truthy(e.lat) then e.lat.value else e.center.value.lat.value)
                         && ToHospital(e).longitude == (if Truthy(e.lon) then e.lon.value else e.center.value.lon.value))
  {
  }

  /** An element that has only a center coordinate is kept with that coordinate; an element with
      neither a truthy own coordinate nor a center is dropped. */
  lemma CenterFallback(e: Element)
    ensures !Truthy(e.lat) && !Truthy(e.lon) && e.center.None? ==> !Kept(e)
    ensures !Truthy(e.lat) && !Truthy(e.lon) && e.center.Some?
            && Truthy(e.center.value.lat) && Truthy(e.center.value.lon)
            ==> (&& Kept(e)
                 && ToHospital(e).latitude == e.center.value.lat.value
                 && ToHospital(e).longitude == e.center.value.lon.value)
  {
  }

  /** The `for element in ...: if ...: hospitals.append(...)` loop of the page. */
  method CollectHospitals(es: seq<Element>) returns (hs: seq<Hospital>)
    ensures hs == Hospitals(es)
  {
    hs := [];
    var i := 0;
    while i < |es|
      invariant 0 <= i <= |es|
      invariant hs == Hospitals(es[..i])
    {
      HospitalsAppend(es[..i], [es[i]]);
      HospitalsOfOne(es[i]);
      assert es[..i + 1] == es[..i] + [es[i]];
      if Kept(es[i]) {
        hs := hs + [ToHospital(es[i])];
      }
      i := i + 1;
    }
    assert es[..i] == es;
  }

  /** One geocoding candidate; Nominatim returns its coordinates as text. */
  datatype Candidate = Candidate(lat: Option<string>, lon: Option<string>)

  /** The coordinate the hospital search is centred on, still as text (its `float` conversion is
      not modelled). */
  datatype Origin = Origin(lat: string, lon: string)

  datatype Geocoded = LocationNotFound | MissingCoordinates | Located(origin: Origin)

  /** Python truthiness of a text field: present and non-empty. */
  predicate HasText(t: Option<string>)
  {
    t.Some? && t.value != []
  }

  /** Only the first geocoding candidate is consulted; an empty list means the location is not
      found, a first candidate without both coordinates is an error. */
  function Geocode(candidates: seq<Candidate>): (g: Geocoded)
    ensures g.LocationNotFound? <==> candidates == []
    ensures g.Located? ==> (&& candidates != [] && g.origin.lat != [] && g.origin.lon != []
                            && Some(g.origin.lat) == candidates[0].lat
                            && Some(g.origin.lon) == candidates[0].lon)
    ensures g.MissingCoordinates? <==> candidates != [] && !(HasText(candidates[0].lat) && HasText(candidates[0].lon))
  {
    if candidates == [] then LocationNotFound
    else
      var first := candidates[0];
      if !HasText(first.lat) || !HasText(first.lon) then MissingCoordinates
      else Located(Origin(first.lat.value, first.lon.value))
  }

  datatype LocateOutcome =
    | NotLocated(reason: Geocoded)
    | NoHospitals(origin: Origin)
    | Found(origin: Origin, hospitals: seq<Hospital>)

  /** The page after both calls: `elements` is the map provider's answer for the located origin
      (`overpass_data.get('elements', [])`), consulted only when geocoding succeeded. */
  function Locate(candidates: seq<Candidate>, elements: seq<Element>): (r: LocateOutcome)
    ensures r.NotLocated? <==> !Geocode(candidates).Located?
    ensures r.NotLocated? ==> r.reason == Geocode(candidates)
    ensures r.NoHospitals? <==> Geocode(candidates).Located? && forall i :: 0 <= i < |elements| ==> !Kept(elements[i])
    ensures r.Found? ==> r.origin == Geocode(candidates).origin && r.hospitals == Hospitals(elements) && r.hospitals != []
  {
    match Geocode(candidates)
    case Located(origin) =>
      var hs := Hospitals(elements);
      if hs == [] then NoHospitals(origin) else Found(origin, hs)
    case other => NotLocated(other)
  }

  /** A location with no geocoding candidate ends the page before the map provider is consulted:
      the outcome does not depend on its answer. */
  lemma UnknownLocationIgnoresElements(es1: seq<Element>, es2: seq<Element>)
    ensures Locate([], es1) == Locate([], es2) == NotLocated(LocationNotFound)
  {
  }

  /** Geocoding "New York" to one candidate and finding one named element with its own point gives
      exactly that hospital. */
  lemma NewYorkScenario()
    ensures Locate([Candidate(Some("40.7128"), Some("-74.0060"))],
                   [Element(Some(40712800), Some(-74006000), None, Some("General Hospital"))])
      == Found(Origin("40.7128", "-74.0060"), [Hospital("General Hospital", 40712800, -74006000)])
  {
    var e := Element(Some(40712800), Some(-74006000), None, Some("General Hospital"));
    HospitalsOfOne(e);
  }
}
