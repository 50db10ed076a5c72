/** The coverage map: a marker per record, placed from a fixed table of
    departments and coloured by coverage tier
    (frontent/src/components/MapChart.js). */
module MapChart {
  import opened Wrappers
  import opened Records

  // ---------------------------------------------------------------------------
  // the colour tier

  /** The three marker colours: '#22c55e', '#f59e0b' and '#ef4444'. */
  datatype Tier = Green | Amber | Red

  function FillColor(t: Tier): string
  {
    match t
    case Green => "#22c55e"
    case Amber => "#f59e0b"
    case Red => "#ef4444"
  }

  /** How good a tier is: red below amber below green. */
  function Rank(t: Tier): nat
  {
    match t
    case Red => 0
    case Amber => 1
    case Green => 2
  }

  /** The rate a comparison sees: a null rate compares as 0. */
  function Compared(rate: Option<real>): real
  {
    match rate
    case None => 0.0
    case Some(r) => r
  }

  /** `rate > 80 ? green : rate > 50 ? amber : red`. */
  function TierOf(rate: Option<real>): (t: Tier)
    ensures t == Green <==> Compared(rate) > 80.0
    ensures t == Amber <==> 50.0 < Compared(rate) <= 80.0
    ensures t == Red <==> Compared(rate) <= 50.0
  {
    var r := Compared(rate);
    if r > 80.0 then Green else if r > 50.0 then Amber else Red
  }

  /** The thresholds are strict: 80 is still amber, 50 is already red, and a
      record without a rate is red. */
  lemma {:induction false} TierBoundaries()
    ensures TierOf(Some(80.0)) == Amber && TierOf(Some(50.0)) == Red
    ensures TierOf(None) == Red
  {
    assert Compared(Some(80.0)) == 80.0 && Compared(Some(50.0)) == 50.0;
  }

  /** A higher coverage never gets a worse colour. */
  lemma TierMonotone(a: Option<real>, b: Option<real>)
    requires Compared(a) <= Compared(b)
    ensures Rank(TierOf(a)) <= Rank(TierOf(b))
  {
  }

  /** The colours of distinct tiers are distinct. */
  lemma FillColorsDistinct(s: Tier, t: Tier)
    ensures FillColor(s) == FillColor(t) <==> s == t
  {
    if s != t {
      assert FillColor(s)[1] != FillColor(t)[1] || FillColor(s)[2] != FillColor(t)[2];
    }
  }

  // ---------------------------------------------------------------------------
  // the marker position

  /** A latitude and longitude, in degrees. */
  type Point = (real, real)

  /** The default map centre, the middle of Cameroon. */
  const CentreLat := 7.3697
  const CentreLon := 12.3547

  /** The departments with fixed coordinates. */
  const Departments: set<string> := {"Mfoundi", "Wouri", "Diamaré", "Fako", "Mezam"}

  /** The fixed coordinate table of `getCoords`. */
  function KnownCoords(name: Option<string>): (r: Option<Point>)
    ensures r.Some? <==> name.Some? && name.value in Departments
  {
    match name
    case Some("Mfoundi") => Some((3.8480, 11.5021))
    case Some("Wouri") => Some((4.0511, 9.7679))
    case Some("Diamaré") => Some((10.5913, 14.3159))
    case Some("Fako") => Some((4.1620, 9.2314))
    case Some("Mezam") => Some((5.9631, 10.1591))
    case _ => None
  }

  /** Two values of `Math.random()`, each in [0, 1). */
  predicate IsDraw(u: Point)
  {
    0.0 <= u.0 < 1.0 && 0.0 <= u.1 < 1.0
  }

  /** `getCoords`: the table entry, or the centre moved by up to half a
      degree each way using the draw `u`. */
  function Coords(name: Option<string>, u: Point): (p: Point)
    requires IsDraw(u)
    ensures KnownCoords(name).Some? ==> p == KnownCoords(name).value
    ensures KnownCoords(name).None? ==>
      && CentreLat - 0.5 <= p.0 < CentreLat + 0.5
      && CentreLon - 0.5 <= p.1 < CentreLon + 0.5
  {
    match KnownCoords(name)
    case Some(p) => p
    case None => (CentreLat + (u.0 - 0.5), CentreLon + (u.1 - 0.5))
  }

  /** The five departments are always placed at their table entry, whatever
      the draw. */
  lemma DepartmentsAreFixed(u: Point)
    requires IsDraw(u)
    ensures Coords(Some("Mfoundi"), u) == (3.8480, 11.5021)
    ensures Coords(Some("Wouri"), u) == (4.0511, 9.7679)
    ensures Coords(Some("Diamaré"), u) == (10.5913, 14.3159)
    ensures Coords(Some("Fako"), u) == (4.1620, 9.2314)
    ensures Coords(Some("Mezam"), u) == (5.9631, 10.1591)
  {
  }

  // ---------------------------------------------------------------------------
  // the markers

  /** One `CircleMarker`: its centre, radius, colour and the title of its
      popup. */
  datatype Marker = Marker(center: Point, radius: real, tier: Tier, title: Option<string>)

  /** `coverage_rate / 10`, a null rate counting as 0. */
  function Radius(rate: Option<real>): real
  {
    Compared(rate) / 10.0
  }

  function MarkerOf(d: VaccinationRecord, u: Point): Marker
    requires IsDraw(u)
  {
    Marker(Coords(d.locationName, u), Radius(d.coverageRate), TierOf(d.coverageRate), d.locationName)
  }

  /** `data.map(...)`: the marker of record `i` uses draw `draws[i]`. */
  function Markers(data: seq<VaccinationRecord>, draws: seq<Point>): (m: seq<Marker>)
    requires |draws| == |data| && forall i :: 0 <= i < |draws| ==> IsDraw(draws[i])
    ensures |m| == |data|
    ensures forall i :: 0 <= i < |m| ==>
      && m[i].title == data[i].locationName
      && m[i].tier == TierOf(data[i].coverageRate)
      && (KnownCoords(data[i].locationName).Some? ==> m[i].center == KnownCoords(data[i].locationName).value)
  {
    if data == [] then []
    else [MarkerOf(data[0], draws[0])] + Markers(data[1..], draws[1..])
  }
}
