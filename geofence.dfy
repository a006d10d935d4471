/**
 * The client-side geofence (lib/logstash/inputs/twitter.rb, lines 104-111):
 * the configured location string, read as `swlon,swlat,nelon,nelat`, and the
 * strict test that a status's coordinates lie inside that box.
 */
module Geofence {
  import opened Wrappers
  import opened RubyStrings

  /** The four numbers of a location, named in the order the string lists them. */
  datatype Box = Box(swlon: real, swlat: real, nelon: real, nelat: real)

  /**
   * A location string the geofence can read: it splits into at least four
   * fields (with fewer, the unassigned corners are `nil` and comparing a
   * coordinate against them raises).
   */
  predicate WellFormedLocation(location: string)
  {
    |Split(location, ',')| >= 4
  }

  /**
   * `swlon, swlat, nelon, nelat = location.split(',').map(&:to_f)`; `toF`
   * stands for `String#to_f`, and fields after the fourth are ignored.
   */
  function ParseBox(location: string, toF: string -> real): Box
    requires WellFormedLocation(location)
  {
    var fields := Split(location, ',');
    Box(toF(fields[0]), toF(fields[1]), toF(fields[2]), toF(fields[3]))
  }

  /** A location written as four comma-free numbers is read back component by component, in the same order. */
  lemma BoxComponentOrder(fields: seq<string>, toF: string -> real)
    requires |fields| == 4 && fields[3] != ""
    requires forall i :: 0 <= i < |fields| ==> ',' !in fields[i]
    ensures WellFormedLocation(Join(fields, ","))
    ensures ParseBox(Join(fields, ","), toF) == Box(toF(fields[0]), toF(fields[1]), toF(fields[2]), toF(fields[3]))
  {
    SplitOfJoin(fields, ',');
  }

  /** One row of `sw.zip(coords, ne)`: a lower corner, the coordinate (or `nil`) and an upper corner. */
  datatype Bound = Bound(lo: real, point: Option<real>, hi: real)

  /** `sw.zip(coords, ne)`: one row per corner component, padded with `nil` where `coords` is short. */
  function Zip(sw: seq<real>, coords: seq<Option<real>>, ne: seq<real>): (r: seq<Bound>)
    requires |sw| == |ne|
  {
    if |sw| == 0 then []
    else
      var point := if |coords| > 0 then coords[0] else None;
      var rest := if |coords| > 0 then coords[1..] else [];
      [Bound(sw[0], point, ne[0])] + Zip(sw[1..], rest, ne[1..])
  }

  /** Row `i` of the zip holds component `i` of each array, `nil` past the end of `coords`. */
  lemma {:induction false} ZipAt(sw: seq<real>, coords: seq<Option<real>>, ne: seq<real>, i: nat)
    requires |sw| == |ne| && i < |sw|
    ensures |Zip(sw, coords, ne)| == |sw|
    ensures Zip(sw, coords, ne)[i] == Bound(sw[i], if i < |coords| then coords[i] else None, ne[i])
  {
    if i > 0 {
      ZipAt(sw[1..], if |coords| > 0 then coords[1..] else [], ne[1..], i - 1);
    } else if |sw| > 1 {
      ZipAt(sw[1..], if |coords| > 0 then coords[1..] else [], ne[1..], 0);
    }
  }

  /** `!!point && sw < point && point < ne`. */
  predicate StrictlyInside(b: Bound)
  {
    b.point.Some? && b.lo < b.point.value && b.point.value < b.hi
  }

  /** `rows.all? { ... }`, stopping at the first row that fails. */
  function AllInside(rows: seq<Bound>): bool
  {
    |rows| == 0 || (StrictlyInside(rows[0]) && AllInside(rows[1..]))
  }

  lemma {:induction false} AllInsideIff(rows: seq<Bound>)
    ensures AllInside(rows) <==> forall i :: 0 <= i < |rows| ==> StrictlyInside(rows[i])
  {
    if |rows| > 0 {
      AllInsideIff(rows[1..]);
      assert forall i :: 1 <= i < |rows| ==> rows[i] == rows[1..][i - 1];
    }
  }

  /** The geofence as the input computes it, on `[lat, lon]` coordinates. */
  function InBox(box: Box, coords: seq<Option<real>>): bool
  {
    AllInside(Zip([box.swlat, box.swlon], coords, [box.nelat, box.nelon]))
  }

  /**
   * The coordinates are inside exactly when both components are present and
   * lie strictly between the corners: `swlat < lat < nelat` and
   * `swlon < lon < nelon`. Components after the second are ignored.
   */
  lemma InBoxIff(box: Box, coords: seq<Option<real>>)
    ensures InBox(box, coords) <==>
      |coords| >= 2 && coords[0].Some? && coords[1].Some? &&
      box.swlat < coords[0].value < box.nelat &&
      box.swlon < coords[1].value < box.nelon
  {
    var sw, ne := [box.swlat, box.swlon], [box.nelat, box.nelon];
    AllInsideIff(Zip(sw, coords, ne));
    ZipAt(sw, coords, ne, 0);
    ZipAt(sw, coords, ne, 1);
  }

  /** A point on an edge of the box, or with a missing component, is outside. */
  lemma EdgesExcluded(box: Box, lat: real, lon: real)
    ensures lat == box.swlat || lat == box.nelat || lon == box.swlon || lon == box.nelon ==>
      !InBox(box, [Some(lat), Some(lon)])
    ensures !InBox(box, [None, Some(lon)]) && !InBox(box, [Some(lat), None]) && !InBox(box, [Some(lat)])
  {
    InBoxIff(box, [Some(lat), Some(lon)]);
    InBoxIff(box, [None, Some(lon)]);
    InBoxIff(box, [Some(lat), None]);
    InBoxIff(box, [Some(lat)]);
  }

  /**
   * The box `-93.3,44.9,-93.1,45.0` (around Minneapolis) holds (44.95, -93.2)
   * but not (44.9, -93.2), which lies on its southern edge.
   */
  lemma MinneapolisBox(toF: string -> real)
    requires toF("-93.3") == -93.3 && toF("44.9") == 44.9 && toF("-93.1") == -93.1 && toF("45.0") == 45.0
    ensures WellFormedLocation("-93.3,44.9,-93.1,45.0")
    ensures InBox(ParseBox("-93.3,44.9,-93.1,45.0", toF), [Some(44.95), Some(-93.2)])
    ensures !InBox(ParseBox("-93.3,44.9,-93.1,45.0", toF), [Some(44.9), Some(-93.2)])
  {
    var fields := ["-93.3", "44.9", "-93.1", "45.0"];
    assert Join(fields, ",") == "-93.3,44.9,-93.1,45.0";
    BoxComponentOrder(fields, toF);
    var box := Box(-93.3, 44.9, -93.1, 45.0);
    InBoxIff(box, [Some(44.95), Some(-93.2)]);
    InBoxIff(box, [Some(44.9), Some(-93.2)]);
  }
}
