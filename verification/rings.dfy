/** ConvertToMultiPolygon: each decoded point list becomes a closed ring, and each ring of
    at least four points a polygon without holes. NetTopologySuite's Coordinate is the
    (X, Y) Point of the model; Equals2D compares X and Y exactly. */
module Rings {
  import opened Records
  import opened Lists

  /** The point one entry gives: its first two numbers, or none when it has fewer. */
  function EntryPoints(entry: seq<real>): (r: seq<Point>)
    ensures |r| <= 1
  {
    if |entry| >= 2 then [Point(entry[0], entry[1])] else []
  }

  /** The points of a point list: entries with fewer than two numbers are dropped, and of
      the others only the first two numbers are used. */
  function RingPoints(polygonCoords: seq<seq<real>>): (points: seq<Point>)
    ensures |points| <= |polygonCoords|
  {
    FlatMap(EntryPoints, polygonCoords)
  }

  /** Each point comes from an entry with at least two numbers: its first two. */
  lemma {:induction false} RingPointsOrigin(polygonCoords: seq<seq<real>>, k: nat)
    requires k < |RingPoints(polygonCoords)|
    ensures exists j :: 0 <= j < |polygonCoords| && |polygonCoords[j]| >= 2
              && RingPoints(polygonCoords)[k] == Point(polygonCoords[j][0], polygonCoords[j][1])
    decreases |polygonCoords|
  {
    var head := polygonCoords[0];
    var rest := polygonCoords[1..];
    if |head| >= 2 && k == 0 {
      assert RingPoints(polygonCoords)[0] == Point(polygonCoords[0][0], polygonCoords[0][1]);
    } else {
      var k' := if |head| >= 2 then k - 1 else k;
      RingPointsOrigin(rest, k');
      var j :| 0 <= j < |rest| && |rest[j]| >= 2 && RingPoints(rest)[k'] == Point(rest[j][0], rest[j][1]);
      assert polygonCoords[j + 1] == rest[j];
    }
  }

  /** Every entry with at least two numbers gives a point, in order. */
  lemma RingPointsAppend(a: seq<seq<real>>, b: seq<seq<real>>)
    ensures RingPoints(a + b) == RingPoints(a) + RingPoints(b)
  {
    FlatMapAppend(EntryPoints, a, b);
  }

  /** A ring is closed when it is non-empty and ends where it starts. */
  predicate Closed(points: seq<Point>) {
    |points| > 0 && points[0] == points[|points| - 1]
  }

  /** Closes an open ring by appending a copy of its first point. */
  function CloseRing(points: seq<Point>): (r: seq<Point>)
    ensures |points| > 0 ==> Closed(r)
    ensures |points| == 0 ==> r == []
    ensures Closed(points) ==> r == points
    ensures !Closed(points) && |points| > 0 ==> r == points + [points[0]]
  {
    if |points| > 0 && points[0] != points[|points| - 1] then points + [points[0]] else points
  }

  /** The polygon a point list gives, if its closed ring has at least four points. */
  function ToPolygon(polygonCoords: seq<seq<real>>): (r: seq<Polygon>)
    ensures |r| <= 1
    ensures forall k :: 0 <= k < |r| ==>
              && r[k].shell == CloseRing(RingPoints(polygonCoords))
              && |r[k].shell| >= 4 && Closed(r[k].shell) && r[k].holes == []
  {
    var shell := CloseRing(RingPoints(polygonCoords));
    if |shell| >= 4 then [Polygon(shell, [])] else []
  }

  /** The polygons of ConvertToMultiPolygon, in input order. */
  function Polygons(coordinates: seq<seq<seq<real>>>): (polygons: seq<Polygon>)
    ensures |polygons| <= |coordinates|
  {
    FlatMap(ToPolygon, coordinates)
  }

  /** Each polygon is a closed shell of at least four points without holes, and is the
      closed ring of one of the inputs. */
  lemma {:induction false} PolygonsOrigin(coordinates: seq<seq<seq<real>>>, k: nat)
    requires k < |Polygons(coordinates)|
    ensures var p := Polygons(coordinates)[k];
            |p.shell| >= 4 && Closed(p.shell) && p.holes == []
    ensures exists j :: 0 <= j < |coordinates| && Polygons(coordinates)[k].shell == CloseRing(RingPoints(coordinates[j]))
    decreases |coordinates|
  {
    var first := ToPolygon(coordinates[0]);
    var rest := coordinates[1..];
    assert Polygons(coordinates) == first + Polygons(rest);
    if k < |first| {
      assert Polygons(coordinates)[k] == first[k];
      assert Polygons(coordinates)[k].shell == CloseRing(RingPoints(coordinates[0]));
    } else {
      PolygonsOrigin(rest, k - |first|);
      assert Polygons(coordinates)[k] == Polygons(rest)[k - |first|];
      var j :| 0 <= j < |rest| && Polygons(rest)[k - |first|].shell == CloseRing(RingPoints(rest[j]));
      assert coordinates[j + 1] == rest[j];
    }
  }

  /** ConvertToMultiPolygon: every polygon is a closed shell of at least four points
      without holes; there are no more polygons than inputs. */
  function ConvertToMultiPolygon(coordinates: seq<seq<seq<real>>>): (m: MultiPolygon)
    ensures |m.polygons| <= |coordinates|
    ensures forall k :: 0 <= k < |m.polygons| ==>
              |m.polygons[k].shell| >= 4 && Closed(m.polygons[k].shell) && m.polygons[k].holes == []
  {
    var polygons := Polygons(coordinates);
    assert forall k :: 0 <= k < |polygons| ==>
             |polygons[k].shell| >= 4 && Closed(polygons[k].shell) && polygons[k].holes == [] by {
      forall k | 0 <= k < |polygons|
        ensures |polygons[k].shell| >= 4 && Closed(polygons[k].shell) && polygons[k].holes == []
      {
        PolygonsOrigin(coordinates, k);
      }
    }
    MultiPolygon(polygons)
  }

  /** The polygons keep the order of the inputs they come from. */
  lemma PolygonsAppend(a: seq<seq<seq<real>>>, b: seq<seq<seq<real>>>)
    ensures Polygons(a + b) == Polygons(a) + Polygons(b)
  {
    FlatMapAppend(ToPolygon, a, b);
  }

  /** A point list gives a polygon exactly when it has at least four usable points, or
      three whose first and last differ, so that closing makes four. */
  lemma ToPolygonIff(polygonCoords: seq<seq<real>>)
    ensures |ToPolygon(polygonCoords)| == 1 <==>
              var n := |RingPoints(polygonCoords)|;
              n >= 4 || (n == 3 && !Closed(RingPoints(polygonCoords)))
  {
  }
}
