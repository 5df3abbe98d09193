/** The records the core passes around: NetTopologySuite's Point and Coordinate (both an
    (X, Y) pair here), its Polygon and MultiPolygon, and the Tweet and State classes. */
module Records {
  import opened Options

  /** An (X, Y) pair. A tweet's location is Point(latitude, longitude), so X is the latitude. */
  datatype Point = Point(x: real, y: real)

  /** A polygon: one shell ring and hole rings; the loader never builds holes. */
  datatype Polygon = Polygon(shell: seq<Point>, holes: seq<seq<Point>>)

  datatype MultiPolygon = MultiPolygon(polygons: seq<Polygon>)

  /** A state: its postal code and its shape. */
  datatype State = State(postalCode: string, shape: MultiPolygon)

  /** System.DateTime, by its tick count; `default(DateTime)` has zero ticks. */
  datatype DateTime = DateTime(ticks: int)

  const DefaultDate := DateTime(0)

  /** A tweet; `sentiment` is None until the scorer has run, and stays None when nothing
      in the text matched the dictionary. */
  datatype Tweet = Tweet(text: string, location: Point, date: DateTime, sentiment: Option<real>)
}
