/** The records the analyzer works on: clean trackpoints, the segments
    built from consecutive pairs of them, the analyzer's options, and which
    of the two pages (desktop and mobile) is being modelled. */
module Track {
  import opened Common

  /** gpx-multi2.js (`Desktop`) or gpx-mobile-ui.js (`Mobile`): the two
      pages (desktop and mobile) share this code and differ in a few lines,
      selected by this. */
  datatype Variant = Desktop | Mobile

  /** A kept trackpoint: finite coordinates in degrees, a timestamp in
      milliseconds, and the optional elevation (m) and heart rate (bpm). */
  datatype Point = Point(lat: real, lon: real, t: int, ele: Option<real>, hr: Option<real>)

  /** The interval between two consecutive points that passed the segment
      filter: both ends' coordinates, distance `d` (m), duration `dt` (s),
      speed `v` (m/s), non-negative climb `elevUp` (m), and the mean of the
      two ends' heart rates when both have one. */
  datatype Segment = Segment(
    lat1: real, lon1: real, lat2: real, lon2: real,
    d: real, dt: real, v: real, elevUp: real,
    hrAvg: Option<real>)

  /** The analyzer's options: moving threshold (m/s), speed cap (km/h) and
      the per-pair elevation threshold (m). */
  datatype Options = Options(movingSpeedThreshold: real, maxSpeedCapKmh: real, minElevGain: real)

  /** The great-circle distance in metres between two (lat, lon) pairs; the
      trigonometry is not modelled, only that the distance is not negative. */
  type Haversine = (real, real, real, real) -> real

  ghost predicate NonNegativeDistance(dist: Haversine) {
    forall lat1, lon1, lat2, lon2 :: dist(lat1, lon1, lat2, lon2) >= 0.0
  }

  /** What every segment of the analyzer satisfies. */
  predicate SegmentInBounds(s: Segment, maxSpeedCapKmh: real) {
    && 0.0 < s.dt <= 3600.0
    && s.d >= 0.0
    && s.v >= 0.0
    && s.v * 3.6 <= maxSpeedCapKmh
    && s.elevUp >= 0.0
  }

  /** Timestamps never decrease along the sequence. */
  predicate SortedByT(s: seq<Point>) {
    forall i, j :: 0 <= i < j < |s| ==> s[i].t <= s[j].t
  }

  /** Timestamps strictly increase along the sequence. */
  predicate StrictlyIncreasingT(s: seq<Point>) {
    forall i, j :: 0 <= i < j < |s| ==> s[i].t < s[j].t
  }
}
