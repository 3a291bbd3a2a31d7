/** `analyzePoints`: one pass over consecutive pairs of clean points that
    drops implausible pairs and accumulates distance, moving time, top
    speed, climb and a time-weighted heart rate, keeping each accepted pair
    as a segment for the lap splitter. */
module Analyze {
  import opened Common
  import opened Track

  /** Seconds between two points. */
  function Dt(p1: Point, p2: Point): real {
    (p2.t - p1.t) as real / 1000.0
  }

  /** The climb a segment records. The desktop page counts it only when both
      elevations are finite; the mobile page reads a missing elevation as 0. */
  function ElevUp(p1: Point, p2: Point, variant: Variant): (r: real)
    ensures r >= 0.0
    ensures variant == Desktop && (p1.ele.None? || p2.ele.None?) ==> r == 0.0
    ensures p1.ele.Some? && p2.ele.Some? ==> r == Max0(p2.ele.value - p1.ele.value)
    ensures variant == Mobile ==> r == Max0(p2.ele.GetOr(0.0) - p1.ele.GetOr(0.0))
  {
    match variant
    case Desktop =>
      if p1.ele.Some? && p2.ele.Some? then Max0(p2.ele.value - p1.ele.value) else 0.0
    case Mobile =>
      Max0(p2.ele.GetOr(0.0) - p1.ele.GetOr(0.0))
  }

  /** The mean of the two ends' heart rates when both have one. */
  function HrAvg(p1: Point, p2: Point): (r: Option<real>)
    ensures r.Some? <==> p1.hr.Some? && p2.hr.Some?
    ensures r.Some? ==> Min(p1.hr.value, p2.hr.value) <= r.value <= Max(p1.hr.value, p2.hr.value)
  {
    if p1.hr.Some? && p2.hr.Some? then Some((p1.hr.value + p2.hr.value) / 2.0) else None
  }

  function Min(a: real, b: real): (r: real)
    ensures r <= a && r <= b && (r == a || r == b)
  {
    if a <= b then a else b
  }

  /** Whether the pair is accepted: a positive gap of at most an hour, and a
      speed not above the cap. */
  predicate Accepted(p1: Point, p2: Point, opts: Options, dist: Haversine) {
    var dt := Dt(p1, p2);
    0.0 < dt <= 3600.0 && dist(p1.lat, p1.lon, p2.lat, p2.lon) / dt * 3.6 <= opts.maxSpeedCapKmh
  }

  /** The segment a pair of consecutive points yields, if the pair is kept. */
  function PairSegment(p1: Point, p2: Point, opts: Options, variant: Variant, dist: Haversine): (r: Option<Segment>)
    requires NonNegativeDistance(dist)
    ensures r.Some? <==> Accepted(p1, p2, opts, dist)
    ensures r.Some? ==> SegmentInBounds(r.value, opts.maxSpeedCapKmh)
    ensures r.Some? ==> r.value.dt == Dt(p1, p2) && r.value.d == dist(p1.lat, p1.lon, p2.lat, p2.lon)
    ensures r.Some? ==> r.value.v == r.value.d / r.value.dt
    ensures r.Some? ==> r.value.elevUp == ElevUp(p1, p2, variant) && r.value.hrAvg == HrAvg(p1, p2)
    ensures r.Some? ==> r.value.lat1 == p1.lat && r.value.lon1 == p1.lon && r.value.lat2 == p2.lat && r.value.lon2 == p2.lon
  {
    var dt := Dt(p1, p2);
    if dt <= 0.0 || dt > 3600.0 then None
    else
      var d := dist(p1.lat, p1.lon, p2.lat, p2.lon);
      var v := d / dt;
      if v * 3.6 > opts.maxSpeedCapKmh then None
      else Some(Segment(p1.lat, p1.lon, p2.lat, p2.lon, d, dt, v, ElevUp(p1, p2, variant), HrAvg(p1, p2)))
  }

  function AsSeq(o: Option<Segment>): seq<Segment> {
    if o.Some? then [o.value] else []
  }

  /** The segments of the kept pairs, in order. */
  function Segs(ps: seq<Point>, opts: Options, variant: Variant, dist: Haversine): (r: seq<Segment>)
    requires NonNegativeDistance(dist)
    ensures |ps| >= 1 ==> |r| <= |ps| - 1
    ensures forall k :: 0 <= k < |r| ==> SegmentInBounds(r[k], opts.maxSpeedCapKmh)
    decreases |ps|
  {
    if |ps| < 2 then []
    else Segs(ps[..|ps| - 1], opts, variant, dist) + AsSeq(PairSegment(ps[|ps| - 2], ps[|ps| - 1], opts, variant, dist))
  }

  // ----- sums over the segments -----

  function SumD(ss: seq<Segment>): real
    decreases |ss|
  {
    if ss == [] then 0.0 else SumD(ss[..|ss| - 1]) + ss[|ss| - 1].d
  }

  function SumDt(ss: seq<Segment>): real
    decreases |ss|
  {
    if ss == [] then 0.0 else SumDt(ss[..|ss| - 1]) + ss[|ss| - 1].dt
  }

  /** Time spent at or above the moving threshold. */
  function MovingS(ss: seq<Segment>, threshold: real): real
    decreases |ss|
  {
    if ss == [] then 0.0
    else MovingS(ss[..|ss| - 1], threshold) + (if ss[|ss| - 1].v >= threshold then ss[|ss| - 1].dt else 0.0)
  }

  /** The top speed, 0 when there are no segments. */
  function MaxV(ss: seq<Segment>): real
    decreases |ss|
  {
    if ss == [] then 0.0 else Max(MaxV(ss[..|ss| - 1]), ss[|ss| - 1].v)
  }

  /** A segment's heart rate times its duration, 0 without a heart rate. */
  function HrWeight(s: Segment): real {
    if s.hrAvg.Some? then s.hrAvg.value * s.dt else 0.0
  }

  lemma SegmentHrWeight(s: Segment, h: real)
    requires s.hrAvg == Some(h)
    ensures HrWeight(s) == h * s.dt
  {
  }

  /** The heart-rate-weighted time, Σ hrAvg·dt over segments that have one. */
  function HrSum(ss: seq<Segment>): real
    decreases |ss|
  {
    if ss == [] then 0.0 else HrSum(ss[..|ss| - 1]) + HrWeight(ss[|ss| - 1])
  }

  /** The time covered by segments with a heart rate. */
  function HrDen(ss: seq<Segment>): real
    decreases |ss|
  {
    if ss == [] then 0.0
    else HrDen(ss[..|ss| - 1]) + (if ss[|ss| - 1].hrAvg.Some? then ss[|ss| - 1].dt else 0.0)
  }

  /** How each running sum grows when one segment is appended. */
  lemma AppendSegment(ss: seq<Segment>, s: Segment, threshold: real)
    ensures SumD(ss + [s]) == SumD(ss) + s.d
    ensures SumDt(ss + [s]) == SumDt(ss) + s.dt
    ensures MovingS(ss + [s], threshold) == MovingS(ss, threshold) + (if s.v >= threshold then s.dt else 0.0)
    ensures MaxV(ss + [s]) == Max(MaxV(ss), s.v)
    ensures HrSum(ss + [s]) == HrSum(ss) + HrWeight(s)
    ensures HrDen(ss + [s]) == HrDen(ss) + (if s.hrAvg.Some? then s.dt else 0.0)
  {
    assert (ss + [s])[..|ss|] == ss;
  }

  // ----- sums over the kept pairs -----

  /** The climb the pair adds to the total: its rise when both elevations are
      finite and the rise exceeds the threshold. */
  function PairGain(p1: Point, p2: Point, opts: Options): real {
    if p1.ele.Some? && p2.ele.Some? && p2.ele.value - p1.ele.value > opts.minElevGain
    then p2.ele.value - p1.ele.value else 0.0
  }

  function Gain(ps: seq<Point>, opts: Options, dist: Haversine): real
    decreases |ps|
  {
    if |ps| < 2 then 0.0
    else
      var p1, p2 := ps[|ps| - 2], ps[|ps| - 1];
      Gain(ps[..|ps| - 1], opts, dist) + (if Accepted(p1, p2, opts, dist) then PairGain(p1, p2, opts) else 0.0)
  }

  /** The highest heart rate at an end of a kept pair. */
  function MaxHrOf(ps: seq<Point>, opts: Options, dist: Haversine): Option<real>
    decreases |ps|
  {
    if |ps| < 2 then None
    else
      var p1, p2 := ps[|ps| - 2], ps[|ps| - 1];
      var m := MaxHrOf(ps[..|ps| - 1], opts, dist);
      if Accepted(p1, p2, opts, dist) then MaxOpt(MaxOpt(m, p1.hr), p2.hr) else m
  }

  // ----- the result -----

  datatype Analysis = Analysis(
    points: nat,
    totalDistM: real, elapsedS: real, movingS: real,
    avgKmhElapsed: real, avgKmhMoving: real, maxKmh: real,
    elevGainM: real,
    avgHr: Option<real>, maxHr: Option<real>,
    segments: seq<Segment>,
    firstLatLng: Option<(real, real)>, lastLatLng: Option<(real, real)>,
    hrTimeSum: real, hrTimeDen: real)

  /** What `analyzePoints` returns for fewer than two points: every number
      0, no heart rate, no segments and no first or last coordinates. */
  function EmptyAnalysis(n: nat): Analysis {
    Analysis(n, 0.0, 0.0, 0.0, 0.0, 0.0, 0.0, 0.0, None, None, [], None, None, 0.0, 0.0)
  }

  /** The running totals of the pass: the locals `analyzePoints` updates
      for each kept pair. */
  datatype Tally = Tally(
    totalDist: real, movingTime: real, maxSpeedMps: real, elevGain: real,
    maxHr: Option<real>, hrTimeSum: real, hrTimeDen: real,
    segments: seq<Segment>)

  /** The totals after the pairs of `ps`, stated over the kept segments. */
  function TallyOf(ps: seq<Point>, opts: Options, variant: Variant, dist: Haversine): Tally
    requires NonNegativeDistance(dist)
  {
    var ss := Segs(ps, opts, variant, dist);
    Tally(SumD(ss), MovingS(ss, opts.movingSpeedThreshold), MaxV(ss), Gain(ps, opts, dist),
          MaxHrOf(ps, opts, dist), HrSum(ss), HrDen(ss), ss)
  }

  /** The analysis of a track, stated over the kept segments. */
  function AnalysisOf(ps: seq<Point>, opts: Options, variant: Variant, dist: Haversine): (r: Analysis)
    requires NonNegativeDistance(dist)
    ensures r.points == |ps|
    ensures |ps| < 2 ==> r == EmptyAnalysis(|ps|)
    ensures |ps| >= 2 ==> r.firstLatLng == Some((ps[0].lat, ps[0].lon)) && r.lastLatLng == Some((ps[|ps| - 1].lat, ps[|ps| - 1].lon))
  {
    if |ps| < 2 then EmptyAnalysis(|ps|) else Finish(ps, TallyOf(ps, opts, variant, dist))
  }

  /** The result object built from the totals of the pass over `ps`. */
  function Finish(ps: seq<Point>, t: Tally): Analysis
    requires |ps| >= 2
  {
    var elapsed := Dt(ps[0], ps[|ps| - 1]);
    Analysis(
      |ps|,
      t.totalDist, elapsed, t.movingTime,
      GuardedDiv(t.totalDist, elapsed) * 3.6,
      GuardedDiv(t.totalDist, t.movingTime) * 3.6,
      t.maxSpeedMps * 3.6,
      t.elevGain,
      if t.hrTimeDen > 0.0 then Some(t.hrTimeSum / t.hrTimeDen) else None,
      t.maxHr,
      t.segments,
      Some((ps[0].lat, ps[0].lon)), Some((ps[|ps| - 1].lat, ps[|ps| - 1].lon)),
      t.hrTimeSum, t.hrTimeDen)
  }

  /** The totals after one more kept segment `seg` joining `p1` to `p2`. */
  function Extend(t: Tally, seg: Segment, p1: Point, p2: Point, opts: Options): Tally {
    Tally(
      t.totalDist + seg.d,
      t.movingTime + (if seg.v >= opts.movingSpeedThreshold then seg.dt else 0.0),
      Max(t.maxSpeedMps, seg.v),
      t.elevGain + PairGain(p1, p2, opts),
      MaxOpt(MaxOpt(t.maxHr, p1.hr), p2.hr),
      t.hrTimeSum + HrWeight(seg),
      t.hrTimeDen + (if seg.hrAvg.Some? then seg.dt else 0.0),
      t.segments + [seg])
  }

  /** How the climb and the highest heart rate grow with a kept last pair. */
  lemma PointStepKept(ps: seq<Point>, opts: Options, dist: Haversine)
    requires |ps| >= 2 && Accepted(ps[|ps| - 2], ps[|ps| - 1], opts, dist)
    ensures Gain(ps, opts, dist) == Gain(ps[..|ps| - 1], opts, dist) + PairGain(ps[|ps| - 2], ps[|ps| - 1], opts)
    ensures MaxHrOf(ps, opts, dist) == MaxOpt(MaxOpt(MaxHrOf(ps[..|ps| - 1], opts, dist), ps[|ps| - 2].hr), ps[|ps| - 1].hr)
  {
  }

  /** When the last pair of a track is kept, its totals are those of the
      track without its last point, extended by that pair's segment. */
  lemma TallyStepKept(ps: seq<Point>, opts: Options, variant: Variant, dist: Haversine)
    requires NonNegativeDistance(dist) && |ps| >= 2
    requires PairSegment(ps[|ps| - 2], ps[|ps| - 1], opts, variant, dist).Some?
    ensures TallyOf(ps, opts, variant, dist)
         == Extend(TallyOf(ps[..|ps| - 1], opts, variant, dist),
                   PairSegment(ps[|ps| - 2], ps[|ps| - 1], opts, variant, dist).value,
                   ps[|ps| - 2], ps[|ps| - 1], opts)
  {
    var init, p1, p2 := ps[..|ps| - 1], ps[|ps| - 2], ps[|ps| - 1];
    var ss := Segs(init, opts, variant, dist);
    var seg := PairSegment(p1, p2, opts, variant, dist).value;
    assert Segs(ps, opts, variant, dist) == ss + [seg];
    AppendSegment(ss, seg, opts.movingSpeedThreshold);
    PointStepKept(ps, opts, dist);
    var whole, ext := TallyOf(ps, opts, variant, dist), Extend(TallyOf(init, opts, variant, dist), seg, p1, p2, opts);
    assert whole.totalDist == ext.totalDist;
    assert whole.movingTime == ext.movingTime;
    assert whole.maxSpeedMps == ext.maxSpeedMps;
    assert whole.elevGain == ext.elevGain;
    assert whole.maxHr == ext.maxHr;
    assert whole.hrTimeSum == ext.hrTimeSum;
    assert whole.hrTimeDen == ext.hrTimeDen;
    assert whole.segments == ext.segments;
  }

  /** When the last pair of a track is dropped, its totals are those of the
      track without its last point. */
  lemma TallyStepDropped(ps: seq<Point>, opts: Options, variant: Variant, dist: Haversine)
    requires NonNegativeDistance(dist) && |ps| >= 2
    requires PairSegment(ps[|ps| - 2], ps[|ps| - 1], opts, variant, dist).None?
    ensures TallyOf(ps, opts, variant, dist) == TallyOf(ps[..|ps| - 1], opts, variant, dist)
  {
    assert Segs(ps, opts, variant, dist) == Segs(ps[..|ps| - 1], opts, variant, dist);
  }

  /** The updates `analyzePoints` makes for a kept segment. */
  method Accumulate(acc: Tally, seg: Segment, p1: Point, p2: Point, opts: Options) returns (next: Tally)
    requires seg.hrAvg == HrAvg(p1, p2)
    ensures next == Extend(acc, seg, p1, p2, opts)
  {
    var totalDist := acc.totalDist + seg.d;
    var movingTime := acc.movingTime;
    if seg.v >= opts.movingSpeedThreshold {
      movingTime := movingTime + seg.dt;
    }
    var maxSpeedMps := acc.maxSpeedMps;
    if seg.v > maxSpeedMps {
      maxSpeedMps := seg.v;
    }
    var elevGain := acc.elevGain;
    if p1.ele.Some? && p2.ele.Some? {
      var de := p2.ele.value - p1.ele.value;
      if de > opts.minElevGain {
        elevGain := elevGain + de;
      }
    }
    var maxHr := MaxOpt(acc.maxHr, p1.hr);
    maxHr := MaxOpt(maxHr, p2.hr);
    var hrTimeSum, hrTimeDen := acc.hrTimeSum, acc.hrTimeDen;
    if p1.hr.Some? && p2.hr.Some? {
      var hrAvg := (p1.hr.value + p2.hr.value) / 2.0;
      SegmentHrWeight(seg, hrAvg);
      hrTimeSum := hrTimeSum + hrAvg * seg.dt;
      hrTimeDen := hrTimeDen + seg.dt;
    }
    next := Tally(totalDist, movingTime, maxSpeedMps, elevGain, maxHr, hrTimeSum, hrTimeDen, acc.segments + [seg]);
  }

  /** One iteration of the pass: the pair `(p1, p2)` that ends `ps`, added to
      the totals of the rest of `ps`. */
  method AddPair(p1: Point, p2: Point, acc: Tally, opts: Options, variant: Variant, dist: Haversine, ghost ps: seq<Point>)
      returns (next: Tally)
    requires NonNegativeDistance(dist)
    requires |ps| >= 2 && ps[|ps| - 2] == p1 && ps[|ps| - 1] == p2
    requires acc == TallyOf(ps[..|ps| - 1], opts, variant, dist)
    ensures next == TallyOf(ps, opts, variant, dist)
  {
    var dt := (p2.t - p1.t) as real / 1000.0;
    if dt <= 0.0 || dt > 3600.0 {
      TallyStepDropped(ps, opts, variant, dist);
      return acc;
    }
    var d := dist(p1.lat, p1.lon, p2.lat, p2.lon);
    var v := d / dt;
    var vKmh := v * 3.6;
    if vKmh > opts.maxSpeedCapKmh {
      assert !Accepted(p1, p2, opts, dist);
      TallyStepDropped(ps, opts, variant, dist);
      return acc;
    }
    var seg := Segment(p1.lat, p1.lon, p2.lat, p2.lon, d, dt, v, ElevUp(p1, p2, variant), HrAvg(p1, p2));
    assert Accepted(p1, p2, opts, dist) by {
      assert dt == Dt(p1, p2);
      assert d / dt * 3.6 == vKmh;
    }
    assert PairSegment(p1, p2, opts, variant, dist) == Some(seg);
    TallyStepKept(ps, opts, variant, dist);
    next := Accumulate(acc, seg, p1, p2, opts);
  }

  /** The single pass over the points. */
  method AnalyzePoints(points: seq<Point>, opts: Options, variant: Variant, dist: Haversine) returns (a: Analysis)
    requires NonNegativeDistance(dist)
    ensures a == AnalysisOf(points, opts, variant, dist)
  {
    if |points| < 2 {
      return EmptyAnalysis(|points|);
    }
    var acc := Tally(0.0, 0.0, 0.0, 0.0, None, 0.0, 0.0, []);
    assert acc == TallyOf(points[..1], opts, variant, dist);
    for i := 0 to |points| - 1
      invariant acc == TallyOf(points[..i + 1], opts, variant, dist)
    {
      assert points[..i + 2][..i + 1] == points[..i + 1];
      acc := AddPair(points[i], points[i + 1], acc, opts, variant, dist, points[..i + 2]);
    }
    assert points[..|points|] == points;
    a := Summarize(points, acc);
  }

  /** The result object: elapsed time, the two average speeds
      (`distance / (time || Infinity)`), the top speed in km/h and the
      time-weighted heart rate. */
  method Summarize(points: seq<Point>, acc: Tally) returns (a: Analysis)
    requires |points| >= 2
    ensures a == Finish(points, acc)
  {
    var elapsedS := (points[|points| - 1].t - points[0].t) as real / 1000.0;
    var avgElapsed := if elapsedS == 0.0 then 0.0 else acc.totalDist / elapsedS;
    var avgMoving := if acc.movingTime == 0.0 then 0.0 else acc.totalDist / acc.movingTime;
    var avgHr := if acc.hrTimeDen > 0.0 then Some(acc.hrTimeSum / acc.hrTimeDen) else None;
    a := Analysis(
      |points|, acc.totalDist, elapsedS, acc.movingTime,
      avgElapsed * 3.6, avgMoving * 3.6, acc.maxSpeedMps * 3.6,
      acc.elevGain, avgHr, acc.maxHr, acc.segments,
      Some((points[0].lat, points[0].lon)), Some((points[|points| - 1].lat, points[|points| - 1].lon)),
      acc.hrTimeSum, acc.hrTimeDen);
  }

  // ----- what the analysis promises -----

  lemma {:induction false} SumsNonNegative(ss: seq<Segment>, cap: real, threshold: real)
    requires forall k :: 0 <= k < |ss| ==> SegmentInBounds(ss[k], cap)
    ensures SumD(ss) >= 0.0 && HrDen(ss) >= 0.0
    ensures 0.0 <= MovingS(ss, threshold) <= SumDt(ss)
    ensures HrDen(ss) <= SumDt(ss)
    decreases |ss|
  {
    if ss != [] {
      SumsNonNegative(ss[..|ss| - 1], cap, threshold);
    }
  }

  /** The top speed bounds every segment's speed, is one of them (or 0), and
      so never exceeds the cap. */
  lemma {:induction false} MaxVBounds(ss: seq<Segment>, cap: real)
    requires forall k :: 0 <= k < |ss| ==> SegmentInBounds(ss[k], cap)
    ensures forall k :: 0 <= k < |ss| ==> ss[k].v <= MaxV(ss)
    ensures MaxV(ss) == 0.0 || exists k :: 0 <= k < |ss| && MaxV(ss) == ss[k].v
    ensures MaxV(ss) * 3.6 <= Max0(cap)
    decreases |ss|
  {
    if ss != [] {
      var init := ss[..|ss| - 1];
      MaxVBounds(init, cap);
      assert forall k :: 0 <= k < |init| ==> init[k] == ss[k];
    }
  }

  /** On a time-ordered track the kept segments' durations add up to no more
      than the elapsed time. */
  lemma {:induction false} SegmentTimeWithinElapsed(ps: seq<Point>, opts: Options, variant: Variant, dist: Haversine)
    requires NonNegativeDistance(dist) && SortedByT(ps) && |ps| >= 1
    ensures SumDt(Segs(ps, opts, variant, dist)) <= Dt(ps[0], ps[|ps| - 1])
    decreases |ps|
  {
    if |ps| >= 2 {
      var init := ps[..|ps| - 1];
      SegmentTimeWithinElapsed(init, opts, variant, dist);
      var o := PairSegment(ps[|ps| - 2], ps[|ps| - 1], opts, variant, dist);
      if o.Some? {
        AppendSegment(Segs(init, opts, variant, dist), o.value, opts.movingSpeedThreshold);
      } else {
        assert Segs(ps, opts, variant, dist) == Segs(init, opts, variant, dist);
      }
    }
  }

  /** With a non-negative threshold the climb only grows. */
  lemma {:induction false} GainNonNegative(ps: seq<Point>, opts: Options, dist: Haversine)
    requires opts.minElevGain >= 0.0
    ensures Gain(ps, opts, dist) >= 0.0
    decreases |ps|
  {
    if |ps| >= 2 {
      GainNonNegative(ps[..|ps| - 1], opts, dist);
    }
  }

  /** The climb of the segments whose rise exceeds the threshold. */
  function ThresholdClimb(ss: seq<Segment>, minElevGain: real): real
    decreases |ss|
  {
    if ss == [] then 0.0
    else ThresholdClimb(ss[..|ss| - 1], minElevGain) + (if ss[|ss| - 1].elevUp > minElevGain then ss[|ss| - 1].elevUp else 0.0)
  }

  /** On the desktop page, with a non-negative threshold, the total climb is
      exactly the climb of the segments whose recorded rise exceeds the
      threshold: the two tallies agree. */
  lemma {:induction false} DesktopGainMatchesSegments(ps: seq<Point>, opts: Options, dist: Haversine)
    requires NonNegativeDistance(dist) && opts.minElevGain >= 0.0
    ensures Gain(ps, opts, dist) == ThresholdClimb(Segs(ps, opts, Desktop, dist), opts.minElevGain)
    decreases |ps|
  {
    if |ps| >= 2 {
      var init := ps[..|ps| - 1];
      var ss := Segs(init, opts, Desktop, dist);
      DesktopGainMatchesSegments(init, opts, dist);
      var o := PairSegment(ps[|ps| - 2], ps[|ps| - 1], opts, Desktop, dist);
      if o.Some? {
        assert (ss + [o.value])[..|ss|] == ss;
      } else {
        assert Segs(ps, opts, Desktop, dist) == ss;
      }
    }
  }

  /** On the mobile page the two tallies can disagree: a point without an
      elevation followed, a second later, by one at 10 m records a 10 m rise
      on the segment but adds nothing to the total climb. */
  lemma MobileGainDiverges(dist: Haversine)
    requires NonNegativeDistance(dist)
    requires dist(0.0, 0.0, 0.0, 0.0) == 0.0
    ensures var ps := [Point(0.0, 0.0, 0, None, None), Point(0.0, 0.0, 1000, Some(10.0), None)];
            var opts := Options(1.0, 120.0, 1.0);
            Gain(ps, opts, dist) == 0.0
            && ThresholdClimb(Segs(ps, opts, Mobile, dist), 1.0) == 10.0
            && ThresholdClimb(Segs(ps, opts, Desktop, dist), 1.0) == 0.0
  {
    var p1, p2 := Point(0.0, 0.0, 0, None, None), Point(0.0, 0.0, 1000, Some(10.0), None);
    var ps := [p1, p2];
    var opts := Options(1.0, 120.0, 1.0);
    assert Dt(p1, p2) == 1.0;
    assert Accepted(p1, p2, opts, dist);
    assert ps[..1] == [p1];
    assert Segs([p1], opts, Mobile, dist) == [] && Segs([p1], opts, Desktop, dist) == [];
    assert Gain([p1], opts, dist) == 0.0;
    var sm := PairSegment(p1, p2, opts, Mobile, dist).value;
    var sd := PairSegment(p1, p2, opts, Desktop, dist).value;
    assert sm.elevUp == 10.0 && sd.elevUp == 0.0;
    assert Segs(ps, opts, Mobile, dist) == [sm];
    assert Segs(ps, opts, Desktop, dist) == [sd];
    assert [sm][..0] == [] && [sd][..0] == [];
  }

  /** Positive time with a heart rate means some segment has one. */
  lemma {:induction false} HrDenWitness(ss: seq<Segment>)
    requires HrDen(ss) != 0.0
    ensures exists k :: 0 <= k < |ss| && ss[k].hrAvg.Some?
    decreases |ss|
  {
    var init := ss[..|ss| - 1];
    if ss[|ss| - 1].hrAvg.None? {
      HrDenWitness(init);
      var k :| 0 <= k < |init| && init[k].hrAvg.Some?;
      assert ss[k] == init[k];
    }
  }

  /** Every segment that has a heart rate has one in `[lo, hi]`. */
  predicate HrWithin(ss: seq<Segment>, lo: real, hi: real) {
    forall k :: 0 <= k < |ss| && ss[k].hrAvg.Some? ==> lo <= ss[k].hrAvg.value <= hi
  }

  /** Every segment that has a heart rate has one at most `hi`. */
  predicate HrAtMost(ss: seq<Segment>, hi: real) {
    forall k :: 0 <= k < |ss| && ss[k].hrAvg.Some? ==> ss[k].hrAvg.value <= hi
  }

  lemma HrAtMostAppend(ss: seq<Segment>, s: Segment, hi: real)
    requires HrAtMost(ss, hi) && (s.hrAvg.Some? ==> s.hrAvg.value <= hi)
    ensures HrAtMost(ss + [s], hi)
  {
    assert forall k :: 0 <= k < |ss| ==> (ss + [s])[k] == ss[k];
  }

  lemma HrAtMostRaise(ss: seq<Segment>, hi: real, hi': real)
    requires HrAtMost(ss, hi) && hi <= hi'
    ensures HrAtMost(ss, hi')
  {
  }

  lemma HrWithinAppend(ss: seq<Segment>, s: Segment, lo: real, hi: real)
    requires HrWithin(ss, lo, hi) && (s.hrAvg.Some? ==> lo <= s.hrAvg.value <= hi)
    ensures HrWithin(ss + [s], lo, hi)
  {
    assert forall k :: 0 <= k < |ss| ==> (ss + [s])[k] == ss[k];
  }

  /** Every segment's heart rate is at most the track's maximum, which
      exists as soon as one segment has a heart rate. */
  lemma {:induction false} SegmentHrBelowMax(ps: seq<Point>, opts: Options, variant: Variant, dist: Haversine)
    requires NonNegativeDistance(dist)
    ensures MaxHrOf(ps, opts, dist).Some? ==> HrAtMost(Segs(ps, opts, variant, dist), MaxHrOf(ps, opts, dist).value)
    ensures MaxHrOf(ps, opts, dist).None? ==> forall k :: 0 <= k < |Segs(ps, opts, variant, dist)| ==> Segs(ps, opts, variant, dist)[k].hrAvg.None?
    decreases |ps|
  {
    if |ps| >= 2 {
      var init := ps[..|ps| - 1];
      var p1, p2 := ps[|ps| - 2], ps[|ps| - 1];
      SegmentHrBelowMax(init, opts, variant, dist);
      var ss := Segs(init, opts, variant, dist);
      var m := MaxHrOf(init, opts, dist);
      var o := PairSegment(p1, p2, opts, variant, dist);
      if o.Some? {
        var mm := MaxOpt(MaxOpt(m, p1.hr), p2.hr);
        assert MaxHrOf(ps, opts, dist) == mm;
        assert Segs(ps, opts, variant, dist) == ss + [o.value];
        if mm.Some? {
          if m.Some? {
            HrAtMostRaise(ss, m.value, mm.value);
          } else {
            assert HrAtMost(ss, mm.value);
          }
          HrAtMostAppend(ss, o.value, mm.value);
        } else {
          assert forall k :: 0 <= k < |ss| ==> (ss + [o.value])[k] == ss[k];
        }
      } else {
        assert MaxHrOf(ps, opts, dist) == m;
        assert Segs(ps, opts, variant, dist) == ss;
      }
    }
  }

  /** When every point's heart rate lies in `[lo, hi]`, so does every
      segment's. */
  lemma {:induction false} SegmentHrWithin(ps: seq<Point>, opts: Options, variant: Variant, dist: Haversine, lo: real, hi: real)
    requires NonNegativeDistance(dist)
    requires forall k :: 0 <= k < |ps| && ps[k].hr.Some? ==> lo <= ps[k].hr.value <= hi
    ensures HrWithin(Segs(ps, opts, variant, dist), lo, hi)
    decreases |ps|
  {
    if |ps| >= 2 {
      var init := ps[..|ps| - 1];
      assert forall k :: 0 <= k < |init| ==> init[k] == ps[k];
      SegmentHrWithin(init, opts, variant, dist, lo, hi);
      var ss := Segs(init, opts, variant, dist);
      var o := PairSegment(ps[|ps| - 2], ps[|ps| - 1], opts, variant, dist);
      if o.Some? {
        HrWithinAppend(ss, o.value, lo, hi);
      } else {
        assert Segs(ps, opts, variant, dist) == ss;
      }
    }
  }

  lemma ScaleLe(x: real, y: real, t: real)
    requires x <= y && t >= 0.0
    ensures x * t <= y * t
  {
  }

  lemma Distribute(c: real, x: real, y: real)
    ensures c * (x + y) == c * x + c * y
  {
  }

  /** A weighted sum of readings at most `hi` is at most `hi` times the
      weight. */
  lemma {:induction false} HrSumAtMost(ss: seq<Segment>, cap: real, hi: real)
    requires forall k :: 0 <= k < |ss| ==> SegmentInBounds(ss[k], cap)
    requires HrAtMost(ss, hi)
    ensures HrSum(ss) <= hi * HrDen(ss)
    decreases |ss|
  {
    if ss != [] {
      var init, last := ss[..|ss| - 1], ss[|ss| - 1];
      assert forall k :: 0 <= k < |init| ==> init[k] == ss[k];
      HrSumAtMost(init, cap, hi);
      var w := if last.hrAvg.Some? then last.dt else 0.0;
      if last.hrAvg.Some? {
        SegmentHrWeight(last, last.hrAvg.value);
        ScaleLe(last.hrAvg.value, hi, last.dt);
      }
      Distribute(hi, HrDen(init), w);
    }
  }

  /** A weighted sum of readings at least `lo` is at least `lo` times the
      weight. */
  lemma {:induction false} HrSumAtLeast(ss: seq<Segment>, cap: real, lo: real, hi: real)
    requires forall k :: 0 <= k < |ss| ==> SegmentInBounds(ss[k], cap)
    requires HrWithin(ss, lo, hi)
    ensures lo * HrDen(ss) <= HrSum(ss)
    decreases |ss|
  {
    if ss != [] {
      var init, last := ss[..|ss| - 1], ss[|ss| - 1];
      assert forall k :: 0 <= k < |init| ==> init[k] == ss[k];
      HrSumAtLeast(init, cap, lo, hi);
      var w := if last.hrAvg.Some? then last.dt else 0.0;
      if last.hrAvg.Some? {
        SegmentHrWeight(last, last.hrAvg.value);
        ScaleLe(lo, last.hrAvg.value, last.dt);
      }
      Distribute(lo, HrDen(init), w);
      assert HrDen(ss) == HrDen(init) + w;
      assert HrSum(ss) == HrSum(init) + HrWeight(last);
      assert lo * w <= HrWeight(last);
    }
  }

  lemma DivideAtMost(sum: real, den: real, hi: real)
    requires den > 0.0 && sum <= hi * den
    ensures sum / den <= hi
  {
    var q := sum / den;
    assert q * den == sum;
    assert (hi - q) * den >= 0.0;
  }

  lemma DivideAtLeast(sum: real, den: real, lo: real)
    requires den > 0.0 && lo * den <= sum
    ensures lo <= sum / den
  {
    var q := sum / den;
    assert q * den == sum;
    assert (q - lo) * den >= 0.0;
  }

  /** On a time-ordered track the distance is non-negative and the moving
      time lies within the elapsed time. */
  lemma AnalysisDistanceTime(ps: seq<Point>, opts: Options, variant: Variant, dist: Haversine)
    requires NonNegativeDistance(dist) && SortedByT(ps)
    ensures var a := AnalysisOf(ps, opts, variant, dist);
            a.points == |ps| && a.totalDistM >= 0.0 && 0.0 <= a.movingS <= a.elapsedS
  {
    if |ps| >= 2 {
      var ss := Segs(ps, opts, variant, dist);
      SumsNonNegative(ss, opts.maxSpeedCapKmh, opts.movingSpeedThreshold);
      SegmentTimeWithinElapsed(ps, opts, variant, dist);
    }
  }

  /** With a non-negative threshold the reported climb is non-negative. */
  lemma AnalysisClimbNonNegative(ps: seq<Point>, opts: Options, variant: Variant, dist: Haversine)
    requires NonNegativeDistance(dist) && opts.minElevGain >= 0.0
    ensures AnalysisOf(ps, opts, variant, dist).elevGainM >= 0.0
  {
    GainNonNegative(ps, opts, dist);
  }

  /** The two average speeds are distance over elapsed and over moving time. */
  lemma AnalysisAverageSpeeds(ps: seq<Point>, opts: Options, variant: Variant, dist: Haversine)
    requires NonNegativeDistance(dist)
    ensures var a := AnalysisOf(ps, opts, variant, dist);
            && (a.elapsedS != 0.0 ==> a.avgKmhElapsed * a.elapsedS == a.totalDistM * 3.6)
            && (a.movingS != 0.0 ==> a.avgKmhMoving * a.movingS == a.totalDistM * 3.6)
  {
    if |ps| >= 2 {
      var t := TallyOf(ps, opts, variant, dist);
      FinishAverageSpeeds(ps, t);
    }
  }

  lemma FinishAverageSpeeds(ps: seq<Point>, t: Tally)
    requires |ps| >= 2
    ensures var a := Finish(ps, t);
            && (a.elapsedS != 0.0 ==> a.avgKmhElapsed * a.elapsedS == a.totalDistM * 3.6)
            && (a.movingS != 0.0 ==> a.avgKmhMoving * a.movingS == a.totalDistM * 3.6)
  {
    var a := Finish(ps, t);
    AverageSpeed(a.totalDistM, a.elapsedS);
    AverageSpeed(a.totalDistM, a.movingS);
  }

  /** `distance / (time || Infinity) * 3.6` times the time is the distance
      in km/h units. */
  lemma AverageSpeed(dist: real, time: real)
    ensures time != 0.0 ==> GuardedDiv(dist, time) * 3.6 * time == dist * 3.6
  {
    if time != 0.0 {
      var r := GuardedDiv(dist, time);
      assert r * time == dist;
      assert r * 3.6 * time == (r * time) * 3.6;
    }
  }

  /** The reported top speed never exceeds the cap (or 0 when the cap is
      negative and every pair is dropped). */
  lemma AnalysisMaxWithinCap(ps: seq<Point>, opts: Options, variant: Variant, dist: Haversine)
    requires NonNegativeDistance(dist)
    ensures AnalysisOf(ps, opts, variant, dist).maxKmh <= Max0(opts.maxSpeedCapKmh)
  {
    if |ps| >= 2 {
      MaxVBounds(Segs(ps, opts, variant, dist), opts.maxSpeedCapKmh);
    }
  }

  /** The average heart rate is reported exactly when some kept time has a
      heart rate, and then it is at most the maximum. */
  lemma AnalysisAvgHrBelowMax(ps: seq<Point>, opts: Options, variant: Variant, dist: Haversine)
    requires NonNegativeDistance(dist)
    ensures var a := AnalysisOf(ps, opts, variant, dist);
            && (a.avgHr.Some? <==> a.hrTimeDen > 0.0)
            && (a.avgHr.Some? ==> a.maxHr.Some? && a.avgHr.value <= a.maxHr.value)
  {
    if |ps| >= 2 {
      var ss := Segs(ps, opts, variant, dist);
      if HrDen(ss) > 0.0 {
        SegmentHrBelowMax(ps, opts, variant, dist);
        HrDenWitness(ss);
        var m := MaxHrOf(ps, opts, dist);
        var k :| 0 <= k < |ss| && ss[k].hrAvg.Some?;
        assert m.Some?;
        HrSumAtMost(ss, opts.maxSpeedCapKmh, m.value);
        DivideAtMost(HrSum(ss), HrDen(ss), m.value);
      }
    }
  }

  /** A heart-rate sum that lies between `lo` and `hi` times its time base. */
  predicate HrWeighted(sum: real, den: real, lo: real, hi: real) {
    den >= 0.0 && lo * den <= sum <= hi * den
  }

  /** When every reading lies in `[lo, hi]`, the heart-rate sum lies
      between `lo` and `hi` times its time base. */
  lemma AnalysisHrSums(ps: seq<Point>, opts: Options, variant: Variant, dist: Haversine, lo: real, hi: real)
    requires NonNegativeDistance(dist)
    requires forall k :: 0 <= k < |ps| && ps[k].hr.Some? ==> lo <= ps[k].hr.value <= hi
    ensures var a := AnalysisOf(ps, opts, variant, dist);
            HrWeighted(a.hrTimeSum, a.hrTimeDen, lo, hi)
  {
    if |ps| >= 2 {
      var ss := Segs(ps, opts, variant, dist);
      SumsNonNegative(ss, opts.maxSpeedCapKmh, opts.movingSpeedThreshold);
      SegmentHrWithin(ps, opts, variant, dist, lo, hi);
      assert HrAtMost(ss, hi);
      HrSumAtMost(ss, opts.maxSpeedCapKmh, hi);
      HrSumAtLeast(ss, opts.maxSpeedCapKmh, lo, hi);
      assert HrWeighted(HrSum(ss), HrDen(ss), lo, hi);
      var t := TallyOf(ps, opts, variant, dist);
      assert t.hrTimeSum == HrSum(ss) && t.hrTimeDen == HrDen(ss);
    }
  }

  /** The average heart rate lies within the range of the readings. */
  lemma AnalysisAvgHrWithin(ps: seq<Point>, opts: Options, variant: Variant, dist: Haversine, lo: real, hi: real)
    requires NonNegativeDistance(dist)
    requires forall k :: 0 <= k < |ps| && ps[k].hr.Some? ==> lo <= ps[k].hr.value <= hi
    ensures var a := AnalysisOf(ps, opts, variant, dist);
            a.avgHr.Some? ==> lo <= a.avgHr.value <= hi
  {
    var a := AnalysisOf(ps, opts, variant, dist);
    if |ps| >= 2 && a.hrTimeDen > 0.0 {
      AnalysisHrSums(ps, opts, variant, dist, lo, hi);
      assert a.avgHr == Some(a.hrTimeSum / a.hrTimeDen);
      DivideAtMost(a.hrTimeSum, a.hrTimeDen, hi);
      DivideAtLeast(a.hrTimeSum, a.hrTimeDen, lo);
    }
  }
}
