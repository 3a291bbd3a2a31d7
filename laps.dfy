/** `makeDistanceLaps`: cuts the analyzer's segments into laps of a fixed
    distance, splitting a segment's time, climb and heart-rate weight in
    proportion to the distance that falls on each side of a lap boundary. */
module Laps {
  import opened Common
  import opened Track
  import opened Calories
  import opened Format
  import opened Analyze

  /** One finished lap. `distanceKm` is called `distKm` by the mobile page. */
  datatype Lap = Lap(
    lap: nat,
    distanceKm: real,
    timeS: real,
    avgKmh: real,
    pace: string,
    elevUpM: real,
    avgHr: Option<real>,
    kcal: Option<real>)

  /** The running sums of the lap being filled: distance (m), time (s), climb
      (m), and the heart-rate weight and its time base. */
  datatype Acc = Acc(dist: real, time: real, elev: real, hrSum: real, hrDen: real)

  const EmptyAcc := Acc(0.0, 0.0, 0.0, 0.0, 0.0)

  // ----- what the segments hold -----

  /** Only segments that moved (`d > 0`) enter the lap loop. */
  function MovedDist(s: Segment): real { if s.d > 0.0 then s.d else 0.0 }
  function MovedTime(s: Segment): real { if s.d > 0.0 then s.dt else 0.0 }
  function MovedElev(s: Segment): real { if s.d > 0.0 then Max0(s.elevUp) else 0.0 }

  function PosDist(ss: seq<Segment>): real
    decreases |ss|
  {
    if ss == [] then 0.0 else PosDist(ss[..|ss| - 1]) + MovedDist(ss[|ss| - 1])
  }

  function PosTime(ss: seq<Segment>): real
    decreases |ss|
  {
    if ss == [] then 0.0 else PosTime(ss[..|ss| - 1]) + MovedTime(ss[|ss| - 1])
  }

  function PosElev(ss: seq<Segment>): real
    decreases |ss|
  {
    if ss == [] then 0.0 else PosElev(ss[..|ss| - 1]) + MovedElev(ss[|ss| - 1])
  }

  function MinOpt(acc: Option<real>, x: Option<real>): (r: Option<real>)
    ensures r.Some? <==> acc.Some? || x.Some?
    ensures acc.Some? ==> r.Some? && r.value <= acc.value
    ensures x.Some? ==> r.Some? && r.value <= x.value
  {
    if x.None? then acc
    else if acc.None? then x
    else if x.value < acc.value then x else acc
  }

  /** The highest and the lowest segment heart rate, `None` without one. */
  function HrHi(ss: seq<Segment>): Option<real>
    decreases |ss|
  {
    if ss == [] then None else MaxOpt(HrHi(ss[..|ss| - 1]), ss[|ss| - 1].hrAvg)
  }

  function HrLo(ss: seq<Segment>): Option<real>
    decreases |ss|
  {
    if ss == [] then None else MinOpt(HrLo(ss[..|ss| - 1]), ss[|ss| - 1].hrAvg)
  }

  /** Every segment heart rate lies between `HrLo` and `HrHi`. */
  lemma {:induction false} HrSpan(ss: seq<Segment>)
    ensures forall k :: 0 <= k < |ss| && ss[k].hrAvg.Some? ==>
      HrHi(ss).Some? && HrLo(ss).Some? && HrLo(ss).value <= ss[k].hrAvg.value <= HrHi(ss).value
    decreases |ss|
  {
    if ss != [] {
      var init := ss[..|ss| - 1];
      HrSpan(init);
      assert forall k :: 0 <= k < |init| ==> init[k] == ss[k];
    }
  }

  /** For the analyzer's segments (`d >= 0`) the laps cover the whole
      distance the analysis reports, and the time they cover is at most its
      segment time: the time of segments that did not move is not on any
      lap. */
  lemma {:induction false} PosCoversAnalysis(ss: seq<Segment>)
    requires forall k :: 0 <= k < |ss| ==> ss[k].d >= 0.0 && ss[k].dt >= 0.0
    ensures PosDist(ss) == SumD(ss)
    ensures PosTime(ss) <= SumDt(ss)
    decreases |ss|
  {
    if ss != [] {
      var init := ss[..|ss| - 1];
      assert forall k :: 0 <= k < |init| ==> init[k] == ss[k];
      PosCoversAnalysis(init);
    }
  }

  // ----- the laps -----

  /** A lap's speed is its distance over its time, and its pace and calories
      are those of that speed and time. */
  predicate LapConsistent(l: Lap, params: CalorieParams) {
    && l.timeS > 0.0
    && l.avgKmh > 0.0
    && l.avgKmh * l.timeS == l.distanceKm * 3600.0
    && l.pace == PaceMinPerKmAsWritten(Some(l.avgKmh))
    && l.kcal == ComputeCaloriesForSegment(Some(l.avgKmh), l.timeS, l.avgHr, params)
  }

  /** The laps are numbered 1, 2, ... in order, each exactly
      `lapDistanceKm` long, consistent, with a heart rate in `[lo, hi]`. */
  predicate ValidLaps(laps: seq<Lap>, lapDistanceKm: real, params: CalorieParams, lo: real, hi: real) {
    forall k :: 0 <= k < |laps| ==>
      && laps[k].lap == k + 1
      && laps[k].distanceKm == lapDistanceKm
      && LapConsistent(laps[k], params)
      && (laps[k].avgHr.Some? ==> lo <= laps[k].avgHr.value <= hi)
  }

  function LapTime(laps: seq<Lap>): real
    decreases |laps|
  {
    if laps == [] then 0.0 else LapTime(laps[..|laps| - 1]) + laps[|laps| - 1].timeS
  }

  function LapElev(laps: seq<Lap>): real
    decreases |laps|
  {
    if laps == [] then 0.0 else LapElev(laps[..|laps| - 1]) + laps[|laps| - 1].elevUpM
  }

  function LapDist(laps: seq<Lap>): real
    decreases |laps|
  {
    if laps == [] then 0.0 else LapDist(laps[..|laps| - 1]) + laps[|laps| - 1].distanceKm
  }

  /** Closes the lap being filled: its speed, pace, heart rate and calories. */
  function CloseLap(index: nat, acc: Acc, params: CalorieParams): (l: Lap)
    requires acc.dist > 0.0 && acc.time > 0.0
    ensures l.lap == index && l.distanceKm * 1000.0 == acc.dist
    ensures l.timeS == acc.time && l.elevUpM == acc.elev
    ensures l.avgHr == if acc.hrDen > 0.0 then Some(acc.hrSum / acc.hrDen) else None
    ensures LapConsistent(l, params)
  {
    var avgKmh := (acc.dist / acc.time) * 3.6;
    var lapAvgHr := if acc.hrDen > 0.0 then Some(acc.hrSum / acc.hrDen) else None;
    assert avgKmh * acc.time == acc.dist * 3.6;
    Lap(index, acc.dist / 1000.0, acc.time, avgKmh, PaceMinPerKmAsWritten(Some(avgKmh)), acc.elev, lapAvgHr,
        ComputeCaloriesForSegment(Some(avgKmh), acc.time, lapAvgHr, params))
  }

  lemma ValidLapsAppend(laps: seq<Lap>, l: Lap, lapDistanceKm: real, params: CalorieParams, lo: real, hi: real)
    requires ValidLaps(laps, lapDistanceKm, params, lo, hi)
    requires l.lap == |laps| + 1 && l.distanceKm == lapDistanceKm && LapConsistent(l, params)
    requires l.avgHr.Some? ==> lo <= l.avgHr.value <= hi
    ensures ValidLaps(laps + [l], lapDistanceKm, params, lo, hi)
  {
    assert forall k :: 0 <= k < |laps| ==> (laps + [l])[k] == laps[k];
  }

  // ----- arithmetic of one split -----

  /** Adding weight `w` for time `t`, itself between `lo * t` and `hi * t`,
      keeps the heart-rate sum between `lo` and `hi` times its time base. */
  lemma HrAdd(sum: real, den: real, w: real, t: real, lo: real, hi: real)
    requires lo * den <= sum <= hi * den
    requires lo * t <= w <= hi * t
    ensures lo * (den + t) <= sum + w <= hi * (den + t)
  {
    Distribute(lo, den, t);
    Distribute(hi, den, t);
  }

  lemma HrWeightWithin(h: real, t: real, lo: real, hi: real)
    requires lo <= h <= hi && t >= 0.0
    ensures lo * t <= h * t <= hi * t
  {
    ScaleLe(lo, h, t);
    ScaleLe(h, hi, t);
  }

  lemma MeanWithin(sum: real, den: real, lo: real, hi: real)
    requires den > 0.0 && lo * den <= sum <= hi * den
    ensures lo <= sum / den <= hi
  {
    DivideAtMost(sum, den, hi);
    DivideAtLeast(sum, den, lo);
  }

  /** The distance (m) of `n` whole laps of `lapDistM` metres each. */
  function LapsLength(n: nat, lapDistM: real): real
    decreases n
  {
    if n == 0 then 0.0 else LapsLength(n - 1, lapDistM) + lapDistM
  }

  lemma {:induction false} LapsLengthIsProduct(n: nat, lapDistM: real)
    ensures LapsLength(n, lapDistM) == n as real * lapDistM
    decreases n
  {
    if n > 0 {
      LapsLengthIsProduct(n - 1, lapDistM);
      assert n as real * lapDistM == (n - 1) as real * lapDistM + lapDistM;
    }
  }

  /** More laps cover strictly more distance. */
  lemma {:induction false} LapsLengthMonotone(m: nat, n: nat, lapDistM: real)
    requires lapDistM > 0.0 && m < n
    ensures LapsLength(m, lapDistM) < LapsLength(n, lapDistM)
    decreases n
  {
    if m < n - 1 {
      LapsLengthMonotone(m, n - 1, lapDistM);
    }
  }

  /** Laps of `lapDistanceKm` each add up to their number of lap lengths. */
  lemma {:induction false} LapDistCount(laps: seq<Lap>, lapDistanceKm: real)
    requires forall k :: 0 <= k < |laps| ==> laps[k].distanceKm == lapDistanceKm
    ensures LapDist(laps) * 1000.0 == LapsLength(|laps|, lapDistanceKm * 1000.0)
    decreases |laps|
  {
    if laps != [] {
      var init := laps[..|laps| - 1];
      assert forall k :: 0 <= k < |init| ==> init[k] == laps[k];
      LapDistCount(init, lapDistanceKm);
    }
  }

  /** Some number of laps is longer than any distance. */
  lemma Capacity(D: real, lapDistM: real) returns (bound: nat)
    requires lapDistM > 0.0
    ensures D < LapsLength(bound + 1, lapDistM)
  {
    bound := if D < 0.0 then 0 else (D / lapDistM).Floor;
    LapsLengthIsProduct(bound + 1, lapDistM);
    assert D / lapDistM < (bound + 1) as real;
    ScaleLt(D / lapDistM, (bound + 1) as real, lapDistM);
  }

  lemma ScaleLt(x: real, y: real, c: real)
    requires x < y && c > 0.0
    ensures x * c < y * c
  {
  }

  /** Laps that fit in a distance under `bound + 1` lap lengths number at most `bound`. */
  lemma LapCountBound(laps: seq<Lap>, lapDistanceKm: real, D: real, bound: nat)
    requires lapDistanceKm > 0.0
    requires forall k :: 0 <= k < |laps| ==> laps[k].distanceKm == lapDistanceKm
    requires LapDist(laps) * 1000.0 <= D < LapsLength(bound + 1, lapDistanceKm * 1000.0)
    ensures |laps| <= bound
  {
    LapDistCount(laps, lapDistanceKm);
    if |laps| > bound {
      LapsLengthMonotone(bound + 1, |laps|, lapDistanceKm * 1000.0);
    }
  }

  /** How the rest of a segment that crosses the boundary is shared:
      `ratio = need / remain` of its time and climb go to the lap being
      closed, `1 - ratio` stays with the rest. */
  method ShareAtBoundary(need: real, remain: real, remainTime: real, remainElev: real)
    returns (timePart: real, timeRest: real, elevPart: real, elevRest: real)
    requires 0.0 <= need < remain && remainTime > 0.0
    ensures timePart >= 0.0 && timeRest > 0.0 && timePart + timeRest == remainTime
    ensures need > 0.0 ==> timePart > 0.0
    ensures elevPart >= 0.0 && elevPart + Max0(elevRest) == Max0(remainElev)
  {
    var ratio := need / remain;
    RatioWithin(need, remain);
    timePart := remainTime * ratio;
    timeRest := remainTime * (1.0 - ratio);
    elevPart := Max0(remainElev) * ratio;
    elevRest := remainElev * (1.0 - ratio);
    assert timePart + timeRest == remainTime;
    assert Max0(elevRest) == Max0(remainElev) * (1.0 - ratio);
  }

  lemma RatioWithin(need: real, remain: real)
    requires 0.0 <= need < remain
    ensures 0.0 <= need / remain < 1.0
    ensures need > 0.0 ==> need / remain > 0.0
  {
    var q := need / remain;
    assert q * remain == need;
    assert (1.0 - q) * remain == remain - need;
  }

  // ----- the loops -----

  /** What holds between segments: `D`, `T` and `E` are the distance, time
      and climb of the moved segments seen so far. The finished laps and
      the open lap together hold exactly that much. */
  predicate Amounts(laps: seq<Lap>, acc: Acc, lapDistanceKm: real, D: real, T: real, E: real) {
    && LapDist(laps) * 1000.0 + acc.dist == D
    && 0.0 <= acc.dist <= lapDistanceKm * 1000.0
    && (D > 0.0 ==> acc.dist > 0.0)
    && acc.time >= 0.0 && (acc.dist > 0.0 ==> acc.time > 0.0)
    && LapTime(laps) + acc.time == T
    && LapElev(laps) + acc.elev == E && acc.elev >= 0.0
  }

  /** The open lap's heart-rate sum stays between `lo` and `hi` times its
      time base, which is positive only once a heart rate was seen. */
  predicate HrBounded(acc: Acc, lo: real, hi: real, hrSeen: bool) {
    && acc.hrDen >= 0.0 && lo * acc.hrDen <= acc.hrSum <= hi * acc.hrDen
    && (acc.hrDen > 0.0 ==> hrSeen)
  }

  /** A freshly opened lap has no heart-rate weight to bound. */
  lemma EmptyAccBounded(lo: real, hi: real, hrSeen: bool)
    ensures HrBounded(EmptyAcc, lo, hi, hrSeen)
  {
  }

  predicate Progress(laps: seq<Lap>, acc: Acc, lapDistanceKm: real, params: CalorieParams,
                     lo: real, hi: real, hrSeen: bool, D: real, T: real, E: real) {
    && Amounts(laps, acc, lapDistanceKm, D, T, E)
    && HrBounded(acc, lo, hi, hrSeen)
    && ValidLaps(laps, lapDistanceKm, params, lo, hi)
  }

  /** The inner loop's invariant: the closed laps, the open lap and what is
      left of the segment add up to the totals `D`, `T` and `E`. */
  predicate Feeding(laps: seq<Lap>, acc: Acc, remain: real, remainTime: real, remainElev: real,
                    lapDistanceKm: real, params: CalorieParams, lo: real, hi: real, hrSeen: bool,
                    D: real, T: real, E: real) {
    && LapDist(laps) * 1000.0 + acc.dist + remain == D
    && 0.0 <= acc.dist <= lapDistanceKm * 1000.0 && remain >= 0.0
    && (acc.dist > 0.0 || remain > 0.0)
    && acc.time >= 0.0 && (acc.dist > 0.0 ==> acc.time > 0.0) && remainTime > 0.0
    && LapTime(laps) + acc.time + (if remain > 0.0 then remainTime else 0.0) == T
    && LapElev(laps) + acc.elev + (if remain > 0.0 then Max0(remainElev) else 0.0) == E
    && acc.elev >= 0.0
    && HrBounded(acc, lo, hi, hrSeen)
    && ValidLaps(laps, lapDistanceKm, params, lo, hi)
  }

  /** The inner `while (remain > 0)` loop for one segment. */
  method FeedSegment(seg: Segment, laps0: seq<Lap>, acc0: Acc, lapDistanceKm: real, params: CalorieParams,
                     ghost lo: real, ghost hi: real, ghost hrSeen: bool, ghost D: real, ghost T: real, ghost E: real)
    returns (laps: seq<Lap>, acc: Acc)
    requires lapDistanceKm > 0.0 && seg.dt > 0.0
    requires seg.hrAvg.Some? ==> lo <= seg.hrAvg.value <= hi && hrSeen
    requires Progress(laps0, acc0, lapDistanceKm, params, lo, hi, hrSeen, D, T, E)
    ensures Progress(laps, acc, lapDistanceKm, params, lo, hi, hrSeen,
                     D + MovedDist(seg), T + MovedTime(seg), E + MovedElev(seg))
  {
    laps, acc := laps0, acc0;
    var remain, remainTime, remainElev := seg.d, seg.dt, seg.elevUp;
    var hrAvg := seg.hrAvg;
    ghost var D', T', E' := D + MovedDist(seg), T + MovedTime(seg), E + MovedElev(seg);
    if remain <= 0.0 {
      return;
    }
    FeedingStart(seg, laps, acc, lapDistanceKm, params, lo, hi, hrSeen, D, T, E);
    ghost var bound := Capacity(D', lapDistanceKm * 1000.0);
    LapCountBound(laps, lapDistanceKm, D', bound);
    while remain > 0.0
      invariant Feeding(laps, acc, remain, remainTime, remainElev, lapDistanceKm, params, lo, hi, hrSeen, D', T', E')
      invariant |laps| <= bound
      decreases bound - |laps|, if remain > 0.0 then 1 else 0
    {
      laps, acc, remain, remainTime, remainElev :=
        FeedStep(laps, acc, remain, remainTime, remainElev, hrAvg, lapDistanceKm, params, lo, hi, hrSeen, D', T', E');
      LapCountBound(laps, lapDistanceKm, D', bound);
    }
    FeedingEnd(laps, acc, remain, remainTime, remainElev, lapDistanceKm, params, lo, hi, hrSeen, D', T', E');
  }

  /** A moving segment starts the inner loop with all of it still to place. */
  lemma FeedingStart(seg: Segment, laps: seq<Lap>, acc: Acc, lapDistanceKm: real, params: CalorieParams,
                     lo: real, hi: real, hrSeen: bool, D: real, T: real, E: real)
    requires seg.d > 0.0 && seg.dt > 0.0
    requires Progress(laps, acc, lapDistanceKm, params, lo, hi, hrSeen, D, T, E)
    ensures Feeding(laps, acc, seg.d, seg.dt, seg.elevUp, lapDistanceKm, params, lo, hi, hrSeen,
                    D + MovedDist(seg), T + MovedTime(seg), E + MovedElev(seg))
  {
  }

  /** Once nothing remains, the inner loop's invariant is the progress one. */
  lemma FeedingEnd(laps: seq<Lap>, acc: Acc, remain: real, remainTime: real, remainElev: real,
                   lapDistanceKm: real, params: CalorieParams, lo: real, hi: real, hrSeen: bool,
                   D: real, T: real, E: real)
    requires remain <= 0.0
    requires Feeding(laps, acc, remain, remainTime, remainElev, lapDistanceKm, params, lo, hi, hrSeen, D, T, E)
    ensures Progress(laps, acc, lapDistanceKm, params, lo, hi, hrSeen, D, T, E)
  {
  }

  /** One turn of the inner loop: either the rest fits in the open lap and the
      segment is used up, or one more lap is closed. */
  method FeedStep(laps0: seq<Lap>, acc0: Acc, remain0: real, remainTime0: real, remainElev0: real,
                  hrAvg: Option<real>, lapDistanceKm: real, params: CalorieParams,
                  ghost lo: real, ghost hi: real, ghost hrSeen: bool, ghost D: real, ghost T: real, ghost E: real)
    returns (laps: seq<Lap>, acc: Acc, remain: real, remainTime: real, remainElev: real)
    requires lapDistanceKm > 0.0 && remain0 > 0.0
    requires hrAvg.Some? ==> lo <= hrAvg.value <= hi && hrSeen
    requires Feeding(laps0, acc0, remain0, remainTime0, remainElev0, lapDistanceKm, params, lo, hi, hrSeen, D, T, E)
    ensures Feeding(laps, acc, remain, remainTime, remainElev, lapDistanceKm, params, lo, hi, hrSeen, D, T, E)
    ensures (|laps| == |laps0| && remain == 0.0) || |laps| == |laps0| + 1
  {
    laps, acc, remain, remainTime, remainElev := laps0, acc0, remain0, remainTime0, remainElev0;
    var need := lapDistanceKm * 1000.0 - acc.dist;
    if remain <= need {
      acc := AddWhole(acc, remain, remainTime, remainElev, hrAvg, lo, hi, hrSeen);
      remain := 0.0;
    } else {
      laps, acc, remain, remainTime, remainElev :=
        CloseAtBoundary(laps, acc, remain, remainTime, remainElev, hrAvg, lapDistanceKm, params, lo, hi, hrSeen);
      EmptyAccBounded(lo, hi, hrSeen);
    }
  }

  /** The `then` branch: the rest of the segment fits in the open lap. */
  method AddWhole(acc0: Acc, remain: real, remainTime: real, remainElev: real, hrAvg: Option<real>,
                  ghost lo: real, ghost hi: real, ghost hrSeen: bool)
    returns (acc: Acc)
    requires remainTime >= 0.0
    requires hrAvg.Some? ==> lo <= hrAvg.value <= hi && hrSeen
    requires HrBounded(acc0, lo, hi, hrSeen)
    ensures acc.dist == acc0.dist + remain && acc.time == acc0.time + remainTime
    ensures acc.elev == acc0.elev + Max0(remainElev)
    ensures HrBounded(acc, lo, hi, hrSeen)
  {
    var hrSum, hrDen := acc0.hrSum, acc0.hrDen;
    if hrAvg.Some? {
      HrWeightWithin(hrAvg.value, remainTime, lo, hi);
      HrAdd(hrSum, hrDen, hrAvg.value * remainTime, remainTime, lo, hi);
      hrSum, hrDen := hrSum + hrAvg.value * remainTime, hrDen + remainTime;
    }
    acc := Acc(acc0.dist + remain, acc0.time + remainTime, acc0.elev + Max0(remainElev), hrSum, hrDen);
  }

  /** The `else` branch: the rest of the segment crosses the lap boundary.
      The part up to the boundary closes a lap; the rest stays to be fed. */
  method CloseAtBoundary(laps0: seq<Lap>, acc0: Acc, remain0: real, remainTime0: real, remainElev0: real,
                         hrAvg: Option<real>, lapDistanceKm: real, params: CalorieParams,
                         ghost lo: real, ghost hi: real, ghost hrSeen: bool)
    returns (laps: seq<Lap>, acc: Acc, remain: real, remainTime: real, remainElev: real)
    requires lapDistanceKm > 0.0
    requires hrAvg.Some? ==> lo <= hrAvg.value <= hi && hrSeen
    requires 0.0 <= acc0.dist <= lapDistanceKm * 1000.0 && remain0 > lapDistanceKm * 1000.0 - acc0.dist
    requires acc0.time >= 0.0 && (acc0.dist > 0.0 ==> acc0.time > 0.0) && remainTime0 > 0.0
    requires HrBounded(acc0, lo, hi, hrSeen)
    requires ValidLaps(laps0, lapDistanceKm, params, lo, hi)
    ensures |laps| == |laps0| + 1 && laps[..|laps0|] == laps0
    ensures acc == EmptyAcc && remain > 0.0 && remainTime > 0.0
    ensures remain == acc0.dist + remain0 - lapDistanceKm * 1000.0
    ensures LapDist(laps) * 1000.0 == LapDist(laps0) * 1000.0 + lapDistanceKm * 1000.0
    ensures LapTime(laps) + remainTime == LapTime(laps0) + acc0.time + remainTime0
    ensures LapElev(laps) + Max0(remainElev) == LapElev(laps0) + acc0.elev + Max0(remainElev0)
    ensures ValidLaps(laps, lapDistanceKm, params, lo, hi)
  {
    var need := lapDistanceKm * 1000.0 - acc0.dist;
    var timePart, elevPart;
    timePart, remainTime, elevPart, remainElev := ShareAtBoundary(need, remain0, remainTime0, remainElev0);
    var full := AddWhole(acc0, need, timePart, elevPart, hrAvg, lo, hi, hrSeen);
    var l := Push(laps0, full, lapDistanceKm, params, lo, hi, hrSeen);
    laps := laps0 + [l];
    assert laps[..|laps| - 1] == laps0;
    remain := remain0 - need;
    acc := EmptyAcc;
  }

  /** Closes the full lap `acc` as lap number `|laps0| + 1`. */
  method Push(laps0: seq<Lap>, acc: Acc, lapDistanceKm: real, params: CalorieParams,
              ghost lo: real, ghost hi: real, ghost hrSeen: bool)
    returns (l: Lap)
    requires lapDistanceKm > 0.0 && acc.dist == lapDistanceKm * 1000.0 && acc.time > 0.0
    requires HrBounded(acc, lo, hi, hrSeen)
    requires ValidLaps(laps0, lapDistanceKm, params, lo, hi)
    ensures l.distanceKm == lapDistanceKm && l.timeS == acc.time && l.elevUpM == acc.elev
    ensures ValidLaps(laps0 + [l], lapDistanceKm, params, lo, hi)
  {
    if acc.hrDen > 0.0 {
      MeanWithin(acc.hrSum, acc.hrDen, lo, hi);
    }
    l := CloseLap(|laps0| + 1, acc, params);
    ValidLapsAppend(laps0, l, lapDistanceKm, params, lo, hi);
  }

  /** `makeDistanceLaps(analysis, lapDistanceKm, calorieParams)`: only whole
      laps are returned; the distance after the last boundary is dropped. */
  /** What `makeDistanceLaps` promises about its laps: numbered, one lap
      distance each, consistent, with heart rates within the segments'
      range; together they fall short of the moved distance by less than
      one lap, with none when nothing moved, and stay within the moved time
      and climb. */
  predicate DistanceLaps(laps: seq<Lap>, segments: seq<Segment>, lapDistanceKm: real, params: CalorieParams) {
    && ValidLaps(laps, lapDistanceKm, params, HrLo(segments).GetOr(0.0), HrHi(segments).GetOr(0.0))
    && (PosDist(segments) == 0.0 ==> laps == [])
    && (PosDist(segments) > 0.0 ==>
          LapsLength(|laps|, lapDistanceKm * 1000.0) < PosDist(segments) <= LapsLength(|laps| + 1, lapDistanceKm * 1000.0))
    && (PosDist(segments) > 0.0 ==> LapTime(laps) < PosTime(segments))
    && LapTime(laps) <= PosTime(segments) && LapElev(laps) <= PosElev(segments)
  }

  method MakeDistanceLaps(segments: seq<Segment>, lapDistanceKm: real, params: CalorieParams)
    returns (laps: seq<Lap>)
    requires lapDistanceKm > 0.0
    requires forall k :: 0 <= k < |segments| ==> segments[k].dt > 0.0
    ensures ValidLaps(laps, lapDistanceKm, params, HrLo(segments).GetOr(0.0), HrHi(segments).GetOr(0.0))
    ensures PosDist(segments) == 0.0 ==> laps == []
    ensures PosDist(segments) > 0.0 ==>
      LapsLength(|laps|, lapDistanceKm * 1000.0) < PosDist(segments) <= LapsLength(|laps| + 1, lapDistanceKm * 1000.0)
    ensures PosDist(segments) > 0.0 ==> LapTime(laps) < PosTime(segments)
    ensures LapTime(laps) <= PosTime(segments) && LapElev(laps) <= PosElev(segments)
    ensures DistanceLaps(laps, segments, lapDistanceKm, params)
  {
    ghost var lo, hi := HrLo(segments).GetOr(0.0), HrHi(segments).GetOr(0.0);
    ghost var hrSeen := HrHi(segments).Some?;
    HrSpan(segments);
    var acc;
    laps, acc := FeedAll(segments, lapDistanceKm, params, lo, hi, hrSeen);
    ProgressFinal(laps, acc, lapDistanceKm, PosDist(segments), PosTime(segments), PosElev(segments));
  }

  /** The outer `for` loop over the segments. */
  method FeedAll(segments: seq<Segment>, lapDistanceKm: real, params: CalorieParams,
                 ghost lo: real, ghost hi: real, ghost hrSeen: bool)
    returns (laps: seq<Lap>, acc: Acc)
    requires lapDistanceKm > 0.0
    requires forall k :: 0 <= k < |segments| ==> segments[k].dt > 0.0
    requires forall k :: 0 <= k < |segments| && segments[k].hrAvg.Some? ==>
      lo <= segments[k].hrAvg.value <= hi && hrSeen
    ensures Progress(laps, acc, lapDistanceKm, params, lo, hi, hrSeen,
                     PosDist(segments), PosTime(segments), PosElev(segments))
  {
    laps := [];
    acc := EmptyAcc;
    for i := 0 to |segments|
      invariant Progress(laps, acc, lapDistanceKm, params, lo, hi, hrSeen,
                         PosDist(segments[..i]), PosTime(segments[..i]), PosElev(segments[..i]))
    {
      assert segments[..i + 1][..i] == segments[..i];
      laps, acc := FeedSegment(segments[i], laps, acc, lapDistanceKm, params, lo, hi, hrSeen,
                               PosDist(segments[..i]), PosTime(segments[..i]), PosElev(segments[..i]));
    }
    assert segments[..|segments|] == segments;
  }

  /** What the loop's progress says once every segment is fed: the open lap
      holds more than nothing and at most one lap. */
  lemma ProgressFinal(laps: seq<Lap>, acc: Acc, lapDistanceKm: real, D: real, T: real, E: real)
    requires lapDistanceKm > 0.0
    requires forall k :: 0 <= k < |laps| ==> laps[k].distanceKm == lapDistanceKm
    requires Amounts(laps, acc, lapDistanceKm, D, T, E)
    ensures D == 0.0 ==> laps == []
    ensures D > 0.0 ==> LapsLength(|laps|, lapDistanceKm * 1000.0) < D <= LapsLength(|laps| + 1, lapDistanceKm * 1000.0)
    ensures D > 0.0 ==> LapTime(laps) < T
    ensures LapTime(laps) <= T && LapElev(laps) <= E
  {
    LapDistCount(laps, lapDistanceKm);
    if laps != [] {
      LapsLengthMonotone(0, |laps|, lapDistanceKm * 1000.0);
    }
  }

  // ----- a lap distance of 0 or less -----

  /** The inner loop as written, reduced to what decides whether it ends:
      the distance gathered for the lap in progress, the distance left of
      the segment, and the number of laps pushed so far. A turn either
      finishes the segment inside the lap, or closes the lap at `lapDistM`
      and goes on with the rest; the loop stops when nothing is left. */
  function InnerTurnsAsWritten(lapDistM: real, accDist: real, remain: real, pushed: nat, n: nat): (real, real, nat)
    decreases n
  {
    if n == 0 || remain <= 0.0 then (accDist, remain, pushed)
    else
      var need := lapDistM - accDist;
      if remain <= need then InnerTurnsAsWritten(lapDistM, accDist + remain, 0.0, pushed, n - 1)
      else InnerTurnsAsWritten(lapDistM, 0.0, remain - need, pushed + 1, n - 1)
  }

  /** With a lap distance of 0 or less, a moving segment keeps the loop
      going forever: after any number of turns the lap in progress is empty,
      at least the whole segment is still left, and every turn has pushed a
      lap. */
  lemma {:induction false} NonPositiveLapNeverEnds(lapDistM: real, remain: real, pushed: nat, n: nat)
    requires lapDistM <= 0.0 && remain > 0.0
    ensures var r := InnerTurnsAsWritten(lapDistM, 0.0, remain, pushed, n);
            r.0 == 0.0 && r.1 >= remain && r.2 == pushed + n
    decreases n
  {
    if n > 0 {
      NonPositiveLapNeverEnds(lapDistM, remain - lapDistM, pushed + 1, n - 1);
    }
  }

  /** The lap table with the evident guard: no laps when the lap distance
      is 0 or less, and otherwise the laps of `makeDistanceLaps`. */
  method MakeDistanceLapsGuarded(segments: seq<Segment>, lapDistanceKm: real, params: CalorieParams)
    returns (laps: seq<Lap>)
    requires forall k :: 0 <= k < |segments| ==> segments[k].dt > 0.0
    ensures lapDistanceKm <= 0.0 ==> laps == []
    ensures lapDistanceKm > 0.0 ==> DistanceLaps(laps, segments, lapDistanceKm, params)
  {
    if lapDistanceKm <= 0.0 {
      return [];
    }
    laps := MakeDistanceLaps(segments, lapDistanceKm, params);
  }
}
