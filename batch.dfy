/** The analyze button's handler: each selected file is parsed, analysed,
    split into laps and given a calorie total; one summary row per file is
    kept, the running `agg` totals are folded over the files, and a total
    row is added when the batch covered any time or distance. */
module Batch {
  import opened Common
  import opened Track
  import opened Calories
  import opened Format
  import opened GpxParse
  import opened Analyze
  import opened Laps

  /** The form's values, already read as numbers (`None` for an empty or
      non-numeric weight or age). */
  datatype Settings = Settings(
    movingThreshold: real, lapDistanceKm: real, minElevGain: real, maxSpeedCap: real,
    calorieMethod: string, weightKg: Option<real>, age: Option<real>, sex: string)

  function OptionsOf(s: Settings): Options {
    Options(s.movingThreshold, s.maxSpeedCap, s.minElevGain)
  }

  /** The calorie parameters the handler builds for one file. */
  function ParamsFor(s: Settings, fileCalories: Option<real>, elapsedS: real): CalorieParams {
    CalorieParams(s.calorieMethod, fileCalories, elapsedS, s.weightKg, s.age, s.sex)
  }

  /** A selected file: its name and the document read from it, `None` when
      reading or processing it throws. */
  datatype FileInput = FileInput(name: string, doc: Option<RawDoc>)

  /** The file's calorie total: under "auto" the file's own declared total
      when it has one; otherwise the estimator over the whole file, with the
      declared calories withheld. */
  function FileCaloriesKcal(s: Settings, fileCalories: Option<real>, a: Analysis): (r: Option<real>)
    ensures s.calorieMethod == "auto" && fileCalories.Some? ==> r == fileCalories
    ensures s.calorieMethod !in {"auto", "hr", "met"} ==> r.None?
    ensures s.calorieMethod == "hr" ==> r == EstimateCaloriesHR(a.avgHr, a.elapsedS, s.weightKg, s.age, s.sex)
    ensures s.calorieMethod == "met" ==> r == EstimateCaloriesMET(Some(a.avgKmhElapsed), a.elapsedS, s.weightKg)
    ensures s.calorieMethod == "auto" && s.weightKg.Some? ==> r.Some?
  {
    if s.calorieMethod == "auto" && fileCalories.Some? then fileCalories
    else ComputeCaloriesForSegment(Some(a.avgKmhElapsed), a.elapsedS, a.avgHr, ParamsFor(s, None, a.elapsedS))
  }

  /** The file total is the per-segment estimate applied to the whole file,
      with the file's own parameters, except when "auto" has declared
      calories but no elapsed time to prorate them over. */
  lemma FileCaloriesIsWholeFile(s: Settings, fileCalories: Option<real>, a: Analysis)
    requires !(s.calorieMethod == "auto" && fileCalories.Some? && a.elapsedS <= 0.0)
    ensures FileCaloriesKcal(s, fileCalories, a)
         == ComputeCaloriesForSegment(Some(a.avgKmhElapsed), a.elapsedS, a.avgHr, ParamsFor(s, fileCalories, a.elapsedS))
  {
    var p := ParamsFor(s, fileCalories, a.elapsedS);
    if s.calorieMethod == "auto" && fileCalories.Some? {
      var r := ComputeCaloriesForSegment(Some(a.avgKmhElapsed), a.elapsedS, a.avgHr, p);
      assert r.value * a.elapsedS == fileCalories.value * a.elapsedS;
      CancelPositive(r.value, fileCalories.value, a.elapsedS);
    }
  }

  // ----- the `agg` totals -----

  datatype Totals = Totals(
    points: nat, distM: real, elapsedS: real, movingS: real, elevM: real,
    maxKmh: real, maxHr: Option<real>, hrTimeSum: real, hrTimeDen: real, calories: real)

  const NoTotals := Totals(0, 0.0, 0.0, 0.0, 0.0, 0.0, None, 0.0, 0.0, 0.0)

  /** What one analysed file brings to the batch. */
  datatype Contribution = Contribution(name: string, analysis: Analysis, caloriesKcal: Option<real>)

  /** The `agg` updates for one file: sums, the top speed, the highest heart
      rate, and the calories when the file has a total. */
  function AddFile(t: Totals, c: Contribution): (r: Totals)
    ensures r.maxKmh >= t.maxKmh && r.maxKmh >= c.analysis.maxKmh
    ensures r.maxKmh == t.maxKmh || r.maxKmh == c.analysis.maxKmh
    ensures r.maxHr.Some? <==> t.maxHr.Some? || c.analysis.maxHr.Some?
    ensures r.maxHr.Some? && t.maxHr.Some? ==> r.maxHr.value >= t.maxHr.value
    ensures r.maxHr.Some? && c.analysis.maxHr.Some? ==> r.maxHr.value >= c.analysis.maxHr.value
    ensures c.caloriesKcal.None? ==> r.calories == t.calories
  {
    var a := c.analysis;
    Totals(
      t.points + a.points, t.distM + a.totalDistM, t.elapsedS + a.elapsedS, t.movingS + a.movingS,
      t.elevM + a.elevGainM, Max(t.maxKmh, a.maxKmh), MaxOpt(t.maxHr, a.maxHr),
      t.hrTimeSum + a.hrTimeSum, t.hrTimeDen + a.hrTimeDen, t.calories + c.caloriesKcal.GetOr(0.0))
  }

  /** The totals after the files of `cs`, in order. */
  function TotalsOf(cs: seq<Contribution>): Totals
    decreases |cs|
  {
    if cs == [] then NoTotals else AddFile(TotalsOf(cs[..|cs| - 1]), cs[|cs| - 1])
  }

  lemma TotalsOfSnoc(cs: seq<Contribution>, c: Contribution)
    ensures TotalsOf(cs + [c]) == AddFile(TotalsOf(cs), c)
  {
    assert (cs + [c])[..|cs|] == cs;
  }

  /** The totals of two batches put together. */
  function Combine(t1: Totals, t2: Totals): Totals {
    Totals(
      t1.points + t2.points, t1.distM + t2.distM, t1.elapsedS + t2.elapsedS, t1.movingS + t2.movingS,
      t1.elevM + t2.elevM, Max(t1.maxKmh, t2.maxKmh), MaxOpt(t1.maxHr, t2.maxHr),
      t1.hrTimeSum + t2.hrTimeSum, t1.hrTimeDen + t2.hrTimeDen, t1.calories + t2.calories)
  }

  lemma {:induction false} TotalsMaxNonNegative(cs: seq<Contribution>)
    ensures TotalsOf(cs).maxKmh >= 0.0
    decreases |cs|
  {
    if cs != [] {
      TotalsMaxNonNegative(cs[..|cs| - 1]);
    }
  }

  /** The fold does not depend on how the files are grouped: the totals of
      a concatenation are the combined totals of its parts. */
  lemma {:induction false} TotalsOfConcat(a: seq<Contribution>, b: seq<Contribution>)
    ensures TotalsOf(a + b) == Combine(TotalsOf(a), TotalsOf(b))
    decreases |b|
  {
    if b == [] {
      assert a + b == a;
      TotalsMaxNonNegative(a);
    } else {
      var init, c := b[..|b| - 1], b[|b| - 1];
      assert a + b == (a + init) + [c];
      TotalsOfSnoc(a + init, c);
      TotalsOfConcat(a, init);
      AddCombine(TotalsOf(a), TotalsOf(init), c);
    }
  }

  lemma AddCombine(x: Totals, y: Totals, c: Contribution)
    ensures AddFile(Combine(x, y), c) == Combine(x, AddFile(y, c))
  {
    assert MaxOpt(MaxOpt(x.maxHr, y.maxHr), c.analysis.maxHr) == MaxOpt(x.maxHr, MaxOpt(y.maxHr, c.analysis.maxHr));
  }

  /** The top speed of the batch is at least every file's and is one of them,
      or 0 for no files. */
  lemma {:induction false} TotalsMaxKmh(cs: seq<Contribution>)
    ensures forall k :: 0 <= k < |cs| ==> cs[k].analysis.maxKmh <= TotalsOf(cs).maxKmh
    ensures TotalsOf(cs).maxKmh == 0.0 || exists k :: 0 <= k < |cs| && TotalsOf(cs).maxKmh == cs[k].analysis.maxKmh
    decreases |cs|
  {
    if cs != [] {
      var init := cs[..|cs| - 1];
      TotalsMaxKmh(init);
      assert forall k :: 0 <= k < |init| ==> init[k] == cs[k];
    }
  }

  lemma HrWeightedAdd(s1: real, d1: real, s2: real, d2: real, lo: real, hi: real)
    requires HrWeighted(s1, d1, lo, hi) && HrWeighted(s2, d2, lo, hi)
    ensures HrWeighted(s1 + s2, d1 + d2, lo, hi)
  {
    Distribute(lo, d1, d2);
    Distribute(hi, d1, d2);
  }

  /** If every file keeps its heart-rate sum between `lo` and `hi` times its
      time base, so does the batch, and the batch average lies in `[lo, hi]`. */
  lemma {:induction false} TotalsHrWeighted(cs: seq<Contribution>, lo: real, hi: real)
    requires forall k :: 0 <= k < |cs| ==> HrWeighted(cs[k].analysis.hrTimeSum, cs[k].analysis.hrTimeDen, lo, hi)
    ensures HrWeighted(TotalsOf(cs).hrTimeSum, TotalsOf(cs).hrTimeDen, lo, hi)
    decreases |cs|
  {
    if cs != [] {
      var init, c := cs[..|cs| - 1], cs[|cs| - 1];
      assert forall k :: 0 <= k < |init| ==> init[k] == cs[k];
      TotalsHrWeighted(init, lo, hi);
      var u := TotalsOf(init);
      HrWeightedAdd(u.hrTimeSum, u.hrTimeDen, c.analysis.hrTimeSum, c.analysis.hrTimeDen, lo, hi);
    }
  }

  /** The batch's average heart rate lies in `[lo, hi]` when every file's
      sums do. */
  lemma TotalsHrWithin(cs: seq<Contribution>, lo: real, hi: real)
    requires forall k :: 0 <= k < |cs| ==> HrWeighted(cs[k].analysis.hrTimeSum, cs[k].analysis.hrTimeDen, lo, hi)
    ensures TotalsOf(cs).hrTimeDen > 0.0 ==> lo <= TotalsOf(cs).hrTimeSum / TotalsOf(cs).hrTimeDen <= hi
  {
    TotalsHrWeighted(cs, lo, hi);
    var t := TotalsOf(cs);
    if t.hrTimeDen > 0.0 {
      DivideAtMost(t.hrTimeSum, t.hrTimeDen, hi);
      DivideAtLeast(t.hrTimeSum, t.hrTimeDen, lo);
    }
  }

  /** A file's distance is not negative and its moving time lies within its
      elapsed time. */
  predicate TimeConsistent(a: Analysis) {
    a.totalDistM >= 0.0 && 0.0 <= a.movingS <= a.elapsedS
  }

  /** When every file is consistent, so are the batch's totals. */
  lemma {:induction false} TotalsTimeWithin(cs: seq<Contribution>)
    requires forall k :: 0 <= k < |cs| ==> TimeConsistent(cs[k].analysis)
    ensures TotalsOf(cs).distM >= 0.0 && 0.0 <= TotalsOf(cs).movingS <= TotalsOf(cs).elapsedS
    decreases |cs|
  {
    if cs != [] {
      var init := cs[..|cs| - 1];
      assert forall k :: 0 <= k < |init| ==> init[k] == cs[k];
      TotalsTimeWithin(init);
    }
  }

  /** The `agg` statements for one file. */
  method AddToTotals(agg: Totals, c: Contribution) returns (next: Totals)
    ensures next == AddFile(agg, c)
  {
    var a := c.analysis;
    next := agg.(points := agg.points + a.points);
    next := next.(distM := next.distM + a.totalDistM);
    next := next.(elapsedS := next.elapsedS + a.elapsedS);
    next := next.(movingS := next.movingS + a.movingS);
    next := next.(elevM := next.elevM + a.elevGainM);
    next := next.(maxKmh := Max(next.maxKmh, a.maxKmh));
    if a.maxHr.Some? {
      next := next.(maxHr := Some(Max(next.maxHr.GetOr(a.maxHr.value), a.maxHr.value)));
    }
    next := next.(hrTimeSum := next.hrTimeSum + a.hrTimeSum);
    next := next.(hrTimeDen := next.hrTimeDen + a.hrTimeDen);
    if c.caloriesKcal.Some? {
      next := next.(calories := next.calories + c.caloriesKcal.value);
    }
  }

  // ----- the rows -----

  /** A summary row as kept for the CSV export (`lastSummary`); the numeric
      columns are unrounded. */
  datatype SummaryRow = SummaryRow(
    file: string, points: nat, totalKm: real, elapsed: string, moving: string,
    avgKmhElapsed: real, avgKmhMoving: real, maxKmh: real, avgPace: string, elevGainM: real,
    avgHr: Option<int>, maxHr: Option<int>, caloriesKcal: Option<int>)

  /** A lap row (`lastLaps`): the file and the lap. */
  datatype LapRow = LapRow(file: string, lap: Lap)

  /** `x ? Math.round(x) : ""`: a missing or zero reading leaves the cell empty. */
  function RoundedIfTruthy(x: Option<real>): (r: Option<int>)
    ensures r.Some? <==> x.Some? && x.value != 0.0
    ensures r.Some? ==> r.value == Round(x.value)
  {
    if x.Some? && x.value != 0.0 then Some(Round(x.value)) else None
  }

  function SummaryOf(c: Contribution): (r: SummaryRow)
    ensures r.file == c.name && r.points == c.analysis.points
    ensures r.avgPace == "" <==> c.analysis.avgKmhElapsed <= 0.0
    ensures r.avgHr.Some? <==> c.analysis.avgHr.Some? && c.analysis.avgHr.value != 0.0
    ensures r.caloriesKcal.Some? <==> c.caloriesKcal.Some?
    ensures r.caloriesKcal.Some? ==> r.caloriesKcal.value == Round(c.caloriesKcal.value)
    ensures r.avgHr == RoundedIfTruthy(c.analysis.avgHr) && r.maxHr == RoundedIfTruthy(c.analysis.maxHr)
    ensures r.avgPace == PaceMinPerKmAsWritten(Some(c.analysis.avgKmhElapsed))
    ensures ParseHMS(r.elapsed) == Some(WholeSeconds(c.analysis.elapsedS))
    ensures ParseHMS(r.moving) == Some(WholeSeconds(c.analysis.movingS))
  {
    var a := c.analysis;
    SummaryRow(
      c.name, a.points, a.totalDistM / 1000.0, SecToHMS(a.elapsedS), SecToHMS(a.movingS),
      a.avgKmhElapsed, a.avgKmhMoving, a.maxKmh, PaceMinPerKmAsWritten(Some(a.avgKmhElapsed)), a.elevGainM,
      RoundedIfTruthy(a.avgHr), RoundedIfTruthy(a.maxHr),
      if c.caloriesKcal.Some? then Some(Round(c.caloriesKcal.value)) else None)
  }

  /** One summary row per analysed file, in order. */
  function SummariesOf(cs: seq<Contribution>): (r: seq<SummaryRow>)
    ensures |r| == |cs|
    ensures forall k :: 0 <= k < |r| ==> r[k] == SummaryOf(cs[k])
  {
    Map(SummaryOf, cs)
  }

  /** The row at `k` is the summary of the `k`-th analysed file. */
  lemma SummaryAt(cs: seq<Contribution>, k: nat)
    requires k < |cs|
    ensures SummariesOf(cs)[k] == SummaryOf(cs[k])
  {
  }

  const TotalLabel := "합계"

  /** `distM / (timeS || Infinity) * 3.6`: the speed in km/h over that time,
      0 without time. */
  function KmhOver(distM: real, timeS: real): (r: real)
    ensures timeS != 0.0 ==> r == distM / timeS * 3.6
    ensures timeS == 0.0 ==> r == 0.0
  {
    GuardedDiv(distM, timeS) * 3.6
  }

  /** The total row: averages over the batch's time (`x / (t || Infinity)`),
      the batch's average heart rate `Σ sum / Σ den`, and the calories when
      they are not 0. */
  function TotalRow(t: Totals): (r: SummaryRow)
    ensures r.file == TotalLabel && r.points == t.points
    ensures ParseHMS(r.elapsed) == Some(WholeSeconds(t.elapsedS))
    ensures ParseHMS(r.moving) == Some(WholeSeconds(t.movingS))
    ensures t.elapsedS != 0.0 ==> r.avgKmhElapsed == t.distM / t.elapsedS * 3.6
    ensures t.elapsedS == 0.0 ==> r.avgKmhElapsed == 0.0
    ensures t.movingS != 0.0 ==> r.avgKmhMoving == t.distM / t.movingS * 3.6
    ensures r.avgHr.Some? <==> t.hrTimeDen > 0.0
    ensures r.caloriesKcal.Some? <==> t.calories != 0.0
    ensures t.movingS == 0.0 ==> r.avgKmhMoving == 0.0
    ensures r.avgHr.Some? ==> r.avgHr.value == Round(t.hrTimeSum / t.hrTimeDen)
    ensures r.maxHr == (if t.maxHr.Some? then Some(Round(t.maxHr.value)) else None)
    ensures r.caloriesKcal.Some? ==> r.caloriesKcal.value == Round(t.calories)
    ensures r.avgPace == PaceMinPerKmAsWritten(Some(r.avgKmhElapsed))
  {
    var avgElapsed := KmhOver(t.distM, t.elapsedS);
    var avgMoving := KmhOver(t.distM, t.movingS);
    SummaryRow(
      TotalLabel, t.points, t.distM / 1000.0, SecToHMS(t.elapsedS), SecToHMS(t.movingS),
      avgElapsed, avgMoving, t.maxKmh, PaceMinPerKmAsWritten(Some(avgElapsed)), t.elevM,
      if t.hrTimeDen > 0.0 then Some(Round(t.hrTimeSum / t.hrTimeDen)) else None,
      if t.maxHr.Some? then Some(Round(t.maxHr.value)) else None,
      if t.calories != 0.0 then Some(Round(t.calories)) else None)
  }

  /** Whether the batch covered any time or distance. */
  predicate HasTotal(t: Totals) {
    t.elapsedS > 0.0 || t.distM > 0.0
  }

  // ----- which files are analysed -----

  /** What one readable file contributes: nothing when fewer than two clean
      points remain. */
  function FileContribution(name: string, doc: RawDoc, s: Settings, variant: Variant, dist: Haversine): (r: seq<Contribution>)
    requires NonNegativeDistance(dist)
    ensures |r| <= 1
  {
    var points := CleanPoints(doc);
    if |points| < 2 then []
    else
      var a := AnalysisOf(points, OptionsOf(s), variant, dist);
      [Contribution(name, a, FileCaloriesKcal(s, FileCaloriesOf(doc.elements), a))]
  }

  /** The contributions of a batch, in file order. The desktop page skips a
      file that throws; the mobile page has no per-file guard, so the first
      such file ends the batch. */
  function ContributionsOf(files: seq<FileInput>, s: Settings, variant: Variant, dist: Haversine): (r: seq<Contribution>)
    requires NonNegativeDistance(dist)
    ensures |r| <= |files|
    decreases |files|
  {
    if files == [] then []
    else if files[0].doc.None? then
      (if variant == Mobile then [] else ContributionsOf(files[1..], s, variant, dist))
    else FileContribution(files[0].name, files[0].doc.value, s, variant, dist) + ContributionsOf(files[1..], s, variant, dist)
  }

  /** Whether a file of the batch throws. */
  predicate AnyFails(files: seq<FileInput>) {
    exists k :: 0 <= k < |files| && files[k].doc.None?
  }

  /** The two pages part ways on a file that throws: the desktop page goes
      on with the next file, the mobile page stops there. */
  lemma FailureDiverges(bad: FileInput, rest: seq<FileInput>, s: Settings, dist: Haversine)
    requires NonNegativeDistance(dist) && bad.doc.None?
    ensures ContributionsOf([bad] + rest, s, Desktop, dist) == ContributionsOf(rest, s, Desktop, dist)
    ensures ContributionsOf([bad] + rest, s, Mobile, dist) == []
  {
    assert ([bad] + rest)[1..] == rest;
  }

  lemma FileContributionTimeWithin(name: string, doc: RawDoc, s: Settings, variant: Variant, dist: Haversine)
    requires NonNegativeDistance(dist)
    ensures forall c :: c in FileContribution(name, doc, s, variant, dist) ==> TimeConsistent(c.analysis)
  {
    var points := CleanPoints(doc);
    if |points| >= 2 {
      CleanPointsIncreasing(doc);
      assert SortedByT(points);
      AnalysisDistanceTime(points, OptionsOf(s), variant, dist);
    }
  }

  /** Every analysed file is a clean, time-ordered track, so its moving time
      lies within its elapsed time and its distance is not negative. */
  lemma {:induction false} ContributionsTimeWithin(files: seq<FileInput>, s: Settings, variant: Variant, dist: Haversine)
    requires NonNegativeDistance(dist)
    ensures forall c :: c in ContributionsOf(files, s, variant, dist) ==> TimeConsistent(c.analysis)
    decreases |files|
  {
    if files != [] {
      ContributionsTimeWithin(files[1..], s, variant, dist);
      if files[0].doc.Some? {
        FileContributionTimeWithin(files[0].name, files[0].doc.value, s, variant, dist);
      }
    }
  }

  /** The batch's moving time lies within its elapsed time. */
  lemma BatchTimeWithin(files: seq<FileInput>, s: Settings, variant: Variant, dist: Haversine)
    requires NonNegativeDistance(dist)
    ensures var t := TotalsOf(ContributionsOf(files, s, variant, dist));
            t.distM >= 0.0 && 0.0 <= t.movingS <= t.elapsedS
  {
    var cs := ContributionsOf(files, s, variant, dist);
    ContributionsTimeWithin(files, s, variant, dist);
    assert forall k :: 0 <= k < |cs| ==> cs[k] in cs;
    TotalsTimeWithin(cs);
  }

  /** Every heart-rate reading of a readable file's clean track lies in
      `[lo, hi]`. */
  predicate ReadingsWithin(f: FileInput, lo: real, hi: real) {
    f.doc.Some? ==> HrReadingsWithin(CleanPoints(f.doc.value), lo, hi)
  }

  predicate HrReadingsWithin(ps: seq<Point>, lo: real, hi: real) {
    forall k :: 0 <= k < |ps| && ps[k].hr.Some? ==> lo <= ps[k].hr.value <= hi
  }

  lemma FileContributionHrWeighted(name: string, doc: RawDoc, s: Settings, variant: Variant, dist: Haversine, lo: real, hi: real)
    requires NonNegativeDistance(dist)
    requires ReadingsWithin(FileInput(name, Some(doc)), lo, hi)
    ensures forall c :: c in FileContribution(name, doc, s, variant, dist) ==>
      HrWeighted(c.analysis.hrTimeSum, c.analysis.hrTimeDen, lo, hi)
  {
    var points := CleanPoints(doc);
    if |points| >= 2 {
      var a := AnalysisOf(points, OptionsOf(s), variant, dist);
      assert HrReadingsWithin(points, lo, hi);
      AnalysisHrSums(points, OptionsOf(s), variant, dist, lo, hi);
      assert FileContribution(name, doc, s, variant, dist) == [Contribution(name, a, FileCaloriesKcal(s, FileCaloriesOf(doc.elements), a))];
    }
  }

  lemma {:induction false} ContributionsHrWeighted(files: seq<FileInput>, s: Settings, variant: Variant, dist: Haversine, lo: real, hi: real)
    requires NonNegativeDistance(dist)
    requires forall k :: 0 <= k < |files| ==> ReadingsWithin(files[k], lo, hi)
    ensures forall c :: c in ContributionsOf(files, s, variant, dist) ==> HrWeighted(c.analysis.hrTimeSum, c.analysis.hrTimeDen, lo, hi)
    decreases |files|
  {
    if files != [] {
      assert forall k :: 0 <= k < |files[1..]| ==> files[1..][k] == files[k + 1];
      ContributionsHrWeighted(files[1..], s, variant, dist, lo, hi);
      if files[0].doc.Some? {
        assert ReadingsWithin(files[0], lo, hi);
        FileContributionHrWeighted(files[0].name, files[0].doc.value, s, variant, dist, lo, hi);
      }
    }
  }

  /** The total row's average heart rate, `Σ sum / Σ den` over the files,
      lies within the range of all readings of the batch. */
  lemma BatchHrWithin(files: seq<FileInput>, s: Settings, variant: Variant, dist: Haversine, lo: real, hi: real)
    requires NonNegativeDistance(dist)
    requires forall k :: 0 <= k < |files| ==> ReadingsWithin(files[k], lo, hi)
    ensures var row := TotalRow(TotalsOf(ContributionsOf(files, s, variant, dist)));
            row.avgHr.Some? ==> Round(lo) <= row.avgHr.value <= Round(hi)
  {
    var cs := ContributionsOf(files, s, variant, dist);
    ContributionsHrWeighted(files, s, variant, dist, lo, hi);
    assert forall k :: 0 <= k < |cs| ==> cs[k] in cs;
    TotalsHrWithin(cs, lo, hi);
    var t := TotalsOf(cs);
    if t.hrTimeDen > 0.0 {
      RoundMonotone(lo, t.hrTimeSum / t.hrTimeDen);
      RoundMonotone(t.hrTimeSum / t.hrTimeDen, hi);
    }
  }

  // ----- the handler -----

  datatype BatchResult = BatchResult(
    summaries: seq<SummaryRow>, lapRows: seq<LapRow>, totals: Totals, failed: seq<string>, aborted: bool)

  /** One readable file: parse, analyse, cut laps (on the mobile page only
      for a one-file batch), and total its calories. */
  method AnalyzeFile(name: string, doc: RawDoc, s: Settings, variant: Variant, dist: Haversine, withLaps: bool)
    returns (c: seq<Contribution>, laps: seq<Lap>)
    requires NonNegativeDistance(dist)
    ensures c == FileContribution(name, doc, s, variant, dist)
    ensures !withLaps || c == [] ==> laps == []
    ensures forall k :: 0 <= k < |laps| ==> laps[k].lap == k + 1 && laps[k].distanceKm == s.lapDistanceKm
    ensures FileLaps(doc, laps, s, variant, dist, withLaps)
  {
    var points, fileCalories := ParseGpxText(doc);
    laps := [];
    if |points| < 2 {
      return [], [];
    }
    var a := AnalyzePoints(points, OptionsOf(s), variant, dist);
    if withLaps {
      var params := ParamsFor(s, fileCalories, a.elapsedS);
      assert a.segments == Segs(points, OptionsOf(s), variant, dist);
      laps := MakeDistanceLapsGuarded(a.segments, s.lapDistanceKm, params);
    }
    c := [Contribution(name, a, FileCaloriesKcal(s, fileCalories, a))];
  }

  /** The file's laps as rows of the lap table. */
  function LapRows(name: string, laps: seq<Lap>): (r: seq<LapRow>)
    ensures |r| == |laps|
    ensures forall k :: 0 <= k < |r| ==> r[k].file == name && r[k].lap == laps[k]
  {
    seq(|laps|, k requires 0 <= k < |laps| => LapRow(name, laps[k]))
  }

  /** The laps a block of lap rows shows. */
  function LapsOf(rows: seq<LapRow>): (r: seq<Lap>)
    ensures |r| == |rows|
  {
    seq(|rows|, k requires 0 <= k < |rows| => rows[k].lap)
  }

  /** The rows of a file's laps show exactly those laps. */
  lemma LapsOfLapRows(name: string, laps: seq<Lap>)
    ensures LapsOf(LapRows(name, laps)) == laps
  {
  }

  /** The laps the handler cuts for one readable file: none when laps are
      off, fewer than two clean points remain or the lap distance is 0 or
      less, and otherwise the distance laps of its segments under the file's
      own calorie parameters. */
  ghost predicate FileLaps(doc: RawDoc, laps: seq<Lap>, s: Settings, variant: Variant, dist: Haversine, withLaps: bool)
    requires NonNegativeDistance(dist)
  {
    var points := CleanPoints(doc);
    if !withLaps || |points| < 2 || s.lapDistanceKm <= 0.0 then laps == []
    else
      var a := AnalysisOf(points, OptionsOf(s), variant, dist);
      DistanceLaps(laps, a.segments, s.lapDistanceKm, ParamsFor(s, FileCaloriesOf(doc.elements), a.elapsedS))
  }

  /** A file's block of the lap table: rows carrying its name that show its
      laps, and no rows for a file that throws. */
  ghost predicate FileLapRows(f: FileInput, rows: seq<LapRow>, s: Settings, variant: Variant, dist: Haversine, withLaps: bool)
    requires NonNegativeDistance(dist)
  {
    && (forall k :: 0 <= k < |rows| ==> rows[k].file == f.name)
    && (if f.doc.None? then rows == [] else FileLaps(f.doc.value, LapsOf(rows), s, variant, dist, withLaps))
  }

  /** The blocks of the lap table, one after the other. */
  function Concat(blocks: seq<seq<LapRow>>): seq<LapRow>
    decreases |blocks|
  {
    if blocks == [] then [] else Concat(blocks[..|blocks| - 1]) + blocks[|blocks| - 1]
  }

  lemma ConcatSnoc(blocks: seq<seq<LapRow>>, b: seq<LapRow>)
    ensures Concat(blocks + [b]) == Concat(blocks) + b
  {
    assert (blocks + [b])[..|blocks|] == blocks;
  }

  /** The lap table of the files before `i`: one block per file, in order. */
  ghost predicate LapTable(files: seq<FileInput>, i: nat, blocks: seq<seq<LapRow>>, rows: seq<LapRow>,
                           s: Settings, variant: Variant, dist: Haversine, withLaps: bool)
    requires NonNegativeDistance(dist) && i <= |files|
  {
    && |blocks| == i && rows == Concat(blocks)
    && forall k :: 0 <= k < i ==> FileLapRows(files[k], blocks[k], s, variant, dist, withLaps)
  }

  /** A file's block extends the lap table by one file. */
  lemma LapTableSnoc(files: seq<FileInput>, i: nat, blocks: seq<seq<LapRow>>, rows: seq<LapRow>,
                     s: Settings, variant: Variant, dist: Haversine, withLaps: bool, b: seq<LapRow>)
    requires NonNegativeDistance(dist) && i < |files|
    requires LapTable(files, i, blocks, rows, s, variant, dist, withLaps)
    requires FileLapRows(files[i], b, s, variant, dist, withLaps)
    ensures LapTable(files, i + 1, blocks + [b], rows + b, s, variant, dist, withLaps)
  {
    ConcatSnoc(blocks, b);
    assert forall k :: 0 <= k < i ==> (blocks + [b])[k] == blocks[k];
  }

  lemma SummariesSnoc(cs: seq<Contribution>, c: Contribution)
    ensures SummariesOf(cs + [c]) == SummariesOf(cs) + [SummaryOf(c)]
  {
    MapSnoc(SummaryOf, cs, c);
  }

  lemma Reassociate(a: seq<Contribution>, b: seq<Contribution>, c: seq<Contribution>)
    ensures a + (b + c) == (a + b) + c
  {
  }

  /** How the contributions of the files from `i` on unfold by one file. */
  lemma ContributionsStep(files: seq<FileInput>, i: nat, s: Settings, variant: Variant, dist: Haversine)
    requires NonNegativeDistance(dist) && i < |files|
    ensures files[i].doc.Some? ==>
      ContributionsOf(files[i..], s, variant, dist)
      == FileContribution(files[i].name, files[i].doc.value, s, variant, dist) + ContributionsOf(files[i + 1..], s, variant, dist)
    ensures files[i].doc.None? && variant == Desktop ==>
      ContributionsOf(files[i..], s, variant, dist) == ContributionsOf(files[i + 1..], s, variant, dist)
    ensures files[i].doc.None? && variant == Mobile ==> ContributionsOf(files[i..], s, variant, dist) == []
  {
    assert files[i..][1..] == files[i + 1..];
  }

  /** Appending at most one contribution folds it into the totals and adds
      its summary row. */
  lemma FoldAtMostOne(cs: seq<Contribution>, c: seq<Contribution>)
    requires |c| <= 1
    ensures c == [] ==> cs + c == cs
    ensures c != [] ==> TotalsOf(cs + c) == AddFile(TotalsOf(cs), c[0])
    ensures c != [] ==> SummariesOf(cs + c) == SummariesOf(cs) + [SummaryOf(c[0])]
  {
    if c == [] {
      assert cs + c == cs;
    } else {
      FoldOne(cs, c[0], c);
    }
  }

  lemma FoldOne(cs: seq<Contribution>, x: Contribution, c: seq<Contribution>)
    requires c == [x]
    ensures TotalsOf(cs + c) == AddFile(TotalsOf(cs), x)
    ensures SummariesOf(cs + c) == SummariesOf(cs) + [SummaryOf(x)]
  {
    TotalsOfSnoc(cs, x);
    SummariesSnoc(cs, x);
  }

  /** Folds a file's contribution, if any, into the totals and the rows. */
  method FoldFile(agg: Totals, summaries: seq<SummaryRow>, ghost cs: seq<Contribution>, c: seq<Contribution>)
    returns (agg': Totals, summaries': seq<SummaryRow>)
    requires |c| <= 1 && agg == TotalsOf(cs) && summaries == SummariesOf(cs)
    ensures agg' == TotalsOf(cs + c) && summaries' == SummariesOf(cs + c)
  {
    FoldAtMostOne(cs, c);
    agg', summaries' := agg, summaries;
    if c != [] {
      agg' := AddToTotals(agg, c[0]);
      summaries' := summaries + [SummaryOf(c[0])];
    }
  }

  /** One readable file of the batch: its contribution is folded into the
      totals and its summary row and lap rows are appended. */
  method TakeFile(name: string, doc: RawDoc, s: Settings, variant: Variant, dist: Haversine, withLaps: bool,
                  agg: Totals, summaries: seq<SummaryRow>, ghost cs: seq<Contribution>)
    returns (agg': Totals, summaries': seq<SummaryRow>, rows: seq<LapRow>, ghost cs': seq<Contribution>)
    requires NonNegativeDistance(dist)
    requires agg == TotalsOf(cs) && summaries == SummariesOf(cs)
    ensures cs' == cs + FileContribution(name, doc, s, variant, dist)
    ensures agg' == TotalsOf(cs') && summaries' == SummariesOf(cs')
    ensures !withLaps ==> rows == []
    ensures forall k :: 0 <= k < |rows| ==> rows[k].file == name && rows[k].lap.distanceKm == s.lapDistanceKm
    ensures FileLapRows(FileInput(name, Some(doc)), rows, s, variant, dist, withLaps)
  {
    var c, laps := AnalyzeFile(name, doc, s, variant, dist, withLaps);
    agg', summaries' := FoldFile(agg, summaries, cs, c);
    cs' := cs + c;
    rows := LapRows(name, laps);
    LapsOfLapRows(name, laps);
  }

  /** What holds after the files before `i`: the totals and rows are those
      of the contributions `cs` so far, and `cs` followed by the
      contributions of the files still to come is the whole batch's, unless
      the mobile page has stopped on a file that throws. */
  ghost predicate Scanned(files: seq<FileInput>, s: Settings, variant: Variant, dist: Haversine, withLaps: bool,
                          i: nat, r: BatchResult, cs: seq<Contribution>, blocks: seq<seq<LapRow>>)
    requires NonNegativeDistance(dist)
  {
    && i <= |files|
    && LapTable(files, i, blocks, r.lapRows, s, variant, dist, withLaps)
    && (r.aborted ==> i < |files| && files[i].doc.None?)
    && r.totals == TotalsOf(cs) && r.summaries == SummariesOf(cs)
    && (!r.aborted ==> ContributionsOf(files, s, variant, dist) == cs + ContributionsOf(files[i..], s, variant, dist))
    && (!r.aborted && variant == Mobile ==> forall k :: 0 <= k < i ==> files[k].doc.Some?)
    && (r.aborted ==> variant == Mobile && AnyFails(files) && ContributionsOf(files, s, variant, dist) == cs)
    && (!withLaps ==> r.lapRows == [])
    && (forall k :: 0 <= k < |r.lapRows| ==> r.lapRows[k].lap.distanceKm == s.lapDistanceKm)
  }

  /** One pass of the loop: the file at `i` is skipped, stops the batch, or
      is analysed. */
  method Step(files: seq<FileInput>, s: Settings, variant: Variant, dist: Haversine, withLaps: bool,
              i: nat, r: BatchResult, ghost cs: seq<Contribution>, ghost blocks: seq<seq<LapRow>>)
    returns (i': nat, r': BatchResult, ghost cs': seq<Contribution>, ghost blocks': seq<seq<LapRow>>)
    requires NonNegativeDistance(dist)
    requires Scanned(files, s, variant, dist, withLaps, i, r, cs, blocks) && i < |files| && !r.aborted
    ensures Scanned(files, s, variant, dist, withLaps, i', r', cs', blocks')
    ensures i' == i + 1 || (i' == i && r'.aborted)
  {
    if files[i].doc.None? {
      i', r', cs', blocks' := StepFailed(files, s, variant, dist, withLaps, i, r, cs, blocks);
    } else {
      i', r', cs', blocks' := StepRead(files, s, variant, dist, withLaps, i, r, cs, blocks);
    }
  }

  /** A file that throws is listed as failed; the desktop page goes on with
      the next file, the mobile page stops. */
  method StepFailed(files: seq<FileInput>, s: Settings, variant: Variant, dist: Haversine, withLaps: bool,
                    i: nat, r: BatchResult, ghost cs: seq<Contribution>, ghost blocks: seq<seq<LapRow>>)
    returns (i': nat, r': BatchResult, ghost cs': seq<Contribution>, ghost blocks': seq<seq<LapRow>>)
    requires NonNegativeDistance(dist)
    requires Scanned(files, s, variant, dist, withLaps, i, r, cs, blocks) && i < |files| && !r.aborted
    requires files[i].doc.None?
    ensures Scanned(files, s, variant, dist, withLaps, i', r', cs', blocks')
    ensures r'.failed == r.failed + [files[i].name]
    ensures if variant == Mobile then i' == i && r'.aborted else i' == i + 1
  {
    ContributionsStep(files, i, s, variant, dist);
    r' := r.(failed := r.failed + [files[i].name]);
    cs' := cs;
    if variant == Mobile {
      assert cs + [] == cs;
      i', r', blocks' := i, r'.(aborted := true), blocks;
    } else {
      LapTableSnoc(files, i, blocks, r.lapRows, s, variant, dist, withLaps, []);
      assert r.lapRows + [] == r.lapRows;
      i', blocks' := i + 1, blocks + [[]];
    }
  }

  /** A readable file adds its contribution to the totals and the summaries
      and its block to the lap table. */
  method StepRead(files: seq<FileInput>, s: Settings, variant: Variant, dist: Haversine, withLaps: bool,
                  i: nat, r: BatchResult, ghost cs: seq<Contribution>, ghost blocks: seq<seq<LapRow>>)
    returns (i': nat, r': BatchResult, ghost cs': seq<Contribution>, ghost blocks': seq<seq<LapRow>>)
    requires NonNegativeDistance(dist)
    requires Scanned(files, s, variant, dist, withLaps, i, r, cs, blocks) && i < |files| && !r.aborted
    requires files[i].doc.Some?
    ensures Scanned(files, s, variant, dist, withLaps, i', r', cs', blocks')
    ensures i' == i + 1 && r'.failed == r.failed && !r'.aborted
  {
    var file := files[i];
    ContributionsStep(files, i, s, variant, dist);
    ghost var fc := FileContribution(file.name, file.doc.value, s, variant, dist);
    ghost var rest := ContributionsOf(files[i + 1..], s, variant, dist);
    var agg, summaries, rows;
    agg, summaries, rows, cs' := TakeFile(file.name, file.doc.value, s, variant, dist, withLaps, r.totals, r.summaries, cs);
    Reassociate(cs, fc, rest);
    LapTableSnoc(files, i, blocks, r.lapRows, s, variant, dist, withLaps, rows);
    i', r', blocks' := i + 1, r.(totals := agg, summaries := summaries, lapRows := r.lapRows + rows), blocks + [rows];
  }

  /** The loop over the files: the contributions are exactly those of
      `ContributionsOf`, the mobile page stopping at the first file that
      throws; the lap table is one block per file scanned. */
  method AnalyzeFiles(files: seq<FileInput>, s: Settings, variant: Variant, dist: Haversine, withLaps: bool)
    returns (r: BatchResult, ghost blocks: seq<seq<LapRow>>)
    requires NonNegativeDistance(dist)
    ensures var cs := ContributionsOf(files, s, variant, dist);
            r.totals == TotalsOf(cs) && r.summaries == SummariesOf(cs)
    ensures r.aborted == (variant == Mobile && AnyFails(files))
    ensures !withLaps ==> r.lapRows == []
    ensures forall k :: 0 <= k < |r.lapRows| ==> r.lapRows[k].lap.distanceKm == s.lapDistanceKm
    ensures BlocksOfBatch(files, r, blocks, s, variant, dist, withLaps)
  {
    r := BatchResult([], [], NoTotals, [], false);
    ghost var cs: seq<Contribution> := [];
    blocks := [];
    var i: nat := 0;
    ScannedStart(files, s, variant, dist, withLaps);
    while i < |files| && !r.aborted
      invariant Scanned(files, s, variant, dist, withLaps, i, r, cs, blocks)
      decreases |files| - i, if r.aborted then 0 else 1
    {
      i, r, cs, blocks := Step(files, s, variant, dist, withLaps, i, r, cs, blocks);
    }
    ScannedEnd(files, s, variant, dist, withLaps, i, r, cs, blocks);
  }

  /** The lap table of a batch: one block per file up to the end, or up to
      the file that stopped the mobile page; each block holds that file's
      laps. */
  ghost predicate BlocksOfBatch(files: seq<FileInput>, r: BatchResult, blocks: seq<seq<LapRow>>,
                                s: Settings, variant: Variant, dist: Haversine, withLaps: bool)
    requires NonNegativeDistance(dist)
  {
    && |blocks| <= |files|
    && (!r.aborted ==> |blocks| == |files|)
    && (r.aborted ==> |blocks| < |files| && files[|blocks|].doc.None?)
    && r.lapRows == Concat(blocks)
    && forall k :: 0 <= k < |blocks| ==> FileLapRows(files[k], blocks[k], s, variant, dist, withLaps)
  }

  /** Before the loop nothing is scanned. */
  lemma ScannedStart(files: seq<FileInput>, s: Settings, variant: Variant, dist: Haversine, withLaps: bool)
    requires NonNegativeDistance(dist)
    ensures Scanned(files, s, variant, dist, withLaps, 0, BatchResult([], [], NoTotals, [], false), [], [])
  {
    assert files[0..] == files;
    assert SummariesOf([]) == [];
  }

  /** After the loop, the contributions scanned are those of the batch, and
      the batch was aborted exactly when the mobile page met a file that
      throws. */
  lemma ScannedEnd(files: seq<FileInput>, s: Settings, variant: Variant, dist: Haversine, withLaps: bool,
                   i: nat, r: BatchResult, cs: seq<Contribution>, blocks: seq<seq<LapRow>>)
    requires NonNegativeDistance(dist)
    requires Scanned(files, s, variant, dist, withLaps, i, r, cs, blocks) && !(i < |files| && !r.aborted)
    ensures cs == ContributionsOf(files, s, variant, dist)
    ensures r.totals == TotalsOf(cs) && r.summaries == SummariesOf(cs)
    ensures r.aborted == (variant == Mobile && AnyFails(files))
    ensures !withLaps ==> r.lapRows == []
    ensures forall k :: 0 <= k < |r.lapRows| ==> r.lapRows[k].lap.distanceKm == s.lapDistanceKm
    ensures BlocksOfBatch(files, r, blocks, s, variant, dist, withLaps)
  {
    if !r.aborted {
      assert files[i..] == [];
      assert cs + [] == cs;
    }
  }

  /** The handler: an empty selection leaves the previous tables
      (`prevSummaries`, `prevLaps`) as they were; otherwise the files are
      analysed and a total row follows unless the mobile page stopped on a
      file that throws. Laps are cut for every file on the desktop page and
      only for a one-file batch on the mobile page. */
  method AnalyzeBatch(files: seq<FileInput>, s: Settings, variant: Variant, dist: Haversine,
                      prevSummaries: seq<SummaryRow>, prevLaps: seq<LapRow>)
    returns (r: BatchResult, ghost blocks: seq<seq<LapRow>>)
    requires NonNegativeDistance(dist)
    ensures files == [] ==> r.summaries == prevSummaries && r.lapRows == prevLaps
    ensures files != [] ==>
      var cs := ContributionsOf(files, s, variant, dist);
      && r.totals == TotalsOf(cs)
      && r.aborted == (variant == Mobile && AnyFails(files))
      && r.summaries == SummariesOf(cs) + (if !r.aborted && HasTotal(r.totals) then [TotalRow(r.totals)] else [])
    ensures files != [] && variant == Mobile && |files| != 1 ==> r.lapRows == []
    ensures files != [] ==> forall k :: 0 <= k < |r.lapRows| ==> r.lapRows[k].lap.distanceKm == s.lapDistanceKm
    ensures files != [] ==> BlocksOfBatch(files, r, blocks, s, variant, dist, variant == Desktop || |files| == 1)
  {
    if files == [] {
      return BatchResult(prevSummaries, prevLaps, NoTotals, [], false), [];
    }
    var withLaps := variant == Desktop || |files| == 1;
    r, blocks := AnalyzeFiles(files, s, variant, dist, withLaps);
    if !r.aborted && (r.totals.elapsedS > 0.0 || r.totals.distM > 0.0) {
      r := r.(summaries := r.summaries + [TotalRow(r.totals)]);
    }
  }
}
