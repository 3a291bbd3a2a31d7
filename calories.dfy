/** The calorie estimator: a MET step table on speed, the Keytel
    heart-rate regression, and the per-method dispatch that laps and whole
    files share (`computeCaloriesForSegment`). Identical in both front ends. */
module Calories {
  import opened Common

  /** MET for a speed in km/h; a missing, non-finite or non-positive speed
      counts as rest (1.2). */
  function MetFromSpeedKmh(kmh: Option<real>): (met: real)
    ensures kmh.None? || kmh.value <= 0.0 ==> met == 1.2
    ensures kmh.Some? && 0.0 < kmh.value < 16.0 ==> met == 4.0
    ensures kmh.Some? && 16.0 <= kmh.value < 19.0 ==> met == 6.0
    ensures kmh.Some? && 19.0 <= kmh.value < 22.0 ==> met == 8.0
    ensures kmh.Some? && 22.0 <= kmh.value < 25.0 ==> met == 10.0
    ensures kmh.Some? && 25.0 <= kmh.value < 30.0 ==> met == 12.0
    ensures kmh.Some? && 30.0 <= kmh.value ==> met == 16.0
  {
    if kmh.None? || kmh.value <= 0.0 then 1.2
    else if kmh.value < 16.0 then 4.0
    else if kmh.value < 19.0 then 6.0
    else if kmh.value < 22.0 then 8.0
    else if kmh.value < 25.0 then 10.0
    else if kmh.value < 30.0 then 12.0
    else 16.0
  }

  /** The MET table never drops as speed rises, and rest is its floor. */
  lemma MetMonotone(a: Option<real>, b: Option<real>)
    requires a.None? || (b.Some? && a.value <= b.value)
    ensures MetFromSpeedKmh(a) <= MetFromSpeedKmh(b)
  {
  }

  predicate KnownSex(sex: string) {
    sex == "male" || sex == "female"
  }

  /** Keytel et al. kcal per minute, `None` unless weight and age are
      finite numbers and the sex is "male" or "female". The guard is the
      global `isFinite`, for which `null` passes as 0: a missing heart rate
      (the callers pass `null` or a finite number) enters the formula as 0. */
  function KcalPerMinKeytel(hr: Option<real>, weightKg: Option<real>, age: Option<real>, sex: string): (r: Option<real>)
    ensures r.Some? <==> weightKg.Some? && age.Some? && KnownSex(sex)
  {
    var h := hr.GetOr(0.0);
    if weightKg.None? || age.None? || sex == "" then None
    else if sex == "male" then
      Some((-55.0969 + 0.6309 * h + 0.1988 * weightKg.value + 0.2017 * age.value) / 4.184)
    else if sex == "female" then
      Some((-20.4022 + 0.4472 * h - 0.1263 * weightKg.value + 0.074 * age.value) / 4.184)
    else None
  }

  /** A missing heart rate gives the rate of heart rate 0. */
  lemma KeytelMissingHrIsZero(weightKg: Option<real>, age: Option<real>, sex: string)
    ensures KcalPerMinKeytel(None, weightKg, age, sex) == KcalPerMinKeytel(Some(0.0), weightKg, age, sex)
  {}

  /** For a fixed person a higher heart rate never lowers the Keytel rate. */
  lemma KeytelMonotoneInHr(h1: real, h2: real, weightKg: real, age: real, sex: string)
    requires h1 <= h2 && KnownSex(sex)
    ensures KcalPerMinKeytel(Some(h1), Some(weightKg), Some(age), sex).value
         <= KcalPerMinKeytel(Some(h2), Some(weightKg), Some(age), sex).value
  {
  }

  /** Heart-rate calories over `durationS` seconds. */
  function EstimateCaloriesHR(hr: Option<real>, durationS: real, weightKg: Option<real>, age: Option<real>, sex: string): (r: Option<real>)
    ensures r.Some? <==> KcalPerMinKeytel(hr, weightKg, age, sex).Some?
    ensures r.Some? ==> r.value * 60.0 == KcalPerMinKeytel(hr, weightKg, age, sex).value * durationS
  {
    var perMin := KcalPerMinKeytel(hr, weightKg, age, sex);
    if perMin.Some? then Some(perMin.value * (durationS / 60.0)) else None
  }

  /** MET calories: MET x weight x hours, `None` exactly when the weight is
      not a finite number. */
  function EstimateCaloriesMET(kmh: Option<real>, durationS: real, weightKg: Option<real>): (r: Option<real>)
    ensures r.Some? <==> weightKg.Some?
    ensures r.Some? ==> r.value * 3600.0 == MetFromSpeedKmh(kmh) * weightKg.value * durationS
  {
    if weightKg.None? then None
    else Some(MetFromSpeedKmh(kmh) * weightKg.value * (durationS / 3600.0))
  }

  /** Everything the estimator reads besides the segment itself. `calorieMethod` is
      the text of the method selector ("none", "auto", "hr", "met", or
      anything else). */
  datatype CalorieParams = CalorieParams(
    calorieMethod: string,
    fileCalories: Option<real>,
    totalElapsedS: real,
    weightKg: Option<real>,
    age: Option<real>,
    sex: string)

  /** "auto" prorates the file's declared calories when it has them and its
      elapsed time is positive. */
  predicate Prorates(p: CalorieParams) {
    p.fileCalories.Some? && p.totalElapsedS > 0.0
  }

  /** Calories for a stretch of `durationS` seconds at `avgKmh` with heart
      rate `avgHr`, by the selected method. */
  function ComputeCaloriesForSegment(avgKmh: Option<real>, durationS: real, avgHr: Option<real>, p: CalorieParams): (r: Option<real>)
    ensures p.calorieMethod !in {"auto", "hr", "met"} ==> r.None?
    ensures p.calorieMethod == "hr" ==> r == EstimateCaloriesHR(avgHr, durationS, p.weightKg, p.age, p.sex)
    ensures p.calorieMethod == "met" ==> r == EstimateCaloriesMET(avgKmh, durationS, p.weightKg)
    ensures p.calorieMethod == "auto" && Prorates(p) ==> r.Some? && r.value * p.totalElapsedS == p.fileCalories.value * durationS
    ensures p.calorieMethod == "auto" && !Prorates(p) ==>
      var hrEst := EstimateCaloriesHR(avgHr, durationS, p.weightKg, p.age, p.sex);
      r == if hrEst.Some? && hrEst.value > 0.0 then hrEst else EstimateCaloriesMET(avgKmh, durationS, p.weightKg)
  {
    if p.calorieMethod == "none" then None
    else if p.calorieMethod == "auto" then
      if p.fileCalories.Some? && p.totalElapsedS > 0.0 then
        Some(p.fileCalories.value * (durationS / p.totalElapsedS))
      else
        var hrEst := EstimateCaloriesHR(avgHr, durationS, p.weightKg, p.age, p.sex);
        if hrEst.Some? && hrEst.value > 0.0 then hrEst
        else EstimateCaloriesMET(avgKmh, durationS, p.weightKg)
    else if p.calorieMethod == "hr" then EstimateCaloriesHR(avgHr, durationS, p.weightKg, p.age, p.sex)
    else if p.calorieMethod == "met" then EstimateCaloriesMET(avgKmh, durationS, p.weightKg)
    else None
  }

  /** Without declared calories and without heart rate, "auto" gives what
      "met" gives as long as the Keytel rate at heart rate 0 is not positive
      (or not defined). */
  lemma AutoWithoutHrIsMet(avgKmh: Option<real>, durationS: real, p: CalorieParams)
    requires p.calorieMethod == "auto" && p.fileCalories.None? && durationS >= 0.0
    requires var rest := KcalPerMinKeytel(Some(0.0), p.weightKg, p.age, p.sex); rest.None? || rest.value <= 0.0
    ensures ComputeCaloriesForSegment(avgKmh, durationS, None, p)
         == ComputeCaloriesForSegment(avgKmh, durationS, None, p.(calorieMethod := "met"))
  {
    var rate := KcalPerMinKeytel(None, p.weightKg, p.age, p.sex);
    var hrEst := EstimateCaloriesHR(None, durationS, p.weightKg, p.age, p.sex);
    if hrEst.Some? {
      assert hrEst.value * 60.0 == rate.value * durationS;
      assert rate.value * durationS <= 0.0;
    }
  }

  /** A heavy, older man has a positive Keytel rate at heart rate 0, so for
      him "auto" without heart rate takes that estimate instead of MET. */
  lemma AutoWithoutHrMayUseKeytel()
    ensures var p := CalorieParams("auto", None, 0.0, Some(200.0), Some(80.0), "male");
      && EstimateCaloriesHR(None, 60.0, p.weightKg, p.age, p.sex).value > 0.0
      && ComputeCaloriesForSegment(None, 60.0, None, p) == EstimateCaloriesHR(None, 60.0, p.weightKg, p.age, p.sex)
      && ComputeCaloriesForSegment(None, 60.0, None, p) != ComputeCaloriesForSegment(None, 60.0, None, p.(calorieMethod := "met"))
  {
    var p := CalorieParams("auto", None, 0.0, Some(200.0), Some(80.0), "male");
    var rate := KcalPerMinKeytel(None, p.weightKg, p.age, p.sex);
    assert rate.value == 0.7991 / 4.184;
    var met := EstimateCaloriesMET(None, 60.0, p.weightKg);
    assert met.value == 4.0;
  }

  /** A file without heart rate, under "hr": a man of 70 kg and 30 years
      over one hour gets a negative estimate (about -504 kcal). */
  lemma NoHrEstimateIsNegative()
    ensures var e := EstimateCaloriesHR(None, 3600.0, Some(70.0), Some(30.0), "male");
      e.Some? && e.value < 0.0
  {
    var rate := KcalPerMinKeytel(None, Some(70.0), Some(30.0), "male");
    assert rate.value == -35.1299 / 4.184;
  }

  /** The heart-rate estimate as evidently intended: no estimate without a
      heart-rate reading, and the page's estimate with one. */
  function EstimateCaloriesHRWithReading(hr: Option<real>, durationS: real, weightKg: Option<real>, age: Option<real>, sex: string): (r: Option<real>)
    ensures r.Some? <==> hr.Some? && weightKg.Some? && age.Some? && KnownSex(sex)
    ensures hr.Some? ==> r == EstimateCaloriesHR(hr, durationS, weightKg, age, sex)
  {
    if hr.None? then None else EstimateCaloriesHR(hr, durationS, weightKg, age, sex)
  }

  /** When the heart-rate estimate is positive and nothing is prorated,
      "auto" agrees with "hr". */
  lemma AutoPrefersPositiveHr(avgKmh: Option<real>, durationS: real, avgHr: Option<real>, p: CalorieParams)
    requires p.calorieMethod == "auto" && !Prorates(p)
    requires EstimateCaloriesHR(avgHr, durationS, p.weightKg, p.age, p.sex).Some?
    requires EstimateCaloriesHR(avgHr, durationS, p.weightKg, p.age, p.sex).value > 0.0
    ensures ComputeCaloriesForSegment(avgKmh, durationS, avgHr, p)
         == ComputeCaloriesForSegment(avgKmh, durationS, avgHr, p.(calorieMethod := "hr"))
  {
  }

  /** With a finite weight, "auto" always produces a number. */
  lemma AutoDefinedWithWeight(avgKmh: Option<real>, durationS: real, avgHr: Option<real>, p: CalorieParams)
    requires p.calorieMethod == "auto" && p.weightKg.Some?
    ensures ComputeCaloriesForSegment(avgKmh, durationS, avgHr, p).Some?
  {
  }

  lemma CancelPositive(a: real, b: real, t: real)
    requires t > 0.0 && a * t == b * t
    ensures a == b
  {
  }

  /** Prorated calories are additive in duration: splitting a stretch in two
      splits its calories the same way, and the whole elapsed time gets the
      declared total. */
  lemma ProrateAdditive(k1: Option<real>, d1: real, h1: Option<real>, k2: Option<real>, d2: real, h2: Option<real>,
                        k: Option<real>, h: Option<real>, p: CalorieParams)
    requires p.calorieMethod == "auto" && Prorates(p)
    ensures ComputeCaloriesForSegment(k1, d1, h1, p).value + ComputeCaloriesForSegment(k2, d2, h2, p).value
         == ComputeCaloriesForSegment(k, d1 + d2, h, p).value
    ensures ComputeCaloriesForSegment(k, p.totalElapsedS, h, p) == p.fileCalories
  {
    var c, t := p.fileCalories.value, p.totalElapsedS;
    assert c * (d1 / t) + c * (d2 / t) == c * ((d1 + d2) / t);
    var whole := ComputeCaloriesForSegment(k, t, h, p);
    assert whole.Some? && whole.value * t == c * t;
    CancelPositive(whole.value, c, t);
    assert whole == Some(c);
  }
}
