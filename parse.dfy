/** The part of `parseGpxText` that runs after the XML has been parsed:
    turning `<trkpt>` elements into points, the stable sort by time, dropping
    repeated timestamps, and summing the file's `<calories>` elements. The
    DOM is given as abstract records: each element is its local name and the
    finite number its trimmed text parses to, if any. */
module GpxParse {
  import opened Common
  import opened Text
  import opened Track

  /** An element: its `localName` and `parseFloat` of its trimmed text
      (`None` when that is not a finite number). */
  datatype Element = Element(localName: string, number: Option<real>)

  /** A `<trkpt>` as the DOM shows it: the parsed `lat`/`lon` attributes, the
      timestamp of its first `<time>` descendant (ms), the parsed first
      `<ele>`, and the descendants of its first `<extensions>`, in document
      order. */
  datatype RawPoint = RawPoint(
    lat: Option<real>, lon: Option<real>,
    time: Option<int>,
    ele: Option<real>,
    extensions: Option<seq<Element>>)

  /** A parsed document: its trackpoints and all of its elements, in
      document order. */
  datatype RawDoc = RawDoc(trkpts: seq<RawPoint>, elements: seq<Element>)

  predicate Named(e: Element, name: string) {
    Lower(e.localName) == name
  }

  predicate IsHr(e: Element) {
    Named(e, "hr") && e.number.Some?
  }

  /** The first `hr` element (any case, any prefix) whose text is a finite
      number. */
  function FirstHr(ext: seq<Element>): (r: Option<real>)
    ensures r.None? <==> forall i :: 0 <= i < |ext| ==> !IsHr(ext[i])
    ensures r.Some? ==> exists i :: 0 <= i < |ext| && IsHr(ext[i]) && ext[i].number == r
                                    && forall j :: 0 <= j < i ==> !IsHr(ext[j])
  {
    if ext == [] then None
    else if IsHr(ext[0]) then ext[0].number
    else
      var r := FirstHr(ext[1..]);
      assert forall j :: 1 <= j < |ext| ==> ext[j] == ext[1..][j - 1];
      r
  }

  /** The point a raw trackpoint becomes, or `None` when it is dropped for
      lack of finite coordinates or a `<time>`. */
  function ToPoint(raw: RawPoint): (p: Option<Point>)
    ensures p.Some? <==> raw.lat.Some? && raw.lon.Some? && raw.time.Some?
  {
    if raw.lat.Some? && raw.lon.Some? && raw.time.Some? then
      var hr := if raw.extensions.Some? then FirstHr(raw.extensions.value) else None;
      Some(Point(raw.lat.value, raw.lon.value, raw.time.value, raw.ele, hr))
    else None
  }

  /** `trkpts.map(...).filter(Boolean)`. */
  function ValidPoints(raws: seq<RawPoint>): seq<Point>
    decreases |raws|
  {
    if raws == [] then []
    else
      var rest := ValidPoints(raws[..|raws| - 1]);
      match ToPoint(raws[|raws| - 1])
      case Some(p) => rest + [p]
      case None => rest
  }

  /** Exactly the convertible raw points survive, and nothing else. */
  lemma {:induction false} ValidPointsMembers(raws: seq<RawPoint>, p: Point)
    ensures p in ValidPoints(raws) <==> exists i :: 0 <= i < |raws| && ToPoint(raws[i]) == Some(p)
    decreases |raws|
  {
    if raws != [] {
      var init := raws[..|raws| - 1];
      ValidPointsMembers(init, p);
      assert forall i :: 0 <= i < |init| ==> init[i] == raws[i];
    }
  }

  /** The HR scan of one point's `<extensions>`, as the source loops it. */
  method ExtractHr(ext: seq<Element>) returns (hr: Option<real>)
    ensures hr == FirstHr(ext)
  {
    hr := None;
    var k := 0;
    while k < |ext|
      invariant 0 <= k <= |ext|
      invariant FirstHr(ext) == if hr.Some? then hr else FirstHr(ext[k..])
      invariant hr.Some? ==> hr == FirstHr(ext)
    {
      assert ext[k..][1..] == ext[k + 1..];
      if Named(ext[k], "hr") && ext[k].number.Some? {
        hr := ext[k].number;
        break;
      }
      k := k + 1;
    }
    if hr.None? {
      assert ext[k..] == [];
    }
  }

  // ----- sorting by time -----

  /** Places `x` after every element whose time is not later than its own. */
  function InsertByTime(s: seq<Point>, x: Point): (r: seq<Point>)
    ensures |r| == |s| + 1
    decreases |s|
  {
    if s == [] then [x]
    else if s[|s| - 1].t <= x.t then s + [x]
    else InsertByTime(s[..|s| - 1], x) + [s[|s| - 1]]
  }

  /** The stable sort by time that `pts.sort((a, b) => a.t - b.t)` performs
      (JavaScript's sort is stable). */
  function SortedByTime(s: seq<Point>): (r: seq<Point>)
    ensures |r| == |s|
    decreases |s|
  {
    if s == [] then [] else InsertByTime(SortedByTime(s[..|s| - 1]), s[|s| - 1])
  }

  lemma {:induction false} InsertByTimeMultiset(s: seq<Point>, x: Point)
    ensures multiset(InsertByTime(s, x)) == multiset(s) + multiset{x}
    decreases |s|
  {
    if s != [] && s[|s| - 1].t > x.t {
      InsertByTimeMultiset(s[..|s| - 1], x);
      assert s == s[..|s| - 1] + [s[|s| - 1]];
    }
  }

  lemma {:induction false} InsertByTimeSorted(s: seq<Point>, x: Point)
    requires SortedByT(s)
    ensures SortedByT(InsertByTime(s, x))
    decreases |s|
  {
    if s != [] && s[|s| - 1].t > x.t {
      var init, last := s[..|s| - 1], s[|s| - 1];
      InsertByTimeSorted(init, x);
      InsertByTimeMultiset(init, x);
      var ins := InsertByTime(init, x);
      forall k | 0 <= k < |ins| ensures ins[k].t <= last.t {
        assert ins[k] in multiset(ins);
        assert ins[k] in multiset(init) || ins[k] == x;
      }
    }
  }

  /** The elements of `s` with timestamp `t`, in their order in `s`. */
  function WithTime(s: seq<Point>, t: int): seq<Point>
    decreases |s|
  {
    if s == [] then []
    else WithTime(s[..|s| - 1], t) + (if s[|s| - 1].t == t then [s[|s| - 1]] else [])
  }

  lemma WithTimeAppend(s: seq<Point>, x: Point, t: int)
    ensures WithTime(s + [x], t) == WithTime(s, t) + WithTime([x], t)
  {
    assert (s + [x])[..|s|] == s;
  }

  lemma {:induction false} InsertByTimeWithTime(s: seq<Point>, x: Point, t: int)
    ensures WithTime(InsertByTime(s, x), t) == WithTime(s, t) + WithTime([x], t)
    decreases |s|
  {
    if s == [] {
    } else if s[|s| - 1].t <= x.t {
      WithTimeAppend(s, x, t);
    } else {
      var init, last := s[..|s| - 1], s[|s| - 1];
      InsertByTimeWithTime(init, x, t);
      assert s == init + [last];
      WithTimeBehind(init, InsertByTime(init, x), x, last, t);
    }
  }

  /** Putting a later point `last` behind `ins` adds its part after that of `x`,
      where it belongs: at most one of the two has timestamp `t`. */
  lemma WithTimeBehind(init: seq<Point>, ins: seq<Point>, x: Point, last: Point, t: int)
    requires x.t < last.t
    requires WithTime(ins, t) == WithTime(init, t) + WithTime([x], t)
    ensures WithTime(ins + [last], t) == WithTime(init + [last], t) + WithTime([x], t)
  {
    var wx, wl := WithTime([x], t), WithTime([last], t);
    WithTimeAppend(ins, last, t);
    WithTimeAppend(init, last, t);
    assert wx == [] || wl == [];
    assert WithTime(ins + [last], t) == WithTime(init, t) + wx + wl;
  }

  /** The sort orders by time... */
  lemma {:induction false} SortedByTimeIsSorted(s: seq<Point>)
    ensures SortedByT(SortedByTime(s))
    decreases |s|
  {
    if s != [] {
      SortedByTimeIsSorted(s[..|s| - 1]);
      InsertByTimeSorted(SortedByTime(s[..|s| - 1]), s[|s| - 1]);
    }
  }

  /** ...is a permutation of its input... */
  lemma {:induction false} SortedByTimeIsPermutation(s: seq<Point>)
    ensures multiset(SortedByTime(s)) == multiset(s)
    decreases |s|
  {
    if s != [] {
      SortedByTimeIsPermutation(s[..|s| - 1]);
      InsertByTimeMultiset(SortedByTime(s[..|s| - 1]), s[|s| - 1]);
      assert s == s[..|s| - 1] + [s[|s| - 1]];
    }
  }

  /** ...and is stable: points sharing a timestamp keep their input order. */
  lemma {:induction false} SortedByTimeIsStable(s: seq<Point>, t: int)
    ensures WithTime(SortedByTime(s), t) == WithTime(s, t)
    decreases |s|
  {
    if s != [] {
      SortedByTimeIsStable(s[..|s| - 1], t);
      InsertByTimeWithTime(SortedByTime(s[..|s| - 1]), s[|s| - 1], t);
    }
  }

  /** Where the in-place insertion step puts `x`: after the prefix whose
      times do not exceed it, before the later ones. */
  lemma {:induction false} InsertByTimeAt(s: seq<Point>, x: Point, j: nat)
    requires j <= |s|
    requires j == 0 || s[j - 1].t <= x.t
    requires forall k :: j <= k < |s| ==> s[k].t > x.t
    ensures InsertByTime(s, x) == s[..j] + [x] + s[j..]
    decreases |s|
  {
    if |s| > j {
      var init := s[..|s| - 1];
      InsertByTimeAt(init, x, j);
      assert init[..j] == s[..j];
      assert init[j..] + [s[|s| - 1]] == s[j..];
    }
  }

  /** One insertion step: shifts the later points of the sorted prefix
      `a[..i]` right by one and drops `a[i]` into the gap. */
  method InsertStep(a: array<Point>, i: int)
    requires 0 <= i < a.Length
    modifies a
    ensures a[..i + 1] == InsertByTime(old(a[..i]), old(a[i]))
    ensures a[i + 1..] == old(a[i + 1..])
  {
    ghost var done := a[..i];
    var x := a[i];
    var j := i;
    while j > 0 && a[j - 1].t > x.t
      invariant 0 <= j <= i
      invariant forall k :: 0 <= k < j ==> a[k] == done[k]
      invariant forall k :: j < k <= i ==> a[k] == done[k - 1]
      invariant forall k :: i < k < a.Length ==> a[k] == old(a[k])
      invariant forall k :: j <= k < i ==> done[k].t > x.t
    {
      a[j] := a[j - 1];
      j := j - 1;
    }
    a[j] := x;
    InsertByTimeAt(done, x, j);
    ghost var want := done[..j] + [x] + done[j..];
    assert forall k :: 0 <= k <= i ==> a[k] == want[k];
    assert a[..i + 1] == want;
  }

  /** `pts.sort((a, b) => a.t - b.t)`, in place, by insertion. */
  method SortByTime(a: array<Point>)
    modifies a
    ensures a[..] == SortedByTime(old(a[..]))
  {
    ghost var orig := a[..];
    var i := 0;
    while i < a.Length
      invariant 0 <= i <= a.Length
      invariant a[..i] == SortedByTime(orig[..i])
      invariant a[i..] == orig[i..]
    {
      assert a[i] == orig[i];
      InsertStep(a, i);
      assert orig[..i + 1][..i] == orig[..i];
      i := i + 1;
    }
    assert orig[..a.Length] == orig;
  }

  // ----- dropping repeated timestamps -----

  /** Keeps a point unless its timestamp equals its predecessor's. */
  function DedupByTime(s: seq<Point>): (r: seq<Point>)
    ensures |r| <= |s|
    ensures |s| > 0 ==> |r| > 0 && r[0] == s[0]
    decreases |s|
  {
    if |s| <= 1 then s
    else DedupByTime(s[..|s| - 1]) + (if s[|s| - 1].t != s[|s| - 2].t then [s[|s| - 1]] else [])
  }

  /** Every kept point comes from the input and, in a sorted input, the last
      kept point carries the input's last timestamp. */
  lemma {:induction false} DedupTail(s: seq<Point>)
    requires SortedByT(s) && |s| > 0
    ensures var r := DedupByTime(s); r[|r| - 1].t == s[|s| - 1].t
    decreases |s|
  {
    if |s| > 1 {
      DedupTail(s[..|s| - 1]);
    }
  }

  /** On a sorted input the result has strictly increasing timestamps. */
  lemma {:induction false} DedupStrictlyIncreasing(s: seq<Point>)
    requires SortedByT(s)
    ensures StrictlyIncreasingT(DedupByTime(s))
    decreases |s|
  {
    if |s| > 1 {
      var init := s[..|s| - 1];
      DedupStrictlyIncreasing(init);
      DedupTail(init);
    }
  }

  lemma {:induction false} DedupSubset(s: seq<Point>)
    ensures forall q :: q in DedupByTime(s) ==> q in s
    decreases |s|
  {
    if |s| > 1 {
      DedupSubset(s[..|s| - 1]);
    }
  }

  /** No timestamp is lost: every input time is still present. */
  lemma {:induction false} DedupKeepsTimes(s: seq<Point>)
    ensures forall k :: 0 <= k < |s| ==> exists q :: q in DedupByTime(s) && q.t == s[k].t
    decreases |s|
  {
    if |s| == 1 {
      assert s[0] in DedupByTime(s);
    } else if |s| > 1 {
      var init := s[..|s| - 1];
      DedupKeepsTimes(init);
      var r := DedupByTime(s);
      var ri := DedupByTime(init);
      assert forall q :: q in ri ==> q in r;
      forall k | 0 <= k < |s| ensures exists q :: q in r && q.t == s[k].t {
        if k < |s| - 1 {
          assert s[k] == init[k];
          var q :| q in ri && q.t == init[k].t;
          assert q in r;
        } else if s[k].t == s[k - 1].t {
          assert s[k - 1] == init[k - 1];
          var q :| q in ri && q.t == init[k - 1].t;
          assert q in r;
        } else {
          assert r[|r| - 1] == s[k];
        }
      }
    }
  }

  lemma {:induction false} WithTimeMembers(s: seq<Point>, t: int, q: Point)
    ensures q in WithTime(s, t) <==> q in s && q.t == t
    decreases |s|
  {
    if s != [] {
      WithTimeMembers(s[..|s| - 1], t, q);
      assert s == s[..|s| - 1] + [s[|s| - 1]];
    }
  }

  /** In a sorted input, each kept point is the first of the points that
      share its timestamp. */
  lemma {:induction false} DedupKeepsFirstOfEach(s: seq<Point>)
    requires SortedByT(s)
    ensures forall q :: q in DedupByTime(s) ==> WithTime(s, q.t) != [] && q == WithTime(s, q.t)[0]
    decreases |s|
  {
    if |s| > 1 {
      var init, last := s[..|s| - 1], s[|s| - 1];
      DedupKeepsFirstOfEach(init);
      DedupSubset(init);
      forall q | q in DedupByTime(s) ensures WithTime(s, q.t) != [] && q == WithTime(s, q.t)[0] {
        if q in DedupByTime(init) {
          WithTimeMembers(init, q.t, q);
        } else {
          assert q == last && last.t != s[|s| - 2].t;
          forall p | p in init ensures p.t < last.t {
            var k :| 0 <= k < |init| && init[k] == p;
            assert s[k].t <= s[|s| - 2].t;
          }
          if WithTime(init, last.t) != [] {
            WithTimeMembers(init, last.t, WithTime(init, last.t)[0]);
          }
        }
      }
    }
  }

  method DedupSorted(a: array<Point>) returns (unique: seq<Point>)
    ensures unique == DedupByTime(a[..])
  {
    unique := [];
    var i := 0;
    while i < a.Length
      invariant 0 <= i <= a.Length
      invariant unique == DedupByTime(a[..i])
    {
      assert a[..i + 1][..i] == a[..i];
      if i == 0 || a[i].t - a[i - 1].t != 0 {
        unique := unique + [a[i]];
      }
      i := i + 1;
    }
    assert a[..a.Length] == a[..];
  }

  // ----- the file's declared calories -----

  predicate IsCalories(e: Element) {
    Named(e, "calories") && e.number.Some?
  }

  /** The finite values of the `calories` elements, in document order. */
  function CalorieValues(elements: seq<Element>): seq<real>
    decreases |elements|
  {
    if elements == [] then []
    else
      var last := elements[|elements| - 1];
      CalorieValues(elements[..|elements| - 1]) + (if IsCalories(last) then [last.number.value] else [])
  }

  function Sum(xs: seq<real>): real
    decreases |xs|
  {
    if xs == [] then 0.0 else Sum(xs[..|xs| - 1]) + xs[|xs| - 1]
  }

  lemma SumAppend(xs: seq<real>, ys: seq<real>)
    requires |ys| <= 1
    ensures Sum(xs + ys) == Sum(xs) + Sum(ys)
  {
    if |ys| == 1 {
      assert (xs + ys)[..|xs|] == xs;
    } else {
      assert xs + ys == xs;
    }
  }

  /** The sum of the file's finite `calories` values, `None` when it has none. */
  function FileCaloriesOf(elements: seq<Element>): Option<real> {
    var vs := CalorieValues(elements);
    if vs == [] then None else Some(Sum(vs))
  }

  lemma {:induction false} CalorieValuesNonEmpty(elements: seq<Element>)
    ensures CalorieValues(elements) != [] <==> exists i :: 0 <= i < |elements| && IsCalories(elements[i])
    decreases |elements|
  {
    if elements != [] {
      var init := elements[..|elements| - 1];
      CalorieValuesNonEmpty(init);
      assert forall i :: 0 <= i < |init| ==> init[i] == elements[i];
    }
  }

  /** The scan over `getElementsByTagName("*")`. */
  method SumFileCalories(elements: seq<Element>) returns (fileCalories: Option<real>)
    ensures fileCalories == FileCaloriesOf(elements)
    ensures fileCalories.None? <==> forall i :: 0 <= i < |elements| ==> !IsCalories(elements[i])
  {
    var total := 0.0;
    var any := false;
    var k := 0;
    while k < |elements|
      invariant 0 <= k <= |elements|
      invariant any <==> CalorieValues(elements[..k]) != []
      invariant total == Sum(CalorieValues(elements[..k]))
    {
      var e := elements[k];
      assert elements[..k + 1][..k] == elements[..k];
      assert CalorieValues(elements[..k + 1])
          == CalorieValues(elements[..k]) + (if IsCalories(e) then [e.number.value] else []);
      SumAppend(CalorieValues(elements[..k]), if IsCalories(e) then [e.number.value] else []);
      if Named(e, "calories") && e.number.Some? {
        total := total + e.number.value;
        any := true;
      }
      k := k + 1;
    }
    assert elements[..k] == elements;
    CalorieValuesNonEmpty(elements);
    fileCalories := if any then Some(total) else None;
  }

  // ----- the whole clean-up -----

  /** The points `parseGpxText` returns for a document. */
  function CleanPoints(doc: RawDoc): (r: seq<Point>)
    ensures |r| <= |ValidPoints(doc.trkpts)|
    ensures ValidPoints(doc.trkpts) != [] ==> r != []
  {
    DedupByTime(SortedByTime(ValidPoints(doc.trkpts)))
  }

  /** The post-DOM half of `parseGpxText`. */
  method ParseGpxText(doc: RawDoc) returns (points: seq<Point>, fileCalories: Option<real>)
    ensures points == CleanPoints(doc)
    ensures fileCalories == FileCaloriesOf(doc.elements)
  {
    fileCalories := SumFileCalories(doc.elements);
    var pts: seq<Point> := [];
    var k := 0;
    while k < |doc.trkpts|
      invariant 0 <= k <= |doc.trkpts|
      invariant pts == ValidPoints(doc.trkpts[..k])
    {
      var raw := doc.trkpts[k];
      assert doc.trkpts[..k + 1][..k] == doc.trkpts[..k];
      if raw.lat.Some? && raw.lon.Some? && raw.time.Some? {
        var hr := None;
        if raw.extensions.Some? {
          hr := ExtractHr(raw.extensions.value);
        }
        pts := pts + [Point(raw.lat.value, raw.lon.value, raw.time.value, raw.ele, hr)];
      }
      k := k + 1;
    }
    assert doc.trkpts[..k] == doc.trkpts;
    var a := new Point[|pts|](i requires 0 <= i < |pts| => pts[i]);
    assert a[..] == pts;
    SortByTime(a);
    points := DedupSorted(a);
  }

  /** The clean-up yields strictly increasing timestamps. */
  lemma CleanPointsIncreasing(doc: RawDoc)
    ensures StrictlyIncreasingT(CleanPoints(doc))
  {
    SortedByTimeIsSorted(ValidPoints(doc.trkpts));
    DedupStrictlyIncreasing(SortedByTime(ValidPoints(doc.trkpts)));
  }

  /** Every cleaned point comes from a valid trackpoint. */
  lemma CleanPointsFromInput(doc: RawDoc)
    ensures forall q :: q in CleanPoints(doc) ==> q in ValidPoints(doc.trkpts)
  {
    var valid := ValidPoints(doc.trkpts);
    var sorted := SortedByTime(valid);
    SortedByTimeIsPermutation(valid);
    DedupSubset(sorted);
    forall q | q in CleanPoints(doc) ensures q in valid {
      assert q in multiset(sorted);
    }
  }

  /** No timestamp of a valid trackpoint is lost. */
  lemma CleanPointsKeepTimes(doc: RawDoc)
    ensures forall p :: p in ValidPoints(doc.trkpts) ==> exists q :: q in CleanPoints(doc) && q.t == p.t
  {
    var valid := ValidPoints(doc.trkpts);
    var sorted := SortedByTime(valid);
    SortedByTimeIsPermutation(valid);
    DedupKeepsTimes(sorted);
    forall p | p in valid ensures exists q :: q in CleanPoints(doc) && q.t == p.t {
      assert p in multiset(sorted);
      var k :| 0 <= k < |sorted| && sorted[k] == p;
    }
  }

  /** For each timestamp, the point kept is the first valid trackpoint with
      that time in document order. */
  lemma CleanPointsFirstOfEach(doc: RawDoc)
    ensures forall q :: q in CleanPoints(doc) ==>
      WithTime(ValidPoints(doc.trkpts), q.t) != [] && q == WithTime(ValidPoints(doc.trkpts), q.t)[0]
  {
    var valid := ValidPoints(doc.trkpts);
    var sorted := SortedByTime(valid);
    SortedByTimeIsSorted(valid);
    DedupKeepsFirstOfEach(sorted);
    forall q | q in CleanPoints(doc)
      ensures WithTime(valid, q.t) != [] && q == WithTime(valid, q.t)[0]
    {
      SortedByTimeIsStable(valid, q.t);
    }
  }
}
