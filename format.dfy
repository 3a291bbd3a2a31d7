/** The text the pages show and export: `secToHMS`, `paceMinPerKm` and
    `toCSV`. Both pages define them identically. */
module Format {
  import opened Common
  import opened Text

  // ----- secToHMS -----

  /** `Math.max(0, Math.round(s))`. */
  function WholeSeconds(s: real): (n: nat)
    ensures s >= 0.0 ==> s - 0.5 < n as real <= s + 0.5
    ensures s < -0.5 ==> n == 0
  {
    var r := Round(s);
    if r > 0 then r else 0
  }

  /** Hours, minutes and seconds of a whole number of seconds. */
  function HMS(n: nat): (hms: (nat, nat, nat))
    ensures hms.1 < 60 && hms.2 < 60
    ensures hms.0 * 3600 + hms.1 * 60 + hms.2 == n
  {
    (n / 3600, (n % 3600) / 60, n % 60)
  }

  /** `secToHMS(s)`: the clock text of the rounded, non-negative number of
      seconds. It reads back as that number, so no field overflows and
      nothing is lost; minutes and seconds are exactly two characters, the
      hours at least two. */
  function SecToHMS(s: real): (r: string)
    ensures ParseHMS(r) == Some(WholeSeconds(s))
    ensures var f := Split(r, ':'); |f| == 3 && |f[0]| >= 2 && |f[1]| == 2 && |f[2]| == 2
  {
    ClockTextRoundTrip(WholeSeconds(s));
    ClockTextShape(WholeSeconds(s));
    ClockText(WholeSeconds(s))
  }

  /** "hh:mm:ss" for a whole number of seconds, each field padded to two
      digits. */
  function ClockText(n: nat): string {
    var hms := HMS(n);
    Join([Pad2(NatToString(hms.0)), Pad2(NatToString(hms.1)), Pad2(NatToString(hms.2))], ":")
  }

  /** Reads "h:m:s" back into seconds; `None` unless it is three fields of
      digits with minutes and seconds below 60. */
  function ParseHMS(text: string): Option<nat> {
    ClockSeconds(Split(text, ':'))
  }

  function ClockSeconds(f: seq<string>): Option<nat> {
    if |f| == 3 && AllDigits(f[0]) && AllDigits(f[1]) && AllDigits(f[2])
       && DecimalValue(f[1]) < 60 && DecimalValue(f[2]) < 60
    then Some(DecimalValue(f[0]) * 3600 + DecimalValue(f[1]) * 60 + DecimalValue(f[2]))
    else None
  }

  /** Fields of digits joined by ':' split back into themselves. */
  lemma SplitDigitFields(parts: seq<string>)
    requires |parts| >= 1
    requires forall k :: 0 <= k < |parts| ==> AllDigits(parts[k])
    ensures Split(Join(parts, ":"), ':') == parts
  {
    assert forall k :: 0 <= k < |parts| ==> ':' !in parts[k];
    SplitJoin(parts, ':');
  }

  lemma ClockSecondsOf(f: seq<string>)
    requires |f| == 3 && AllDigits(f[0]) && AllDigits(f[1]) && AllDigits(f[2])
    requires DecimalValue(f[1]) < 60 && DecimalValue(f[2]) < 60
    ensures ClockSeconds(f) == Some(DecimalValue(f[0]) * 3600 + DecimalValue(f[1]) * 60 + DecimalValue(f[2]))
  {
  }

  /** Three fields of digits joined by ':' read back as the hours, minutes
      and seconds they denote. */
  lemma ParseClockFields(a: string, b: string, c: string, h: nat, m: nat, sec: nat)
    requires AllDigits(a) && AllDigits(b) && AllDigits(c)
    requires DecimalValue(a) == h && DecimalValue(b) == m && DecimalValue(c) == sec
    requires m < 60 && sec < 60
    ensures ParseHMS(Join([a, b, c], ":")) == Some(h * 3600 + m * 60 + sec)
  {
    var f := Split(Join([a, b, c], ":"), ':');
    SplitDigitFields([a, b, c]);
    assert |f| == 3 && f[0] == a && f[1] == b && f[2] == c;
    ClockSecondsOf(f);
  }

  /** The clock text reads back as its number of seconds. */
  lemma ClockTextRoundTrip(n: nat)
    ensures ParseHMS(ClockText(n)) == Some(n)
  {
    var hms := HMS(n);
    var h, m, sec := Pad2(NatToString(hms.0)), Pad2(NatToString(hms.1)), Pad2(NatToString(hms.2));
    PaddedDecimal(hms.0);
    PaddedDecimal(hms.1);
    PaddedDecimal(hms.2);
    ParseClockFields(h, m, sec, hms.0, hms.1, hms.2);
    assert ClockText(n) == Join([h, m, sec], ":");
  }

  /** The clock fields' widths. */
  lemma ClockTextShape(n: nat)
    ensures var f := Split(ClockText(n), ':'); |f| == 3 && |f[0]| >= 2 && |f[1]| == 2 && |f[2]| == 2
  {
    var hms := HMS(n);
    var h, m, sec := Pad2(NatToString(hms.0)), Pad2(NatToString(hms.1)), Pad2(NatToString(hms.2));
    TwoDigits(hms.1);
    TwoDigits(hms.2);
    PaddedDecimal(hms.0);
    PaddedDecimal(hms.1);
    PaddedDecimal(hms.2);
    ClockFieldWidths(h, m, sec);
    assert ClockText(n) == Join([h, m, sec], ":");
  }

  /** A number below 100 has at most two digits. */
  lemma TwoDigits(n: nat)
    requires n < 100
    ensures |NatToString(n)| <= 2
  {
    if n >= 10 {
      assert NatToString(n) == NatToString(n / 10) + [DigitChar(n % 10)];
    }
  }

  lemma ClockFieldWidths(a: string, b: string, c: string)
    requires AllDigits(a) && AllDigits(b) && AllDigits(c)
    requires |a| >= 2 && |b| == 2 && |c| == 2
    ensures var f := Split(Join([a, b, c], ":"), ':');
      |f| == 3 && |f[0]| >= 2 && |f[1]| == 2 && |f[2]| == 2
  {
    SplitDigitFields([a, b, c]);
  }

  // ----- paceMinPerKm -----

  /** "m:ss": whole minutes, then seconds padded to two digits. */
  function PaceText(mm: nat, ss: nat): string {
    Join([NatToString(mm), Pad2(NatToString(ss))], ":")
  }

  /** `paceMinPerKm` exactly as both pages write it: whole minutes of
      `60 / kmh`, then the rounded leftover seconds. The seconds can round up
      to 60. A missing, non-finite or non-positive speed gives "". */
  function PaceMinPerKmAsWritten(kmh: Option<real>): (r: string)
    ensures r == "" <==> kmh.None? || kmh.value <= 0.0
  {
    if kmh.None? || kmh.value <= 0.0 then ""
    else
      var f := WrittenFields(kmh.value);
      PaceTextFields(f.0, f.1);
      PaceText(f.0, f.1)
  }

  /** The page's two fields read back as numbers that add up to the rounded
      seconds per kilometre, even when the seconds field says 60. */
  lemma PaceAsWrittenFields(kmh: real)
    requires kmh > 0.0
    ensures var f := Split(PaceMinPerKmAsWritten(Some(kmh)), ':');
      && |f| == 2 && AllDigits(f[0]) && AllDigits(f[1])
      && DecimalValue(f[0]) * 60 + DecimalValue(f[1]) == WholeSeconds(3600.0 / kmh)
  {
    var f := WrittenFields(kmh);
    WrittenFieldsTotal(kmh);
    PaceTextFields(f.0, f.1);
  }

  /** The pace text splits into its minutes and its seconds, both digits. */
  lemma PaceTextFields(mm: nat, ss: nat)
    ensures PaceText(mm, ss) != ""
    ensures var f := Split(PaceText(mm, ss), ':');
      && |f| == 2 && AllDigits(f[0]) && AllDigits(f[1])
      && DecimalValue(f[0]) == mm && DecimalValue(f[1]) == ss
  {
    var a, b := NatToString(mm), Pad2(NatToString(ss));
    DecimalOfNatToString(mm);
    PaddedDecimal(ss);
    DigitsExclude(a, ':');
    DigitsExclude(b, ':');
    JoinTwo(a, b, ':');
  }

  /** The page's two fields: whole minutes of `60 / kmh`, and the leftover
      fraction of a minute rounded to seconds. */
  function WrittenFields(kmh: real): (nat, nat)
    requires kmh > 0.0
  {
    var minPerKm := 60.0 / kmh;
    var mm := minPerKm.Floor;
    var ss := Round((minPerKm - mm as real) * 60.0);
    (if mm >= 0 then mm else 0, if ss >= 0 then ss else 0)
  }

  /** At 12.012 km/h the pace is 4.995 min/km: 4 whole minutes, and a
      leftover of 59.7 s that rounds to 60. */
  lemma PaceFieldsAt12012()
    ensures (60.0 / 12.012).Floor == 4
    ensures Round((60.0 / 12.012 - (60.0 / 12.012).Floor as real) * 60.0) == 60
  {
    var x := 60.0 / 12.012;
    assert x == 5000.0 / 1001.0;
    assert 4.0 <= x < 5.0;
    assert x.Floor == 4;
    var y := (x - 4.0) * 60.0;
    assert y == 59760.0 / 1001.0;
    assert 59.5 <= y < 60.5;
  }

  lemma PaceTextFourSixty()
    ensures PaceText(4, 60) == "4:60"
  {
    assert NatToString(4) == "4";
    assert NatToString(6) == "6" && DigitChar(0) == '0';
    assert NatToString(60) == "60";
    assert Pad2("60") == "60";
  }

  /** So the text shows an impossible "4:60" instead of "5:00". */
  lemma PaceAsWrittenShowsSixtySeconds()
    ensures PaceMinPerKmAsWritten(Some(12.012)) == "4:60"
  {
    PaceFieldsAt12012();
    assert WrittenFields(12.012) == (4, 60);
    PaceTextFourSixty();
  }

  /** The intended pace: the whole number of seconds per kilometre, rounded
      once, shown as minutes and seconds below 60. */
  function PaceMinPerKm(kmh: Option<real>): (r: string)
    ensures r == "" <==> kmh.None? || kmh.value <= 0.0
    ensures kmh.Some? && kmh.value > 0.0 ==> ParsePace(r) == Some(WholeSeconds(3600.0 / kmh.value))
  {
    if kmh.None? || kmh.value <= 0.0 then ""
    else
      var total := WholeSeconds(3600.0 / kmh.value);
      PaceTextFields(total / 60, total % 60);
      ParsePaceText(total / 60, total % 60);
      PaceText(total / 60, total % 60)
  }

  /** Reads "m:ss" back into seconds; `None` unless it is two fields of
      digits with seconds below 60. */
  function ParsePace(text: string): Option<nat> {
    MinutesSeconds(Split(text, ':'))
  }

  function MinutesSeconds(f: seq<string>): Option<nat> {
    if |f| == 2 && AllDigits(f[0]) && AllDigits(f[1]) && DecimalValue(f[1]) < 60
    then Some(DecimalValue(f[0]) * 60 + DecimalValue(f[1]))
    else None
  }

  lemma MinutesSecondsOf(f: seq<string>)
    requires |f| == 2 && AllDigits(f[0]) && AllDigits(f[1]) && DecimalValue(f[1]) < 60
    ensures MinutesSeconds(f) == Some(DecimalValue(f[0]) * 60 + DecimalValue(f[1]))
  {
  }

  /** Two fields of digits joined by ':' read back as the minutes and
      seconds they denote. */
  lemma ParseDigitFields(a: string, b: string, m: nat, sec: nat)
    requires AllDigits(a) && AllDigits(b) && DecimalValue(a) == m && DecimalValue(b) == sec
    requires sec < 60
    ensures ParsePace(Join([a, b], ":")) == Some(m * 60 + sec)
  {
    var f := Split(Join([a, b], ":"), ':');
    SplitDigitFields([a, b]);
    assert |f| == 2 && f[0] == a && f[1] == b;
    MinutesSecondsOf(f);
  }

  /** "m:ss" reads back as `mm` minutes and `ss` seconds. */
  lemma ParsePaceText(mm: nat, ss: nat)
    requires ss < 60
    ensures ParsePace(PaceText(mm, ss)) == Some(mm * 60 + ss)
  {
    DecimalOfNatToString(mm);
    PaddedDecimal(ss);
    ParseDigitFields(NatToString(mm), Pad2(NatToString(ss)), mm, ss);
  }

  /** The page's two rounded fields always add up to the once-rounded
      seconds per kilometre. */
  lemma WrittenFieldsTotal(kmh: real)
    requires kmh > 0.0
    ensures var x := 60.0 / kmh;
      && x.Floor >= 0
      && Round((x - x.Floor as real) * 60.0) >= 0
      && WholeSeconds(3600.0 / kmh) == x.Floor * 60 + Round((x - x.Floor as real) * 60.0)
  {
    var x := 60.0 / kmh;
    var mm := x.Floor;
    var y := (x - mm as real) * 60.0;
    assert x > 0.0;
    assert 0.0 <= y;
    assert x * 60.0 == 3600.0 / kmh;
    RoundShift(y, mm * 60);
    assert y + (mm * 60) as real == 3600.0 / kmh;
  }

  /** Wherever the written seconds stay below 60, the page's text is the
      intended one: the two differ only in the "m:60" case. */
  lemma PaceAgreesBelowSixty(kmh: real)
    requires kmh > 0.0
    requires Round((60.0 / kmh - (60.0 / kmh).Floor as real) * 60.0) < 60
    ensures PaceMinPerKmAsWritten(Some(kmh)) == PaceMinPerKm(Some(kmh))
  {
    WrittenFieldsTotal(kmh);
    var x := 60.0 / kmh;
    var mm: nat := x.Floor;
    var ss: nat := Round((x - mm as real) * 60.0);
    var total := WholeSeconds(3600.0 / kmh);
    MinutesOf(total, mm, ss);
    assert WrittenFields(kmh) == (mm, ss);
  }

  lemma MinutesOf(total: nat, mm: nat, ss: nat)
    requires total == mm * 60 + ss && ss < 60
    ensures total / 60 == mm && total % 60 == ss
  {
  }

  /** `Math.round` commutes with adding a whole number. */
  lemma RoundShift(x: real, n: int)
    ensures Round(x + n as real) == Round(x) + n
  {
    assert (x + n as real + 0.5).Floor == (x + 0.5).Floor + n;
  }

  // ----- toCSV -----

  /** One property of a row object: its key and its value as text (`None`
      for `null` or `undefined`). Numbers are given already rendered. */
  datatype Field = Field(key: string, value: Option<string>)

  type Row = seq<Field>

  function Keys(r: Row): seq<string> {
    if r == [] then [] else [r[0].key] + Keys(r[1..])
  }

  /** `r[h]`: the value of the first property called `h`, `None` when there
      is none. */
  function Lookup(r: Row, h: string): Option<string> {
    if r == [] then None else if r[0].key == h then r[0].value else Lookup(r[1..], h)
  }

  /** `String(v).replaceAll('"', '""')`. */
  function Escape(s: string): (r: string)
    ensures |r| >= |s|
  {
    if s == [] then "" else (if s[0] == '"' then "\"\"" else [s[0]]) + Escape(s[1..])
  }

  /** A quoted CSV cell as `toCSV` writes it. */
  function Cell(v: Option<string>): string {
    "\"" + Escape(v.GetOr("")) + "\""
  }

  function RowLine(r: Row, headers: seq<string>): string {
    Join(CellsOf(r, headers), ",")
  }

  function CellsOf(r: Row, headers: seq<string>): (cs: seq<string>)
    ensures |cs| == |headers|
    ensures forall i :: 0 <= i < |headers| ==> cs[i] == Cell(Lookup(r, headers[i]))
  {
    if headers == [] then [] else [Cell(Lookup(r, headers[0]))] + CellsOf(r, headers[1..])
  }

  function Lines(rows: seq<Row>, headers: seq<string>): (ls: seq<string>)
    ensures |ls| == |rows|
    ensures forall i :: 0 <= i < |rows| ==> ls[i] == RowLine(rows[i], headers)
  {
    if rows == [] then [] else [RowLine(rows[0], headers)] + Lines(rows[1..], headers)
  }

  /** `toCSV(rows)`: the first row's keys as an unquoted header line, then
      every row's values under those keys, quoted; "" for no rows. */
  function ToCSV(rows: seq<Row>): (r: string)
    ensures rows == [] <==> r == ""
    ensures rows != [] ==> var h := Join(Keys(rows[0]), ",");
      |r| > |h| && r[..|h| + 1] == h + "\n"
  {
    if rows == [] then ""
    else
      var headers := Keys(rows[0]);
      var lines := [Join(headers, ",")] + Lines(rows, headers);
      assert lines[1..] == Lines(rows, headers);
      Join(lines, "\n")
  }

  /** Undoes `Escape`: every doubled quote becomes one quote again. */
  function Unescape(s: string): string
    decreases |s|
  {
    if s == [] then ""
    else if |s| >= 2 && s[0] == '"' && s[1] == '"' then "\"" + Unescape(s[2..])
    else [s[0]] + Unescape(s[1..])
  }

  lemma {:induction false} UnescapeEscape(s: string)
    ensures Unescape(Escape(s)) == s
    decreases |s|
  {
    if s != [] {
      UnescapeEscape(s[1..]);
      var e := Escape(s);
      if s[0] == '"' {
        assert e == "\"\"" + Escape(s[1..]);
        assert e[2..] == Escape(s[1..]);
      } else {
        assert e == [s[0]] + Escape(s[1..]);
        assert e[1..] == Escape(s[1..]);
      }
      assert [s[0]] + s[1..] == s;
    }
  }

  /** Inside an escaped value every quote is one of a doubled pair. */
  lemma {:induction false} EscapeNoLoneQuote(s: string, c: char)
    requires c != '"' && c !in s
    ensures c !in Escape(s)
    decreases |s|
  {
    if s != [] {
      EscapeNoLoneQuote(s[1..], c);
    }
  }

  /** Each exported cell reads back, through unquoting and unescaping, as
      the value it was built from (an absent value as ""). */
  lemma CellRoundTrip(v: Option<string>)
    ensures var c := Cell(v);
      |c| >= 2 && c[0] == '"' && c[|c| - 1] == '"' && Unescape(c[1..|c| - 1]) == v.GetOr("")
  {
    var c := Cell(v);
    assert c[1..|c| - 1] == Escape(v.GetOr(""));
    UnescapeEscape(v.GetOr(""));
  }

  /** With values free of line breaks, the export has one line per row
      after the header, and the line of row `i` holds row `i`'s values in
      header order. */
  lemma ToCSVLines(rows: seq<Row>)
    requires rows != []
    requires forall i, j :: 0 <= i < |rows| && 0 <= j < |rows[i]| && rows[i][j].value.Some? ==> '\n' !in rows[i][j].value.value
    requires forall j :: 0 <= j < |rows[0]| ==> '\n' !in rows[0][j].key
    ensures var ls := Split(ToCSV(rows), '\n');
            && |ls| == |rows| + 1
            && ls[0] == Join(Keys(rows[0]), ",")
            && forall i :: 0 <= i < |rows| ==> ls[i + 1] == RowLine(rows[i], Keys(rows[0]))
  {
    var headers := Keys(rows[0]);
    var lines := [Join(headers, ",")] + Lines(rows, headers);
    KeysNoBreak(rows[0]);
    JoinNoSeparator(headers, ",", '\n');
    forall i | 0 <= i < |rows| ensures '\n' !in RowLine(rows[i], headers) {
      RowLineNoBreak(rows[i], headers);
    }
    assert forall k :: 0 <= k < |lines| ==> '\n' !in lines[k] by {
      forall k | 0 <= k < |lines| ensures '\n' !in lines[k] {
        if k > 0 {
          assert lines[k] == RowLine(rows[k - 1], headers);
        }
      }
    }
    SplitJoin(lines, '\n');
  }

  lemma {:induction false} KeysNoBreak(r: Row)
    requires forall j :: 0 <= j < |r| ==> '\n' !in r[j].key
    ensures forall k :: 0 <= k < |Keys(r)| ==> '\n' !in Keys(r)[k]
    ensures |Keys(r)| == |r|
    decreases |r|
  {
    if r != [] {
      KeysNoBreak(r[1..]);
      assert forall j :: 1 <= j < |r| ==> r[j] == r[1..][j - 1];
    }
  }

  lemma {:induction false} LookupNoBreak(r: Row, h: string)
    requires forall j :: 0 <= j < |r| && r[j].value.Some? ==> '\n' !in r[j].value.value
    ensures Lookup(r, h).Some? ==> '\n' !in Lookup(r, h).value
    decreases |r|
  {
    if r != [] && r[0].key != h {
      assert forall j :: 1 <= j < |r| ==> r[j] == r[1..][j - 1];
      LookupNoBreak(r[1..], h);
    }
  }

  lemma RowLineNoBreak(r: Row, headers: seq<string>)
    requires forall j :: 0 <= j < |r| && r[j].value.Some? ==> '\n' !in r[j].value.value
    ensures '\n' !in RowLine(r, headers)
  {
    var cs := CellsOf(r, headers);
    forall k | 0 <= k < |cs| ensures '\n' !in cs[k] {
      LookupNoBreak(r, headers[k]);
      EscapeNoLoneQuote(Lookup(r, headers[k]).GetOr(""), '\n');
    }
    JoinNoSeparator(cs, ",", '\n');
  }
}
