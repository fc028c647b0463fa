/** The two thermal-zone aggregators, `get_cpu_temp` (mean of the warm zones) and
    `get_cpu_temp_max` (running maximum), each over one answer to the query
    `SELECT Temperature FROM Win32_PerfFormattedData_Counters_ThermalZoneInformation`.

    The Kelvin-to-Celsius step `*val as i32 - 273` and the running sum are `i32`
    arithmetic. The cast wraps (modelled by `AsI32`); the subtraction and the sum
    are overflow-checked, so an overflow would panic the worker: the methods
    require that none happens and keep every intermediate value in `i32`. */
module Thermal {
  import opened Ints
  import opened Wrappers
  import opened Measurements
  import opened WmiQuery
  import opened SeqMath

  const KELVIN_OFFSET: int := 273

  /** The Celsius reading of one zone row, or `None` when the row is skipped
      because its `Temperature` field is missing or not a `UI4`. */
  function ZoneReading(row: Row): (r: Option<int>)
    ensures r.Some? <==> "Temperature" in row && row["Temperature"].UI4?
    ensures r.Some? ==> r.value <= I32_MAX - KELVIN_OFFSET
  {
    match Field(row, "Temperature")
    case Some(UI4(val)) => Some(AsI32(val) - KELVIN_OFFSET)
    case _ => None
  }

  /** The subtraction of a row's reading stays within `i32`. */
  predicate ZoneFits(row: Row)
  {
    ZoneReading(row).Some? ==> ZoneReading(row).value >= I32_MIN
  }

  predicate AllZonesFit(rows: seq<Row>)
  {
    forall i | 0 <= i < |rows| :: ZoneFits(rows[i])
  }

  /** The readings of the rows, in row order, skipped rows left out. */
  function Readings(rows: seq<Row>): (r: seq<int>)
    ensures |r| <= |rows|
  {
    if |rows| == 0 then []
    else
      var last := ZoneReading(rows[|rows| - 1]);
      Readings(rows[..|rows| - 1]) + (if last.Some? then [last.value] else [])
  }

  /** The strictly positive elements of `s`, in order. */
  function Positive(s: seq<int>): (r: seq<int>)
    ensures |r| <= |s|
    ensures forall x :: x in r <==> x in s && x > 0
  {
    if |s| == 0 then []
    else Positive(s[..|s| - 1]) + (if s[|s| - 1] > 0 then [s[|s| - 1]] else [])
  }

  /** The readings that take part in the average. */
  function Qualifying(rows: seq<Row>): seq<int>
  {
    Positive(Readings(rows))
  }

  /** No `i32` overflow occurs while averaging: every subtraction and the whole
      sum of qualifying readings stay in range (the count is bounded by the sum). */
  predicate AvgFits(rows: seq<Row>)
  {
    AllZonesFit(rows) && Sum(Qualifying(rows)) <= I32_MAX
  }

  /** The averaged temperature: the sum of the qualifying readings divided by
      their count with Rust's truncating division, or 0 when none qualifies. */
  function MeanTemperature(rows: seq<Row>): (r: int)
    ensures 0 <= r <= Sum(Qualifying(rows))
  {
    var q := Qualifying(rows);
    PositiveCountBelowSum(q);
    if |q| > 0 then TruncDiv(Sum(q), |q|) else 0
  }

  /** The running maximum of `s` starting from 0, as the loop of `get_cpu_temp_max`
      computes it: a reading replaces the maximum only when strictly greater. */
  function PeakOf(s: seq<int>): (r: int)
    ensures r >= 0
    ensures forall x :: x in s ==> x <= r
    ensures r == 0 || r in s
  {
    if |s| == 0 then 0
    else
      var p := PeakOf(s[..|s| - 1]);
      assert s == s[..|s| - 1] + [s[|s| - 1]];
      if s[|s| - 1] > p then s[|s| - 1] else p
  }

  function PeakTemperature(rows: seq<Row>): int
  {
    PeakOf(Readings(rows))
  }

  /** What `get_cpu_temp` returns for one query answer. */
  function CpuTemp(q: QueryResult): (m: Measurement)
    requires q.QOk? ==> AvgFits(q.rows)
    ensures m.NaN? || m.AvgTemperature?
    ensures m.NaN? <==> q.QErr?
    ensures q == QOk([]) ==> m == AvgTemperature(0)
  {
    if q.QErr? then NaN else AvgTemperature(MeanTemperature(q.rows))
  }

  /** What `get_cpu_temp_max` returns for one query answer. */
  function CpuTempMax(q: QueryResult): (m: Measurement)
    requires q.QOk? ==> AllZonesFit(q.rows)
    ensures m.NaN? || m.Temperature?
    ensures m.NaN? <==> q.QErr?
    ensures q == QOk([]) ==> m == Temperature(0)
  {
    if q.QErr? then NaN
    else
      ReadingsFit(q.rows);
      Temperature(PeakTemperature(q.rows))
  }

  // ---------------------------------------------------------------- lemmas

  /** A row appended to the answer appends its reading, if any, to the readings. */
  lemma ReadingsSnoc(rows: seq<Row>, row: Row)
    ensures Readings(rows + [row]) ==
      Readings(rows) + (if ZoneReading(row).Some? then [ZoneReading(row).value] else [])
  {
    assert (rows + [row])[..|rows|] == rows;
  }

  lemma PositiveSnoc(s: seq<int>, x: int)
    ensures Positive(s + [x]) == Positive(s) + (if x > 0 then [x] else [])
  {
    assert (s + [x])[..|s|] == s;
  }

  lemma PeakSnoc(s: seq<int>, x: int)
    ensures PeakOf(s + [x]) == if x > PeakOf(s) then x else PeakOf(s)
  {
    assert (s + [x])[..|s|] == s;
  }

  /** Appending a row adds its reading to the qualifying sum exactly when positive. */
  lemma QualifyingSnoc(rows: seq<Row>, row: Row)
    ensures var t := ZoneReading(row);
      Qualifying(rows + [row]) ==
        Qualifying(rows) + (if t.Some? && t.value > 0 then [t.value] else [])
  {
    ReadingsSnoc(rows, row);
    var t := ZoneReading(row);
    if t.Some? {
      PositiveSnoc(Readings(rows), t.value);
    } else {
      assert Readings(rows) + [] == Readings(rows);
    }
  }

  lemma {:induction false} ReadingsFit(rows: seq<Row>)
    requires AllZonesFit(rows)
    ensures forall x :: x in Readings(rows) ==> I32_MIN <= x <= I32_MAX - KELVIN_OFFSET
  {
    if |rows| > 0 {
      var init := rows[..|rows| - 1];
      assert forall i | 0 <= i < |init| :: init[i] == rows[i];
      ReadingsFit(init);
      assert ZoneFits(rows[|rows| - 1]);
    }
  }

  /** A sum of positive numbers is at least their count (so in particular not negative). */
  lemma {:induction false} PositiveCountBelowSum(s: seq<int>)
    requires forall x :: x in s ==> x > 0
    ensures |s| <= Sum(s)
  {
    if |s| > 0 {
      var init := s[..|s| - 1];
      assert forall x :: x in init ==> x in s;
      assert s[|s| - 1] in s;
      PositiveCountBelowSum(init);
    }
  }

  /** The qualifying readings of a prefix weigh no more than those of the whole. */
  lemma {:induction false} QualifyingPrefixSum(rows: seq<Row>, i: nat)
    requires i <= |rows|
    ensures Sum(Qualifying(rows[..i])) <= Sum(Qualifying(rows))
  {
    if i < |rows| {
      var init, last := rows[..|rows| - 1], rows[|rows| - 1];
      assert init[..i] == rows[..i];
      assert rows == init + [last];
      QualifyingPrefixSum(init, i);
      QualifyingSnoc(init, last);
      var t := ZoneReading(last);
      if t.Some? && t.value > 0 {
        SumSnoc(Qualifying(init), t.value);
      } else {
        assert Qualifying(init) + [] == Qualifying(init);
      }
    } else {
      assert rows[..i] == rows;
    }
  }

  /** One iteration of the loop of `get_cpu_temp`: the qualifying readings grow by
      the row's reading when it is positive, and stay within what the whole answer
      allows (so neither `i32` addition overflows). */
  lemma ZoneStep(rows: seq<Row>, i: nat)
    requires i < |rows| && AvgFits(rows)
    ensures ZoneFits(rows[i])
    ensures var t := ZoneReading(rows[i]);
      var counted := t.Some? && t.value > 0;
      && |Qualifying(rows[..i + 1])| == |Qualifying(rows[..i])| + (if counted then 1 else 0)
      && Sum(Qualifying(rows[..i + 1])) == Sum(Qualifying(rows[..i])) + (if counted then t.value else 0)
      && |Qualifying(rows[..i + 1])| <= Sum(Qualifying(rows[..i + 1])) <= Sum(Qualifying(rows))
  {
    assert rows[..i + 1] == rows[..i] + [rows[i]];
    QualifyingSnoc(rows[..i], rows[i]);
    var t := ZoneReading(rows[i]);
    if t.Some? && t.value > 0 {
      SumSnoc(Qualifying(rows[..i]), t.value);
    } else {
      assert Qualifying(rows[..i]) + [] == Qualifying(rows[..i]);
    }
    QualifyingPrefixSum(rows, i + 1);
    PositiveCountBelowSum(Qualifying(rows[..i + 1]));
  }

  lemma DivWithin(a: int, n: int, lo: int, hi: int)
    requires n > 0 && a >= 0
    requires n * lo <= a <= n * hi
    ensures lo <= TruncDiv(a, n) <= hi
  {
    var r := TruncDiv(a, n);
    if r < lo {
      assert r * n <= (lo - 1) * n by { MulMonotone(r, lo - 1, n); }
    }
    if r > hi {
      assert (hi + 1) * n <= r * n by { MulMonotone(hi + 1, r, n); }
    }
  }

  /** The averaged temperature is never negative; when some zone qualifies it is
      at least 1 and lies between the least and the greatest qualifying reading. */
  lemma MeanBounds(rows: seq<Row>)
    ensures MeanTemperature(rows) >= 0
    ensures Qualifying(rows) == [] ==> MeanTemperature(rows) == 0
    ensures Qualifying(rows) != [] ==>
      1 <= MinOf(Qualifying(rows)) <= MeanTemperature(rows) <= MaxOf(Qualifying(rows))
  {
    var q := Qualifying(rows);
    if q != [] {
      SumWithin(q, MinOf(q), MaxOf(q));
      DivWithin(Sum(q), |q|, MinOf(q), MaxOf(q));
    }
  }

  /** The peak temperature is never negative, is at least every converted
      reading, and is either 0 or one of the readings. */
  lemma PeakBounds(rows: seq<Row>)
    ensures PeakTemperature(rows) >= 0
    ensures forall x :: x in Readings(rows) ==> x <= PeakTemperature(rows)
    ensures PeakTemperature(rows) == 0 || PeakTemperature(rows) in Readings(rows)
  {
  }

  /** On the same rows, the average of the warm zones never exceeds the peak. */
  lemma MeanAtMostPeak(rows: seq<Row>)
    ensures MeanTemperature(rows) <= PeakTemperature(rows)
  {
    MeanBounds(rows);
    var q := Qualifying(rows);
    if q != [] {
      assert MaxOf(q) in Readings(rows);
    }
  }

  /** The same statement for the two extractors' results. */
  lemma CpuTempAtMostCpuTempMax(rows: seq<Row>)
    requires AvgFits(rows)
    ensures CpuTemp(QOk(rows)).celsius <= CpuTempMax(QOk(rows)).celsius
  {
    MeanAtMostPeak(rows);
  }

  /** A thermal-zone row reporting `kelvin`. */
  function ZoneRow(kelvin: u32): Row
  {
    map["Temperature" := UI4(kelvin)]
  }

  lemma ZoneRowReading(kelvin: u32)
    ensures ZoneReading(ZoneRow(kelvin)) == Some(AsI32(kelvin) - KELVIN_OFFSET)
  {
    assert "Temperature" in ZoneRow(kelvin);
  }

  /** The readings of three zone rows below 2^31 K are their Celsius values. */
  lemma ThreeZoneReadings(a: u32, b: u32, c: u32)
    requires a <= I32_MAX && b <= I32_MAX && c <= I32_MAX
    ensures Readings([ZoneRow(a), ZoneRow(b), ZoneRow(c)]) == [a - 273, b - 273, c - 273]
    ensures AllZonesFit([ZoneRow(a), ZoneRow(b), ZoneRow(c)])
  {
    ZoneRowReading(a);
    ZoneRowReading(b);
    ZoneRowReading(c);
    ReadingsSnoc([], ZoneRow(a));
    assert [] + [ZoneRow(a)] == [ZoneRow(a)];
    ReadingsSnoc([ZoneRow(a)], ZoneRow(b));
    assert [ZoneRow(a)] + [ZoneRow(b)] == [ZoneRow(a), ZoneRow(b)];
    ReadingsSnoc([ZoneRow(a), ZoneRow(b)], ZoneRow(c));
    assert [ZoneRow(a), ZoneRow(b)] + [ZoneRow(c)] == [ZoneRow(a), ZoneRow(b), ZoneRow(c)];
  }

  /** Zones at 296 K, 286 K and 0 K: 23 and 13 degrees qualify and -273 is
      discarded, so the average is 18 and the peak 23. */
  lemma WarmZonesExample()
    ensures var rows := [ZoneRow(296), ZoneRow(286), ZoneRow(0)];
      AvgFits(rows) && CpuTemp(QOk(rows)) == AvgTemperature(18) && CpuTempMax(QOk(rows)) == Temperature(23)
  {
    ThreeZoneReadings(296, 286, 0);
    var s := [23, 13, -273];
    assert s[..2] == [23, 13] && [23, 13][..1] == [23] && [23][..0] == [];
    assert Positive(s) == [23, 13];
    assert Sum([23, 13]) == 36 by { assert [23, 13][..1] == [23]; }
    assert MeanTemperature([ZoneRow(296), ZoneRow(286), ZoneRow(0)]) == 18;
    assert PeakOf(s) == 23;
  }

  /** Zones at 250 K, 260 K and 0 K are all below freezing (-23, -13 and -273
      degrees), so none qualifies: the average falls back to 0 and so does the peak. */
  lemma ColdZonesExample()
    ensures var rows := [ZoneRow(250), ZoneRow(260), ZoneRow(0)];
      AvgFits(rows) && CpuTemp(QOk(rows)) == AvgTemperature(0) && CpuTempMax(QOk(rows)) == Temperature(0)
  {
    ThreeZoneReadings(250, 260, 0);
    var s := [-23, -13, -273];
    assert s[..2] == [-23, -13] && [-23, -13][..1] == [-23] && [-23][..0] == [];
    assert Positive(s) == [];
    assert PeakOf(s) == 0;
  }

  // --------------------------------------------------------------- methods

  /** `get_cpu_temp`. */
  method GetCpuTemp(q: QueryResult) returns (m: Measurement)
    requires q.QOk? ==> AvgFits(q.rows)
    ensures m == CpuTemp(q)
  {
    if q.QErr? {
      return NaN;
    }
    var results := q.rows;
    var count: i32 := 0;
    var totTemp: i32 := 0;
    var resTemp: i32 := 0;
    for i := 0 to |results|
      invariant totTemp == Sum(Qualifying(results[..i]))
      invariant count == |Qualifying(results[..i])|
    {
      ZoneStep(results, i);
      match Field(results[i], "Temperature") {
        case Some(UI4(val)) =>
          var temp: i32 := AsI32(val) - KELVIN_OFFSET;
          if temp > 0 {
            totTemp := totTemp + temp;
            count := count + 1;
          }
        case _ =>
      }
    }
    assert results[..|results|] == results;
    if count > 0 {
      resTemp := TruncDiv(totTemp, count);
    }
    m := AvgTemperature(resTemp);
  }

  /** `get_cpu_temp_max`. */
  method GetCpuTempMax(q: QueryResult) returns (m: Measurement)
    requires q.QOk? ==> AllZonesFit(q.rows)
    ensures m == CpuTempMax(q)
  {
    if q.QErr? {
      return NaN;
    }
    var results := q.rows;
    var resTemp: i32 := 0;
    for i := 0 to |results|
      invariant resTemp == PeakOf(Readings(results[..i]))
    {
      assert results[..i + 1] == results[..i] + [results[i]];
      ReadingsSnoc(results[..i], results[i]);
      assert ZoneFits(results[i]);
      match Field(results[i], "Temperature") {
        case Some(UI4(val)) =>
          var temp: i32 := AsI32(val) - KELVIN_OFFSET;
          PeakSnoc(Readings(results[..i]), temp);
          if temp > resTemp {
            resTemp := temp;
          }
        case _ =>
          assert Readings(results[..i]) + [] == Readings(results[..i]);
      }
    }
    assert results[..|results|] == results;
    m := Temperature(resTemp);
  }
}
