/** The instrumentation extractors other than the thermal zones: processor load,
    available and total memory, network status and refresh rate, plus the unit
    conversion `KiB_to_GiB`. Floating-point values are modelled by exact reals. */
module WmiData {
  import opened Ints
  import opened Wrappers
  import opened Measurements
  import opened WmiQuery
  import opened SeqMath

  const KIB: real := 1024.0

  // ------------------------------------------------------ processor load

  /** The load of one processor row: its `LoadPercentage` when that is a `UI2`. */
  function RowLoad(row: Row): (r: Option<int>)
    ensures r.Some? <==> "LoadPercentage" in row && row["LoadPercentage"].UI2?
    ensures r.Some? ==> 0 <= r.value < 0x1_0000
  {
    match Field(row, "LoadPercentage")
    case Some(UI2(val)) => Some(val)
    case _ => None
  }

  /** The loads of the rows, in order; rows without one are skipped. */
  function Loads(rows: seq<Row>): (r: seq<int>)
    ensures |r| <= |rows|
    ensures forall x :: x in r ==> 0 <= x < 0x1_0000
  {
    if |rows| == 0 then []
    else
      var last := RowLoad(rows[|rows| - 1]);
      Loads(rows[..|rows| - 1]) + (if last.Some? then [last.value] else [])
  }

  /** What `get_cpu_util` returns: the mean load over the processor rows that
      carry one, `CpuUtil(1.0)` when none does, `NaN` when the query fails. */
  function CpuUtilization(q: QueryResult): (m: Measurement)
    ensures m.NaN? || m.CpuUtil?
    ensures m.NaN? <==> q.QErr?
    ensures q.QOk? && Loads(q.rows) == [] ==> m == CpuUtil(1.0)
  {
    if q.QErr? then NaN
    else
      var loads := Loads(q.rows);
      if |loads| > 0 then CpuUtil(Sum(loads) as real / |loads| as real) else CpuUtil(1.0)
  }

  lemma LoadsSnoc(rows: seq<Row>, row: Row)
    ensures Loads(rows + [row]) ==
      Loads(rows) + (if RowLoad(row).Some? then [RowLoad(row).value] else [])
  {
    assert (rows + [row])[..|rows|] == rows;
  }

  /** A prefix of the rows carries no more loads than the whole answer. */
  lemma {:induction false} LoadsPrefix(rows: seq<Row>, i: nat)
    requires i <= |rows|
    ensures |Loads(rows[..i])| <= |Loads(rows)|
  {
    if i < |rows| {
      var init := rows[..|rows| - 1];
      assert init[..i] == rows[..i];
      LoadsPrefix(init, i);
    } else {
      assert rows[..i] == rows;
    }
  }

  /** One iteration of the loop of `get_cpu_util`: the loads and their sum grow by
      the row's load, if it has one, without exceeding those of the whole answer. */
  lemma LoadStep(rows: seq<Row>, i: nat)
    requires i < |rows|
    ensures var l := RowLoad(rows[i]);
      && |Loads(rows[..i + 1])| == |Loads(rows[..i])| + (if l.Some? then 1 else 0)
      && Sum(Loads(rows[..i + 1])) == Sum(Loads(rows[..i])) + (if l.Some? then l.value else 0)
      && |Loads(rows[..i + 1])| <= |Loads(rows)|
  {
    assert rows[..i + 1] == rows[..i] + [rows[i]];
    LoadsSnoc(rows[..i], rows[i]);
    LoadsPrefix(rows, i + 1);
    var l := RowLoad(rows[i]);
    if l.Some? {
      SumSnoc(Loads(rows[..i]), l.value);
    } else {
      assert Loads(rows[..i]) + [] == Loads(rows[..i]);
    }
  }

  lemma RealDivWithin(a: int, n: int, lo: int, hi: int)
    requires n > 0
    requires n * lo <= a <= n * hi
    ensures lo as real <= a as real / n as real <= hi as real
  {
    var d := a as real / n as real;
    assert d * n as real == a as real;
    assert (n * lo) as real == n as real * lo as real;
    assert (n * hi) as real == n as real * hi as real;
  }

  /** A successful load reading lies between the least and the greatest processor
      load, so within the `u16` range. */
  lemma CpuUtilizationBounds(q: QueryResult)
    requires q.QOk? && Loads(q.rows) != []
    ensures var loads := Loads(q.rows);
      MinOf(loads) as real <= CpuUtilization(q).load <= MaxOf(loads) as real
    ensures 0.0 <= CpuUtilization(q).load <= 65535.0
  {
    var loads := Loads(q.rows);
    SumWithin(loads, MinOf(loads), MaxOf(loads));
    RealDivWithin(Sum(loads), |loads|, MinOf(loads), MaxOf(loads));
  }

  /** `get_cpu_util`. The counter is an `i32`, so more than `i32::MAX` load rows
      would overflow it; the running total is an `f64` that adds `u16` values
      exactly. */
  method GetCpuUtil(q: QueryResult) returns (m: Measurement)
    requires q.QOk? ==> |Loads(q.rows)| <= I32_MAX
    ensures m == CpuUtilization(q)
  {
    if q.QErr? {
      return NaN;
    }
    var results := q.rows;
    var utilTotal: real := 0.0;
    var count: i32 := 0;
    for i := 0 to |results|
      invariant utilTotal == Sum(Loads(results[..i])) as real
      invariant count == |Loads(results[..i])|
    {
      LoadStep(results, i);
      match Field(results[i], "LoadPercentage") {
        case Some(UI2(val)) =>
          utilTotal := utilTotal + val as real;
          count := count + 1;
        case _ =>
      }
    }
    assert results[..|results|] == results;
    assert utilTotal == Sum(Loads(results)) as real && count == |Loads(results)|;
    var load := 1.0;
    if count > 0 {
      load := utilTotal / count as real;
    }
    m := CpuUtil(load);
  }

  // ------------------------------------------------ first-row extractors

  /** `get_available_memory`: the first row's `UI8` `AvailableBytes`, in KiB.
      A failed query makes the source's `unwrap` panic, hence the precondition. */
  function GetAvailableMemory(q: QueryResult): (m: Measurement)
    requires q.QOk?
    ensures m.NaN? || m.Memory?
    ensures var f := FirstRowField(q.rows, "AvailableBytes");
      (m.Memory? <==> f.Some? && f.value.UI8?) &&
      (m.Memory? ==> m.kib * KIB == f.value.u8 as real)
  {
    match FirstRowField(q.rows, "AvailableBytes")
    case Some(UI8(bytes)) => Memory(bytes as real / KIB)
    case _ => NaN
  }

  /** `get_total_memory`: the first row's `UI8` `TotalPhysicalMemory`, in KiB.
      A failed query makes the source's `unwrap` panic, hence the precondition. */
  function GetTotalMemory(q: QueryResult): (m: Measurement)
    requires q.QOk?
    ensures m.NaN? || m.TotalMemory?
    ensures var f := FirstRowField(q.rows, "TotalPhysicalMemory");
      (m.TotalMemory? <==> f.Some? && f.value.UI8?) &&
      (m.TotalMemory? ==> m.kib * KIB == f.value.u8 as real)
  {
    match FirstRowField(q.rows, "TotalPhysicalMemory")
    case Some(UI8(bytes)) => TotalMemory(bytes as real / KIB)
    case _ => NaN
  }

  /** `get_network_connection`: the first row's `Status` string, verbatim.
      A failed query makes the source's `unwrap` panic, hence the precondition. */
  function GetNetworkConnection(q: QueryResult): (m: Measurement)
    requires q.QOk?
    ensures m.NaN? || m.Network?
    ensures m.Network? <==> |q.rows| > 0 && "Status" in q.rows[0] && q.rows[0]["Status"].Str?
    ensures m.Network? ==> m.status == q.rows[0]["Status"].s
  {
    match FirstRowField(q.rows, "Status")
    case Some(Str(status)) => Network(status)
    case _ => NaN
  }

  /** Only the first row is read: rows after it cannot change the result. */
  lemma NetworkReadsOnlyFirstRow(first: Row, rest: seq<Row>)
    ensures GetNetworkConnection(QOk([first] + rest)) == GetNetworkConnection(QOk([first]))
  {
    assert ([first] + rest)[0] == first;
  }

  /** `get_frame_rate`: the first row's `UI4` `CurrentRefreshRate`, unchanged.
      A failed query makes the source's `unwrap` panic, hence the precondition. */
  function GetFrameRate(q: QueryResult): (m: Measurement)
    requires q.QOk?
    ensures m.NaN? || m.FrameRate?
    ensures var f := FirstRowField(q.rows, "CurrentRefreshRate");
      (m.FrameRate? <==> f.Some? && f.value.UI4?) &&
      (m.FrameRate? ==> m.hz == f.value.u4 as real)
  {
    match FirstRowField(q.rows, "CurrentRefreshRate")
    case Some(UI4(rate)) => FrameRate(rate as real)
    case _ => NaN
  }

  /** `KiB_to_GiB`: kibibytes to gibibytes. */
  function KibToGib(kib: real): (gib: real)
    ensures gib * (KIB * KIB) == kib
    ensures kib == KIB * KIB ==> gib == 1.0
  {
    kib / (KIB * KIB)
  }
}
