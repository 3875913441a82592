/** Monthly usage aggregation and billing over the WaterUsage and EnergyUsage
    tables (blueprints/management/management_bp.py).  Everything here is a
    read of a table snapshot; the tables are sequences in query order. */
module Usage {
  import opened Calendar
  import opened Outcomes

  /** A stored WaterUsage or EnergyUsage row; quantity is usage_liters or usage_kwh. */
  datatype Reading = Reading(sensorId: string, location: string, quantity: real, timestamp: nat)

  /** One entry of "usage_records": the reading's date and quantity. */
  datatype DayRecord = DayRecord(date: Date, quantity: real)

  /** The body of the monthly usage reply. */
  datatype MonthUsage = MonthUsage(total: real, records: seq<DayRecord>)

  /** The body of a bill reply. */
  datatype Bill = Bill(totalUsage: real, totalBill: real, rate: real, currency: string)

  const WaterRate: real := 0.5
  const EnergyRate: real := 8.5
  const Currency: string := "INR"

  // ---------------------------------------------------------------------------
  // Filtering and summing

  /** The query filter: readings with lo <= timestamp <= hi, in query order. */
  function Select(rs: seq<Reading>, lo: int, hi: int): (sel: seq<Reading>)
    ensures |sel| <= |rs|
    ensures forall i :: 0 <= i < |sel| ==> lo <= sel[i].timestamp <= hi
  {
    if rs == [] then []
    else
      assert rs == [rs[0]] + rs[1..];
      (if lo <= rs[0].timestamp <= hi then [rs[0]] else []) + Select(rs[1..], lo, hi)
  }

  /** The filter keeps every reading in the window, as often as it occurs, and nothing else. */
  lemma {:induction false} SelectExact(rs: seq<Reading>, lo: int, hi: int)
    ensures forall r :: multiset(Select(rs, lo, hi))[r] == if lo <= r.timestamp <= hi then multiset(rs)[r] else 0
  {
    if rs != [] {
      SelectExact(rs[1..], lo, hi);
      assert rs == [rs[0]] + rs[1..];
    }
  }

  /** Filtering keeps the relative order of the readings: it distributes over concatenation. */
  lemma {:induction false} SelectAppend(a: seq<Reading>, b: seq<Reading>, lo: int, hi: int)
    ensures Select(a + b, lo, hi) == Select(a, lo, hi) + Select(b, lo, hi)
  {
    if a != [] {
      assert (a + b)[1..] == a[1..] + b;
      SelectAppend(a[1..], b, lo, hi);
    } else {
      assert a + b == b;
    }
  }

  /** Every reading records a non-negative quantity. */
  predicate NonNegative(rs: seq<Reading>) {
    forall i :: 0 <= i < |rs| ==> rs[i].quantity >= 0.0
  }

  /** sum(r.quantity for r in rs); a table of non-negative readings sums to a non-negative total. */
  function Sum(rs: seq<Reading>): (total: real)
    ensures NonNegative(rs) ==> total >= 0.0
  {
    if rs == [] then 0.0
    else
      assert NonNegative(rs) ==> NonNegative(rs[1..]);
      rs[0].quantity + Sum(rs[1..])
  }

  lemma {:induction false} SumAppend(a: seq<Reading>, b: seq<Reading>)
    ensures Sum(a + b) == Sum(a) + Sum(b)
  {
    if a != [] {
      assert (a + b)[0] == a[0];
      assert (a + b)[1..] == a[1..] + b;
      SumAppend(a[1..], b);
    } else {
      assert a + b == b;
    }
  }

  /** One record per reading, in order, dated by the reading's naive (UTC) calendar date. */
  function Records(rs: seq<Reading>): (out: seq<DayRecord>)
    ensures |out| == |rs|
  {
    seq(|rs|, i requires 0 <= i < |rs| => DayRecord(DateOf(rs[i].timestamp), rs[i].quantity))
  }

  function RecordTotal(ds: seq<DayRecord>): real {
    if ds == [] then 0.0 else ds[0].quantity + RecordTotal(ds[1..])
  }

  /** The records' quantities add up to the reported total. */
  lemma {:induction false} RecordTotalIsSum(rs: seq<Reading>)
    ensures RecordTotal(Records(rs)) == Sum(rs)
  {
    if rs != [] {
      assert Records(rs)[1..] == Records(rs[1..]);
      RecordTotalIsSum(rs[1..]);
    }
  }

  // ---------------------------------------------------------------------------
  // The IST month window (get_water_usage_data at line 360, get_monthly_energy_usage)

  /** An inclusive range of naive UTC instants. */
  datatype Window = Window(lo: int, hi: int)

  /** datetime(year, month, ...) accepts the year and month. */
  predicate DatetimeMonth(y: int, m: int) {
    1 <= y <= MaxYear && 1 <= m <= 12
  }

  /** The IST month window succeeds: datetime accepts (year, month) and shifting
      0001-01-01 00:00 IST back to UTC does not fall before datetime.min. */
  predicate IstMonthOk(y: int, m: int) {
    DatetimeMonth(y, m) && !(y == 1 && m == 1)
  }

  function LastDay(y: int, m: int): Date
    requires 1 <= m <= 12
  {
    Date(y, m, DaysInMonth(y, m))
  }

  /** [IST first day 00:00:00, IST last day 23:59:59], both shifted to naive UTC. */
  function IstMonthWindow(y: int, m: int): (w: Window)
    requires DatetimeMonth(y, m)
    ensures w.hi - w.lo == DaysInMonth(y, m) * SecondsPerDay - 1
  {
    Window(InstantOf(Date(y, m, 1), 0, 0, 0) - IstOffset,
           InstantOf(LastDay(y, m), 23, 59, 59) - IstOffset)
  }

  /** In UTC the window runs from 18:30:00 on the day before the 1st to
      18:29:59 on the month's last day. */
  lemma IstMonthWindowInUtc(y: int, m: int)
    requires IstMonthOk(y, m)
    ensures Ordinal(Date(y, m, 1)) > 1
    ensures IstMonthWindow(y, m).lo == InstantOf(PreviousDay(Date(y, m, 1)), 18, 30, 0)
    ensures IstMonthWindow(y, m).hi == InstantOf(LastDay(y, m), 18, 29, 59)
  {
    if y > 1 {
      DaysBeforeYearMonotone(2, y);
      assert DaysBeforeYear(2) == 365;
    }
    var first := Date(y, m, 1);
    assert Ordinal(NextDay(PreviousDay(first))) == Ordinal(first);
  }

  /** A month's dates are exactly the valid dates whose day numbers lie between
      those of its first and last day. */
  lemma MonthSpan(y: int, m: int, e: Date)
    requires y >= 1 && 1 <= m <= 12 && ValidDate(e)
    ensures Ordinal(Date(y, m, 1)) <= Ordinal(e) <= Ordinal(LastDay(y, m))
        <==> (e.year == y && e.month == m)
  {
    var lo, hi := Ordinal(Date(y, m, 1)), Ordinal(LastDay(y, m));
    if lo <= Ordinal(e) <= hi {
      var same := Date(y, m, Ordinal(e) - lo + 1);
      assert ValidDate(same) && Ordinal(same) == Ordinal(e);
      OrdinalInjective(same, e);
    }
  }

  /** A reading falls in the window iff its IST calendar date lies in (year, month). */
  lemma IstMonthWindowIsIstMonth(y: int, m: int, t: nat)
    requires DatetimeMonth(y, m)
    ensures var w := IstMonthWindow(y, m);
      (w.lo <= t <= w.hi) <==> (DateOf(t + IstOffset).year == y && DateOf(t + IstOffset).month == m)
  {
    var e := DateOf(t + IstOffset);
    MonthSpan(y, m, e);
  }

  /** The month after (y, m), rolling December over into January of y + 1. */
  function NextMonth(y: int, m: int): (ym: (int, int))
    requires 1 <= m <= 12
    ensures 1 <= ym.1 <= 12
  {
    if m == 12 then (y + 1, 1) else (y, m + 1)
  }

  /** Consecutive IST month windows abut: no instant is in both, none falls between. */
  lemma IstMonthWindowsAbut(y: int, m: int)
    requires DatetimeMonth(y, m) && DatetimeMonth(NextMonth(y, m).0, NextMonth(y, m).1)
    ensures IstMonthWindow(y, m).hi + 1 == IstMonthWindow(NextMonth(y, m).0, NextMonth(y, m).1).lo
  {
    var next := NextDay(LastDay(y, m));
    assert next == Date(NextMonth(y, m).0, NextMonth(y, m).1, 1);
  }

  /** Totals over two abutting windows add up to the total over their union:
      the filter counts no reading twice and loses none at the seam. */
  lemma {:induction false} AbuttingWindowTotals(rs: seq<Reading>, w1: Window, w2: Window)
    requires w1.lo <= w1.hi + 1 && w1.hi + 1 == w2.lo && w2.lo <= w2.hi + 1
    ensures Sum(Select(rs, w1.lo, w1.hi)) + Sum(Select(rs, w2.lo, w2.hi)) == Sum(Select(rs, w1.lo, w2.hi))
  {
    if rs != [] {
      AbuttingWindowTotals(rs[1..], w1, w2);
      var h := rs[0];
      var t := rs[1..];
      assert Select(rs, w1.lo, w1.hi) == (if w1.lo <= h.timestamp <= w1.hi then [h] else []) + Select(t, w1.lo, w1.hi);
      assert Select(rs, w2.lo, w2.hi) == (if w2.lo <= h.timestamp <= w2.hi then [h] else []) + Select(t, w2.lo, w2.hi);
      assert Select(rs, w1.lo, w2.hi) == (if w1.lo <= h.timestamp <= w2.hi then [h] else []) + Select(t, w1.lo, w2.hi);
      SumAppend(if w1.lo <= h.timestamp <= w1.hi then [h] else [], Select(t, w1.lo, w1.hi));
      SumAppend(if w2.lo <= h.timestamp <= w2.hi then [h] else [], Select(t, w2.lo, w2.hi));
      SumAppend(if w1.lo <= h.timestamp <= w2.hi then [h] else [], Select(t, w1.lo, w2.hi));
    }
  }

  /** Two consecutive months' totals add up to the total over both months. */
  lemma ConsecutiveMonthTotals(rs: seq<Reading>, y: int, m: int, y2: int, m2: int)
    requires DatetimeMonth(y, m) && DatetimeMonth(y2, m2) && (y2, m2) == NextMonth(y, m)
    ensures Sum(Select(rs, IstMonthWindow(y, m).lo, IstMonthWindow(y, m).hi))
          + Sum(Select(rs, IstMonthWindow(y2, m2).lo, IstMonthWindow(y2, m2).hi))
         == Sum(Select(rs, IstMonthWindow(y, m).lo, IstMonthWindow(y2, m2).hi))
  {
    IstMonthWindowsAbut(y, m);
    AbuttingWindowTotals(rs, IstMonthWindow(y, m), IstMonthWindow(y2, m2));
  }

  // ---------------------------------------------------------------------------
  // The monthly usage endpoints and the water bill

  /** The readings the monthly usage query returns for (year, month). */
  function MonthReadings(rs: seq<Reading>, y: int, m: int): seq<Reading>
    requires DatetimeMonth(y, m)
  {
    var w := IstMonthWindow(y, m);
    Select(rs, w.lo, w.hi)
  }

  /** get_water_usage_data (the definition at line 360, the one the routes call),
      and the same computation written out in get_monthly_energy_usage. */
  function MonthUsageData(rs: seq<Reading>, y: int, m: int): (r: Result<MonthUsage>)
    ensures r.Success? <==> IstMonthOk(y, m)
    ensures !DatetimeMonth(y, m) ==> r == Failure("ValueError")
    ensures DatetimeMonth(y, m) && !IstMonthOk(y, m) ==> r == Failure("OverflowError")
    ensures r.Success? ==> r.value.total == Sum(MonthReadings(rs, y, m))
    ensures r.Success? ==> r.value.total == RecordTotal(r.value.records)
    ensures r.Success? ==> |r.value.records| == |MonthReadings(rs, y, m)|
    ensures r.Success? ==> forall i :: 0 <= i < |r.value.records| ==>
      && r.value.records[i].date == DateOf(MonthReadings(rs, y, m)[i].timestamp)
      && r.value.records[i].quantity == MonthReadings(rs, y, m)[i].quantity
  {
    if !DatetimeMonth(y, m) then Failure("ValueError")
    else if y == 1 && m == 1 then Failure("OverflowError")
    else
      var sel := MonthReadings(rs, y, m);
      RecordTotalIsSum(sel);
      Success(MonthUsage(Sum(sel), Records(sel)))
  }

  /** get_monthly_water_usage and get_monthly_energy_usage: 200 with the data, 500 when the helper raises. */
  function MonthlyUsage(rs: seq<Reading>, y: int, m: int): (r: Response<MonthUsage>)
    ensures r.Ok? <==> IstMonthOk(y, m)
    ensures r.Ok? ==> r.status == 200 && r.body == MonthUsageData(rs, y, m).value
    ensures r.Err? ==> r.status == 500
  {
    match MonthUsageData(rs, y, m)
    case Success(u) => Ok(200, u)
    case Failure(e) => Err(500, e)
  }

  /** get_water_bill: the monthly usage total at 0.5 INR per liter. */
  function WaterBill(water: seq<Reading>, y: int, m: int): (r: Response<Bill>)
    ensures r.Ok? <==> MonthlyUsage(water, y, m).Ok?
    ensures r.Ok? ==> r.status == 200 && r.body.totalUsage == MonthlyUsage(water, y, m).body.total
    ensures r.Ok? ==> (r.body.totalBill == r.body.totalUsage * 0.5
                       && r.body.rate == 0.5 && r.body.currency == "INR")
    ensures r.Err? ==> r.status == 500
  {
    match MonthUsageData(water, y, m)
    case Success(u) => Ok(200, Bill(u.total, u.total * WaterRate, WaterRate, Currency))
    case Failure(e) => Err(500, e)
  }

  /** With non-negative quantities the monthly total is non-negative. */
  lemma MonthlyUsageNonNegative(rs: seq<Reading>, y: int, m: int)
    requires forall i :: 0 <= i < |rs| ==> rs[i].quantity >= 0.0
    requires IstMonthOk(y, m)
    ensures MonthlyUsage(rs, y, m).body.total >= 0.0
  {
    var sel := MonthReadings(rs, y, m);
    SelectExact(rs, IstMonthWindow(y, m).lo, IstMonthWindow(y, m).hi);
    forall i | 0 <= i < |sel| ensures sel[i].quantity >= 0.0 {
      assert multiset(sel)[sel[i]] > 0;
      var j :| 0 <= j < |rs| && rs[j] == sel[i];
    }
  }

  // ---------------------------------------------------------------------------
  // The energy bill (get_energy_bill), which builds its own window

  /** get_energy_bill as written: the naive window [datetime(year, month, 1),
      datetime(year, month + 1, 1)), with no IST shift and no year rollover. */
  function EnergyBill(energy: seq<Reading>, y: int, m: int): (r: Response<Bill>)
    ensures r.Ok? <==> 1 <= y <= MaxYear && 1 <= m <= 11
    ensures m == 12 ==> r == Err(500, "ValueError")
    ensures r.Ok? ==> (r.status == 200 && r.body.totalBill == r.body.totalUsage * 8.5
                       && r.body.rate == 8.5 && r.body.currency == "INR")
  {
    if !(DatetimeMonth(y, m) && DatetimeMonth(y, m + 1)) then Err(500, "ValueError")
    else
      var total := Sum(Select(energy, InstantOf(Date(y, m, 1), 0, 0, 0),
                                      InstantOf(Date(y, m + 1, 1), 0, 0, 0) - 1));
      Ok(200, Bill(total, total * EnergyRate, EnergyRate, Currency))
  }

  /** For January..November the bill counts the UTC calendar month: its window
      is the usage window moved 5h30 later. */
  lemma EnergyBillWindowIsUtcMonth(energy: seq<Reading>, y: int, m: int)
    requires 1 <= y <= MaxYear && 1 <= m <= 11
    ensures var w := IstMonthWindow(y, m);
      EnergyBill(energy, y, m).body.totalUsage
        == Sum(Select(energy, w.lo + IstOffset, w.hi + IstOffset))
  {
    assert NextDay(LastDay(y, m)) == Date(y, m + 1, 1);
  }

  /** A reading taken at 20:00 UTC on 31 March 2025 is April usage (it is
      1 April in IST) but is billed in March. */
  lemma EnergyBillDisagreesWithUsage()
    ensures var rs := [Reading("E1", "Ward A", 10.0, InstantOf(Date(2025, 3, 31), 20, 0, 0))];
      MonthlyUsage(rs, 2025, 4).body.total == 10.0
      && EnergyBill(rs, 2025, 4).body.totalUsage == 0.0
      && EnergyBill(rs, 2025, 3).body.totalUsage == 10.0
  {
    var rs := [Reading("E1", "Ward A", 10.0, InstantOf(Date(2025, 3, 31), 20, 0, 0))];
    assert rs[1..] == [];
    assert Ordinal(Date(2025, 3, 31)) == 739341;
    assert Ordinal(Date(2025, 4, 1)) == 739342;
    assert Ordinal(Date(2025, 4, 30)) == 739371;
    assert Ordinal(Date(2025, 5, 1)) == 739372;
    assert Ordinal(Date(2025, 3, 1)) == 739311;
  }

  /** The energy bill as evidently intended: the bill of the same month the
      energy usage endpoint reports, for every month, December included. */
  function EnergyBillCorrected(energy: seq<Reading>, y: int, m: int): (r: Response<Bill>)
    ensures r.Ok? <==> MonthlyUsage(energy, y, m).Ok?
    ensures r.Ok? ==> r.status == 200 && r.body.totalUsage == MonthlyUsage(energy, y, m).body.total
    ensures r.Ok? ==> (r.body.totalBill == r.body.totalUsage * 8.5
                       && r.body.rate == 8.5 && r.body.currency == "INR")
  {
    match MonthUsageData(energy, y, m)
    case Success(u) => Ok(200, Bill(u.total, u.total * EnergyRate, EnergyRate, Currency))
    case Failure(e) => Err(500, e)
  }

  /** December bills: the code as written always fails, the corrected bill does not. */
  lemma DecemberEnergyBill(energy: seq<Reading>, y: int)
    requires 1 <= y <= MaxYear
    ensures EnergyBill(energy, y, 12).Err?
    ensures EnergyBillCorrected(energy, y, 12).Ok?
  {
  }

  // ---------------------------------------------------------------------------
  // The first definition of get_water_usage_data (line 53), shadowed at import time

  /** The shadowed helper: the half-open IST window [first 00:00, first + days)
      and records dated in IST.  Naive timestamps are read as UTC (a server
      running on UTC).  Its end, datetime(10000, 1, 1), overflows for December 9999. */
  function ShadowedMonthUsageData(rs: seq<Reading>, y: int, m: int): (r: Result<MonthUsage>)
    ensures r.Success? <==> IstMonthOk(y, m) && !(y == MaxYear && m == 12)
  {
    if !DatetimeMonth(y, m) then Failure("ValueError")
    else if (y == 1 && m == 1) || (y == MaxYear && m == 12) then Failure("OverflowError")
    else
      var lo := InstantOf(Date(y, m, 1), 0, 0, 0) - IstOffset;
      var sel := Select(rs, lo, lo + DaysInMonth(y, m) * SecondsPerDay - 1);
      Success(MonthUsage(Sum(sel),
        seq(|sel|, i requires 0 <= i < |sel| => DayRecord(DateOf(sel[i].timestamp + IstOffset), sel[i].quantity))))
  }

  /** The shadowed helper's window is the IST month window. */
  lemma ShadowedWindow(rs: seq<Reading>, y: int, m: int)
    requires IstMonthOk(y, m) && !(y == MaxYear && m == 12)
    ensures ShadowedMonthUsageData(rs, y, m).value.total == Sum(MonthReadings(rs, y, m))
    ensures |ShadowedMonthUsageData(rs, y, m).value.records| == |MonthReadings(rs, y, m)|
  {
    var lo := InstantOf(Date(y, m, 1), 0, 0, 0) - IstOffset;
    assert IstMonthWindow(y, m) == Window(lo, lo + DaysInMonth(y, m) * SecondsPerDay - 1);
  }

  /** On whole seconds the shadowed helper selects the same readings, so its
      total agrees with the effective one; only the record dates differ (IST
      instead of UTC). */
  lemma ShadowedHelperAgrees(rs: seq<Reading>, y: int, m: int)
    requires IstMonthOk(y, m) && !(y == MaxYear && m == 12)
    ensures ShadowedMonthUsageData(rs, y, m).value.total == MonthUsageData(rs, y, m).value.total
    ensures |ShadowedMonthUsageData(rs, y, m).value.records| == |MonthUsageData(rs, y, m).value.records|
  {
    ShadowedWindow(rs, y, m);
  }
}
