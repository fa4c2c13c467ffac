/**
 * Turning solved variable values into the two outputs of the daily run: the
 * truck calendar, whose cells are clamped at 0 (app.py:79-82), and the delay
 * report, which copies the delay values as they are (app.py:95-96). Solved
 * values (PuLP's varValue) are reals, since the solver may return numerical noise.
 */
module Schedule {
  import opened DailyModel
  import Decimal

  /** One row of the delay report: the hour label "h:00" and the delay value. */
  datatype ReportRow = ReportRow(hour: string, delay: real)

  /** varValue if varValue > 0 else 0: a positive value passes, anything else becomes 0. */
  function Clamp(v: real): (c: real)
    ensures c >= 0.0
    ensures v > 0.0 ==> c == v
    ensures v <= 0.0 ==> c == 0.0
  {
    if v > 0.0 then v else 0.0
  }

  /** The "Camiones" column the calendar receives, hour by hour. */
  function TruckGrid(solved: seq<real>): (grid: seq<real>)
    ensures |grid| == |solved|
    ensures forall t :: 0 <= t < |grid| ==> grid[t] >= 0.0
    ensures forall t :: 0 <= t < |grid| ==> grid[t] == solved[t] || (solved[t] <= 0.0 && grid[t] == 0.0)
  {
    seq(|solved|, t requires 0 <= t < |solved| => Clamp(solved[t]))
  }

  /** Builds the one-column calendar and writes each hour's cell in turn. */
  method BuildCalendar(solved: seq<real>) returns (calendar: array<real>)
    requires |solved| == Hours
    ensures fresh(calendar)
    ensures calendar[..] == TruckGrid(solved)
  {
    calendar := new real[Hours];
    for t := 0 to Hours
      invariant forall k :: 0 <= k < t ==> calendar[k] == TruckGrid(solved)[k]
    {
      calendar[t] := if solved[t] > 0.0 then solved[t] else 0.0;
    }
  }

  /** f"{h}:00": the hour in decimal followed by ":00", from which the hour reads back. */
  function HourLabel(t: nat): (text: string)
    ensures |text| >= 4 && text[|text| - 3..] == ":00"
    ensures Decimal.IsDigits(text[..|text| - 3]) && Decimal.Value(text[..|text| - 3]) == t
  {
    Decimal.ValueOfShow(t);
    var text := Decimal.Show(t) + ":00";
    assert text[..|text| - 3] == Decimal.Show(t);
    text
  }

  /** The delay report: one row per hour in order 0..23, the value copied without clamping. */
  function DelayReport(solved: seq<real>): (rows: seq<ReportRow>)
    ensures |rows| == |solved|
    ensures forall t :: 0 <= t < |rows| ==> rows[t].hour == HourLabel(t) && rows[t].delay == solved[t]
  {
    seq(|solved|, t requires 0 <= t < |solved| => ReportRow(HourLabel(t), solved[t]))
  }

  /** The "Retrasos" column of the report. */
  function ReportDelays(rows: seq<ReportRow>): (delays: seq<real>)
    ensures |delays| == |rows|
  {
    seq(|rows|, t requires 0 <= t < |rows| => rows[t].delay)
  }

  function AsReals(v: seq<int>): (r: seq<real>)
    ensures |r| == |v|
  {
    seq(|v|, t requires 0 <= t < |v| => v[t] as real)
  }

  function SumReals(v: seq<real>): real {
    if v == [] then 0.0 else v[0] + SumReals(v[1..])
  }

  // ---------------------------------------------------------------------------
  // Properties

  /** Clamping twice is clamping once. */
  lemma TruckGridIdempotent(solved: seq<real>)
    ensures TruckGrid(TruckGrid(solved)) == TruckGrid(solved)
  {
  }

  /** For an assignment within its variable bounds the calendar shows exactly the trucks assigned. */
  lemma TruckGridOfFeasible(demands: seq<CenterDemand>, blocked: seq<int>, x: seq<int>, retraso: seq<int>)
    requires Feasible(demands, blocked, x, retraso)
    ensures TruckGrid(AsReals(x)) == AsReals(x)
    ensures forall t :: 0 <= t < Hours ==> TruckGrid(AsReals(x))[t] <= HourlyCapacity as real
    ensures forall t :: 0 <= t < Hours && t in blocked ==> TruckGrid(AsReals(x))[t] == 0.0
  {
  }

  /** The report labels every hour differently. */
  lemma ReportHoursDistinct(solved: seq<real>, t: nat, u: nat)
    requires t < |solved| && u < |solved| && t != u
    ensures DelayReport(solved)[t].hour != DelayReport(solved)[u].hour
  {
  }

  /** Unlike the calendar, the report passes a negative solver value through. */
  lemma ReportNotClamped(solved: seq<real>, t: nat)
    requires t < |solved| && solved[t] < 0.0
    ensures TruckGrid(solved)[t] == 0.0
    ensures DelayReport(solved)[t].delay == solved[t]
  {
  }

  lemma {:induction false} SumAsReals(v: seq<int>)
    ensures SumReals(AsReals(v)) == Sum(v) as real
  {
    if v != [] {
      assert AsReals(v)[1..] == AsReals(v[1..]);
      SumAsReals(v[1..]);
    }
  }

  /** For a feasible assignment the objective can be recomputed from the two outputs alone. */
  lemma CostFromOutputs(demands: seq<CenterDemand>, blocked: seq<int>, x: seq<int>, retraso: seq<int>)
    requires Feasible(demands, blocked, x, retraso)
    ensures DelayPenalty as real * SumReals(ReportDelays(DelayReport(AsReals(retraso))))
            + CostPerTruck as real * SumReals(TruckGrid(AsReals(x))) == Cost(x, retraso) as real
    ensures forall t :: 0 <= t < Hours && TruckGrid(AsReals(x))[t] > 0.0 ==> DelayReport(AsReals(retraso))[t].delay >= 1.0
  {
    TruckGridOfFeasible(demands, blocked, x, retraso);
    assert ReportDelays(DelayReport(AsReals(retraso))) == AsReals(retraso);
    SumAsReals(x);
    SumAsReals(retraso);
    FeasibleBounds(demands, blocked, x, retraso);
  }
}
