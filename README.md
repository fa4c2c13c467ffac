# Daily truck-dispatch model

A Dafny model of the daily optimisation in `app.py`, a Streamlit application that
plans when trucks leave for three distribution centres (CD Lampa, ABCPACK,
Egakat). For one day it builds a mixed-integer linear programme (MILP) with two
integer variables per hour: `x[t]`, the trucks sent in hour `t`, and
`retraso[t]`, the delay units charged for that hour. The constraints are:

- every centre's demand is covered by the pallets of all trucks of the day (28 per truck);
- no truck leaves in a blocked hour;
- at most 2 trucks leave per hour;
- `retraso[t] >= p[t] * x[t]`, where the risk `p[t]` is 1/2 on even hours and 1/5 on odd hours.

The objective charges 70000 per delay unit and 70000 per truck. Once the solver
has run, its values become a truck calendar, with negative values clamped to 0,
and a delay report, which copies the values unchanged.

The model has seven modules, one file each:

- `Outcomes` (`outcomes.dfy`): the `Option` and `Result` types.
- `Decimal` (`decimal.dfy`): `int()` on a field of digits, and `str()` of a number.
- `BlockedHours` (`blocked_hours.dfy`): the parser for the blocked-hours text.
  It has `str.split(',')`, `",".join`, and a round trip from a list of hours to text and back.
- `DailyModel` (`daily_model.dfy`): the constants, the risk table and the constraint set.
  The constraints are a predicate `Feasible` on a candidate assignment. This module also
  holds the objective `Cost`, the least admissible delay and the feasibility theorems.
- `ModelBuilder` (`model_builder.dfy`): the MILP as data.
  - It has named linear constraints and a linear objective.
  - `BuildDaily` appends the constraints in the same four loops as the source.
  - A lemma proves that an assignment satisfies the built model exactly when it is `Feasible`.
- `Schedule` (`schedule.dfy`): `BuildCalendar` fills the calendar array with clamping.
  `DelayReport` is the report without clamping.
- `Optimum` (`optimum.dfy`): the least objective value of the model, proved without any solver.

Assignments are `seq<int>`, so integrality holds by type. Solver output is `seq<real>`.
The risk constants are exact rationals.

### Behaviour of `app.py` worth knowing

- **Blocked-hour errors.** An hour outside 0..23 has no key in `x`. The builder adds the demand
  constraints, then walks the blocked list and fails mid-build with a `KeyError` on the first such
  hour (app.py:63-64). The error is reported instead of a schedule (app.py:100-101).
  - `DailyMilp` returns `Err(UnknownHour(t))` for that first hour.
  - `Feasible` holds for no assignment on such a day.
- **Clamping.** Only the truck calendar turns a non-positive value into 0 (app.py:82).
  The delay report copies `varValue` unchanged (app.py:96). See `ReportNotClamped`.
- **Demand.** There is one constraint per centre (app.py:58-60), and each has the same left side,
  28 × the trucks of the whole day. So only the largest demand binds; demands are not added up.
  See `CoversDemandIffMax` and `CentresShareTrucks`.
- **No hour preference.** Under integrality and the cap of 2 trucks per hour, every used hour costs
  exactly one delay unit, whatever its risk. For 2 trucks, an even hour and an odd hour cost the same
  (`TwoTrucksAnyHour`).

## Model

| member | source | states |
|---|---|---|
| `Decimal.Value` | app.py:42 | `int()` of a string of decimal digits: the number it denotes, most significant digit first, leading zeros allowed |
| `Decimal.ValueOfShow` | app.py:42 | `int()` of the decimal rendering of a number gives back that number |
| `BlockedHours.Split` | app.py:42 | `split(',')` gives one more field than there are commas, and no field holds a comma |
| `BlockedHours.JoinSplit` | app.py:42 | joining the fields of `split(',')` with commas gives back the text |
| `BlockedHours.SplitJoin` | app.py:42 | splitting comma-free fields joined by commas gives back the fields |
| `BlockedHours.ParseFields` | app.py:42 | `map(int, fields)` succeeds iff every field is a digit string, gives one value per field in order, and otherwise reports the first bad field |
| `BlockedHours.ParseBlockedHours` | app.py:42 | empty text gives no hours; other text gives one hour per comma-separated field, in input order, or fails iff some field is not a number |
| `BlockedHours.ParseFormat` | app.py:42 | parsing the comma-separated decimal text of any list of hours gives back exactly that list |
| `DailyModel.RiskTable` | app.py:71 | one risk per hour of the day, each a probability in (0, 1]: exactly 1/2 on even hours and 1/5 on odd hours |
| `DailyModel.NonNegative` | app.py:49-50 | the lower bound 0 of every variable |
| `DailyModel.KnownHours` | app.py:49 | every listed blocked hour is a key of `x`, an hour in 0..23 |
| `DailyModel.CoversDemand` | app.py:58-60 | for every centre, 28 × the trucks of the whole day ≥ that centre's pallets |
| `DailyModel.RespectsBlocked` | app.py:63-64 | x[t] = 0 for every listed hour t |
| `DailyModel.WithinCapacity` | app.py:67-68 | x[t] ≤ 2 in every hour |
| `DailyModel.DelayBounded` | app.py:71-73 | retraso[t] ≥ p[t] · x[t] in every hour, with p the risk table |
| `DailyModel.Feasible` | app.py:49-73 | the conjunction of all of these: listed hours known, 24 hours of integer variables, the bounds, and the four constraint families |
| `DailyModel.Cost` | app.py:53-54 | 70000 per delay unit plus 70000 per truck, and never negative when all variables are within their bounds |
| `DailyModel.MaxDemand` | app.py:58-60 | the result is at least every centre's demand and is one of them (0 if there are none) |
| `DailyModel.CoversDemandIffMax` | app.py:58-60 | the per-centre demand family holds iff 28 × total trucks ≥ the largest single demand |
| `DailyModel.CeilIsLeast` | app.py:72-73 | an integer d satisfies d ≥ q iff d ≥ Ceil(q) |
| `DailyModel.DelayBoundedIffLeast` | app.py:71-73 | for integral delays, retraso[t] ≥ p[t]·x[t] holds iff retraso[t] ≥ ceil(p[t]·x[t]) |
| `DailyModel.LeastDelayClosedForm` | app.py:71-73 | the least delay for n ≥ 0 trucks is ceil(n/2) on even hours and ceil(n/5) on odd hours |
| `DailyModel.LeastDelayWithinCapacity` | app.py:67-73 | within the cap of 2, the least delay is 0 for an empty hour and 1 for 1 or 2 trucks |
| `DailyModel.FeasibleBounds` | app.py:49-73 | every feasible assignment has 0 ≤ x[t] ≤ 2 and retraso[t] ≥ 0, a delay of at least 1 in every used hour, and no truck in a blocked hour |
| `DailyModel.LeastDelaysAreBest` | app.py:53-54 | replacing the delays by their least admissible values keeps feasibility and never raises the cost |
| `DailyModel.SumCapped` | app.py:63-68 | trucks in hours from..23 are at most 2 × the unblocked hours among them |
| `DailyModel.FeasibleIff` | app.py:49-73 | a feasible assignment exists iff every listed hour is in 0..23 and the largest demand ≤ 28 × 2 × the unblocked hours |
| `DailyModel.AllBlockedInfeasible` | app.py:58-68 | with all 24 hours blocked, any positive demand has no feasible assignment |
| `DailyModel.ZeroDemandOptimal` | app.py:49-68 | with no demand, sending no truck at all costs 0 and no feasible assignment costs less; it is feasible iff every listed hour is in 0..23 |
| `ModelBuilder.FirstUnknownHour` | app.py:63-64 | gives None iff every listed hour is in 0..23; otherwise gives the first listed hour outside that range |
| `ModelBuilder.DailyMilp` | app.py:48-73 | the build fails iff some listed hour is outside 0..23 |
| `ModelBuilder.BuildDaily` | app.py:48-73 | the four constraint loops build exactly `DailyMilp`, stopping with the first unknown hour's error |
| `ModelBuilder.DemandRowLhs` | app.py:58-60 | every centre's constraint has the same left side, 28 × Σ x[t], and holds iff that is ≥ the centre's pallets |
| `ModelBuilder.ObjectiveIsCost` | app.py:53-54 | the objective evaluates to 70000 × Σ retraso + 70000 × Σ x |
| `ModelBuilder.DemandRowsHold` | app.py:58-60 | the demand rows all hold iff every centre's demand is covered |
| `ModelBuilder.BlockedRowsHold` | app.py:63-64 | the blocked-hour rows all hold iff x[t] = 0 for every listed hour |
| `ModelBuilder.CapacityRowsHold` | app.py:67-68 | the capacity rows all hold iff x[t] ≤ 2 in every hour |
| `ModelBuilder.DelayRowsHold` | app.py:70-73 | the delay rows all hold iff retraso[t] ≥ p[t] · x[t] in every hour |
| `ModelBuilder.BuiltModelMeansFeasible` | app.py:48-73 | an assignment satisfies the built model, with its variable bounds, iff it is `Feasible` |
| `ModelBuilder.BuildFailsOnUnknownHour` | app.py:63-64 | a listed hour outside 0..23 with every earlier one in range is the error the build reports |
| `Schedule.Clamp` | app.py:82 | a positive solved value passes unchanged; any other value becomes 0; the result is never negative |
| `Schedule.TruckGrid` | app.py:81-82 | each calendar cell is the solved value when it is positive and 0 otherwise, so it is never negative |
| `Schedule.BuildCalendar` | app.py:79-82 | the loop writes the calendar array to exactly `TruckGrid` of the solved values |
| `Schedule.HourLabel` | app.py:95 | the label is the hour in decimal followed by ":00", and the hour reads back from it |
| `Schedule.DelayReport` | app.py:95-96 | one row per hour in order 0..23, each holding that hour's label and the solved delay value unchanged |
| `Schedule.TruckGridIdempotent` | app.py:82 | clamping twice is the same as clamping once |
| `Schedule.TruckGridOfFeasible` | app.py:81-82 | for a feasible assignment the calendar shows exactly x, within the cap, with 0 in blocked hours |
| `Schedule.ReportHoursDistinct` | app.py:95-96 | the report's hour labels "h:00" are pairwise distinct |
| `Schedule.ReportNotClamped` | app.py:82-96 | for every hour whose solved value is negative, the calendar shows 0 but the report keeps the value |
| `Schedule.CostFromOutputs` | app.py:53-96 | for a feasible assignment, the objective can be recomputed from the calendar column and the report's delay column, and every used hour reports at least one delay unit |
| `Optimum.PlaceFits` | app.py:63-68 | k trucks, with k ≤ 2 × the free hours, placed greedily: each hour within 0..2, none in a blocked hour, total k, ceil(k/2) hours used |
| `Optimum.OneDelayPerUsedHour` | app.py:49-73 | trucks within the cap, absent from blocked hours and covering the largest demand, with one delay unit per used hour, are feasible and cost 70000 × (used hours + trucks) |
| `Optimum.CostLowerBound` | app.py:53-73 | every feasible assignment costs at least 70000·k + 70000·ceil(k/2), where k = ceil(max demand / 28) |
| `Optimum.LeastCostReached` | app.py:53-73 | on every day whose listed hours are in 0..23 and whose demand fits, a greedy feasible assignment costs exactly that least cost |
| `Optimum.FullHourIsOptimal` | app.py:53-73 | for 56 pallets, two trucks in any single hour are feasible and reach the least cost |
| `Optimum.TwoTrucksAnyHour` | app.py:53-73 | for 56 pallets the least cost is 210000, reached in the even hour 0 and in the odd hour 1 alike |
| `Optimum.CentresShareTrucks` | app.py:58-60 | three centres needing 28 pallets each are all served by a single truck, for a cost of 140000 |

## Left out

- The solver call (app.py:76) is an external MILP solver. The model makes no claim about the
  values it returns, its status (optimal, infeasible, not solved) or its time limits.
  `Optimum` states the least cost of the model itself.
- Streamlit widgets (app.py:16-45) are left out. This includes the mode radio, the day selector,
  the demand number inputs and the button.
- The demand dictionary filled from the number inputs (app.py:30-34) is left out, because its
  values come from widgets. The model takes its entries as a list of `CenterDemand`.
- The centre priorities (app.py:8) are never used by the model, so they are left out.
- The heatmap, the DataFrame-to-CSV step and the download (app.py:84-98) are presentation and I/O.
  The report's rows, with their "h:00" labels, are modelled. Their CSV text is not.
- The weekly mode (app.py:103-106) is a placeholder with no logic.
- `BlockedHours.ParseBlockedHours`: reads only fields made of ASCII digits. Python's `int()` also
  accepts surrounding whitespace, a sign, underscores between digits and non-ASCII digits.
  - The model reports such a field as `NotAnInteger`.
  - A field like `-1` parses in Python and then fails in the build with the same kind of reported error.
  - The model does not separate the uncaught `ValueError` at app.py:42 from the error the `try`
    block reports (app.py:100-101). Both are an `Err`.
- A blocked hour listed twice gives two constraints with the same name. The library's handling of
  duplicate names is not modelled, and the built model simply lists both rows.
- The risks 0.5 and 0.2 are exact rationals, not binary floating point.
- Solved values (`varValue`) are reals. A missing value (`None`) is not modelled.
