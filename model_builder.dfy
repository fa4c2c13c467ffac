/**
 * The MILP that app.py:48-73 hands to the solver, as data: a linear objective
 * and a list of named linear constraints over the 24 truck variables
 * ("Camiones_pedidos") and the 24 delay variables ("Retraso"). BuildDaily
 * appends the constraints in the order of the source's for-loops; the lemmas
 * below show that an assignment satisfies the built model exactly when it is
 * Feasible in the sense of DailyModel, and that the objective evaluates to Cost.
 */
module ModelBuilder {
  import opened Outcomes
  import opened DailyModel
  import Decimal

  datatype Sense = AtMost | AtLeast | Exactly

  /** A linear expression: one coefficient per hour for x and one per hour for retraso. */
  datatype LinExpr = LinExpr(trucks: seq<real>, delays: seq<real>)

  /** lhs (sense) rhs, under the name PuLP files it under. */
  datatype Constraint = Constraint(name: string, lhs: LinExpr, sense: Sense, rhs: real)

  /** A minimisation problem (pl.LpMinimize): the objective is minimised subject to the constraints. */
  datatype Milp = Milp(objective: LinExpr, constraints: seq<Constraint>)

  /** x[t] for an hour t that is not a key of x: the KeyError that stops the build. */
  datatype BuildError = UnknownHour(hour: int)

  function Dot(coefficients: seq<real>, values: seq<int>): real {
    if coefficients == [] || values == [] then 0.0
    else coefficients[0] * values[0] as real + Dot(coefficients[1..], values[1..])
  }

  function Eval(e: LinExpr, x: seq<int>, retraso: seq<int>): real {
    Dot(e.trucks, x) + Dot(e.delays, retraso)
  }

  predicate Holds(c: Constraint, x: seq<int>, retraso: seq<int>) {
    match c.sense
    case AtMost => Eval(c.lhs, x, retraso) <= c.rhs
    case AtLeast => Eval(c.lhs, x, retraso) >= c.rhs
    case Exactly => Eval(c.lhs, x, retraso) == c.rhs
  }

  predicate AllHold(cs: seq<Constraint>, x: seq<int>, retraso: seq<int>) {
    forall i :: 0 <= i < |cs| ==> Holds(cs[i], x, retraso)
  }

  /** An integral assignment within the variable bounds (0, None) that meets every constraint. */
  predicate Satisfies(m: Milp, x: seq<int>, retraso: seq<int>) {
    IsAssignment(x, retraso) && NonNegative(x) && NonNegative(retraso) && AllHold(m.constraints, x, retraso)
  }

  function Uniform(k: real): seq<real> {
    seq(Hours, _ => k)
  }

  /** k on hour t, 0 elsewhere. */
  function Single(t: int, k: real): seq<real> {
    seq(Hours, i => if i == t then k else 0.0)
  }

  // ---------------------------------------------------------------------------
  // The pieces of the model, one function per line of the source

  function DailyObjective(): LinExpr {
    LinExpr(Uniform(CostPerTruck as real), Uniform(DelayPenalty as real))
  }

  function DemandRow(d: CenterDemand): Constraint {
    Constraint("Satisfacer_demanda_" + d.center,
               LinExpr(Uniform(TruckCapacity as real), Uniform(0.0)), AtLeast, d.pallets as real)
  }

  function BlockedRow(t: nat): Constraint {
    Constraint("Horario_ocupado_" + Decimal.Show(t), LinExpr(Single(t, 1.0), Uniform(0.0)), Exactly, 0.0)
  }

  function CapacityRow(t: nat): Constraint {
    Constraint("Capacidad_max_por_hora_" + Decimal.Show(t),
               LinExpr(Single(t, 1.0), Uniform(0.0)), AtMost, HourlyCapacity as real)
  }

  /** retraso[t] >= p * x[t], kept by PuLP as retraso[t] - p * x[t] >= 0. */
  function DelayRow(t: nat, p: real): Constraint {
    Constraint("Retraso_por_probabilidad_" + Decimal.Show(t),
               LinExpr(Single(t, -p), Single(t, 1.0)), AtLeast, 0.0)
  }

  function DemandRows(demands: seq<CenterDemand>): seq<Constraint> {
    seq(|demands|, i requires 0 <= i < |demands| => DemandRow(demands[i]))
  }

  function BlockedRows(blocked: seq<int>): seq<Constraint>
    requires forall i :: 0 <= i < |blocked| ==> InHorizon(blocked[i])
  {
    seq(|blocked|, i requires 0 <= i < |blocked| && InHorizon(blocked[i]) => BlockedRow(blocked[i]))
  }

  function CapacityRows(): seq<Constraint> {
    seq(Hours, t requires 0 <= t < Hours => CapacityRow(t))
  }

  function DelayRows(): seq<Constraint> {
    seq(Hours, t requires 0 <= t < Hours => DelayRow(t, RiskTable()[t]))
  }

  /** The first listed hour that is not an hour of the day, if any. */
  function FirstUnknownHour(blocked: seq<int>): (r: Option<int>)
    ensures r.None? <==> forall i :: 0 <= i < |blocked| ==> InHorizon(blocked[i])
    ensures forall i :: (0 <= i < |blocked| && !InHorizon(blocked[i])
                         && forall k :: 0 <= k < i ==> InHorizon(blocked[k])) ==> r == Some(blocked[i])
  {
    if blocked == [] then None
    else if !InHorizon(blocked[0]) then Some(blocked[0])
    else
      var r := FirstUnknownHour(blocked[1..]);
      assert forall i :: 1 <= i < |blocked| ==> blocked[i] == blocked[1..][i - 1];
      r
  }

  /** The model app.py:48-73 builds, or the error its first unknown hour raises. */
  function DailyMilp(demands: seq<CenterDemand>, blocked: seq<int>): (r: Result<Milp, BuildError>)
    ensures r.Err? <==> exists i :: 0 <= i < |blocked| && !InHorizon(blocked[i])
  {
    match FirstUnknownHour(blocked)
    case Some(t) => Err(UnknownHour(t))
    case None => Ok(Milp(DailyObjective(), DemandRows(demands) + BlockedRows(blocked) + CapacityRows() + DelayRows()))
  }

  /** The builder as the source runs it: four loops appending to the model. */
  method BuildDaily(demands: seq<CenterDemand>, blocked: seq<int>) returns (result: Result<Milp, BuildError>)
    ensures result == DailyMilp(demands, blocked)
  {
    var objective := DailyObjective();
    var constraints: seq<Constraint> := [];
    // 1. demand of every centre
    for i := 0 to |demands|
      invariant constraints == DemandRows(demands[..i])
    {
      constraints := constraints + [DemandRow(demands[i])];
    }
    assert demands[..|demands|] == demands;
    // 2. blocked hours; x[t] fails on an hour outside the day
    for i := 0 to |blocked|
      invariant forall k :: 0 <= k < i ==> InHorizon(blocked[k])
      invariant constraints == DemandRows(demands) + BlockedRows(blocked[..i])
    {
      var t := blocked[i];
      if !InHorizon(t) {
        return Err(UnknownHour(t));
      }
      constraints := constraints + [BlockedRow(t)];
    }
    assert blocked[..|blocked|] == blocked;
    // 3. hourly capacity
    var prefix := constraints;
    for t := 0 to Hours
      invariant constraints == prefix + CapacityRows()[..t]
    {
      constraints := constraints + [CapacityRow(t)];
    }
    // 4. delay lower bound from the risk table
    prefix := constraints;
    var probabilities := RiskTable();
    for t := 0 to Hours
      invariant constraints == prefix + DelayRows()[..t]
    {
      constraints := constraints + [DelayRow(t, probabilities[t])];
    }
    assert CapacityRows()[..Hours] == CapacityRows() && DelayRows()[..Hours] == DelayRows();
    return Ok(Milp(objective, constraints));
  }

  // ---------------------------------------------------------------------------
  // What the built model means

  lemma {:induction false} DotUniform(n: nat, k: real, v: seq<int>)
    requires |v| == n
    ensures Dot(seq(n, _ => k), v) == k * Sum(v) as real
  {
    if n > 0 {
      assert seq(n, _ => k)[1..] == seq(n - 1, _ => k);
      DotUniform(n - 1, k, v[1..]);
    }
  }

  lemma {:induction false} DotSingle(n: nat, t: int, k: real, v: seq<int>)
    requires |v| == n && 0 <= t < n
    ensures Dot(seq(n, i => if i == t then k else 0.0), v) == k * v[t] as real
  {
    var c := seq(n, i => if i == t then k else 0.0);
    assert c[1..] == seq(n - 1, i => if i == t - 1 then k else 0.0);
    if t == 0 {
      assert c[1..] == seq(n - 1, _ => 0.0);
      DotUniform(n - 1, 0.0, v[1..]);
    } else {
      DotSingle(n - 1, t - 1, k, v[1..]);
    }
  }

  /** Every centre's constraint has the same left-hand side: TruckCapacity times all trucks of the day. */
  lemma DemandRowLhs(d: CenterDemand, x: seq<int>, retraso: seq<int>)
    requires IsAssignment(x, retraso)
    ensures Eval(DemandRow(d).lhs, x, retraso) == (TruckCapacity * Sum(x)) as real
    ensures Holds(DemandRow(d), x, retraso) <==> TruckCapacity * Sum(x) >= d.pallets
  {
    DotUniform(Hours, TruckCapacity as real, x);
    DotUniform(Hours, 0.0, retraso);
  }

  /** The objective evaluates to Cost: 70000 per delay unit plus 70000 per truck. */
  lemma ObjectiveIsCost(x: seq<int>, retraso: seq<int>)
    requires IsAssignment(x, retraso)
    ensures Eval(DailyObjective(), x, retraso) == Cost(x, retraso) as real
  {
    DotUniform(Hours, CostPerTruck as real, x);
    DotUniform(Hours, DelayPenalty as real, retraso);
  }

  lemma AllHoldConcat(a: seq<Constraint>, b: seq<Constraint>, x: seq<int>, retraso: seq<int>)
    ensures AllHold(a + b, x, retraso) <==> AllHold(a, x, retraso) && AllHold(b, x, retraso)
  {
    if AllHold(a, x, retraso) && AllHold(b, x, retraso) {
      forall i | 0 <= i < |a + b| ensures Holds((a + b)[i], x, retraso) {
        if i >= |a| {
          assert (a + b)[i] == b[i - |a|];
        }
      }
    }
    if AllHold(a + b, x, retraso) {
      forall i | 0 <= i < |a| ensures Holds(a[i], x, retraso) {
        assert (a + b)[i] == a[i];
      }
      forall i | 0 <= i < |b| ensures Holds(b[i], x, retraso) {
        assert (a + b)[|a| + i] == b[i];
      }
    }
  }

  lemma DemandRowsHold(demands: seq<CenterDemand>, x: seq<int>, retraso: seq<int>)
    requires IsAssignment(x, retraso)
    ensures AllHold(DemandRows(demands), x, retraso) <==> CoversDemand(demands, x)
  {
    forall i | 0 <= i < |demands|
      ensures Holds(DemandRows(demands)[i], x, retraso) <==> TruckCapacity * Sum(x) >= demands[i].pallets
    {
      DemandRowLhs(demands[i], x, retraso);
    }
  }

  lemma BlockedRowsHold(blocked: seq<int>, x: seq<int>, retraso: seq<int>)
    requires IsAssignment(x, retraso)
    requires forall i :: 0 <= i < |blocked| ==> InHorizon(blocked[i])
    ensures AllHold(BlockedRows(blocked), x, retraso) <==> RespectsBlocked(blocked, x)
  {
    forall i | 0 <= i < |blocked| ensures Holds(BlockedRow(blocked[i]), x, retraso) <==> x[blocked[i]] == 0 {
      DotSingle(Hours, blocked[i], 1.0, x);
      DotUniform(Hours, 0.0, retraso);
    }
    if AllHold(BlockedRows(blocked), x, retraso) {
      forall t | 0 <= t < Hours && t in blocked ensures x[t] == 0 {
        var i :| 0 <= i < |blocked| && blocked[i] == t;
        assert Holds(BlockedRows(blocked)[i], x, retraso);
      }
    }
  }

  lemma CapacityRowsHold(x: seq<int>, retraso: seq<int>)
    requires IsAssignment(x, retraso)
    ensures AllHold(CapacityRows(), x, retraso) <==> WithinCapacity(x)
  {
    forall t | 0 <= t < Hours ensures Holds(CapacityRow(t), x, retraso) <==> x[t] <= HourlyCapacity {
      DotSingle(Hours, t, 1.0, x);
      DotUniform(Hours, 0.0, retraso);
    }
    if AllHold(CapacityRows(), x, retraso) {
      forall t | 0 <= t < Hours ensures x[t] <= HourlyCapacity {
        assert Holds(CapacityRows()[t], x, retraso);
      }
    }
  }

  lemma DelayRowsHold(x: seq<int>, retraso: seq<int>)
    requires IsAssignment(x, retraso)
    ensures AllHold(DelayRows(), x, retraso) <==> DelayBounded(x, retraso)
  {
    forall t | 0 <= t < Hours
      ensures Holds(DelayRow(t, RiskTable()[t]), x, retraso) <==> retraso[t] as real >= RiskTable()[t] * x[t] as real
    {
      DotSingle(Hours, t, -RiskTable()[t], x);
      DotSingle(Hours, t, 1.0, retraso);
    }
    if AllHold(DelayRows(), x, retraso) {
      forall t | 0 <= t < Hours ensures retraso[t] as real >= RiskTable()[t] * x[t] as real {
        assert Holds(DelayRows()[t], x, retraso);
      }
    }
  }

  /** An assignment satisfies the built model exactly when it is feasible for the day. */
  lemma BuiltModelMeansFeasible(demands: seq<CenterDemand>, blocked: seq<int>, m: Milp, x: seq<int>, retraso: seq<int>)
    requires DailyMilp(demands, blocked) == Ok(m)
    ensures Satisfies(m, x, retraso) <==> Feasible(demands, blocked, x, retraso)
  {
    if IsAssignment(x, retraso) {
      var a, b, c, d := DemandRows(demands), BlockedRows(blocked), CapacityRows(), DelayRows();
      assert m.constraints == a + b + c + d;
      AllHoldConcat(a + b + c, d, x, retraso);
      AllHoldConcat(a + b, c, x, retraso);
      AllHoldConcat(a, b, x, retraso);
      DemandRowsHold(demands, x, retraso);
      BlockedRowsHold(blocked, x, retraso);
      CapacityRowsHold(x, retraso);
      DelayRowsHold(x, retraso);
    }
  }

  /** The build fails exactly on a listed hour outside 0..23, and names the first such hour. */
  lemma BuildFailsOnUnknownHour(demands: seq<CenterDemand>, blocked: seq<int>, i: nat)
    requires i < |blocked| && !InHorizon(blocked[i])
    requires forall k :: 0 <= k < i ==> InHorizon(blocked[k])
    ensures DailyMilp(demands, blocked) == Err(UnknownHour(blocked[i]))
  {
  }
}
