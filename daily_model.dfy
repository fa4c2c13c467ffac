/**
 * The daily dispatch model of app.py: the fixed parameters (app.py:8-13), the
 * hourly delay-risk table (app.py:71), the constraint set read as a predicate
 * on a candidate assignment of trucks x[t] and delay units retraso[t] for the
 * 24 hours (app.py:49-50, 58-73) and the objective (app.py:53-54).
 * Integrality of both variable families is carried by the type: assignments are
 * sequences of int.
 */
module DailyModel {

  const Hours: nat := 24              // horarios = range(24)
  const TruckCapacity: nat := 28      // pallets carried by one truck
  const CostPerTruck: nat := 70000
  const DelayPenalty: nat := 70000    // per delay unit
  const HourlyCapacity: nat := 2      // trucks that may leave in one hour

  /** The distribution centres, in the dictionary's order; their priority numbers are never used. */
  const Centers: seq<string> := ["CD Lampa", "ABCPACK", "Egakat"]

  /** One entry of the demand dictionary: a centre and its pallets for the day. */
  datatype CenterDemand = CenterDemand(center: string, pallets: nat)

  /** prob_retraso: a probability per hour, 1/2 on even hours and 1/5 on odd hours, as exact rationals. */
  function RiskTable(): (table: seq<real>)
    ensures |table| == Hours
    ensures forall t :: 0 <= t < Hours ==> 0.0 < table[t] <= 1.0
    ensures forall t :: 0 <= t < Hours && t % 2 == 0 ==> 2.0 * table[t] == 1.0
    ensures forall t :: 0 <= t < Hours && t % 2 == 1 ==> 5.0 * table[t] == 1.0
  {
    seq(Hours, t => if t % 2 == 0 then 0.5 else 0.2)
  }

  function Sum(v: seq<int>): int {
    if v == [] then 0 else v[0] + Sum(v[1..])
  }

  // ---------------------------------------------------------------------------
  // The constraint families

  /** An hour of the day, i.e. a key of the variable dictionaries x and retraso. */
  predicate InHorizon(t: int) {
    0 <= t < Hours
  }

  /** Every listed blocked hour is a key of x; otherwise x[t] raises and no model is built. */
  predicate KnownHours(blocked: seq<int>) {
    forall i :: 0 <= i < |blocked| ==> InHorizon(blocked[i])
  }

  /** Both decision families have one variable per hour. */
  predicate IsAssignment(x: seq<int>, retraso: seq<int>) {
    |x| == Hours && |retraso| == Hours
  }

  /** Lower bound 0 of LpVariable.dicts (app.py:49-50). */
  predicate NonNegative(v: seq<int>) {
    forall t :: 0 <= t < |v| ==> v[t] >= 0
  }

  /** One constraint per centre: the pallets of all trucks of the day cover that centre's demand. */
  predicate CoversDemand(demands: seq<CenterDemand>, x: seq<int>) {
    forall i :: 0 <= i < |demands| ==> TruckCapacity * Sum(x) >= demands[i].pallets
  }

  /** No truck in a listed hour. */
  predicate RespectsBlocked(blocked: seq<int>, x: seq<int>)
    requires |x| == Hours
  {
    forall t :: 0 <= t < Hours && t in blocked ==> x[t] == 0
  }

  /** At most HourlyCapacity trucks per hour. */
  predicate WithinCapacity(x: seq<int>) {
    forall t :: 0 <= t < |x| ==> x[t] <= HourlyCapacity
  }

  /** retraso[t] >= prob_retraso[t] * x[t]. */
  predicate DelayBounded(x: seq<int>, retraso: seq<int>)
    requires IsAssignment(x, retraso)
  {
    forall t :: 0 <= t < Hours ==> retraso[t] as real >= RiskTable()[t] * x[t] as real
  }

  /**
   * An assignment the solver may return for this day. A day whose blocked list
   * names an hour outside 0..23 has none: the build stops with an error first.
   */
  predicate Feasible(demands: seq<CenterDemand>, blocked: seq<int>, x: seq<int>, retraso: seq<int>) {
    KnownHours(blocked) && IsAssignment(x, retraso) && NonNegative(x) && NonNegative(retraso)
    && CoversDemand(demands, x) && RespectsBlocked(blocked, x)
    && WithinCapacity(x) && DelayBounded(x, retraso)
  }

  /** The objective: penalty per delay unit plus cost per truck; never negative within the variable bounds. */
  function Cost(x: seq<int>, retraso: seq<int>): (c: int)
    ensures NonNegative(x) && NonNegative(retraso) ==> c >= 0
  {
    SumNonNegative(x);
    SumNonNegative(retraso);
    DelayPenalty * Sum(retraso) + CostPerTruck * Sum(x)
  }

  // ---------------------------------------------------------------------------
  // Derived quantities

  /** The largest demand of any centre (0 when there are none). */
  function MaxDemand(demands: seq<CenterDemand>): (m: nat)
    ensures forall i :: 0 <= i < |demands| ==> demands[i].pallets <= m
    ensures m == 0 || exists i :: 0 <= i < |demands| && demands[i].pallets == m
  {
    if demands == [] then 0
    else
      var rest := MaxDemand(demands[1..]);
      if demands[0].pallets >= rest then demands[0].pallets else rest
  }

  /** The number of hours in from..Hours-1 that are not listed as blocked. */
  function FreeFrom(blocked: seq<int>, from: nat): nat
    decreases Hours - from
  {
    if from >= Hours then 0 else (if from in blocked then 0 else 1) + FreeFrom(blocked, from + 1)
  }

  function FreeHours(blocked: seq<int>): nat {
    FreeFrom(blocked, 0)
  }

  /** The least integer not below q. */
  function Ceil(q: real): int {
    -((-q).Floor)
  }

  /** The least integer delay the constraint of hour t admits for n trucks. */
  function LeastDelay(t: nat, n: int): int
    requires t < Hours
  {
    Ceil(RiskTable()[t] * n as real)
  }

  function LeastDelays(x: seq<int>): seq<int>
    requires |x| == Hours
  {
    seq(Hours, t requires 0 <= t < Hours => LeastDelay(t, x[t]))
  }

  /** Every free hour at full capacity, every blocked hour empty. */
  function FullLoad(blocked: seq<int>): seq<int> {
    seq(Hours, t => if t in blocked then 0 else HourlyCapacity)
  }

  // ---------------------------------------------------------------------------
  // Properties

  /** The per-centre family collapses to one check against the largest demand, not the sum of demands. */
  lemma CoversDemandIffMax(demands: seq<CenterDemand>, x: seq<int>)
    requires NonNegative(x)
    ensures CoversDemand(demands, x) <==> TruckCapacity * Sum(x) >= MaxDemand(demands)
  {
    SumNonNegative(x);
    if MaxDemand(demands) > 0 {
      var i :| 0 <= i < |demands| && demands[i].pallets == MaxDemand(demands);
    }
  }

  /** Ceil(q) is the least integer d with d >= q. */
  lemma CeilIsLeast(q: real, d: int)
    ensures d as real >= q <==> d >= Ceil(q)
  {
    assert (-q).Floor as real <= -q < (-q).Floor as real + 1.0;
  }

  /** With retraso integral, the delay constraint of an hour holds exactly from the ceiling of risk x trucks on. */
  lemma DelayBoundedIffLeast(x: seq<int>, retraso: seq<int>)
    requires IsAssignment(x, retraso)
    ensures DelayBounded(x, retraso) <==> forall t :: 0 <= t < Hours ==> retraso[t] >= LeastDelay(t, x[t])
  {
    forall t | 0 <= t < Hours
      ensures retraso[t] as real >= RiskTable()[t] * x[t] as real <==> retraso[t] >= LeastDelay(t, x[t])
    {
      CeilIsLeast(RiskTable()[t] * x[t] as real, retraso[t]);
    }
  }

  /** For any number of trucks n >= 0 the least delay is ceil(n/2) on even hours and ceil(n/5) on odd hours. */
  lemma LeastDelayClosedForm(t: nat, n: nat)
    requires t < Hours
    ensures LeastDelay(t, n) == if t % 2 == 0 then (n + 1) / 2 else (n + 4) / 5
  {
    var q := RiskTable()[t] * n as real;
    var c := if t % 2 == 0 then (n + 1) / 2 else (n + 4) / 5;
    if t % 2 == 0 {
      assert q == n as real / 2.0;
      assert 2 * c >= n && 2 * (c - 1) < n;
    } else {
      assert q == n as real / 5.0;
      assert 5 * c >= n && 5 * (c - 1) < n;
    }
    CeilIsLeast(q, c);
    CeilIsLeast(q, c - 1);
  }

  /** Within the hourly capacity the least delay is 0 for an empty hour and 1 for one or two trucks. */
  lemma LeastDelayWithinCapacity(t: nat, n: int)
    requires t < Hours && 0 <= n <= HourlyCapacity
    ensures LeastDelay(t, n) == if n == 0 then 0 else 1
  {
    LeastDelayClosedForm(t, n);
  }

  /** Every feasible assignment sends 0..2 trucks per hour and at least one delay unit in every used hour. */
  lemma FeasibleBounds(demands: seq<CenterDemand>, blocked: seq<int>, x: seq<int>, retraso: seq<int>)
    requires Feasible(demands, blocked, x, retraso)
    ensures forall t :: 0 <= t < Hours ==> 0 <= x[t] <= HourlyCapacity && retraso[t] >= 0
    ensures forall t :: 0 <= t < Hours && x[t] > 0 ==> retraso[t] >= 1
    ensures forall t :: 0 <= t < Hours && t in blocked ==> x[t] == 0
  {
    DelayBoundedIffLeast(x, retraso);
    forall t | 0 <= t < Hours && x[t] > 0 ensures retraso[t] >= 1 {
      LeastDelayWithinCapacity(t, x[t]);
    }
  }

  /** A sum of non-negative values is non-negative. */
  lemma {:induction false} SumNonNegative(v: seq<int>)
    ensures NonNegative(v) ==> Sum(v) >= 0
  {
    if v != [] {
      SumNonNegative(v[1..]);
    }
  }

  lemma {:induction false} SumZeros(n: nat)
    ensures Sum(seq(n, _ => 0)) == 0
  {
    if n > 0 {
      assert seq(n, _ => 0)[1..] == seq(n - 1, _ => 0);
      SumZeros(n - 1);
    }
  }

  /** Replacing the delays by their least admissible values keeps the assignment feasible and never raises the cost. */
  lemma {:induction false} SumMonotone(u: seq<int>, v: seq<int>)
    requires |u| == |v|
    requires forall t :: 0 <= t < |u| ==> u[t] <= v[t]
    ensures Sum(u) <= Sum(v)
  {
    if u != [] {
      SumMonotone(u[1..], v[1..]);
    }
  }

  lemma LeastDelaysAreBest(demands: seq<CenterDemand>, blocked: seq<int>, x: seq<int>, retraso: seq<int>)
    requires Feasible(demands, blocked, x, retraso)
    ensures Feasible(demands, blocked, x, LeastDelays(x))
    ensures Cost(x, LeastDelays(x)) <= Cost(x, retraso)
  {
    var least := LeastDelays(x);
    DelayBoundedIffLeast(x, retraso);
    DelayBoundedIffLeast(x, least);
    forall t | 0 <= t < Hours ensures least[t] >= 0 {
      LeastDelayClosedForm(t, x[t]);
    }
    SumMonotone(least, retraso);
  }

  // ---------------------------------------------------------------------------
  // Feasibility

  lemma {:induction false} SumCapped(x: seq<int>, blocked: seq<int>, from: nat)
    requires |x| == Hours && from <= Hours
    requires NonNegative(x) && WithinCapacity(x) && RespectsBlocked(blocked, x)
    ensures Sum(x[from..]) <= HourlyCapacity * FreeFrom(blocked, from)
    decreases Hours - from
  {
    if from < Hours {
      assert x[from..][1..] == x[from + 1..];
      SumCapped(x, blocked, from + 1);
    }
  }

  lemma {:induction false} SumFullLoad(blocked: seq<int>, from: nat)
    requires from <= Hours
    ensures Sum(FullLoad(blocked)[from..]) == HourlyCapacity * FreeFrom(blocked, from)
    decreases Hours - from
  {
    if from < Hours {
      assert FullLoad(blocked)[from..][1..] == FullLoad(blocked)[from + 1..];
      SumFullLoad(blocked, from + 1);
    }
  }

  /**
   * A feasible assignment exists exactly when every listed hour is an hour of the
   * day and the largest centre demand fits into the pallets that full trucks in
   * every unblocked hour can carry.
   */
  lemma FeasibleIff(demands: seq<CenterDemand>, blocked: seq<int>)
    ensures (exists x, retraso :: Feasible(demands, blocked, x, retraso))
        <==> KnownHours(blocked) && MaxDemand(demands) <= TruckCapacity * HourlyCapacity * FreeHours(blocked)
  {
    if KnownHours(blocked) && MaxDemand(demands) <= TruckCapacity * HourlyCapacity * FreeHours(blocked) {
      var x := FullLoad(blocked);
      var retraso := LeastDelays(x);
      SumFullLoad(blocked, 0);
      assert x[0..] == x;
      CoversDemandIffMax(demands, x);
      DelayBoundedIffLeast(x, retraso);
      forall t | 0 <= t < Hours ensures retraso[t] >= 0 {
        LeastDelayClosedForm(t, x[t]);
      }
      assert Feasible(demands, blocked, x, retraso);
    }
    if exists x, retraso :: Feasible(demands, blocked, x, retraso) {
      var x, retraso :| Feasible(demands, blocked, x, retraso);
      SumCapped(x, blocked, 0);
      assert x[0..] == x;
      CoversDemandIffMax(demands, x);
    }
  }

  lemma {:induction false} NoFreeHours(blocked: seq<int>, from: nat)
    requires forall t :: 0 <= t < Hours ==> t in blocked
    ensures FreeFrom(blocked, from) == 0
    decreases Hours - from
  {
    if from < Hours {
      NoFreeHours(blocked, from + 1);
    }
  }

  /** With all 24 hours blocked, any positive demand has no feasible assignment. */
  lemma AllBlockedInfeasible(demands: seq<CenterDemand>, blocked: seq<int>)
    requires forall t :: 0 <= t < Hours ==> t in blocked
    requires exists i :: 0 <= i < |demands| && demands[i].pallets > 0
    ensures !exists x, retraso :: Feasible(demands, blocked, x, retraso)
  {
    NoFreeHours(blocked, 0);
    FeasibleIff(demands, blocked);
  }

  /**
   * With no demand, sending no truck at all costs nothing and is therefore optimal;
   * it is feasible exactly when every listed hour is an hour of the day.
   */
  lemma ZeroDemandOptimal(demands: seq<CenterDemand>, blocked: seq<int>)
    requires forall i :: 0 <= i < |demands| ==> demands[i].pallets == 0
    ensures Feasible(demands, blocked, seq(Hours, _ => 0), seq(Hours, _ => 0)) <==> KnownHours(blocked)
    ensures Cost(seq(Hours, _ => 0), seq(Hours, _ => 0)) == 0
    ensures forall x, retraso :: Feasible(demands, blocked, x, retraso) ==> Cost(x, retraso) >= 0
  {
    SumZeros(Hours);
  }
}
