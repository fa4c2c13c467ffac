/**
 * The least objective value of the daily model. With at most two trucks per hour
 * and integral delays, any used hour costs exactly one delay unit whatever its
 * risk, so the least cost depends only on the least number of trucks
 * k = ceil(max demand / 28): CostPerTruck * k + DelayPenalty * ceil(k / 2).
 */
module Optimum {
  import opened DailyModel

  /** The number of hours in which at least one truck leaves. */
  function Used(x: seq<int>): nat {
    if x == [] then 0 else (if x[0] > 0 then 1 else 0) + Used(x[1..])
  }

  /** The fewest trucks whose pallets cover the largest demand. */
  function MinTrucks(demands: seq<CenterDemand>): nat {
    (MaxDemand(demands) + TruckCapacity - 1) / TruckCapacity
  }

  function LeastCost(demands: seq<CenterDemand>): nat {
    var k := MinTrucks(demands);
    CostPerTruck * k + DelayPenalty * ((k + 1) / 2)
  }

  /** Greedy placement of k trucks into hours from..23: two per free hour until none are left. */
  function Place(blocked: seq<int>, from: nat, k: nat): seq<int>
    decreases Hours - from
  {
    if from >= Hours then []
    else if from in blocked then [0] + Place(blocked, from + 1, k)
    else
      var n := if k < HourlyCapacity then k else HourlyCapacity;
      [n] + Place(blocked, from + 1, k - n)
  }

  /** One delay unit in every used hour. */
  function Indicator(x: seq<int>): seq<int> {
    seq(|x|, t requires 0 <= t < |x| => if x[t] > 0 then 1 else 0)
  }

  lemma {:induction false} DelaysCoverUsedHours(x: seq<int>, retraso: seq<int>)
    requires |x| == |retraso|
    requires forall t :: 0 <= t < |x| ==> retraso[t] >= 0 && (x[t] > 0 ==> retraso[t] >= 1)
    ensures Sum(retraso) >= Used(x)
  {
    if x != [] {
      DelaysCoverUsedHours(x[1..], retraso[1..]);
    }
  }

  lemma {:induction false} TrucksWithinUsedHours(x: seq<int>)
    requires forall t :: 0 <= t < |x| ==> 0 <= x[t] <= HourlyCapacity
    ensures Sum(x) <= HourlyCapacity * Used(x)
  {
    if x != [] {
      TrucksWithinUsedHours(x[1..]);
    }
  }

  lemma {:induction false} SumIndicator(x: seq<int>)
    ensures Sum(Indicator(x)) == Used(x)
  {
    if x != [] {
      assert Indicator(x)[1..] == Indicator(x[1..]);
      SumIndicator(x[1..]);
    }
  }

  lemma {:induction false} PlaceFits(blocked: seq<int>, from: nat, k: nat)
    requires from <= Hours
    requires k <= HourlyCapacity * FreeFrom(blocked, from)
    ensures |Place(blocked, from, k)| == Hours - from
    ensures Sum(Place(blocked, from, k)) == k
    ensures Used(Place(blocked, from, k)) == (k + 1) / 2
    ensures forall i :: 0 <= i < Hours - from ==> 0 <= Place(blocked, from, k)[i] <= HourlyCapacity
    ensures forall i :: 0 <= i < Hours - from && from + i in blocked ==> Place(blocked, from, k)[i] == 0
    decreases Hours - from
  {
    if from < Hours {
      var p := Place(blocked, from, k);
      if from in blocked {
        PlaceFits(blocked, from + 1, k);
      } else {
        var n := if k < HourlyCapacity then k else HourlyCapacity;
        PlaceFits(blocked, from + 1, k - n);
      }
      assert p[1..] == Place(blocked, from + 1, if from in blocked then k else k - p[0]);
      forall i | 1 <= i < Hours - from
        ensures 0 <= p[i] <= HourlyCapacity && (from + i in blocked ==> p[i] == 0)
      {
        assert p[i] == p[1..][i - 1];
      }
    }
  }

  /** Every feasible assignment costs at least LeastCost. */
  lemma CostLowerBound(demands: seq<CenterDemand>, blocked: seq<int>, x: seq<int>, retraso: seq<int>)
    requires Feasible(demands, blocked, x, retraso)
    ensures Cost(x, retraso) >= LeastCost(demands)
  {
    FeasibleBounds(demands, blocked, x, retraso);
    DelaysCoverUsedHours(x, retraso);
    TrucksWithinUsedHours(x);
    CoversDemandIffMax(demands, x);
    var s, k := Sum(x), MinTrucks(demands);
    assert s >= k;
    assert Used(x) >= (s + 1) / 2;
    assert (s + 1) / 2 >= (k + 1) / 2;
  }

  /** When the day is feasible, the greedy placement with one delay unit per used hour reaches LeastCost. */
  lemma LeastCostReached(demands: seq<CenterDemand>, blocked: seq<int>)
    requires KnownHours(blocked)
    requires MaxDemand(demands) <= TruckCapacity * HourlyCapacity * FreeHours(blocked)
    ensures Feasible(demands, blocked, Place(blocked, 0, MinTrucks(demands)), Indicator(Place(blocked, 0, MinTrucks(demands))))
    ensures Cost(Place(blocked, 0, MinTrucks(demands)), Indicator(Place(blocked, 0, MinTrucks(demands)))) == LeastCost(demands)
  {
    var k := MinTrucks(demands);
    MinTrucksFit(MaxDemand(demands), FreeHours(blocked));
    PlaceFits(blocked, 0, k);
    var x := Place(blocked, 0, k);
    assert RespectsBlocked(blocked, x) by {
      forall t | 0 <= t < Hours && t in blocked ensures x[t] == 0 {
        assert 0 + t in blocked;
      }
    }
    assert TruckCapacity * Sum(x) >= MaxDemand(demands) by {
      MinTrucksCover(MaxDemand(demands));
    }
    OneDelayPerUsedHour(demands, blocked, x);
  }

  /** The fewest trucks for m pallets fit into f free hours when m fits into their capacity. */
  lemma MinTrucksFit(m: nat, f: nat)
    requires m <= TruckCapacity * HourlyCapacity * f
    ensures (m + TruckCapacity - 1) / TruckCapacity <= HourlyCapacity * f
  {
  }

  /** The fewest trucks for m pallets carry at least m pallets. */
  lemma MinTrucksCover(m: nat)
    ensures TruckCapacity * ((m + TruckCapacity - 1) / TruckCapacity) >= m
  {
  }

  /**
   * Trucks within the hourly cap, absent from blocked hours and covering the largest
   * demand, with one delay unit in each used hour, form a feasible assignment.
   */
  lemma OneDelayPerUsedHour(demands: seq<CenterDemand>, blocked: seq<int>, x: seq<int>)
    requires KnownHours(blocked) && |x| == Hours
    requires forall t :: 0 <= t < Hours ==> 0 <= x[t] <= HourlyCapacity
    requires RespectsBlocked(blocked, x)
    requires TruckCapacity * Sum(x) >= MaxDemand(demands)
    ensures Feasible(demands, blocked, x, Indicator(x))
    ensures Cost(x, Indicator(x)) == DelayPenalty * Used(x) + CostPerTruck * Sum(x)
  {
    var retraso := Indicator(x);
    SumIndicator(x);
    CoversDemandIffMax(demands, x);
    DelayBoundedIffLeast(x, retraso);
    forall t | 0 <= t < Hours ensures retraso[t] >= LeastDelay(t, x[t]) {
      LeastDelayWithinCapacity(t, x[t]);
    }
  }

  /** k on hour h, 0 elsewhere. */
  function OnlyAt(n: nat, h: int, k: int): seq<int> {
    seq(n, t => if t == h then k else 0)
  }

  lemma {:induction false} SumOnlyAt(n: nat, h: int, k: int)
    requires 0 <= h < n
    ensures Sum(OnlyAt(n, h, k)) == k
  {
    assert OnlyAt(n, h, k)[1..] == OnlyAt(n - 1, h - 1, k);
    if h == 0 {
      assert OnlyAt(n - 1, h - 1, k) == seq(n - 1, _ => 0);
      SumZeros(n - 1);
    } else {
      SumOnlyAt(n - 1, h - 1, k);
    }
  }

  /** For one centre needing 56 pallets and no hour blocked, two trucks in any single hour h reach the least cost. */
  lemma FullHourIsOptimal(h: nat)
    requires h < Hours
    ensures Feasible([CenterDemand("CD Lampa", 56)], [], OnlyAt(Hours, h, 2), OnlyAt(Hours, h, 1))
    ensures Cost(OnlyAt(Hours, h, 2), OnlyAt(Hours, h, 1)) == LeastCost([CenterDemand("CD Lampa", 56)])
  {
    var demands := [CenterDemand("CD Lampa", 56)];
    var x := OnlyAt(Hours, h, 2);
    assert MaxDemand(demands) == 56;
    assert Indicator(x) == OnlyAt(Hours, h, 1);
    SumOnlyAt(Hours, h, 2);
    SumOnlyAt(Hours, h, 1);
    SumIndicator(x);
    OneDelayPerUsedHour(demands, [], x);
  }

  /**
   * One centre needing 56 pallets with no hour blocked: two trucks in the even
   * hour 0 and two trucks in the odd hour 1 both reach the least cost 210000,
   * so the model has no preference for the lower-risk odd hours.
   */
  lemma TwoTrucksAnyHour()
    ensures LeastCost([CenterDemand("CD Lampa", 56)]) == 210000
    ensures Feasible([CenterDemand("CD Lampa", 56)], [], OnlyAt(Hours, 0, 2), OnlyAt(Hours, 0, 1))
    ensures Feasible([CenterDemand("CD Lampa", 56)], [], OnlyAt(Hours, 1, 2), OnlyAt(Hours, 1, 1))
    ensures Cost(OnlyAt(Hours, 0, 2), OnlyAt(Hours, 0, 1)) == 210000
    ensures Cost(OnlyAt(Hours, 1, 2), OnlyAt(Hours, 1, 1)) == 210000
    ensures forall x, retraso :: Feasible([CenterDemand("CD Lampa", 56)], [], x, retraso) ==> Cost(x, retraso) >= 210000
  {
    var demands := [CenterDemand("CD Lampa", 56)];
    assert MaxDemand(demands) == 56;
    FullHourIsOptimal(0);
    FullHourIsOptimal(1);
    forall x, retraso | Feasible(demands, [], x, retraso) ensures Cost(x, retraso) >= 210000 {
      CostLowerBound(demands, [], x, retraso);
    }
  }

  /**
   * The three centres needing 28 pallets each are all covered by a single truck:
   * every centre's constraint counts the same trucks, so the cost is that of one
   * truck and one delay unit, not of three trucks.
   */
  lemma CentresShareTrucks()
    ensures Feasible([CenterDemand(Centers[0], 28), CenterDemand(Centers[1], 28), CenterDemand(Centers[2], 28)],
                     [], OnlyAt(Hours, 1, 1), OnlyAt(Hours, 1, 1))
    ensures Cost(OnlyAt(Hours, 1, 1), OnlyAt(Hours, 1, 1)) == 140000
    ensures LeastCost([CenterDemand(Centers[0], 28), CenterDemand(Centers[1], 28), CenterDemand(Centers[2], 28)]) == 140000
  {
    var demands := [CenterDemand(Centers[0], 28), CenterDemand(Centers[1], 28), CenterDemand(Centers[2], 28)];
    var x := OnlyAt(Hours, 1, 1);
    assert MaxDemand(demands) == 28;
    assert Indicator(x) == x;
    SumOnlyAt(Hours, 1, 1);
    SumIndicator(x);
    OneDelayPerUsedHour(demands, [], x);
  }
}
