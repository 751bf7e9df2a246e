/**
 * The belt distribution chart: one bar per belt, in belt order, counting the
 * athletes who wear it; athletes whose belt is not in the order are not
 * counted.
 */
module BeltDistributionChart {
  import opened Seqs
  import opened MockData

  const BeltOrder := ["Blanco", "Amarillo", "Naranja", "Verde", "Azul", "Púrpura", "Marrón", "Negro"]

  const BeltColors := ["hsl(0 0% 90%)", "hsl(48 96% 58%)", "hsl(25 95% 53%)", "hsl(142 71% 45%)",
                       "hsl(221 83% 53%)", "hsl(262 88% 59%)", "hsl(25 76% 35%)", "hsl(0 0% 10%)"]

  datatype BeltBar = BeltBar(belt: string, count: nat, fill: string)

  function BeltOf(a: Athlete): string {
    a.cinturon
  }

  /** The bars' total. */
  function Total(data: seq<BeltBar>): nat {
    if data == [] then 0 else data[0].count + Total(data[1..])
  }

  /**
   * The `useMemo` body: a counter per belt, all zero, then one pass over the
   * athletes raising the counter of each athlete's belt when it has one.
   */
  method ChartData(athletes: seq<Athlete>) returns (data: seq<BeltBar>)
    ensures |data| == |BeltOrder|
    ensures forall k :: 0 <= k < |data| ==> data[k] == BeltBar(BeltOrder[k], CountKey(athletes, BeltOf, BeltOrder[k]), BeltColors[k])
  {
    var beltCounts: map<string, nat> := map b | b in BeltOrder :: 0;
    var i := 0;
    while i < |athletes|
      invariant 0 <= i <= |athletes|
      invariant beltCounts.Keys == set b | b in BeltOrder
      invariant forall b :: b in beltCounts ==> beltCounts[b] == CountKey(athletes[..i], BeltOf, b)
    {
      var belt := athletes[i].cinturon;
      if belt in beltCounts {
        beltCounts := beltCounts[belt := beltCounts[belt] + 1];
      }
      forall b | b in beltCounts
        ensures beltCounts[b] == CountKey(athletes[..i + 1], BeltOf, b)
      {
        assert athletes[..i + 1] == athletes[..i] + [athletes[i]];
        CountKeySnoc(athletes[..i], athletes[i], BeltOf, b);
      }
      i := i + 1;
    }
    assert athletes[..i] == athletes;
    data := seq(|BeltOrder|, k requires 0 <= k < |BeltOrder| => BeltBar(BeltOrder[k], beltCounts[BeltOrder[k]], BeltColors[k]));
  }

  lemma {:induction false} TotalIsSum(data: seq<BeltBar>, athletes: seq<Athlete>, k: nat)
    requires k <= |data| == |BeltOrder|
    requires forall j :: 0 <= j < |data| ==> data[j].belt == BeltOrder[j] && data[j].count == CountKey(athletes, BeltOf, BeltOrder[j])
    ensures Total(data[k..]) == SumCounts(athletes, BeltOf, BeltOrder[k..])
    decreases |data| - k
  {
    if k < |data| {
      TotalIsSum(data, athletes, k + 1);
      assert data[k..][1..] == data[k + 1..];
      assert BeltOrder[k..][1..] == BeltOrder[k + 1..];
    }
  }

  lemma BeltOrderDistinct()
    ensures DistinctKeys(BeltOrder)
  {
  }

  predicate KnownBelt(a: Athlete) {
    a.cinturon in BeltOrder
  }

  /**
   * The chart shows every athlete whose belt is in the order and no one
   * else: its total is at most the number of athletes, and equal to it when
   * every belt is known.
   */
  lemma ChartTotal(athletes: seq<Athlete>, data: seq<BeltBar>)
    requires |data| == |BeltOrder|
    requires forall k :: 0 <= k < |data| ==> data[k] == BeltBar(BeltOrder[k], CountKey(athletes, BeltOf, BeltOrder[k]), BeltColors[k])
    ensures Total(data) == Count(athletes, KnownBelt)
    ensures Total(data) <= |athletes|
    ensures (forall i :: 0 <= i < |athletes| ==> KnownBelt(athletes[i])) ==> Total(data) == |athletes|
  {
    assert Total(data) == SumCounts(athletes, BeltOf, BeltOrder) by {
      TotalIsSum(data, athletes, 0);
      assert data[0..] == data && BeltOrder[0..] == BeltOrder;
    }
    assert SumCounts(athletes, BeltOf, BeltOrder) == Count(athletes, KnownBelt) by {
      BeltOrderDistinct();
      SumCountsIsCountIn(athletes, BeltOf, BeltOrder, KnownBelt);
    }
    if forall i :: 0 <= i < |athletes| ==> KnownBelt(athletes[i]) {
      CountEvery(athletes, KnownBelt);
    }
  }

  /** An athlete with an unknown belt changes no bar. */
  lemma UnknownBeltIgnored(athletes: seq<Athlete>, a: Athlete, b: string)
    requires a.cinturon !in BeltOrder && b in BeltOrder
    ensures CountKey(athletes + [a], BeltOf, b) == CountKey(athletes, BeltOf, b)
  {
    CountKeySnoc(athletes, a, BeltOf, b);
  }

  /** The mock athletes wear only belts of the order. */
  lemma MockBeltsKnown(year: int, i: int)
    requires 1 <= i
    ensures AthleteAt(year, i).cinturon in BeltOrder
  {
    assert Belts == BeltOrder;
  }
}
