/**
 * The food ranking (`/api/foods/ranking`): fetch up to `limit` ACTIVE foods
 * of the requested kind, score each from its selection counters, order them
 * by acceptances and then by hot score, and number the result from 1.
 *
 * Scores are computed on exact rationals; `Math.round` is `Round` below. The
 * two scores are kept in tenths, as the response shows them to one decimal.
 */
module Ranking {
  import opened Common
  import opened Store
  import opened Sorting

  /** 'dish' and 'drink' restrict the kind; any other value, or none, means every kind. */
  function KindFilter(kindParam: Option<string>): (k: Option<Kind>)
    ensures k == Some(Dish) <==> kindParam == Some("dish")
    ensures k == Some(Drink) <==> kindParam == Some("drink")
  {
    if kindParam == Some("dish") then Some(Dish)
    else if kindParam == Some("drink") then Some(Drink)
    else None
  }

  /** The where-clause: ACTIVE, and of the kind when one is given. */
  predicate Eligible(f: Food, kind: Option<Kind>) {
    f.status == Active && (kind.Some? ==> f.kind == kind.value)
  }

  /** A store's `take: n`: the first `n` rows, or for negative `n` the last `-n` rows. */
  function TakeRows<T>(rows: seq<T>, n: int): (r: seq<T>)
    ensures |r| == Min(if n >= 0 then n else -n, |rows|)
    ensures n >= 0 ==> r == rows[..|r|]
    ensures n < 0 ==> r == rows[|rows| - |r|..]
  {
    if n >= 0 then rows[..Min(n, |rows|)] else rows[|rows| - Min(-n, |rows|)..]
  }

  /** `Math.round`: the nearest integer, halves rounded up. */
  function Round(x: real): int {
    (x + 0.5).Floor
  }

  /** `Round(x)` is within one half of `x`, and halves go up. */
  lemma RoundNearest(x: real)
    ensures Round(x) as real - 0.5 <= x < Round(x) as real + 0.5
  {
  }

  /** Rounding commutes with adding an integer. */
  lemma RoundShift(x: real, k: int)
    ensures Round(x + k as real) == Round(x) + k
  {
    assert (x + k as real + 0.5).Floor == (x + 0.5).Floor + k;
  }

  /** acceptCount / recommendCount * 100, or 0 when nothing was recommended. */
  function AcceptanceRate(accepts: nat, recommends: nat): real {
    if recommends > 0 then accepts as real / recommends as real * 100.0 else 0.0
  }

  /** 2 per acceptance, plus a tenth of the rate, plus a tenth per recommendation. */
  function HotScore(accepts: nat, recommends: nat): real {
    accepts as real * 2.0 + AcceptanceRate(accepts, recommends) * 0.1 + recommends as real * 0.1
  }

  /** One scored row, before ranking. */
  datatype Entry = Entry(
    food: Food,
    acceptCount: nat,
    recommendCount: nat,
    rejectCount: nat,
    rateTenths: int,
    hotTenths: int)

  /** The counters of `f`, zeros when it has none. */
  function StatsOf(f: Food, stats: map<nat, FoodStat>): FoodStat {
    if f.id in stats then stats[f.id] else ZeroFoodStat
  }

  /** The map step: counters (missing ones as zeros), the rejection total and both rounded scores. */
  function Score(f: Food, stats: map<nat, FoodStat>): (e: Entry)
    ensures e.food == f
    ensures e.rejectCount == StatsOf(f, stats).rejectTodayCount + StatsOf(f, stats).rejectForeverCount
  {
    var s := StatsOf(f, stats);
    Entry(f, s.acceptCount, s.recommendCount, s.rejectTodayCount + s.rejectForeverCount,
      Round(AcceptanceRate(s.acceptCount, s.recommendCount) * 10.0),
      Round(HotScore(s.acceptCount, s.recommendCount) * 10.0))
  }

  /**
   * What the scores are: the rate is 0 without recommendations and otherwise
   * the nearest tenth of accepts/recommends*100; the hot score in tenths is
   * 20 per acceptance plus one per recommendation plus the rate rounded to a
   * whole number.
   */
  lemma ScoreSpec(f: Food, stats: map<nat, FoodStat>)
    ensures var e := Score(f, stats);
      && e.acceptCount == StatsOf(f, stats).acceptCount
      && e.recommendCount == StatsOf(f, stats).recommendCount
      && (e.recommendCount == 0 ==> e.rateTenths == 0)
      && (e.recommendCount > 0 ==>
            var exact := 1000.0 * e.acceptCount as real / e.recommendCount as real;
            e.rateTenths as real - 0.5 <= exact < e.rateTenths as real + 0.5)
      && e.hotTenths == 20 * e.acceptCount + e.recommendCount + Round(AcceptanceRate(e.acceptCount, e.recommendCount))
  {
    var s := StatsOf(f, stats);
    var a, r := s.acceptCount, s.recommendCount;
    var rate := AcceptanceRate(a, r);
    RoundNearest(rate * 10.0);
    if r > 0 {
      assert rate * 10.0 == 1000.0 * a as real / r as real;
    }
    assert HotScore(a, r) * 10.0 == rate + (20 * a + r) as real;
    RoundShift(rate, 20 * a + r);
  }

  /** Missing counters score zero. */
  lemma UnscoredFood(f: Food, stats: map<nat, FoodStat>)
    requires f.id !in stats
    ensures var e := Score(f, stats);
      e.acceptCount == 0 && e.recommendCount == 0 && e.rejectCount == 0 && e.rateTenths == 0 && e.hotTenths == 0
  {
    ScoreSpec(f, stats);
  }

  /** The comparator: more acceptances first, then the higher rounded hot score. */
  predicate RanksBefore(x: Entry, y: Entry) {
    x.acceptCount > y.acceptCount || (x.acceptCount == y.acceptCount && x.hotTenths > y.hotTenths)
  }

  /** The comparator is a strict weak order, so the stable sort is well defined. */
  lemma RanksBeforeOrder()
    ensures StrictWeakOrder(RanksBefore)
  {
  }

  datatype RankedEntry = RankedEntry(entry: Entry, rank: nat)

  datatype RankingResult =
    | Ranking(ranking: seq<RankedEntry>, total: nat, typeLabel: string)
    | Failed   // a limit that is not a number makes the store query fail (500)

  /** `index + 1` for every position. */
  function Numbered(entries: seq<Entry>): (r: seq<RankedEntry>)
    ensures |r| == |entries|
    ensures forall i :: 0 <= i < |r| ==> r[i] == RankedEntry(entries[i], i + 1)
  {
    seq(|entries|, i requires 0 <= i < |entries| => RankedEntry(entries[i], i + 1))
  }

  /** The rows the store returns, in its order. */
  function Fetched(foods: seq<Food>, kindParam: Option<string>, n: int): seq<Food> {
    TakeRows(Filter(foods, (f: Food) => Eligible(f, KindFilter(kindParam))), n)
  }

  /** GET: the whole fetch, score, sort and rank pipeline. */
  function RankFoods(foods: seq<Food>, stats: map<nat, FoodStat>, kindParam: Option<string>, limit: NumberParam)
    : (r: RankingResult)
    ensures r.Failed? <==> limit.NaN?
    ensures r.Ranking? ==> r.total == |r.ranking|
    ensures r.Ranking? ==> r.typeLabel == if Truthy(kindParam) then kindParam.value else "all"
  {
    if limit.NaN? then Failed
    else
      var n := if limit.Parsed? then limit.n else 10;
      var scored := Map(Fetched(foods, kindParam, n), (f: Food) => Score(f, stats));
      var ranking := Numbered(Sort(scored, RanksBefore));
      Ranking(ranking, |ranking|, if Truthy(kindParam) then kindParam.value else "all")
  }

  /** The entries of a ranking, without their ranks. */
  function Entries(ranking: seq<RankedEntry>): seq<Entry> {
    Map(ranking, (x: RankedEntry) => x.entry)
  }

  /**
   * The ranking is exactly the fetched rows, scored and reordered: the same
   * multiset of entries, at most `limit` of them (10 by default) for a
   * non-negative limit, ordered by the comparator, with ties in store order,
   * and numbered 1..n.
   */
  lemma RankingSpec(foods: seq<Food>, stats: map<nat, FoodStat>, kindParam: Option<string>, limit: NumberParam)
    requires !limit.NaN?
    ensures var r := RankFoods(foods, stats, kindParam, limit);
      var n := if limit.Parsed? then limit.n else 10;
      var scored := Map(Fetched(foods, kindParam, n), (f: Food) => Score(f, stats));
      && r.Ranking?
      && multiset(Entries(r.ranking)) == multiset(scored)
      && (n >= 0 ==> |r.ranking| <= n)
      && Sorted(Entries(r.ranking), RanksBefore)
      && SameTieOrder(Entries(r.ranking), scored, RanksBefore)
      && (forall i :: 0 <= i < |r.ranking| ==> r.ranking[i].rank == i + 1)
  {
    var n := if limit.Parsed? then limit.n else 10;
    var scored := Map(Fetched(foods, kindParam, n), (f: Food) => Score(f, stats));
    var sorted := Sort(scored, RanksBefore);
    var r := RankFoods(foods, stats, kindParam, limit);
    assert Entries(r.ranking) == sorted;
    RanksBeforeOrder();
    SortSorted(scored, RanksBefore);
    SortSameTieOrder(scored, RanksBefore);
  }

  /** The store returns only catalog rows that pass the where-clause. */
  lemma FetchedEligible(foods: seq<Food>, kindParam: Option<string>, n: int)
    ensures forall f :: f in Fetched(foods, kindParam, n) ==> f in foods && Eligible(f, KindFilter(kindParam))
  {
    var p := (f: Food) => Eligible(f, KindFilter(kindParam));
    var eligible := Filter(foods, p);
    FilterMembers(foods, p);
    var fetched := Fetched(foods, kindParam, n);
    forall f | f in fetched ensures f in eligible {
      var j :| 0 <= j < |fetched| && fetched[j] == f;
      if n >= 0 {
        assert fetched == eligible[..|fetched|];
      } else {
        assert fetched == eligible[|eligible| - |fetched|..];
      }
    }
  }

  /** Every scored row carries one of the fetched foods. */
  lemma ScoredFoods(fetched: seq<Food>, scored: seq<Entry>)
    requires |scored| == |fetched| && forall j :: 0 <= j < |scored| ==> scored[j].food == fetched[j]
    ensures forall e :: e in scored ==> e.food in fetched
  {
    forall e | e in scored ensures e.food in fetched {
      var j :| 0 <= j < |scored| && scored[j] == e;
    }
  }

  /** Every ranked food is ACTIVE and of the requested kind. */
  lemma RankedFoodsEligible(foods: seq<Food>, stats: map<nat, FoodStat>, kindParam: Option<string>, limit: NumberParam)
    requires !limit.NaN?
    ensures var r := RankFoods(foods, stats, kindParam, limit);
      forall i :: 0 <= i < |r.ranking| ==>
        && r.ranking[i].entry.food in foods
        && r.ranking[i].entry.food.status == Active
        && (kindParam == Some("dish") ==> r.ranking[i].entry.food.kind == Dish)
        && (kindParam == Some("drink") ==> r.ranking[i].entry.food.kind == Drink)
  {
    var n := if limit.Parsed? then limit.n else 10;
    var fetched := Fetched(foods, kindParam, n);
    var scored := Map(fetched, (f: Food) => Score(f, stats));
    var sorted := Sort(scored, RanksBefore);
    var r := RankFoods(foods, stats, kindParam, limit);
    FetchedEligible(foods, kindParam, n);
    ScoredFoods(fetched, scored);
    SortMembers(scored, RanksBefore);
    assert r.ranking == Numbered(sorted);
    forall i | 0 <= i < |r.ranking|
      ensures r.ranking[i].entry.food in fetched
    {
      assert r.ranking[i].entry == sorted[i];
      assert sorted[i] in sorted;
    }
  }
}
