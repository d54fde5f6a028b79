/**
 * The catalog summary (`GET /api/stats`): how many ACTIVE dishes and ACTIVE
 * drinks there are, and their sum.
 */
module CatalogStats {
  import opened Common
  import opened Store

  datatype CatalogCounts = CatalogCounts(dishCount: nat, drinkCount: nat, totalCount: nat)

  predicate ActiveOf(f: Food, kind: Kind) {
    f.kind == kind && f.status == Active
  }

  /** GET: the two counts and their sum. */
  function Counts(foods: seq<Food>): (c: CatalogCounts)
    ensures c.totalCount == c.dishCount + c.drinkCount
    ensures c.dishCount <= |foods| && c.drinkCount <= |foods|
  {
    var dishes := Count(foods, (f: Food) => ActiveOf(f, Dish));
    var drinks := Count(foods, (f: Food) => ActiveOf(f, Drink));
    CatalogCounts(dishes, drinks, dishes + drinks)
  }

  /** The total is the number of ACTIVE rows, whatever their kind. */
  lemma TotalIsActiveCount(foods: seq<Food>)
    ensures Counts(foods).totalCount == Count(foods, (f: Food) => f.status == Active)
  {
    CountUnion(foods, (f: Food) => ActiveOf(f, Dish), (f: Food) => ActiveOf(f, Drink), (f: Food) => f.status == Active);
  }

  /** A PENDING or HIDDEN row is never counted; an ACTIVE one raises its kind's count by one. */
  lemma AddedRowCounts(foods: seq<Food>, f: Food)
    ensures var before, after := Counts(foods), Counts(foods + [f]);
      && (f.status != Active ==> after == before)
      && (f.status == Active && f.kind == Dish ==>
            after == before.(dishCount := before.dishCount + 1, totalCount := before.totalCount + 1))
      && (f.status == Active && f.kind == Drink ==>
            after == before.(drinkCount := before.drinkCount + 1, totalCount := before.totalCount + 1))
  {
    var isDish, isDrink := (g: Food) => ActiveOf(g, Dish), (g: Food) => ActiveOf(g, Drink);
    FilterConcat(foods, [f], isDish);
    FilterConcat(foods, [f], isDrink);
    FilterSingleton(f, isDish);
    FilterSingleton(f, isDrink);
  }
}
