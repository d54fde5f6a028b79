/**
 * The random selector (`GET /api/recommend`): picks a random ACTIVE dish,
 * a random ACTIVE drink, or both, each with its like/dislike tally.
 * `Math.random()` is passed in as two reals in [0, 1), one per pick.
 */
module Recommend {
  import opened Common
  import opened Store

  /** The like and dislike tally shown with a suggestion. */
  datatype RatingStats = RatingStats(likes: nat, dislikes: nat, total: nat)

  datatype Suggestion = Suggestion(food: Food, ratingStats: RatingStats)

  datatype RecommendResult =
    | NoneAvailable(kind: Kind)   // 404: no ACTIVE item of the kind the branch needs
    | Picked(dish: Option<Suggestion>, drink: Option<Suggestion>)

  /** The store query of a branch: ACTIVE items of one kind, in store order. */
  function EligibleOf(foods: seq<Food>, kind: Kind): (r: seq<Food>)
    ensures |r| <= |foods|
  {
    Filter(foods, (f: Food) => f.kind == kind && f.status == Active)
  }

  /** Every eligible item is an ACTIVE catalog item of the kind, and every such item is eligible. */
  lemma EligibleOfSpec(foods: seq<Food>, kind: Kind)
    ensures forall f :: f in EligibleOf(foods, kind) <==> f in foods && f.kind == kind && f.status == Active
  {
    FilterMembers(foods, (f: Food) => f.kind == kind && f.status == Active);
  }

  /** `Math.floor(r * n)` */
  function PickIndex(n: nat, r: real): int {
    (r * n as real).Floor
  }

  /** For a random number in [0, 1) the index is a position of the list. */
  lemma PickIndexInRange(n: nat, r: real)
    requires n > 0 && 0.0 <= r < 1.0
    ensures 0 <= PickIndex(n, r) < n
  {
    assert 0.0 <= r * n as real;
    assert r * n as real < n as real by {
      assert (1.0 - r) * n as real > 0.0;
    }
  }

  /** Likes count ratings of 1, dislikes ratings of -1, and the total is their sum. */
  function RatingStatsOf(ratings: seq<Rating>, foodId: nat): (s: RatingStats)
    ensures s.total == s.likes + s.dislikes
  {
    var likes := Count(ratings, (r: Rating) => r.foodId == foodId && r.rating == 1);
    var dislikes := Count(ratings, (r: Rating) => r.foodId == foodId && r.rating == -1);
    RatingStats(likes, dislikes, likes + dislikes)
  }

  /** Ratings other than 1 and -1 are not counted, so the total is at most the food's number of ratings. */
  lemma RatingTotalBound(ratings: seq<Rating>, foodId: nat)
    ensures RatingStatsOf(ratings, foodId).total <= Count(ratings, (r: Rating) => r.foodId == foodId)
  {
    CountDisjoint(ratings, (r: Rating) => r.foodId == foodId && r.rating == 1,
      (r: Rating) => r.foodId == foodId && r.rating == -1, (r: Rating) => r.foodId == foodId);
  }

  /** The random pick from a non-empty list, with its rating tally. */
  function PickFrom(eligible: seq<Food>, ratings: seq<Rating>, r: real): (s: Suggestion)
    requires |eligible| > 0 && 0.0 <= r < 1.0
    ensures s.food in eligible
  {
    PickIndexInRange(|eligible|, r);
    var f := eligible[PickIndex(|eligible|, r)];
    Suggestion(f, RatingStatsOf(ratings, f.id))
  }

  /**
   * GET: the drink branch for type 'drink' or onlyDrink, the dish branch for
   * type 'food' or no type, the optional extra drink, and the final shaping
   * by type.
   */
  function RecommendPick(foods: seq<Food>, ratings: seq<Rating>, includeDrink: bool, onlyDrink: bool,
                         kindParam: Option<string>, r1: real, r2: real): (r: RecommendResult)
    requires 0.0 <= r1 < 1.0 && 0.0 <= r2 < 1.0
    ensures r.NoneAvailable? ==> |EligibleOf(foods, r.kind)| == 0
    ensures r.Picked? && r.dish.Some? ==> r.dish.value.food in EligibleOf(foods, Dish)
    ensures r.Picked? && r.drink.Some? ==> r.drink.value.food in EligibleOf(foods, Drink)
  {
    var drinks := EligibleOf(foods, Drink);
    var dishes := EligibleOf(foods, Dish);
    if (kindParam == Some("drink") || onlyDrink) && |drinks| == 0 then NoneAvailable(Drink)
    else if !(kindParam == Some("drink") || onlyDrink) && (kindParam == Some("food") || !Truthy(kindParam)) && |dishes| == 0
    then NoneAvailable(Dish)
    else
      var firstDrink: Option<Suggestion> :=
        if kindParam == Some("drink") || onlyDrink then Some(PickFrom(drinks, ratings, r1)) else None;
      var dish: Option<Suggestion> :=
        if !(kindParam == Some("drink") || onlyDrink) && (kindParam == Some("food") || !Truthy(kindParam))
        then Some(PickFrom(dishes, ratings, r1)) else None;
      var drink: Option<Suggestion> :=
        if includeDrink && !onlyDrink && |drinks| > 0 then Some(PickFrom(drinks, ratings, r2)) else firstDrink;
      if kindParam == Some("food") then Picked(dish, None)
      else if kindParam == Some("drink") then Picked(None, drink)
      else Picked(dish, drink)
  }

  /**
   * Type 'drink' or onlyDrink: a 404 without ACTIVE drinks, otherwise a drink
   * from them (dropped again only when the type is also 'food').
   */
  lemma DrinkBranch(foods: seq<Food>, ratings: seq<Rating>, includeDrink: bool, onlyDrink: bool,
                    kindParam: Option<string>, r1: real, r2: real)
    requires 0.0 <= r1 < 1.0 && 0.0 <= r2 < 1.0
    requires kindParam == Some("drink") || onlyDrink
    ensures var res := RecommendPick(foods, ratings, includeDrink, onlyDrink, kindParam, r1, r2);
      && (|EligibleOf(foods, Drink)| == 0 <==> res == NoneAvailable(Drink))
      && (res.Picked? && kindParam != Some("food") ==>
            res.drink.Some? && res.drink.value.food in EligibleOf(foods, Drink))
      && (res.Picked? && onlyDrink && kindParam != Some("food") ==> res.drink == Some(PickFrom(EligibleOf(foods, Drink), ratings, r1)))
  {
  }

  /** Type 'food' or none (without onlyDrink): a 404 without ACTIVE dishes, otherwise a dish from them. */
  lemma DishBranch(foods: seq<Food>, ratings: seq<Rating>, includeDrink: bool, onlyDrink: bool,
                   kindParam: Option<string>, r1: real, r2: real)
    requires 0.0 <= r1 < 1.0 && 0.0 <= r2 < 1.0
    requires !onlyDrink && (kindParam == Some("food") || !Truthy(kindParam))
    ensures var res := RecommendPick(foods, ratings, includeDrink, onlyDrink, kindParam, r1, r2);
      && (|EligibleOf(foods, Dish)| == 0 <==> res == NoneAvailable(Dish))
      && (res.Picked? ==> res.dish == Some(PickFrom(EligibleOf(foods, Dish), ratings, r1)))
  {
  }

  /**
   * With includeDrink and without onlyDrink, a drink is added when there is
   * one; no drinks is not an error, the drink just stays empty. Type 'food'
   * drops the drink all the same.
   */
  lemma ExtraDrink(foods: seq<Food>, ratings: seq<Rating>, kindParam: Option<string>, r1: real, r2: real)
    requires 0.0 <= r1 < 1.0 && 0.0 <= r2 < 1.0
    requires !Truthy(kindParam) && |EligibleOf(foods, Dish)| > 0
    ensures var res := RecommendPick(foods, ratings, true, false, kindParam, r1, r2);
      && res.Picked? && res.dish.Some?
      && (|EligibleOf(foods, Drink)| > 0 ==> res.drink == Some(PickFrom(EligibleOf(foods, Drink), ratings, r2)))
      && (|EligibleOf(foods, Drink)| == 0 ==> res.drink.None?)
    ensures var res := RecommendPick(foods, ratings, true, false, Some("food"), r1, r2);
      res.Picked? && res.drink.None?
  {
  }

  /**
   * Type 'drink' with includeDrink: the drink is picked twice, once by the
   * drink branch and once by the includeDrink block, and the second pick is
   * the one returned.
   */
  lemma DrinkPickedTwice(foods: seq<Food>, ratings: seq<Rating>, r1: real, r2: real)
    requires 0.0 <= r1 < 1.0 && 0.0 <= r2 < 1.0
    requires |EligibleOf(foods, Drink)| > 0
    ensures RecommendPick(foods, ratings, true, false, Some("drink"), r1, r2)
         == Picked(None, Some(PickFrom(EligibleOf(foods, Drink), ratings, r2)))
  {
  }

  /** Type 'drink' never returns a dish; any type other than 'food' and 'drink' picks no dish. */
  lemma TypeShapesResult(foods: seq<Food>, ratings: seq<Rating>, includeDrink: bool, onlyDrink: bool,
                         kindParam: Option<string>, r1: real, r2: real)
    requires 0.0 <= r1 < 1.0 && 0.0 <= r2 < 1.0
    ensures var res := RecommendPick(foods, ratings, includeDrink, onlyDrink, kindParam, r1, r2);
      && (kindParam == Some("drink") && res.Picked? ==> res.dish.None?)
      && (Truthy(kindParam) && kindParam != Some("food") && res.Picked? ==> res.dish.None?)
      && (kindParam == Some("food") && res.Picked? ==> res.drink.None?)
  {
  }

  /** Whatever is suggested is an ACTIVE catalog item of the right kind. */
  lemma SuggestionsAreEligible(foods: seq<Food>, ratings: seq<Rating>, includeDrink: bool, onlyDrink: bool,
                               kindParam: Option<string>, r1: real, r2: real)
    requires 0.0 <= r1 < 1.0 && 0.0 <= r2 < 1.0
    ensures var res := RecommendPick(foods, ratings, includeDrink, onlyDrink, kindParam, r1, r2);
      && (res.Picked? && res.dish.Some? ==>
            res.dish.value.food in foods && res.dish.value.food.kind == Dish && res.dish.value.food.status == Active)
      && (res.Picked? && res.drink.Some? ==>
            res.drink.value.food in foods && res.drink.value.food.kind == Drink && res.drink.value.food.status == Active)
  {
    EligibleOfSpec(foods, Dish);
    EligibleOfSpec(foods, Drink);
  }
}
