/**
 * The browser's catalog cache (`useFoodsCache`): the whole catalog fetched
 * once and kept for five minutes, filtered, searched and paged locally, and
 * edited in place after the administrator's own changes.
 */
module ClientCatalog {
  import opened Common
  import opened Store
  import opened Text
  import opened Paging

  /** How long a fetched catalog stays fresh, in milliseconds. */
  const CacheDuration: int := 5 * 60 * 1000

  /** Tags as they reach the client: an array, or text (JSON or a comma list). */
  datatype TagField = TagArray(tags: seq<string>) | TagText(text: string)

  /** A catalog row as the client holds it; ids are the store's id strings. */
  datatype CachedFood = CachedFood(
    id: string,
    name: string,
    kind: Kind,
    category: string,
    description: Option<string>,
    tags: TagField,
    status: Status,
    isUserUploaded: bool,
    createdAt: int)

  /**
   * The tag list of a row: an array as it is, '['-prefixed text through the
   * JSON decoder `decodeJson` (left abstract), any other text split at commas
   * with each piece trimmed.
   */
  function TagsOf(t: TagField, decodeJson: string -> seq<string>): (r: seq<string>)
    ensures t.TagArray? ==> r == t.tags
    ensures t.TagText? && StartsWith(t.text, "[") ==> r == decodeJson(t.text)
    ensures t.TagText? && !StartsWith(t.text, "[") ==> |r| == |Split(t.text, ',')| >= 1
  {
    match t
    case TagArray(tags) => tags
    case TagText(text) =>
      if StartsWith(text, "[") then decodeJson(text) else Map(Split(text, ','), Trim)
  }

  /** Comma-list tags are the pieces between the commas, without surrounding white space. */
  lemma CommaTags(text: string, decodeJson: string -> seq<string>)
    requires !StartsWith(text, "[")
    ensures var tags := TagsOf(TagText(text), decodeJson);
      && |tags| == |Split(text, ',')|
      && forall i :: 0 <= i < |tags| ==> tags[i] == Trim(Split(text, ',')[i]) && Trimmed(tags[i])
  {
    var tags := TagsOf(TagText(text), decodeJson);
    forall i | 0 <= i < |tags| ensures Trimmed(tags[i]) {
      TrimSpec(Split(text, ',')[i]);
    }
  }

  /** The search: case-folded substring of the name, category, description or any tag. */
  predicate SearchHit(f: CachedFood, search: string, decodeJson: string -> seq<string>) {
    var q := Lower(search);
    || Includes(Lower(f.name), q)
    || Includes(Lower(f.category), q)
    || (f.description.Some? && f.description.value != "" && Includes(Lower(f.description.value), q))
    || (exists tag :: tag in TagsOf(f.tags, decodeJson) && Includes(Lower(tag), q))
  }

  /** The search ignores the case of its query. */
  lemma SearchIgnoresCase(f: CachedFood, search: string, decodeJson: string -> seq<string>)
    ensures SearchHit(f, Lower(search), decodeJson) == SearchHit(f, search, decodeJson)
  {
    LowerIdempotent(search);
  }

  datatype Filters = Filters(kind: string, status: string, search: string)

  predicate KindPasses(f: CachedFood, kind: string) {
    kind == "ALL" || KindName(f.kind) == kind
  }

  predicate StatusPasses(f: CachedFood, status: string) {
    status == "ALL" || StatusName(f.status) == status
  }

  predicate SearchPasses(f: CachedFood, search: string, decodeJson: string -> seq<string>) {
    search == "" || SearchHit(f, search, decodeJson)
  }

  /** The three filters, applied one after the other as the hook does. */
  function Filtered(all: seq<CachedFood>, filters: Filters, decodeJson: string -> seq<string>): seq<CachedFood> {
    var byKind := Filter(all, (f: CachedFood) => KindPasses(f, filters.kind));
    var byStatus := Filter(byKind, (f: CachedFood) => StatusPasses(f, filters.status));
    Filter(byStatus, (f: CachedFood) => SearchPasses(f, filters.search, decodeJson))
  }

  /** The three filters together are one order-preserving filter by all three conditions. */
  lemma FilteredSpec(all: seq<CachedFood>, filters: Filters, decodeJson: string -> seq<string>)
    ensures var passes := (f: CachedFood) =>
        KindPasses(f, filters.kind) && StatusPasses(f, filters.status) && SearchPasses(f, filters.search, decodeJson);
      && Filtered(all, filters, decodeJson) == Filter(all, passes)
      && forall f :: f in Filtered(all, filters, decodeJson) <==> f in all && passes(f)
  {
    var k := (f: CachedFood) => KindPasses(f, filters.kind);
    var s := (f: CachedFood) => StatusPasses(f, filters.status);
    var q := (f: CachedFood) => SearchPasses(f, filters.search, decodeJson);
    var ks := (f: CachedFood) => k(f) && s(f);
    var passes := (f: CachedFood) =>
        KindPasses(f, filters.kind) && StatusPasses(f, filters.status) && SearchPasses(f, filters.search, decodeJson);
    FilterFilter(all, k, s, ks);
    FilterFilter(all, ks, q, passes);
    FilterMembers(all, passes);
  }

  datatype FilteredPage = FilteredPage(foods: seq<CachedFood>, page: int, limit: int, total: nat, totalPages: Option<int>)

  /** `getFilteredFoods`: filter, then slice `[(page-1)*limit, (page-1)*limit + limit)`. */
  function FilteredFoods(all: seq<CachedFood>, filters: Filters, page: int, limit: int,
                         decodeJson: string -> seq<string>): (r: FilteredPage)
    ensures r.page == page && r.limit == limit
    ensures r.total <= |all| && |r.foods| <= r.total
    ensures forall f :: f in r.foods ==> f in all
  {
    FilteredSpec(all, filters, decodeJson);
    var rows := Filtered(all, filters, decodeJson);
    var start := (page - 1) * limit;
    FilteredPage(Slice(rows, start, start + limit), page, limit, |rows|, PageCount(|rows|, limit))
  }

  /**
   * For `page >= 1` and `limit >= 1`, the page holds the filtered rows from
   * `(page-1)*limit` on, at most `limit` of them, `total` counts every
   * filtered row, and the page count is the least that holds them all.
   */
  lemma FilteredFoodsSpec(all: seq<CachedFood>, filters: Filters, page: int, limit: int,
                          decodeJson: string -> seq<string>)
    requires page >= 1 && limit >= 1
    ensures var r := FilteredFoods(all, filters, page, limit, decodeJson);
      var rows := Filtered(all, filters, decodeJson);
      var start := (page - 1) * limit;
      && r.total == |rows|
      && |r.foods| == Min(limit, Max(|rows| - start, 0))
      && (forall j :: 0 <= j < |r.foods| ==> r.foods[j] == rows[start + j])
      && r.totalPages.Some?
      && r.totalPages.value * limit >= r.total
      && (r.totalPages.value > 0 ==> (r.totalPages.value - 1) * limit < r.total)
  {
    var rows := Filtered(all, filters, decodeJson);
    PageWindow(rows, page, limit);
    PageBounds(page, limit);
    PageCountSpec(|rows|, limit);
  }

  /** `updateFood`: every entry with the same id is replaced. */
  function Replaced(foods: seq<CachedFood>, updated: CachedFood): seq<CachedFood> {
    Map(foods, (f: CachedFood) => if f.id == updated.id then updated else f)
  }

  /**
   * The update keeps the length and the position of every entry, replaces
   * exactly the entries with the id, and changes nothing when no entry has it.
   */
  lemma ReplacedSpec(foods: seq<CachedFood>, updated: CachedFood)
    ensures var r := Replaced(foods, updated);
      && |r| == |foods|
      && (forall i :: 0 <= i < |r| && foods[i].id != updated.id ==> r[i] == foods[i])
      && (forall i :: 0 <= i < |r| && foods[i].id == updated.id ==> r[i] == updated)
      && ((forall i :: 0 <= i < |foods| ==> foods[i].id != updated.id) ==> r == foods)
  {
  }

  /** `removeFood`: every entry with the id goes, the rest stay in order. */
  function Without(foods: seq<CachedFood>, id: string): seq<CachedFood> {
    Filter(foods, (f: CachedFood) => f.id != id)
  }

  /** `removeFoods`: every entry whose id is listed goes, the rest stay in order. */
  function WithoutAny(foods: seq<CachedFood>, ids: seq<string>): seq<CachedFood> {
    Filter(foods, (f: CachedFood) => f.id !in ids)
  }

  /** What the removals keep is exactly the entries with other ids. */
  lemma WithoutSpec(foods: seq<CachedFood>, id: string, ids: seq<string>)
    ensures forall f :: f in Without(foods, id) <==> f in foods && f.id != id
    ensures forall f :: f in WithoutAny(foods, ids) <==> f in foods && f.id !in ids
    ensures WithoutAny(foods, [id]) == Without(foods, id)
  {
    FilterMembers(foods, (f: CachedFood) => f.id != id);
    FilterMembers(foods, (f: CachedFood) => f.id !in ids);
    FilterCongruent(foods, (f: CachedFood) => f.id !in [id], (f: CachedFood) => f.id != id);
  }

  /** Removing a row that was just added with a new id gives the old cache back. */
  lemma AddThenRemove(foods: seq<CachedFood>, f: CachedFood)
    requires forall i :: 0 <= i < |foods| ==> foods[i].id != f.id
    ensures Without([f] + foods, f.id) == foods
  {
    FilterConcat([f], foods, (g: CachedFood) => g.id != f.id);
    FilterSingleton(f, (g: CachedFood) => g.id != f.id);
    FilterAll(foods, (g: CachedFood) => g.id != f.id);
  }

  datatype CacheStats = CacheStats(total: nat, dishes: nat, drinks: nat, active: nat, pending: nat, hidden: nat)

  /** `getStats` */
  function Stats(foods: seq<CachedFood>): (s: CacheStats)
    ensures s.total == |foods|
    ensures s.dishes <= s.total && s.drinks <= s.total
    ensures s.active <= s.total && s.pending <= s.total && s.hidden <= s.total
  {
    CacheStats(
      |foods|,
      Count(foods, (f: CachedFood) => f.kind == Dish),
      Count(foods, (f: CachedFood) => f.kind == Drink),
      Count(foods, (f: CachedFood) => f.status == Active),
      Count(foods, (f: CachedFood) => f.status == Pending),
      Count(foods, (f: CachedFood) => f.status == Hidden))
  }

  /** Every row has one kind and one status, so both breakdowns add up to the total. */
  lemma StatsAddUp(foods: seq<CachedFood>)
    ensures var s := Stats(foods);
      s.dishes + s.drinks == s.total && s.active + s.pending + s.hidden == s.total
  {
    CountSplit(foods, (f: CachedFood) => f.kind == Dish, (f: CachedFood) => f.kind == Drink);
    CountUnion(foods, (f: CachedFood) => f.status == Active, (f: CachedFood) => f.status == Pending,
      (f: CachedFood) => f.status != Hidden);
    CountSplit(foods, (f: CachedFood) => f.status != Hidden, (f: CachedFood) => f.status == Hidden);
  }

  /** The outcome of `fetch('/api/foods?all=true')`: the rows, or a failure (error reply or thrown). */
  datatype FetchOutcome = Fetched(data: seq<CachedFood>) | FetchFailed

  /** The cache and the time of its last successful fetch. */
  class FoodsCache {
    var allFoods: seq<CachedFood>
    var lastFetch: int

    constructor ()
      ensures allFoods == [] && lastFetch == 0
    {
      allFoods, lastFetch := [], 0;
    }

    /** The cache can answer without a fetch. */
    predicate Fresh(force: bool, now: int)
      reads this
    {
      !force && |allFoods| > 0 && now - lastFetch < CacheDuration
    }

    /**
     * `fetchAllFoods`: the cache when fresh (no fetch is made); otherwise the
     * fetched rows, which replace the cache and restart its clock, or `[]`
     * on a failure, which leaves the cache and its clock alone.
     */
    method FetchAll(force: bool, now: int, outcome: FetchOutcome) returns (r: seq<CachedFood>)
      modifies this
      ensures old(Fresh(force, now)) ==> r == allFoods == old(allFoods) && lastFetch == old(lastFetch)
      ensures !old(Fresh(force, now)) && outcome.Fetched? ==>
        r == allFoods == outcome.data && lastFetch == now
      ensures !old(Fresh(force, now)) && outcome.FetchFailed? ==>
        r == [] && allFoods == old(allFoods) && lastFetch == old(lastFetch)
    {
      if Fresh(force, now) {
        return allFoods;
      }
      match outcome {
        case Fetched(data) =>
          allFoods, lastFetch := data, now;
          r := data;
        case FetchFailed =>
          r := [];
      }
    }

    /** `addFood`: the new row goes first. */
    method AddFood(f: CachedFood)
      modifies this`allFoods
      ensures allFoods == [f] + old(allFoods)
    {
      allFoods := [f] + allFoods;
    }

    method UpdateFood(f: CachedFood)
      modifies this`allFoods
      ensures allFoods == Replaced(old(allFoods), f)
    {
      allFoods := Replaced(allFoods, f);
    }

    method RemoveFood(id: string)
      modifies this`allFoods
      ensures allFoods == Without(old(allFoods), id)
    {
      allFoods := Without(allFoods, id);
    }

    method RemoveFoods(ids: seq<string>)
      modifies this`allFoods
      ensures allFoods == WithoutAny(old(allFoods), ids)
    {
      allFoods := WithoutAny(allFoods, ids);
    }
  }
}
