/**
 * The catalog endpoint (`/api/foods`). GET with `all=true` returns the whole
 * catalog newest first; otherwise it filters by status (ACTIVE unless given,
 * no filter for 'ALL'), by kind when given and by a search string, then pages
 * the newest-first rows. POST creates an ACTIVE, administrator-added row.
 */
module FoodsRoute {
  import opened Common
  import opened Store
  import opened Text
  import opened Sorting
  import opened Paging

  /** `orderBy: { createdAt: 'desc' }` */
  predicate Newer(a: Food, b: Food) {
    a.createdAt > b.createdAt
  }

  lemma NewerOrder()
    ensures StrictWeakOrder(Newer)
  {
  }

  /** The query string of a GET. */
  datatype FoodsQuery = FoodsQuery(
    all: bool,                    // `all === 'true'`
    kindParam: Option<string>,
    statusParam: Option<string>,
    search: Option<string>,
    page: NumberParam,
    limit: NumberParam)

  /** The where-clause: each part is `None` when it does not filter. */
  datatype Where = Where(status: Option<Status>, kind: Option<Kind>, search: Option<string>)

  /**
   * Builds the where-clause. The status defaults to ACTIVE and 'ALL' drops
   * it; the kind and the search apply only when given. A status or kind that
   * is not one of the store's values makes the store refuse the query (`None`).
   */
  function WhereOf(kindParam: Option<string>, statusParam: Option<string>, search: Option<string>): (w: Option<Where>)
    ensures w.Some? <==>
      && (!Truthy(statusParam) || statusParam.value == "ALL" || ParseStatus(statusParam.value).Some?)
      && (!Truthy(kindParam) || ParseKind(kindParam.value).Some?)
  {
    var status := if Truthy(statusParam) then statusParam.value else "ACTIVE";
    if status != "ALL" && ParseStatus(status).None? then None
    else if Truthy(kindParam) && ParseKind(kindParam.value).None? then None
    else
      Some(Where(
        if status == "ALL" then None else ParseStatus(status),
        if Truthy(kindParam) then ParseKind(kindParam.value) else None,
        if Truthy(search) then search else None))
  }

  /** The search looks in the name, the category and the description, never in the tags. */
  predicate SearchHit(f: Food, s: string) {
    Includes(f.name, s) || Includes(f.category, s) || (f.description.Some? && Includes(f.description.value, s))
  }

  predicate Matches(f: Food, w: Where) {
    && (w.status.Some? ==> f.status == w.status.value)
    && (w.kind.Some? ==> f.kind == w.kind.value)
    && (w.search.Some? ==> SearchHit(f, w.search.value))
  }

  datatype FoodsReply =
    | AllFoods(foods: seq<Food>)
    | Page(foods: seq<Food>, page: int, limit: int, total: nat, totalPages: Option<int>)
    | QueryFailed   // 500: the store refused the query

  /** The number a parameter stands for, with its default when absent. */
  function NumberOr(p: NumberParam, default: int): int
    requires !p.NaN?
  {
    if p.Parsed? then p.n else default
  }

  /** The filtered rows, newest first, before paging. */
  function Matching(foods: seq<Food>, w: Where): seq<Food> {
    Filter(Sort(foods, Newer), (f: Food) => Matches(f, w))
  }

  /** Page `page` of `rows`; a negative `skip` is refused by the store. */
  function PageOfRows(rows: seq<Food>, page: int, limit: int): (r: FoodsReply)
    ensures r.Page? || r.QueryFailed?
    ensures r.Page? ==> r.page == page && r.limit == limit && r.total == |rows|
    ensures r.Page? ==> forall f :: f in r.foods ==> f in rows
  {
    var window := SkipTake(rows, (page - 1) * limit, limit);
    if window.None? then QueryFailed
    else Page(window.value, page, limit, |rows|, PageCount(|rows|, limit))
  }

  /** GET */
  function ListFoods(foods: seq<Food>, q: FoodsQuery): (r: FoodsReply)
    ensures q.all <==> r.AllFoods?
  {
    if q.all then AllFoods(Sort(foods, Newer))
    else if q.page.NaN? || q.limit.NaN? then QueryFailed
    else
      var w := WhereOf(q.kindParam, q.statusParam, q.search);
      if w.None? then QueryFailed
      else PageOfRows(Matching(foods, w.value), NumberOr(q.page, 1), NumberOr(q.limit, 50))
  }

  /** `all=true`: every row whatever its status, newest first, ties in insertion order. */
  lemma AllFoodsNewestFirst(foods: seq<Food>, q: FoodsQuery)
    requires q.all
    ensures var r := ListFoods(foods, q);
      && multiset(r.foods) == multiset(foods)
      && Sorted(r.foods, Newer)
      && SameTieOrder(r.foods, foods, Newer)
  {
    NewerOrder();
    SortSorted(foods, Newer);
    SortSameTieOrder(foods, Newer);
  }

  /** Without a status parameter only ACTIVE rows are listed; 'ALL' lists every status. */
  lemma StatusDefault(kindParam: Option<string>, search: Option<string>)
    ensures var w := WhereOf(kindParam, None, search);
      w.Some? ==> w.value.status == Some(Active)
    ensures var w := WhereOf(kindParam, Some("ALL"), search);
      w.Some? ==> w.value.status.None?
  {
  }

  /** Tags never take part in the search. */
  lemma SearchIgnoresTags(f: Food, w: Where, tags: seq<string>)
    ensures Matches(f.(tags := tags), w) == Matches(f, w)
  {
  }

  /**
   * A page holds only catalog rows that match the where-clause, and `total`
   * counts every matching row of the catalog.
   */
  lemma PageRowsMatch(foods: seq<Food>, w: Where, page: int, limit: int)
    requires PageOfRows(Matching(foods, w), page, limit).Page?
    ensures var r := PageOfRows(Matching(foods, w), page, limit);
      && r.total == Count(foods, (f: Food) => Matches(f, w))
      && forall f :: f in r.foods ==> f in foods && Matches(f, w)
  {
    var p := (f: Food) => Matches(f, w);
    var r := PageOfRows(Matching(foods, w), page, limit);
    SortCount(foods, Newer, p);
    FilterMembers(Sort(foods, Newer), p);
    forall f | f in r.foods ensures f in foods {
      assert f in multiset(Sort(foods, Newer));
    }
  }

  /**
   * With `page >= 1` and `limit >= 1`, page `page` of `rows` holds the rows
   * from `(page-1)*limit` on, at most `limit` of them, and the page count is
   * the least number of such pages holding every row.
   */
  lemma PageOfRowsSpec(rows: seq<Food>, page: int, limit: int)
    requires page >= 1 && limit >= 1
    ensures var r := PageOfRows(rows, page, limit);
      var start := (page - 1) * limit;
      && r.Page?
      && |r.foods| == Min(limit, Max(|rows| - start, 0))
      && (forall j :: 0 <= j < |r.foods| ==> r.foods[j] == rows[start + j])
      && r.totalPages.Some?
      && r.totalPages.value * limit >= r.total
      && (r.totalPages.value > 0 ==> (r.totalPages.value - 1) * limit < r.total)
  {
    PageWindow(rows, page, limit);
    PageCountSpec(|rows|, limit);
  }

  /**
   * Page `page` of the rows matching `w`, for page and limit of at least 1:
   * the matching catalog rows, newest first, from `(page-1)*limit` on, at
   * most `limit` of them, with `total` and `totalPages` as the client reads
   * them.
   */
  lemma MatchingPage(foods: seq<Food>, w: Where, page: int, limit: int)
    requires page >= 1 && limit >= 1
    ensures var rows := Matching(foods, w);
      var r, skip := PageOfRows(rows, page, limit), (page - 1) * limit;
      && r.Page?
      && r.page == page && r.limit == limit
      && r.total == |rows| == Count(foods, (f: Food) => Matches(f, w))
      && |r.foods| == Min(limit, Max(r.total - skip, 0))
      && (forall j :: 0 <= j < |r.foods| ==> r.foods[j] == rows[skip + j])
      && (forall f :: f in r.foods ==> f in foods && Matches(f, w))
      && r.totalPages.Some?
      && r.totalPages.value * limit >= r.total
      && (r.totalPages.value > 0 ==> (r.totalPages.value - 1) * limit < r.total)
  {
    PageOfRowsSpec(Matching(foods, w), page, limit);
    PageRowsMatch(foods, w, page, limit);
  }

  /**
   * GET without `all`, with a valid where-clause and numeric or absent page
   * and limit: the reply is page `page` of the matching rows, with page 1 and
   * limit 50 when absent; the store refuses a negative skip, and for page and
   * limit of at least 1 the page is as `MatchingPage` describes.
   */
  lemma PageSpec(foods: seq<Food>, q: FoodsQuery)
    requires !q.all && !q.page.NaN? && !q.limit.NaN?
    requires WhereOf(q.kindParam, q.statusParam, q.search).Some?
    ensures var w := WhereOf(q.kindParam, q.statusParam, q.search).value;
      var page, limit := NumberOr(q.page, 1), NumberOr(q.limit, 50);
      var r := ListFoods(foods, q);
      && r == PageOfRows(Matching(foods, w), page, limit)
      && (r.QueryFailed? <==> (page - 1) * limit < 0)
  {
  }

  /** The body of a POST. */
  datatype CreateRequest = CreateRequest(
    name: Option<string>,
    kindParam: Option<string>,
    category: Option<string>,
    description: Option<string>,
    tags: Option<seq<string>>)

  datatype CreateReply =
    | MissingFields        // 400: name, type or category missing or empty
    | Created(food: Food)
    | CreateFailed         // 500: the type is not one of the store's kinds

  /** The row a POST inserts: as given, ACTIVE, not user-uploaded, tags defaulting to none. */
  function CatalogFood(id: nat, req: CreateRequest, kind: Kind, now: int): (f: Food)
    requires req.name.Some? && req.category.Some?
    ensures f.id == id && f.kind == kind && f.createdAt == now
    ensures f.name == req.name.value && f.category == req.category.value && f.description == req.description
    ensures f.status == Active && !f.isUserUploaded
    ensures f.tags == if req.tags.Some? then req.tags.value else []
    ensures f.uploadedBy.None? && f.uploadIp.None?
  {
    Food(id, req.name.value, kind, req.category.value, req.description,
      if req.tags.Some? then req.tags.value else [], Active, false, None, None, now)
  }

  /** POST: validation, then one new row with the next id; nothing changes on a refusal. */
  method Create(db: Db, req: CreateRequest, now: int) returns (r: CreateReply)
    requires db.Valid()
    modifies db`foods, db`nextId
    ensures db.Valid()
    ensures r.MissingFields? <==> !Truthy(req.name) || !Truthy(req.kindParam) || !Truthy(req.category)
    ensures r.CreateFailed? <==> !r.MissingFields? && ParseKind(req.kindParam.value).None?
    ensures r.Created? ==>
      && r.food == CatalogFood(old(db.nextId), req, ParseKind(req.kindParam.value).value, now)
      && db.foods == old(db.foods) + [r.food]
      && db.nextId == old(db.nextId) + 1
    ensures !r.Created? ==> db.foods == old(db.foods) && db.nextId == old(db.nextId)
  {
    if !Truthy(req.name) || !Truthy(req.kindParam) || !Truthy(req.category) {
      return MissingFields;
    }
    var kind := ParseKind(req.kindParam.value);
    if kind.None? {
      return CreateFailed;
    }
    var food := CatalogFood(db.nextId, req, kind.value, now);
    NewIdIsFresh(db.foods, food);
    db.foods := db.foods + [food];
    db.nextId := db.nextId + 1;
    r := Created(food);
  }
}
