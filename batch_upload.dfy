/**
 * Batch upload of user-contributed foods (`POST /api/foods/batch`): the
 * request is checked as a whole, the uploader gets an anonymous user record,
 * and then every item is validated, checked for a duplicate and inserted as
 * a PENDING food, one after the other.
 */
module BatchUpload {
  import opened Common
  import opened Store
  import opened Text

  /** One uploaded item; every field may be missing. */
  datatype BatchItem = BatchItem(
    name: Option<string>,
    kind: Option<string>,
    category: Option<string>,
    description: Option<string>)

  /** The `foods` field of the body: missing (or falsy), not an array, or an array of items. */
  datatype BatchBody = Missing | NotAnArray | Items(items: seq<BatchItem>)

  /** The largest batch accepted. */
  const MaxBatch := 50

  datatype BatchRejection = NoArray | EmptyArray | TooMany

  /** The whole-request checks, in order; `None` lets the batch through. */
  function Rejection(body: BatchBody): (r: Option<BatchRejection>)
    ensures r.None? <==> body.Items? && 1 <= |body.items| <= MaxBatch
  {
    if !body.Items? then Some(NoArray)
    else if |body.items| == 0 then Some(EmptyArray)
    else if |body.items| > MaxBatch then Some(TooMany)
    else None
  }

  /** Why an item was not inserted. */
  datatype ItemError =
    | MissingField(shown: string)   // the name, or 未知 when the name is missing
    | InvalidType(name: string)

  datatype Tally = Tally(success: nat, duplicates: seq<string>, errors: seq<ItemError>)

  datatype BatchResponse = Rejected(reason: BatchRejection) | Done(tally: Tally)

  // ---------------------------------------------------------------------------
  // The anonymous uploader
  // ---------------------------------------------------------------------------

  /** The nickname of the anonymous user of a device fingerprint. */
  function GuestNickname(fingerprint: string): string {
    "游客_" + fingerprint
  }

  /** The first user with that nickname. */
  function FindUser(users: seq<User>, nickname: string): Option<nat> {
    FindFirst(users, (u: User) => u.nickname == nickname)
  }

  /** The user table, the uploader and the next id after `getOrCreateAnonymousUser`. */
  function AnonymousUser(users: seq<User>, nextId: nat, fingerprint: string): (seq<User>, User, nat) {
    var nick := GuestNickname(fingerprint);
    match FindUser(users, nick)
    case Some(i) => (users, users[i], nextId)
    case None => (users + [User(nextId, nick, "USER")], User(nextId, nick, "USER"), nextId + 1)
  }

  /**
   * Get-or-create: the uploader carries the device's guest nickname, and a
   * second call finds the same user and changes nothing.
   */
  lemma AnonymousUserIdempotent(users: seq<User>, nextId: nat, fingerprint: string)
    ensures var (users1, u1, next1) := AnonymousUser(users, nextId, fingerprint);
      && u1.nickname == GuestNickname(fingerprint)
      && u1 in users1
      && AnonymousUser(users1, next1, fingerprint) == (users1, u1, next1)
  {
    var nick := GuestNickname(fingerprint);
    var (users1, u1, next1) := AnonymousUser(users, nextId, fingerprint);
    if FindUser(users, nick).None? {
      var k := FindUser(users1, nick);
      assert users1[|users|].nickname == nick;
      assert k == Some(|users|);
    }
  }

  /** `getOrCreateAnonymousUser` over the store. */
  method GetOrCreateAnonymousUser(db: Db, fingerprint: string) returns (user: User)
    requires db.Valid()
    modifies db`users, db`nextId
    ensures db.Valid()
    ensures (db.users, user, db.nextId) == AnonymousUser(old(db.users), old(db.nextId), fingerprint)
  {
    var nick := GuestNickname(fingerprint);
    var found := FindUser(db.users, nick);
    if found.Some? {
      user := db.users[found.value];
    } else {
      user := User(db.nextId, nick, "USER");
      db.users := db.users + [user];
      db.nextId := db.nextId + 1;
    }
  }

  // ---------------------------------------------------------------------------
  // Items
  // ---------------------------------------------------------------------------

  /** A food with this exact name and kind is in the catalog (whatever its status). */
  function HasNamed(foods: seq<Food>, name: string, kind: Kind): (b: bool)
    ensures b <==> exists i :: 0 <= i < |foods| && foods[i].name == name && foods[i].kind == kind
  {
    if foods == [] then false
    else if foods[0].name == name && foods[0].kind == kind then true
    else
      var rest := HasNamed(foods[1..], name, kind);
      assert forall i :: 1 <= i < |foods| ==> foods[i] == foods[1..][i - 1];
      rest
  }

  function DefaultCategory(kind: Kind): string {
    if kind == Dish then "家常菜" else "饮品"
  }

  function DefaultDescription(kind: Kind): string {
    if kind == Dish then "用户贡献的菜品" else "用户贡献的饮品"
  }

  /** The row created for a valid, new item. */
  function NewFood(id: nat, name: string, kind: Kind, item: BatchItem, uploader: nat, ip: string, now: int): Food {
    Food(id, name, kind,
      if Truthy(item.category) then item.category.value else DefaultCategory(kind),
      Some(if Truthy(item.description) then item.description.value else DefaultDescription(kind)),
      [], Pending, true, Some(uploader), Some(ip), now)
  }

  /** Where the loop stands: the catalog so far, the next free id and the tally. */
  datatype BatchState = BatchState(foods: seq<Food>, nextId: nat, tally: Tally)

  /** What the loop decides for one item, against the catalog as it stands. */
  datatype Verdict = Reject(error: ItemError) | Duplicate(name: string) | Fresh(name: string, kind: Kind)

  /** Presence of name and type, then the type, then the (trimmed name, type) lookup. */
  function Classify(foods: seq<Food>, item: BatchItem): (v: Verdict)
    ensures v.Reject? <==> !Truthy(item.name) || !Truthy(item.kind) || ParseKind(item.kind.value).None?
    ensures !v.Reject? ==> v.name == Trim(item.name.value)
    ensures v.Fresh? ==> Some(v.kind) == ParseKind(item.kind.value) && !HasNamed(foods, v.name, v.kind)
    ensures v.Duplicate? ==> HasNamed(foods, v.name, ParseKind(item.kind.value).value)
  {
    if !Truthy(item.name) || !Truthy(item.kind) then
      Reject(MissingField(if Truthy(item.name) then item.name.value else "未知"))
    else if ParseKind(item.kind.value).None? then
      Reject(InvalidType(item.name.value))
    else
      var name, kind := Trim(item.name.value), ParseKind(item.kind.value).value;
      if HasNamed(foods, name, kind) then Duplicate(name) else Fresh(name, kind)
  }

  /** Carries out a verdict: record the error or the duplicate, or insert the row and count it. */
  function Apply(st: BatchState, item: BatchItem, v: Verdict, uploader: nat, ip: string, now: int): BatchState {
    var t := st.tally;
    match v
    case Reject(e) => st.(tally := t.(errors := t.errors + [e]))
    case Duplicate(name) => st.(tally := t.(duplicates := t.duplicates + [name]))
    case Fresh(name, kind) =>
      BatchState(st.foods + [NewFood(st.nextId, name, kind, item, uploader, ip, now)], st.nextId + 1,
        t.(success := t.success + 1))
  }

  /** One iteration of the item loop. */
  function Step(st: BatchState, item: BatchItem, uploader: nat, ip: string, now: int): BatchState {
    Apply(st, item, Classify(st.foods, item), uploader, ip, now)
  }

  /**
   * The loop over `items`, in order. Each insert is awaited before the next
   * item is read, so each item is processed at its own clock reading: item
   * `k` at `now + k`.
   */
  function Steps(st: BatchState, items: seq<BatchItem>, uploader: nat, ip: string, now: int): (r: BatchState)
    ensures |st.foods| <= |r.foods| <= |st.foods| + |items|
    ensures r.foods[..|st.foods|] == st.foods
    decreases |items|
  {
    if items == [] then st
    else Step(Steps(st, items[..|items| - 1], uploader, ip, now), items[|items| - 1], uploader, ip, now + |items| - 1)
  }

  const NoTally := Tally(0, [], [])

  /** POST: the request checks, the uploader, then the item loop. */
  method Post(db: Db, body: BatchBody, fingerprint: string, ip: string, now: int) returns (resp: BatchResponse)
    requires db.Valid()
    modifies db`foods, db`users, db`nextId
    ensures db.Valid()
    ensures Rejection(body).Some? ==>
      && resp == Rejected(Rejection(body).value)
      && db.foods == old(db.foods) && db.users == old(db.users) && db.nextId == old(db.nextId)
    ensures Rejection(body).None? ==>
      var (users1, user, next1) := AnonymousUser(old(db.users), old(db.nextId), fingerprint);
      var st := Steps(BatchState(old(db.foods), next1, NoTally), body.items, user.id, ip, now);
      && db.users == users1
      && db.foods == st.foods && db.nextId == st.nextId
      && resp == Done(st.tally)
  {
    var rejection := Rejection(body);
    if rejection.Some? {
      return Rejected(rejection.value);
    }
    var items := body.items;
    var user := GetOrCreateAnonymousUser(db, fingerprint);
    ghost var users1 := db.users;
    ghost var st0 := BatchState(db.foods, db.nextId, NoTally);
    ghost var st := st0;
    var tally := NoTally;
    var i := 0;
    while i < |items|
      invariant 0 <= i <= |items|
      invariant db.Valid()
      invariant db.users == users1
      invariant st == Steps(st0, items[..i], user.id, ip, now)
      invariant BatchState(db.foods, db.nextId, tally) == st
    {
      var stamp := now + i;
      tally := ProcessItem(db, items[i], tally, user.id, ip, stamp);
      ghost var prev := st;
      st := Step(st, items[i], user.id, ip, stamp);
      StepsSnoc(st0, items, i, user.id, ip, now, stamp, prev, st);
      i := i + 1;
    }
    assert items[..i] == items;
    resp := Done(tally);
  }

  /** The body of the item loop: classify the item, then record it or insert it. */
  method ProcessItem(db: Db, item: BatchItem, tally: Tally, uploader: nat, ip: string, now: int) returns (tally': Tally)
    requires db.Valid()
    modifies db`foods, db`nextId
    ensures db.Valid()
    ensures BatchState(db.foods, db.nextId, tally') == Step(BatchState(old(db.foods), old(db.nextId), tally), item, uploader, ip, now)
  {
    var verdict := Classify(db.foods, item);
    match verdict {
      case Reject(e) =>
        tally' := tally.(errors := tally.errors + [e]);
      case Duplicate(name) =>
        tally' := tally.(duplicates := tally.duplicates + [name]);
      case Fresh(name, kind) =>
        var food := NewFood(db.nextId, name, kind, item, uploader, ip, now);
        NewIdIsFresh(db.foods, food);
        db.foods := db.foods + [food];
        db.nextId := db.nextId + 1;
        tally' := tally.(success := tally.success + 1);
    }
  }

  /** The loop over one more item is one more step. */
  lemma StepsSnoc(st: BatchState, items: seq<BatchItem>, i: nat, uploader: nat, ip: string, now: int, stamp: int, prev: BatchState, next: BatchState)
    requires i < |items| && stamp == now + i
    requires prev == Steps(st, items[..i], uploader, ip, now)
    requires next == Step(prev, items[i], uploader, ip, stamp)
    ensures next == Steps(st, items[..i + 1], uploader, ip, now)
  {
    assert items[..i + 1][..i] == items[..i];
  }

  // ---------------------------------------------------------------------------
  // What the loop guarantees
  // ---------------------------------------------------------------------------

  /** Every item lands in exactly one outcome. */
  lemma {:induction false} StepsAccountForEveryItem(st: BatchState, items: seq<BatchItem>, uploader: nat, ip: string, now: int)
    ensures var r := Steps(st, items, uploader, ip, now);
      r.tally.success + |r.tally.duplicates| + |r.tally.errors|
        == st.tally.success + |st.tally.duplicates| + |st.tally.errors| + |items|
    decreases |items|
  {
    if items != [] {
      StepsAccountForEveryItem(st, items[..|items| - 1], uploader, ip, now);
    }
  }

  /**
   * The catalog only grows, by exactly one row per success, and the new rows
   * take consecutive fresh ids.
   */
  lemma {:induction false} StepsGrowCatalog(st: BatchState, items: seq<BatchItem>, uploader: nat, ip: string, now: int)
    ensures var r := Steps(st, items, uploader, ip, now);
      && |r.foods| == |st.foods| + (r.tally.success - st.tally.success)
      && r.tally.success >= st.tally.success
      && r.foods[..|st.foods|] == st.foods
      && r.nextId == st.nextId + (r.tally.success - st.tally.success)
      && (forall j :: |st.foods| <= j < |r.foods| ==> r.foods[j].id == st.nextId + (j - |st.foods|))
    decreases |items|
  {
    if items != [] {
      var mid := Steps(st, items[..|items| - 1], uploader, ip, now);
      StepsGrowCatalog(st, items[..|items| - 1], uploader, ip, now);
      var r := Step(mid, items[|items| - 1], uploader, ip, now + |items| - 1);
      assert r.foods[..|mid.foods|] == mid.foods;
      assert r.foods[..|st.foods|] == mid.foods[..|st.foods|];
    }
  }

  /** A row the loop adds is a trimmed, PENDING, user-uploaded food of the uploader, with defaults filled in. */
  predicate UploadedRow(f: Food, uploader: nat, ip: string) {
    && Trimmed(f.name)
    && f.status == Pending && f.isUserUploaded && f.tags == []
    && f.uploadedBy == Some(uploader) && f.uploadIp == Some(ip)
    && f.category != "" && f.description.Some? && f.description.value != ""
  }

  /** The row a step inserts, if any, is an uploaded row as described, stamped with the step's time. */
  lemma StepInsertsUploadedRow(st: BatchState, item: BatchItem, uploader: nat, ip: string, now: int)
    ensures var r := Step(st, item, uploader, ip, now);
      r.foods == st.foods ||
      (r.foods == st.foods + [r.foods[|st.foods|]] && UploadedRow(r.foods[|st.foods|], uploader, ip) && r.foods[|st.foods|].createdAt == now)
  {
    var v := Classify(st.foods, item);
    if v.Fresh? {
      TrimSpec(item.name.value);
    }
  }

  /**
   * Every inserted row is an uploaded row as described, stamped within the
   * batch's time span, and a row inserted later carries a later stamp.
   */
  lemma {:induction false} StepsInsertUploadedRows(st: BatchState, items: seq<BatchItem>, uploader: nat, ip: string, now: int)
    ensures var r := Steps(st, items, uploader, ip, now);
      && |r.foods| >= |st.foods|
      && (forall j :: |st.foods| <= j < |r.foods| ==>
            UploadedRow(r.foods[j], uploader, ip) && now <= r.foods[j].createdAt < now + |items|)
      && (forall j, k :: |st.foods| <= j < k < |r.foods| ==> r.foods[j].createdAt < r.foods[k].createdAt)
    decreases |items|
  {
    if items != [] {
      var mid := Steps(st, items[..|items| - 1], uploader, ip, now);
      StepsInsertUploadedRows(st, items[..|items| - 1], uploader, ip, now);
      StepInsertsUploadedRow(mid, items[|items| - 1], uploader, ip, now + |items| - 1);
    }
  }

  /** No two rows of a (trimmed name, kind) pair: the catalog's rows from position `from` on duplicate no earlier row. */
  ghost predicate NoRepeatFrom(foods: seq<Food>, from: nat) {
    forall i, j :: 0 <= i < j < |foods| && from <= j ==>
      !(foods[i].name == foods[j].name && foods[i].kind == foods[j].kind)
  }

  /**
   * Each insertion is looked up against the catalog as it stands, so an
   * inserted row repeats no existing row, nor a row inserted earlier in the
   * same batch.
   */
  lemma {:induction false} StepsInsertNoRepeat(st: BatchState, items: seq<BatchItem>, uploader: nat, ip: string, now: int)
    ensures NoRepeatFrom(Steps(st, items, uploader, ip, now).foods, |st.foods|)
    decreases |items|
  {
    if items != [] {
      var mid := Steps(st, items[..|items| - 1], uploader, ip, now);
      StepsInsertNoRepeat(st, items[..|items| - 1], uploader, ip, now);
      StepsGrowCatalog(st, items[..|items| - 1], uploader, ip, now);
      var r := Step(mid, items[|items| - 1], uploader, ip, now + |items| - 1);
      if |r.foods| > |mid.foods| {
        var n := r.foods[|mid.foods|];
        assert !HasNamed(mid.foods, n.name, n.kind);
        forall i, j | 0 <= i < j < |r.foods| && |st.foods| <= j
          ensures !(r.foods[i].name == r.foods[j].name && r.foods[i].kind == r.foods[j].kind)
        {
          if j < |mid.foods| {
            assert r.foods[i] == mid.foods[i] && r.foods[j] == mid.foods[j];
          } else {
            assert r.foods[i] == mid.foods[i];
          }
        }
      }
    }
  }

  /** An item without a name or a kind, or with a kind other than DISH or DRINK, is an error and inserts nothing. */
  lemma InvalidItemInsertsNothing(st: BatchState, item: BatchItem, uploader: nat, ip: string, now: int)
    requires !Truthy(item.name) || !Truthy(item.kind) || ParseKind(item.kind.value).None?
    ensures var r := Step(st, item, uploader, ip, now);
      && r.foods == st.foods && r.nextId == st.nextId
      && r.tally.success == st.tally.success && r.tally.duplicates == st.tally.duplicates
      && |r.tally.errors| == |st.tally.errors| + 1
  {
  }

  /** An item matching an existing (trimmed name, kind) is listed under its trimmed name and inserts nothing. */
  lemma DuplicateItemInsertsNothing(st: BatchState, item: BatchItem, uploader: nat, ip: string, now: int, i: nat)
    requires Truthy(item.name) && Truthy(item.kind) && ParseKind(item.kind.value).Some?
    requires i < |st.foods| && st.foods[i].name == Trim(item.name.value) && st.foods[i].kind == ParseKind(item.kind.value).value
    ensures var r := Step(st, item, uploader, ip, now);
      && r.foods == st.foods && r.nextId == st.nextId
      && r.tally.duplicates == st.tally.duplicates + [Trim(item.name.value)]
      && r.tally.success == st.tally.success && r.tally.errors == st.tally.errors
  {
  }

  /** A new valid item is inserted with the defaults of its kind. */
  lemma NewItemInserted(st: BatchState, item: BatchItem, uploader: nat, ip: string, now: int)
    requires Truthy(item.name) && Truthy(item.kind) && ParseKind(item.kind.value).Some?
    requires !HasNamed(st.foods, Trim(item.name.value), ParseKind(item.kind.value).value)
    ensures var r := Step(st, item, uploader, ip, now);
      var kind := ParseKind(item.kind.value).value;
      && r.foods == st.foods + [NewFood(st.nextId, Trim(item.name.value), kind, item, uploader, ip, now)]
      && r.tally.success == st.tally.success + 1
      && r.foods[|st.foods|].category == (if Truthy(item.category) then item.category.value else DefaultCategory(kind))
      && r.foods[|st.foods|].description
           == Some(if Truthy(item.description) then item.description.value else DefaultDescription(kind))
  {
  }

  /**
   * The presence check looks at the raw name, so a name of blanks passes it
   * and the row is stored under the empty trimmed name.
   */
  lemma BlankNameIsInserted(st: BatchState, uploader: nat, ip: string, now: int)
    requires !HasNamed(st.foods, "", Dish)
    ensures var r := Step(st, BatchItem(Some("  "), Some("DISH"), None, None), uploader, ip, now);
      |r.foods| == |st.foods| + 1 && r.foods[|st.foods|].name == ""
  {
    assert Trim("  ") == "" by {
      assert IsJsSpace(' ');
      assert TrimStart("  ") == TrimStart(" ");
    }
  }
}
