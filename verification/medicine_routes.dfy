/**
 * app/routers/medicines.py: the `/medicines` endpoints. Search pages are
 * cached for five minutes under a key built from the search text and the
 * page number; adding a medicine writes a marker key and evicts nothing.
 */
module MedicineRoutes {
  import opened Wrappers
  import opened Text
  import opened Models
  import opened Store
  import opened Http
  import opened Auth
  import opened Caching
  import opened Services
  import Crud

  /** Roles that may add medicines and adjust stock. */
  const STOCK_ROLES: set<string> := {"admin", "staff"}

  const MEDICINE_NOT_FOUND := HttpError(404, "Medicine not found")

  /** The marker `add_medicine` writes, with a one-second TTL. */
  const INVALIDATE_KEY := "medicines:invalidate"
  const SEARCH_PREFIX := "medicines:search:"

  /** `f"medicines:search:{q or ''}:page:{page}"`. */
  function SearchKey(q: Option<string>, page: int): (k: string)
    ensures |SEARCH_PREFIX| < |k| && k[..|SEARCH_PREFIX|] == SEARCH_PREFIX
  {
    SEARCH_PREFIX + q.GetOr("") + ":page:" + IntToString(page)
  }

  /** `json.loads` of a cached search page, checked against the response model. */
  function CachedList(b: Blob): Reply<seq<Medicine>> {
    match b
    case Json(MedicineList(items)) => Success(200, items)
    case _ => Refused(CACHE_ERROR)
  }

  /** Two searches share a cache entry exactly when they ask for the same text (None being "") and the same page. */
  lemma SearchKeyInjective(q1: Option<string>, p1: int, q2: Option<string>, p2: int)
    ensures SearchKey(q1, p1) == SearchKey(q2, p2) <==> q1.GetOr("") == q2.GetOr("") && p1 == p2
  {
    if SearchKey(q1, p1) == SearchKey(q2, p2) {
      var d1, d2 := IntToString(p1), IntToString(p2);
      IntToStringChars(p1);
      IntToStringChars(p2);
      assert ':' !in d1 && ':' !in d2;
      var a1 := SEARCH_PREFIX + q1.GetOr("") + ":page";
      var a2 := SEARCH_PREFIX + q2.GetOr("") + ":page";
      assert SearchKey(q1, p1) == a1 + [':'] + d1;
      assert SearchKey(q2, p2) == a2 + [':'] + d2;
      SplitAtLast(a1, d1, a2, d2, ':');
      CancelAffixes(SEARCH_PREFIX, q1.GetOr(""), q2.GetOr(""), ":page");
      IntToStringRoundTrip(p1);
      IntToStringRoundTrip(p2);
    }
  }

  /** A cached page is only ever served for a search that would compute the same page from the same table. */
  lemma SearchKeyDeterminesResult(medicines: map<int, Medicine>, q1: Option<string>, p1: int, q2: Option<string>, p2: int)
    requires p1 >= 1 && p2 >= 1 && SearchKey(q1, p1) == SearchKey(q2, p2)
    ensures Crud.SearchMedicines(medicines, q1, SkipFor(p1), PER_PAGE)
         == Crud.SearchMedicines(medicines, q2, SkipFor(p2), PER_PAGE)
  {
    SearchKeyInjective(q1, p1, q2, p2);
    assert Crud.FilterText(q1) == Crud.FilterText(q2);
  }

  /** The marker key is not a search key: adding a medicine leaves every cached search page in place. */
  lemma AddLeavesSearchPages(entries: map<string, Entry>, clock: int, later: int, q: Option<string>, page: int)
    ensures Lookup(AfterSet(entries, clock, INVALIDATE_KEY, Text("1"), 1), later, SearchKey(q, page))
         == Lookup(entries, later, SearchKey(q, page))
  {
    assert SearchKey(q, page)[10] == 's' && INVALIDATE_KEY[10] == 'i';
    SetKeepsOtherKeys(entries, clock, INVALIDATE_KEY, Text("1"), 1, SearchKey(q, page), later);
  }

  /** A page a search stored is what the same search answers for the next five minutes, whatever the table holds by then. */
  lemma CachedSearchReplays(entries: map<string, Entry>, clock: int, later: int, q: Option<string>, page: int, items: seq<Medicine>)
    requires clock <= later < clock + CACHE_TTL
    ensures var hit := Lookup(AfterSet(entries, clock, SearchKey(q, page), Json(MedicineList(items)), CACHE_TTL), later, SearchKey(q, page));
            hit.Some? && Truthy(hit.value) && CachedList(hit.value) == Success(200, items)
  {
    SetThenGet(entries, clock, SearchKey(q, page), Json(MedicineList(items)), CACHE_TTL, later);
  }

  /** `POST /medicines`: 201 with the new row, then the marker write. */
  method Add(db: Database, cache: Cache, token: string, now: int, payload: MedicineCreate, fault: bool) returns (reply: Reply<Medicine>)
    requires db.Valid()
    modifies db`medicines, db`nextMedicineId, cache`entries
    ensures db.Valid()
    ensures RequireRoles(STOCK_ROLES, db.users, token, now).Err? ==>
      && reply == Refused(RequireRoles(STOCK_ROLES, db.users, token, now).error)
      && db.medicines == old(db.medicines) && db.nextMedicineId == old(db.nextMedicineId)
      && cache.entries == old(cache.entries)
    ensures RequireRoles(STOCK_ROLES, db.users, token, now).Ok? ==>
      && reply == Success(201, NewMedicine(old(db.nextMedicineId), payload))
      && db.medicines == old(db.medicines)[old(db.nextMedicineId) := reply.body]
      && db.nextMedicineId == old(db.nextMedicineId) + 1
      && cache.entries == if cache.client && !fault
                          then AfterSet(old(cache.entries), cache.clock, INVALIDATE_KEY, Text("1"), 1)
                          else old(cache.entries)
  {
    var gate := RequireRoles(STOCK_ROLES, db.users, token, now);
    if gate.Err? {
      return Refused(gate.error);
    }
    var svc := new MedicineService(db);
    var m := svc.Create(payload);
    cache.Set(INVALIDATE_KEY, Text("1"), 1, fault);
    reply := Success(201, m);
  }

  /** `GET /medicines/{id}`: 200 with the row, or 404. */
  function Get(db: Database, token: string, now: int, id: int): (r: Reply<Medicine>)
    reads db
    ensures RequireRoles(CLINIC_ROLES, db.users, token, now).Err? ==> r == Refused(RequireRoles(CLINIC_ROLES, db.users, token, now).error)
    ensures RequireRoles(CLINIC_ROLES, db.users, token, now).Ok? ==>
      r == if id in db.medicines then Success(200, db.medicines[id]) else Refused(MEDICINE_NOT_FOUND)
  {
    match RequireRoles(CLINIC_ROLES, db.users, token, now)
    case Err(e) => Refused(e)
    case Ok(_) =>
      match Crud.GetMedicine(db.medicines, id)
      case None => Refused(MEDICINE_NOT_FOUND)
      case Some(m) => Success(200, m)
  }

  /**
   * The body of `GET /medicines?q=&page=` once the page is valid: a live,
   * non-empty cache entry is answered as stored; otherwise the page is
   * computed from the table and cached for five minutes.
   */
  method CachedSearch(medicines: map<int, Medicine>, cache: Cache, q: Option<string>, page: int, getFault: bool, setFault: bool)
    returns (reply: Reply<seq<Medicine>>)
    requires page >= 1
    modifies cache`entries
    ensures var cached := if cache.client && !getFault then Lookup(old(cache.entries), cache.clock, SearchKey(q, page)) else None;
      if cached.Some? && Truthy(cached.value) then
        reply == CachedList(cached.value) && cache.entries == old(cache.entries)
      else
        && reply == Success(200, Crud.SearchMedicines(medicines, q, SkipFor(page), PER_PAGE))
        && cache.entries == if cache.client && !setFault
                            then AfterSet(old(cache.entries), cache.clock, SearchKey(q, page), Json(MedicineList(reply.body)), CACHE_TTL)
                            else old(cache.entries)
  {
    var key := SearchKey(q, page);
    var cached := cache.Get(key, getFault);
    if cached.Some? && Truthy(cached.value) {
      return CachedList(cached.value);
    }
    var found := Crud.SearchMedicines(medicines, q, SkipFor(page), PER_PAGE);
    cache.Set(key, Json(MedicineList(found)), CACHE_TTL, setFault);
    reply := Success(200, found);
  }

  /** `GET /medicines?q=&page=`: the role gate, then the page check, then the cached search. */
  method Search(db: Database, cache: Cache, token: string, now: int, q: Option<string>, page: int, getFault: bool, setFault: bool)
    returns (reply: Reply<seq<Medicine>>)
    modifies cache`entries
    ensures RequireRoles(CLINIC_ROLES, db.users, token, now).Err? ==>
      reply == Refused(RequireRoles(CLINIC_ROLES, db.users, token, now).error) && cache.entries == old(cache.entries)
    ensures RequireRoles(CLINIC_ROLES, db.users, token, now).Ok? && page < 1 ==>
      reply == Refused(INVALID_PAGE) && cache.entries == old(cache.entries)
    ensures RequireRoles(CLINIC_ROLES, db.users, token, now).Ok? && page >= 1 ==>
      var cached := if cache.client && !getFault then Lookup(old(cache.entries), cache.clock, SearchKey(q, page)) else None;
      if cached.Some? && Truthy(cached.value) then
        reply == CachedList(cached.value) && cache.entries == old(cache.entries)
      else
        && reply == Success(200, Crud.SearchMedicines(db.medicines, q, SkipFor(page), PER_PAGE))
        && cache.entries == if cache.client && !setFault
                            then AfterSet(old(cache.entries), cache.clock, SearchKey(q, page), Json(MedicineList(reply.body)), CACHE_TTL)
                            else old(cache.entries)
  {
    var gate := RequireRoles(CLINIC_ROLES, db.users, token, now);
    if gate.Err? {
      return Refused(gate.error);
    }
    if page < 1 {
      return Refused(INVALID_PAGE);
    }
    reply := CachedSearch(db.medicines, cache, q, page, getFault, setFault);
  }

  /** `PATCH /medicines/{id}/adjust?delta=`: 200 with the row, its quantity clamped at zero, or 404. */
  method Adjust(db: Database, token: string, now: int, id: int, delta: int) returns (reply: Reply<Medicine>)
    requires db.Valid()
    modifies db`medicines
    ensures db.Valid()
    ensures RequireRoles(STOCK_ROLES, db.users, token, now).Err? ==>
      reply == Refused(RequireRoles(STOCK_ROLES, db.users, token, now).error) && db.medicines == old(db.medicines)
    ensures RequireRoles(STOCK_ROLES, db.users, token, now).Ok? ==>
      && db.medicines == Crud.Restocked(old(db.medicines), id, delta)
      && reply == if id in db.medicines then Success(200, db.medicines[id]) else Refused(MEDICINE_NOT_FOUND)
  {
    var gate := RequireRoles(STOCK_ROLES, db.users, token, now);
    if gate.Err? {
      return Refused(gate.error);
    }
    var svc := new MedicineService(db);
    assert RequireRoles(STOCK_ROLES, db.users, token, now).Ok?;
    var r := svc.Adjust(id, delta);
    assert RequireRoles(STOCK_ROLES, db.users, token, now).Ok?;
    reply := if r.Some? then Success(200, r.value) else Refused(MEDICINE_NOT_FOUND);
  }
}
