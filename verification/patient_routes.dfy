/**
 * app/routers/patients.py: the `/patients` endpoints. A patient read is
 * cached for five minutes under `patient:<id>`; creating a patient writes
 * a marker key and evicts nothing.
 */
module PatientRoutes {
  import opened Wrappers
  import opened Text
  import opened Models
  import opened Store
  import opened Http
  import opened Tables
  import opened Auth
  import opened Caching
  import opened Services
  import Crud

  /** Roles that may register patients. */
  const REGISTER_ROLES: set<string> := {"doctor", "nurse", "admin"}

  /** The marker `create_patient` writes, with a one-second TTL. */
  const INVALIDATE_KEY := "patients:invalidate"

  /** `f"patient:{patient_id}"`. */
  function PatientKey(id: int): (k: string)
    ensures |k| > 8 && k[..8] == "patient:"
  {
    "patient:" + IntToString(id)
  }

  /** `json.loads` of a cached patient record, checked against the response model. */
  function CachedPatient(b: Blob): Reply<Patient> {
    match b
    case Json(PatientRecord(p)) => Success(200, p)
    case _ => Refused(CACHE_ERROR)
  }

  /** Each patient has a cache key of its own. */
  lemma PatientKeyInjective(id1: int, id2: int)
    ensures PatientKey(id1) == PatientKey(id2) <==> id1 == id2
  {
    if PatientKey(id1) == PatientKey(id2) {
      assert IntToString(id1) == PatientKey(id1)[8..] == PatientKey(id2)[8..] == IntToString(id2);
      IntToStringRoundTrip(id1);
      IntToStringRoundTrip(id2);
    }
  }

  /** The marker key is no patient's key: registering a patient leaves every cached record in place. */
  lemma MarkerIsNoPatientKey(id: int)
    ensures PatientKey(id) != INVALIDATE_KEY
  {
    assert PatientKey(id)[7] == ':' && INVALIDATE_KEY[7] == 's';
  }

  /** `POST /patients`: 201 with the new row, then the marker write. */
  method Create(db: Database, cache: Cache, token: string, now: int, payload: PatientCreate, fault: bool) returns (reply: Reply<Patient>)
    requires db.Valid()
    modifies db`patients, db`nextPatientId, cache`entries
    ensures db.Valid()
    ensures RequireRoles(REGISTER_ROLES, db.users, token, now).Err? ==>
      && reply == Refused(RequireRoles(REGISTER_ROLES, db.users, token, now).error)
      && db.patients == old(db.patients) && db.nextPatientId == old(db.nextPatientId)
      && cache.entries == old(cache.entries)
    ensures RequireRoles(REGISTER_ROLES, db.users, token, now).Ok? ==>
      && reply == Success(201, NewPatient(old(db.nextPatientId), payload))
      && db.patients == old(db.patients)[old(db.nextPatientId) := reply.body]
      && db.nextPatientId == old(db.nextPatientId) + 1
      && cache.entries == if cache.client && !fault
                          then AfterSet(old(cache.entries), cache.clock, INVALIDATE_KEY, Text("1"), 1)
                          else old(cache.entries)
  {
    var gate := RequireRoles(REGISTER_ROLES, db.users, token, now);
    if gate.Err? {
      return Refused(gate.error);
    }
    var svc := new PatientService(db);
    var p := svc.Create(payload);
    cache.Set(INVALIDATE_KEY, Text("1"), 1, fault);
    reply := Success(201, p);
  }

  /**
   * The body of `GET /patients/{id}`: a live, non-empty cache entry is
   * answered as stored; otherwise the row is read and, when it exists,
   * cached for five minutes. A 404 caches nothing.
   */
  method CachedRead(patients: map<int, Patient>, cache: Cache, id: int, getFault: bool, setFault: bool)
    returns (reply: Reply<Patient>)
    modifies cache`entries
    ensures var cached := if cache.client && !getFault then Lookup(old(cache.entries), cache.clock, PatientKey(id)) else None;
      if cached.Some? && Truthy(cached.value) then
        reply == CachedPatient(cached.value) && cache.entries == old(cache.entries)
      else if id !in patients then
        reply == Refused(PATIENT_NOT_FOUND) && cache.entries == old(cache.entries)
      else
        && reply == Success(200, patients[id])
        && cache.entries == if cache.client && !setFault
                            then AfterSet(old(cache.entries), cache.clock, PatientKey(id), Json(PatientRecord(patients[id])), CACHE_TTL)
                            else old(cache.entries)
  {
    var key := PatientKey(id);
    var cached := cache.Get(key, getFault);
    if cached.Some? && Truthy(cached.value) {
      return CachedPatient(cached.value);
    }
    var found := Crud.GetPatient(patients, id);
    if found.None? {
      return Refused(PATIENT_NOT_FOUND);
    }
    cache.Set(key, Json(PatientRecord(found.value)), CACHE_TTL, setFault);
    reply := Success(200, found.value);
  }

  /** `GET /patients/{id}`: the role gate, then the cached read. */
  method Get(db: Database, cache: Cache, token: string, now: int, id: int, getFault: bool, setFault: bool)
    returns (reply: Reply<Patient>)
    modifies cache`entries
    ensures RequireRoles(CLINIC_ROLES, db.users, token, now).Err? ==>
      reply == Refused(RequireRoles(CLINIC_ROLES, db.users, token, now).error) && cache.entries == old(cache.entries)
    ensures RequireRoles(CLINIC_ROLES, db.users, token, now).Ok? ==>
      var cached := if cache.client && !getFault then Lookup(old(cache.entries), cache.clock, PatientKey(id)) else None;
      if cached.Some? && Truthy(cached.value) then
        reply == CachedPatient(cached.value) && cache.entries == old(cache.entries)
      else if id !in db.patients then
        reply == Refused(PATIENT_NOT_FOUND) && cache.entries == old(cache.entries)
      else
        && reply == Success(200, db.patients[id])
        && cache.entries == if cache.client && !setFault
                            then AfterSet(old(cache.entries), cache.clock, PatientKey(id), Json(PatientRecord(db.patients[id])), CACHE_TTL)
                            else old(cache.entries)
  {
    var gate := RequireRoles(CLINIC_ROLES, db.users, token, now);
    if gate.Err? {
      return Refused(gate.error);
    }
    reply := CachedRead(db.patients, cache, id, getFault, setFault);
  }

  /** `GET /patients?page=&q=`: ten patients per page, by id. */
  function List(db: Database, token: string, now: int, page: int, q: Option<string>): (r: Reply<seq<Patient>>)
    reads db
    ensures RequireRoles(CLINIC_ROLES, db.users, token, now).Err? ==> r == Refused(RequireRoles(CLINIC_ROLES, db.users, token, now).error)
    ensures RequireRoles(CLINIC_ROLES, db.users, token, now).Ok? && page < 1 ==> r == Refused(INVALID_PAGE)
    ensures RequireRoles(CLINIC_ROLES, db.users, token, now).Ok? && page >= 1 ==> r.Success?
    ensures r.Success? ==> && page >= 1 && r.status == 200 && |r.body| <= PER_PAGE
                           && r.body == Crud.ListPatients(db.patients, SkipFor(page), PER_PAGE, q)
  {
    match RequireRoles(CLINIC_ROLES, db.users, token, now)
    case Err(e) => Refused(e)
    case Ok(_) =>
      if page < 1 then Refused(INVALID_PAGE)
      else Success(200, Crud.ListPatients(db.patients, SkipFor(page), PER_PAGE, q))
  }

  /**
   * Paging shows every row: for a permitted caller, row `i` of the results
   * is on page `i / 10 + 1`, at position `i % 10`.
   */
  lemma ListShowsEveryRow(db: Database, token: string, now: int, q: Option<string>, i: nat)
    requires RequireRoles(CLINIC_ROLES, db.users, token, now).Ok?
    requires i < |Crud.PatientResults(db.patients, q)|
    ensures var r := List(db, token, now, i / PER_PAGE + 1, q);
            && r.Success? && i % PER_PAGE < |r.body|
            && r.body[i % PER_PAGE] == Crud.PatientResults(db.patients, q)[i]
  {
    var h := Crud.PatientResults(db.patients, q);
    PageOfRow(h, i);
    var page := i / PER_PAGE + 1;
    assert Crud.ListPatients(db.patients, SkipFor(page), PER_PAGE, q) == Page(h, SkipFor(page), PER_PAGE);
  }
}
