/**
 * app/crud.py: the table operations. Queries are functions of the tables;
 * operations that add rows or assign columns are methods on the database.
 */
module Crud {
  import opened Wrappers
  import opened Text
  import opened Tables
  import opened Models
  import opened Passwords
  import opened Store

  /** Python's `if q:` on an optional string: None and "" mean "no filter". */
  function FilterText(q: Option<string>): Option<string> {
    match q
    case Some(s) => if s != "" then Some(s) else None
    case None => None
  }

  /** `column LIKE '%q%'`; a NULL column matches nothing. */
  predicate ColumnContains(column: Option<string>, q: string) {
    column.Some? && Contains(column.value, q)
  }

  // -------------------------------------------------------------------------
  // Patients

  method CreatePatient(db: Database, payload: PatientCreate) returns (p: Patient)
    requires db.Valid()
    modifies db`patients, db`nextPatientId
    ensures db.Valid()
    ensures p == NewPatient(old(db.nextPatientId), payload) && p.id !in old(db.patients)
    ensures db.patients == old(db.patients)[p.id := p]
    ensures db.nextPatientId == old(db.nextPatientId) + 1
  {
    p := NewPatient(db.nextPatientId, payload);
    db.patients := db.patients[p.id := p];
    db.nextPatientId := db.nextPatientId + 1;
  }

  /** `get_patient`: the row whose `id` column is `id`, if any. */
  function GetPatient(patients: map<int, Patient>, id: int): (r: Option<Patient>)
    ensures r.Some? ==> r.value in patients.Values
    ensures (forall k :: k in patients ==> patients[k].id == k) ==>
              && (r.Some? <==> exists k :: k in patients && patients[k].id == id)
              && (r.Some? ==> r.value.id == id)
  {
    if id in patients then Some(patients[id]) else None
  }

  /** The search of `list_patients`: `q` in the first name, the last name or the phone. */
  predicate PatientMatches(p: Patient, q: string) {
    Contains(p.firstName, q) || ColumnContains(p.lastName, q) || ColumnContains(p.phone, q)
  }

  function IdBefore(a: Patient, b: Patient): bool {
    a.id < b.id
  }

  /**
   * The rows `list_patients` pages through: the patients `q` matches (every
   * patient for an empty or absent `q`), in key order.
   */
  function PatientResults(patients: map<int, Patient>, q: Option<string>): (h: seq<Patient>)
    ensures forall p :: p in h <==> p in patients.Values && (FilterText(q).None? || PatientMatches(p, FilterText(q).value))
  {
    match FilterText(q)
    case None => Rows(patients)
    case Some(s) => Filter(Rows(patients), (p: Patient) => PatientMatches(p, s))
  }

  /**
   * `list_patients`: `OFFSET skip LIMIT limit` of the results: `limit` rows
   * from position `skip` on, fewer at the end, none past it.
   */
  function ListPatients(patients: map<int, Patient>, skip: nat, limit: nat, q: Option<string>): (r: seq<Patient>)
    ensures var h := PatientResults(patients, q);
            |r| == if skip >= |h| then 0 else if skip + limit <= |h| then limit else |h| - skip
    ensures forall i :: 0 <= i < |r| ==> r[i] == PatientResults(patients, q)[skip + i]
    ensures forall p :: p in r ==> p in PatientResults(patients, q)
  {
    var h := PatientResults(patients, q);
    PageMembers(h, skip, limit);
    Page(h, skip, limit)
  }

  /** With keys equal to ids, the rows of the patients table come in strictly ascending id order. */
  lemma PatientRowsById(patients: map<int, Patient>)
    requires forall k :: k in patients ==> patients[k].id == k
    ensures SortedBy(Rows(patients), IdBefore)
  {
    var ks := Ascending(patients.Keys);
    var rows := Rows(patients);
    assert rows == Select(patients, ks);
    forall i, j | 0 <= i < j < |rows| ensures IdBefore(rows[i], rows[j]) {
      assert rows[i] == patients[ks[i]] && rows[j] == patients[ks[j]];
    }
  }

  /** With keys equal to ids, the results, and so every page of them, are in strictly ascending id order. */
  lemma {:induction false} ListPatientsById(patients: map<int, Patient>, skip: nat, limit: nat, q: Option<string>)
    requires forall k :: k in patients ==> patients[k].id == k
    ensures SortedBy(PatientResults(patients, q), IdBefore)
    ensures SortedBy(ListPatients(patients, skip, limit, q), IdBefore)
  {
    PatientRowsById(patients);
    if s :| FilterText(q) == Some(s) {
      FilterSorted(Rows(patients), (p: Patient) => PatientMatches(p, s), IdBefore);
    }
    PageSorted(PatientResults(patients, q), skip, limit, IdBefore);
  }

  /**
   * Nothing that matches is lost: whatever the page size, every patient the
   * search accepts (every patient, for an empty or absent `q`) is on some
   * page.
   */
  lemma ListPatientsComplete(patients: map<int, Patient>, q: Option<string>, limit: nat, k: int)
    requires limit > 0 && k in patients
    requires FilterText(q).None? || PatientMatches(patients[k], FilterText(q).value)
    ensures exists page: nat :: patients[k] in ListPatients(patients, Offset(page, limit), limit, q)
  {
    var h := PatientResults(patients, q);
    assert patients[k] in patients.Values;
    EveryRowPaged(h, patients[k], limit);
    var page: nat :| patients[k] in Page(h, Offset(page, limit), limit);
    assert patients[k] in ListPatients(patients, Offset(page, limit), limit, q);
  }

  // -------------------------------------------------------------------------
  // Appointments

  /** `create_appointment`: `ValueError("Patient not found")` and no row when the patient does not exist. */
  method CreateAppointment(db: Database, payload: AppointmentCreate, now: int) returns (r: Result<Appointment, string>)
    requires db.Valid()
    modifies db`appointments, db`nextAppointmentId
    ensures db.Valid()
    ensures payload.patientId !in db.patients ==>
      && r == Err("Patient not found")
      && db.appointments == old(db.appointments) && db.nextAppointmentId == old(db.nextAppointmentId)
    ensures payload.patientId in db.patients ==>
      && r == Ok(NewAppointment(old(db.nextAppointmentId), payload, now))
      && old(db.nextAppointmentId) !in old(db.appointments)
      && db.appointments == old(db.appointments)[old(db.nextAppointmentId) := r.value]
      && db.nextAppointmentId == old(db.nextAppointmentId) + 1
  {
    if GetPatient(db.patients, payload.patientId).None? {
      return Err("Patient not found");
    }
    var a := NewAppointment(db.nextAppointmentId, payload, now);
    db.appointments := db.appointments[a.id := a];
    db.nextAppointmentId := db.nextAppointmentId + 1;
    r := Ok(a);
  }

  /** `get_appointment`: the row whose `id` column is `id`, if any. */
  function GetAppointment(appointments: map<int, Appointment>, id: int): (r: Option<Appointment>)
    ensures r.Some? ==> r.value in appointments.Values
    ensures (forall k :: k in appointments ==> appointments[k].id == k) ==>
              && (r.Some? <==> exists k :: k in appointments && appointments[k].id == id)
              && (r.Some? ==> r.value.id == id)
  {
    if id in appointments then Some(appointments[id]) else None
  }

  function EarlierOrSame(a: Appointment, b: Appointment): bool {
    a.scheduledAt <= b.scheduledAt
  }

  lemma ScheduleIsOrder()
    ensures TotalPreorder(EarlierOrSame)
  {
  }

  /** The `WHERE` of `list_appointments`: every row when no status is given, else the rows with exactly that status. */
  function StatusHits(appointments: map<int, Appointment>, status: Option<string>): (r: seq<Appointment>)
    ensures forall a :: a in r <==> a in appointments.Values && (FilterText(status).None? || a.status == FilterText(status).value)
    ensures (forall k :: k in appointments ==> appointments[k].id == k) ==> Distinct(r)
  {
    assert (forall k :: k in appointments ==> appointments[k].id == k) ==> Distinct(Rows(appointments)) by {
      if forall k :: k in appointments ==> appointments[k].id == k {
        RowsDistinct(appointments);
      }
    }
    match FilterText(status)
    case None => Rows(appointments)
    case Some(s) =>
      FilterDistinct(Rows(appointments), (a: Appointment) => a.status == s);
      Filter(Rows(appointments), (a: Appointment) => a.status == s)
  }

  /** The rows `list_appointments` pages through: the hits, ordered by `scheduled_at`. */
  function AppointmentResults(appointments: map<int, Appointment>, status: Option<string>): (h: seq<Appointment>)
    ensures forall a :: a in h <==> a in appointments.Values && (FilterText(status).None? || a.status == FilterText(status).value)
    ensures SortedBy(h, EarlierOrSame)
    ensures multiset(h) == multiset(StatusHits(appointments, status))
    ensures (forall k :: k in appointments ==> appointments[k].id == k) ==> Distinct(h)
  {
    var hits := StatusHits(appointments, status);
    ScheduleIsOrder();
    SortSorted(hits, EarlierOrSame);
    assert forall a :: a in Sort(hits, EarlierOrSame) <==> a in multiset(hits);
    assert Distinct(hits) ==> Distinct(Sort(hits, EarlierOrSame)) by {
      if Distinct(hits) {
        FewerKeepsDistinct(hits, Sort(hits, EarlierOrSame));
      }
    }
    Sort(hits, EarlierOrSame)
  }

  /**
   * `list_appointments`: `OFFSET skip LIMIT limit` of the results: `limit`
   * rows from position `skip` on, fewer at the end, none past it.
   */
  function ListAppointments(appointments: map<int, Appointment>, skip: nat, limit: nat, status: Option<string>): (r: seq<Appointment>)
    ensures var h := AppointmentResults(appointments, status);
            |r| == if skip >= |h| then 0 else if skip + limit <= |h| then limit else |h| - skip
    ensures forall i :: 0 <= i < |r| ==> r[i] == AppointmentResults(appointments, status)[skip + i]
    ensures forall a :: a in r ==> a in AppointmentResults(appointments, status)
    ensures SortedBy(r, EarlierOrSame)
    ensures (forall k :: k in appointments ==> appointments[k].id == k) ==> Distinct(r)
  {
    var h := AppointmentResults(appointments, status);
    PageSorted(h, skip, limit, EarlierOrSame);
    PageMembers(h, skip, limit);
    assert Distinct(h) ==> Distinct(Page(h, skip, limit)) by {
      if Distinct(h) {
        PageDistinct(h, skip, limit);
      }
    }
    Page(h, skip, limit)
  }

  /** Whatever the page size, every appointment with the requested status (every appointment, for none) is on some page. */
  lemma ListAppointmentsComplete(appointments: map<int, Appointment>, status: Option<string>, limit: nat, k: int)
    requires limit > 0 && k in appointments
    requires FilterText(status).None? || appointments[k].status == FilterText(status).value
    ensures exists page: nat :: appointments[k] in ListAppointments(appointments, Offset(page, limit), limit, status)
  {
    var h := AppointmentResults(appointments, status);
    assert appointments[k] in appointments.Values;
    EveryRowPaged(h, appointments[k], limit);
    var page: nat :| appointments[k] in Page(h, Offset(page, limit), limit);
    assert appointments[k] in ListAppointments(appointments, Offset(page, limit), limit, status);
  }

  /** The appointments table after `scheduled_at` of row `id` is set to `t` (unchanged when there is no such row). */
  function Rescheduled(appointments: map<int, Appointment>, id: int, t: int): map<int, Appointment> {
    if id in appointments then appointments[id := appointments[id].(scheduledAt := t)] else appointments
  }

  /** The appointments table after `status` of row `id` is set to `s` (unchanged when there is no such row). */
  function WithStatus(appointments: map<int, Appointment>, id: int, s: string): map<int, Appointment> {
    if id in appointments then appointments[id := appointments[id].(status := s)] else appointments
  }

  /** `reschedule_appointment`: None and no change for an unknown id; otherwise only `scheduled_at` changes. */
  method RescheduleAppointment(db: Database, id: int, newTime: int) returns (r: Option<Appointment>)
    requires db.Valid()
    modifies db`appointments
    ensures db.Valid()
    ensures db.appointments == Rescheduled(old(db.appointments), id, newTime)
    ensures r == GetAppointment(db.appointments, id)
  {
    var found := GetAppointment(db.appointments, id);
    if found.None? {
      return None;
    }
    var a := found.value.(scheduledAt := newTime);
    db.appointments := db.appointments[id := a];
    r := Some(a);
  }

  /** `update_appointment_status`: None and no change for an unknown id; otherwise only `status` changes. */
  method UpdateAppointmentStatus(db: Database, id: int, status: string) returns (r: Option<Appointment>)
    requires db.Valid()
    modifies db`appointments
    ensures db.Valid()
    ensures db.appointments == WithStatus(old(db.appointments), id, status)
    ensures r == GetAppointment(db.appointments, id)
  {
    var found := GetAppointment(db.appointments, id);
    if found.None? {
      return None;
    }
    var a := found.value.(status := status);
    db.appointments := db.appointments[id := a];
    r := Some(a);
  }

  /** Setting a status twice is setting it once. */
  lemma WithStatusIdempotent(appointments: map<int, Appointment>, id: int, s: string)
    ensures WithStatus(WithStatus(appointments, id, s), id, s) == WithStatus(appointments, id, s)
  {
  }

  /** Rescheduling touches the time alone: every row keeps its status, and only row `id` can change at all. */
  lemma RescheduleKeepsStatus(appointments: map<int, Appointment>, id: int, t: int)
    ensures Rescheduled(appointments, id, t).Keys == appointments.Keys
    ensures forall k :: k in appointments ==> Rescheduled(appointments, id, t)[k].status == appointments[k].status
    ensures forall k :: k in appointments && k != id ==> Rescheduled(appointments, id, t)[k] == appointments[k]
  {
  }

  // -------------------------------------------------------------------------
  // Medicines

  method CreateMedicine(db: Database, payload: MedicineCreate) returns (m: Medicine)
    requires db.Valid()
    modifies db`medicines, db`nextMedicineId
    ensures db.Valid()
    ensures m == NewMedicine(old(db.nextMedicineId), payload) && m.id !in old(db.medicines)
    ensures db.medicines == old(db.medicines)[m.id := m]
    ensures db.nextMedicineId == old(db.nextMedicineId) + 1
  {
    m := NewMedicine(db.nextMedicineId, payload);
    db.medicines := db.medicines[m.id := m];
    db.nextMedicineId := db.nextMedicineId + 1;
  }

  /** `get_medicine`: the row whose `id` column is `id`, if any. */
  function GetMedicine(medicines: map<int, Medicine>, id: int): (r: Option<Medicine>)
    ensures r.Some? ==> r.value in medicines.Values
    ensures (forall k :: k in medicines ==> medicines[k].id == k) ==>
              && (r.Some? <==> exists k :: k in medicines && medicines[k].id == id)
              && (r.Some? ==> r.value.id == id)
  {
    if id in medicines then Some(medicines[id]) else None
  }

  function NameOrder(a: Medicine, b: Medicine): bool {
    StrLe(a.name, b.name)
  }

  lemma NameIsOrder()
    ensures TotalPreorder(NameOrder)
  {
    forall a: Medicine, b: Medicine ensures NameOrder(a, b) || NameOrder(b, a) {
      StrLeTotal(a.name, b.name);
    }
    forall a: Medicine, b: Medicine, c: Medicine | NameOrder(a, b) && NameOrder(b, c) ensures NameOrder(a, c) {
      StrLeTransitive(a.name, b.name, c.name);
    }
  }

  /** The `WHERE` of `search_medicines`: every row when `q` is None or "", else the rows whose name contains `q`. */
  function NameHits(medicines: map<int, Medicine>, q: Option<string>): (r: seq<Medicine>)
    ensures forall m :: m in r <==> m in medicines.Values && (FilterText(q).None? || Contains(m.name, FilterText(q).value))
    ensures (forall k :: k in medicines ==> medicines[k].id == k) ==> Distinct(r)
  {
    assert (forall k :: k in medicines ==> medicines[k].id == k) ==> Distinct(Rows(medicines)) by {
      if forall k :: k in medicines ==> medicines[k].id == k {
        RowsDistinct(medicines);
      }
    }
    match FilterText(q)
    case None => Rows(medicines)
    case Some(s) =>
      FilterDistinct(Rows(medicines), (m: Medicine) => Contains(m.name, s));
      Filter(Rows(medicines), (m: Medicine) => Contains(m.name, s))
  }

  /** The rows `search_medicines` pages through: the hits, ordered by name. */
  function MedicineResults(medicines: map<int, Medicine>, q: Option<string>): (h: seq<Medicine>)
    ensures forall m :: m in h <==> m in medicines.Values && (FilterText(q).None? || Contains(m.name, FilterText(q).value))
    ensures SortedBy(h, NameOrder)
    ensures multiset(h) == multiset(NameHits(medicines, q))
    ensures (forall k :: k in medicines ==> medicines[k].id == k) ==> Distinct(h)
  {
    var hits := NameHits(medicines, q);
    NameIsOrder();
    SortSorted(hits, NameOrder);
    assert forall m :: m in Sort(hits, NameOrder) <==> m in multiset(hits);
    assert Distinct(hits) ==> Distinct(Sort(hits, NameOrder)) by {
      if Distinct(hits) {
        FewerKeepsDistinct(hits, Sort(hits, NameOrder));
      }
    }
    Sort(hits, NameOrder)
  }

  /**
   * `search_medicines`: `OFFSET skip LIMIT limit` of the results: `limit`
   * rows from position `skip` on, fewer at the end, none past it.
   */
  function SearchMedicines(medicines: map<int, Medicine>, q: Option<string>, skip: nat, limit: nat): (r: seq<Medicine>)
    ensures var h := MedicineResults(medicines, q);
            |r| == if skip >= |h| then 0 else if skip + limit <= |h| then limit else |h| - skip
    ensures forall i :: 0 <= i < |r| ==> r[i] == MedicineResults(medicines, q)[skip + i]
    ensures forall m :: m in r ==> m in MedicineResults(medicines, q)
    ensures SortedBy(r, NameOrder)
    ensures (forall k :: k in medicines ==> medicines[k].id == k) ==> Distinct(r)
  {
    var h := MedicineResults(medicines, q);
    PageSorted(h, skip, limit, NameOrder);
    PageMembers(h, skip, limit);
    assert Distinct(h) ==> Distinct(Page(h, skip, limit)) by {
      if Distinct(h) {
        PageDistinct(h, skip, limit);
      }
    }
    Page(h, skip, limit)
  }

  /** Whatever the page size, every medicine whose name contains `q` (every medicine, for an empty or absent `q`) is on some page. */
  lemma SearchMedicinesComplete(medicines: map<int, Medicine>, q: Option<string>, limit: nat, k: int)
    requires limit > 0 && k in medicines
    requires FilterText(q).None? || Contains(medicines[k].name, FilterText(q).value)
    ensures exists page: nat :: medicines[k] in SearchMedicines(medicines, q, Offset(page, limit), limit)
  {
    var h := MedicineResults(medicines, q);
    assert medicines[k] in medicines.Values;
    EveryRowPaged(h, medicines[k], limit);
    var page: nat :| medicines[k] in Page(h, Offset(page, limit), limit);
    assert medicines[k] in SearchMedicines(medicines, q, Offset(page, limit), limit);
  }

  /** `max(0, quantity + delta)`. */
  function Restock(quantity: int, delta: int): (r: int)
    ensures r >= 0
    ensures quantity + delta >= 0 ==> r == quantity + delta
    ensures quantity + delta < 0 ==> r == 0
  {
    if quantity + delta > 0 then quantity + delta else 0
  }

  /** The medicines table after `adjust_medicine_stock(id, delta)` (unchanged when there is no such row). */
  function Restocked(medicines: map<int, Medicine>, id: int, delta: int): map<int, Medicine> {
    if id in medicines then medicines[id := medicines[id].(quantity := Restock(medicines[id].quantity, delta))] else medicines
  }

  /** `adjust_medicine_stock`: None and no change for an unknown id; otherwise only the quantity changes, clamped at zero. */
  method AdjustMedicineStock(db: Database, id: int, delta: int) returns (r: Option<Medicine>)
    requires db.Valid()
    modifies db`medicines
    ensures db.Valid()
    ensures db.medicines == Restocked(old(db.medicines), id, delta)
    ensures r == GetMedicine(db.medicines, id)
  {
    var found := GetMedicine(db.medicines, id);
    if found.None? {
      return None;
    }
    var m := found.value.(quantity := Restock(found.value.quantity, delta));
    db.medicines := db.medicines[id := m];
    r := Some(m);
  }

  /** An adjusted row is never negative, whatever it held before; no other row and no other column changes. */
  lemma RestockedSpec(medicines: map<int, Medicine>, id: int, delta: int)
    requires id in medicines
    ensures Restocked(medicines, id, delta).Keys == medicines.Keys
    ensures Restocked(medicines, id, delta)[id].quantity >= 0
    ensures Restocked(medicines, id, delta)[id] == medicines[id].(quantity := Restocked(medicines, id, delta)[id].quantity)
    ensures forall k :: k in medicines && k != id ==> Restocked(medicines, id, delta)[k] == medicines[k]
  {
  }

  // -------------------------------------------------------------------------
  // Users

  /** `get_user_by_username`: the row with that username, if any. */
  function GetUserByUsername(users: map<int, User>, username: string): (r: Option<User>)
    ensures r.Some? ==> r.value in users.Values && r.value.username == username
    ensures r.None? ==> forall k :: k in users ==> users[k].username != username
  {
    var hits := Filter(Rows(users), (u: User) => u.username == username);
    if hits == [] then None else Some(hits[0])
  }

  /** With unique usernames, the row found is the one stored under its key. */
  lemma GetUserByUsernameUnique(users: map<int, User>, k: int)
    requires UniqueUsernames(users) && k in users
    ensures GetUserByUsername(users, users[k].username) == Some(users[k])
  {
    var r := GetUserByUsername(users, users[k].username);
    var j :| j in users && users[j] == r.value;
  }

  /** `create_user`: None and no row when the username is taken; otherwise a row holding the password's digest. */
  method CreateUser(db: Database, payload: UserCreate, salt: nat) returns (r: Option<User>)
    requires db.Valid()
    modifies db`users, db`nextUserId
    ensures db.Valid()
    ensures GetUserByUsername(old(db.users), payload.username).Some? ==>
      r.None? && db.users == old(db.users) && db.nextUserId == old(db.nextUserId)
    ensures GetUserByUsername(old(db.users), payload.username).None? ==>
      && r == Some(NewUser(old(db.nextUserId), payload, salt))
      && old(db.nextUserId) !in old(db.users)
      && db.users == old(db.users)[old(db.nextUserId) := r.value]
      && db.nextUserId == old(db.nextUserId) + 1
  {
    if GetUserByUsername(db.users, payload.username).Some? {
      return None;
    }
    var u := NewUser(db.nextUserId, payload, salt);
    AddKeepsUsernamesUnique(db.users, u.id, u);
    db.users := db.users[u.id := u];
    db.nextUserId := db.nextUserId + 1;
    r := Some(u);
  }

  /** `authenticate_user`: the row for `username` when its digest verifies `password`; None otherwise. */
  function AuthenticateUser(users: map<int, User>, username: string, password: string): (r: Option<User>)
    ensures r.Some? ==> r.value in users.Values && r.value.username == username
                        && VerifyPassword(password, r.value.hashedPassword)
    ensures (forall k :: k in users ==> users[k].username != username) ==> r.None?
    ensures forall k :: UniqueUsernames(users) && k in users && users[k].username == username ==>
              (r.Some? <==> VerifyPassword(password, users[k].hashedPassword))
  {
    match GetUserByUsername(users, username)
    case None => None
    case Some(u) =>
      if !VerifyPassword(password, u.hashedPassword) then None
      else
        assert forall k :: UniqueUsernames(users) && k in users && users[k].username == username ==> users[k] == u by {
          forall k | UniqueUsernames(users) && k in users && users[k].username == username ensures users[k] == u {
            var j :| j in users && users[j] == u;
          }
        }
        Some(u)
  }

  /** A user registered with `password` logs in with exactly that password and gets the new row back. */
  lemma AuthenticateNewUser(users: map<int, User>, id: int, payload: UserCreate, salt: nat, attempt: string)
    requires UniqueUsernames(users) && id !in users
    requires forall k :: k in users ==> users[k].username != payload.username
    ensures AuthenticateUser(users[id := NewUser(id, payload, salt)], payload.username, attempt)
         == if attempt == payload.password then Some(NewUser(id, payload, salt)) else None
  {
    var u := NewUser(id, payload, salt);
    var after := users[id := u];
    AddKeepsUsernamesUnique(users, id, u);
    GetUserByUsernameUnique(after, id);
    HashVerifiesExactly(payload.password, attempt, salt);
  }
}
