/**
 * app/routers/appointments.py: the `/appointments` endpoints. Each first
 * passes its role gate, then validates its query parameters, then calls
 * `AppointmentService`.
 */
module AppointmentRoutes {
  import opened Wrappers
  import opened Models
  import opened Store
  import opened Http
  import opened Tables
  import opened Auth
  import opened Services
  import Crud

  /** Roles that may reschedule. */
  const RESCHEDULE_ROLES: set<string> := {"doctor", "admin"}

  const APPOINTMENT_NOT_FOUND := HttpError(404, "Appointment not found")

  /** `POST /appointments`: 201 with the new row, or 404 when the patient does not exist. */
  method Create(db: Database, token: string, now: int, payload: AppointmentCreate) returns (reply: Reply<Appointment>)
    requires db.Valid()
    modifies db`appointments, db`nextAppointmentId
    ensures db.Valid()
    ensures RequireRoles(CLINIC_ROLES, db.users, token, now).Err? ==>
      && reply == Refused(RequireRoles(CLINIC_ROLES, db.users, token, now).error)
      && db.appointments == old(db.appointments) && db.nextAppointmentId == old(db.nextAppointmentId)
    ensures RequireRoles(CLINIC_ROLES, db.users, token, now).Ok? && payload.patientId !in db.patients ==>
      && reply == Refused(PATIENT_NOT_FOUND)
      && db.appointments == old(db.appointments) && db.nextAppointmentId == old(db.nextAppointmentId)
    ensures RequireRoles(CLINIC_ROLES, db.users, token, now).Ok? && payload.patientId in db.patients ==>
      && reply == Success(201, NewAppointment(old(db.nextAppointmentId), payload, now))
      && db.appointments == old(db.appointments)[old(db.nextAppointmentId) := reply.body]
      && db.nextAppointmentId == old(db.nextAppointmentId) + 1
  {
    var gate := RequireRoles(CLINIC_ROLES, db.users, token, now);
    if gate.Err? {
      return Refused(gate.error);
    }
    var svc := new AppointmentService(db);
    var r := svc.Create(payload, now);
    if r.Ok? {
      reply := Success(201, r.value);
    } else {
      assert payload.patientId !in db.patients;
      reply := Refused(PATIENT_NOT_FOUND);
    }
  }

  /** `PATCH /appointments/{id}/reschedule`: 200 with the row at its new time, or 404. */
  method Reschedule(db: Database, token: string, now: int, id: int, newTime: int) returns (reply: Reply<Appointment>)
    requires db.Valid()
    modifies db`appointments
    ensures db.Valid()
    ensures RequireRoles(RESCHEDULE_ROLES, db.users, token, now).Err? ==>
      reply == Refused(RequireRoles(RESCHEDULE_ROLES, db.users, token, now).error) && db.appointments == old(db.appointments)
    ensures RequireRoles(RESCHEDULE_ROLES, db.users, token, now).Ok? ==>
      && db.appointments == Crud.Rescheduled(old(db.appointments), id, newTime)
      && reply == if id in db.appointments then Success(200, db.appointments[id]) else Refused(APPOINTMENT_NOT_FOUND)
  {
    var gate := RequireRoles(RESCHEDULE_ROLES, db.users, token, now);
    if gate.Err? {
      return Refused(gate.error);
    }
    var svc := new AppointmentService(db);
    var r := svc.Reschedule(id, newTime);
    reply := if r.Some? then Success(200, r.value) else Refused(APPOINTMENT_NOT_FOUND);
  }

  /** `PATCH /appointments/{id}/cancel`: 200 with the canceled row, or 404. */
  method Cancel(db: Database, token: string, now: int, id: int) returns (reply: Reply<Appointment>)
    requires db.Valid()
    modifies db`appointments
    ensures db.Valid()
    ensures RequireRoles(CLINIC_ROLES, db.users, token, now).Err? ==>
      reply == Refused(RequireRoles(CLINIC_ROLES, db.users, token, now).error) && db.appointments == old(db.appointments)
    ensures RequireRoles(CLINIC_ROLES, db.users, token, now).Ok? ==>
      && db.appointments == Crud.WithStatus(old(db.appointments), id, CANCELED)
      && reply == if id in db.appointments then Success(200, db.appointments[id]) else Refused(APPOINTMENT_NOT_FOUND)
  {
    var gate := RequireRoles(CLINIC_ROLES, db.users, token, now);
    if gate.Err? {
      return Refused(gate.error);
    }
    var svc := new AppointmentService(db);
    var r := svc.Cancel(id);
    reply := if r.Some? then Success(200, r.value) else Refused(APPOINTMENT_NOT_FOUND);
  }

  /** `GET /appointments?page=&status=`: ten appointments per page, by time. */
  function List(db: Database, token: string, now: int, page: int, status: Option<string>): (r: Reply<seq<Appointment>>)
    reads db
    ensures RequireRoles(CLINIC_ROLES, db.users, token, now).Err? ==> r == Refused(RequireRoles(CLINIC_ROLES, db.users, token, now).error)
    ensures RequireRoles(CLINIC_ROLES, db.users, token, now).Ok? && page < 1 ==> r == Refused(INVALID_PAGE)
    ensures RequireRoles(CLINIC_ROLES, db.users, token, now).Ok? && page >= 1 ==> r.Success?
    ensures r.Success? ==> && page >= 1 && r.status == 200 && |r.body| <= PER_PAGE
                           && r.body == Crud.ListAppointments(db.appointments, SkipFor(page), PER_PAGE, status)
  {
    match RequireRoles(CLINIC_ROLES, db.users, token, now)
    case Err(e) => Refused(e)
    case Ok(_) =>
      if page < 1 then Refused(INVALID_PAGE)
      else Success(200, Crud.ListAppointments(db.appointments, SkipFor(page), PER_PAGE, status))
  }

  /**
   * Paging shows every row: for a permitted caller, row `i` of the ordered
   * results is on page `i / 10 + 1`, at position `i % 10`.
   */
  lemma ListShowsEveryRow(db: Database, token: string, now: int, status: Option<string>, i: nat)
    requires RequireRoles(CLINIC_ROLES, db.users, token, now).Ok?
    requires i < |Crud.AppointmentResults(db.appointments, status)|
    ensures var r := List(db, token, now, i / PER_PAGE + 1, status);
            && r.Success? && i % PER_PAGE < |r.body|
            && r.body[i % PER_PAGE] == Crud.AppointmentResults(db.appointments, status)[i]
  {
    var h := Crud.AppointmentResults(db.appointments, status);
    PageOfRow(h, i);
    var page := i / PER_PAGE + 1;
    assert Crud.ListAppointments(db.appointments, SkipFor(page), PER_PAGE, status) == Page(h, SkipFor(page), PER_PAGE);
  }
}
