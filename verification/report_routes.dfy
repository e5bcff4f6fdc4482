/** app/routers/reports.py: the clinic overview for admins and doctors. */
module ReportRoutes {
  import opened Models
  import opened Store
  import opened Http
  import opened Auth
  import opened Tables
  import Crud

  const REPORT_ROLES: set<string> := {"admin", "doctor"}

  datatype Overview = Overview(totalPatients: nat, upcomingAppointments: nat, lowStockMedicines: nat)

  /** Counted as upcoming: scheduled now or later and still "scheduled". */
  predicate Upcoming(a: Appointment, now: int) {
    a.scheduledAt >= now && a.status == SCHEDULED
  }

  /** Counted as low stock: at or below its reorder threshold. */
  predicate LowStock(m: Medicine) {
    m.quantity <= m.reorderThreshold
  }

  /** The appointments `reports.py` counts as upcoming. */
  function UpcomingIds(appointments: map<int, Appointment>, now: int): set<int> {
    set k | k in appointments && Upcoming(appointments[k], now)
  }

  /** The medicines `reports.py` counts as low on stock. */
  function LowStockIds(medicines: map<int, Medicine>): set<int> {
    set k | k in medicines && LowStock(medicines[k])
  }

  /** The three counts; neither filtered count exceeds the size of its table. */
  function Summary(patients: map<int, Patient>, appointments: map<int, Appointment>, medicines: map<int, Medicine>, now: int): (o: Overview)
    ensures o.totalPatients == |patients|
    ensures o.upcomingAppointments == |UpcomingIds(appointments, now)|
    ensures o.lowStockMedicines == |LowStockIds(medicines)|
    ensures o.upcomingAppointments <= |appointments| && o.lowStockMedicines <= |medicines|
  {
    SubsetSize(UpcomingIds(appointments, now), appointments.Keys);
    SubsetSize(LowStockIds(medicines), medicines.Keys);
    Overview(|patients|, |UpcomingIds(appointments, now)|, |LowStockIds(medicines)|)
  }

  /** `GET /reports/overview`. */
  function OverviewReport(db: Database, token: string, now: int): (r: Reply<Overview>)
    reads db
    ensures RequireRoles(REPORT_ROLES, db.users, token, now).Err? ==> r == Refused(RequireRoles(REPORT_ROLES, db.users, token, now).error)
    ensures RequireRoles(REPORT_ROLES, db.users, token, now).Ok? ==>
      && r.Success? && r.status == 200 && r.body.totalPatients == |db.patients|
      && r.body.upcomingAppointments <= |db.appointments| && r.body.lowStockMedicines <= |db.medicines|
      && r.body == Summary(db.patients, db.appointments, db.medicines, now)
  {
    match RequireRoles(REPORT_ROLES, db.users, token, now)
    case Err(e) => Refused(e)
    case Ok(_) => Success(200, Summary(db.patients, db.appointments, db.medicines, now))
  }

  /** Canceling an appointment removes it from the upcoming count when it was counted, and changes nothing else. */
  lemma CancelUpdatesUpcoming(appointments: map<int, Appointment>, id: int, now: int)
    requires id in appointments
    ensures |UpcomingIds(Crud.WithStatus(appointments, id, CANCELED), now)|
         == |UpcomingIds(appointments, now)| - if Upcoming(appointments[id], now) then 1 else 0
  {
    var after := Crud.WithStatus(appointments, id, CANCELED);
    assert UpcomingIds(after, now) == UpcomingIds(appointments, now) - {id};
  }

  /** Booking adds one to the upcoming count exactly when the new appointment is not in the past. */
  lemma BookingUpdatesUpcoming(appointments: map<int, Appointment>, id: int, payload: AppointmentCreate, created: int, now: int)
    requires id !in appointments
    ensures |UpcomingIds(appointments[id := NewAppointment(id, payload, created)], now)|
         == |UpcomingIds(appointments, now)| + if payload.scheduledAt >= now then 1 else 0
  {
    var after := appointments[id := NewAppointment(id, payload, created)];
    if payload.scheduledAt >= now {
      assert UpcomingIds(after, now) == UpcomingIds(appointments, now) + {id};
    } else {
      assert UpcomingIds(after, now) == UpcomingIds(appointments, now);
    }
  }

  /** As time passes the upcoming count can only fall. */
  lemma UpcomingShrinks(appointments: map<int, Appointment>, t1: int, t2: int)
    requires t1 <= t2
    ensures |UpcomingIds(appointments, t2)| <= |UpcomingIds(appointments, t1)|
  {
    forall k | k in UpcomingIds(appointments, t2) ensures k in UpcomingIds(appointments, t1) {
      assert Upcoming(appointments[k], t1);
    }
    SubsetSize(UpcomingIds(appointments, t2), UpcomingIds(appointments, t1));
  }

  /** Restocking (a non-negative delta) never adds a medicine to the low-stock count. */
  lemma RestockShrinksLowStock(medicines: map<int, Medicine>, id: int, delta: int)
    requires delta >= 0
    ensures |LowStockIds(Crud.Restocked(medicines, id, delta))| <= |LowStockIds(medicines)|
  {
    SubsetSize(LowStockIds(Crud.Restocked(medicines, id, delta)), LowStockIds(medicines));
  }
}
