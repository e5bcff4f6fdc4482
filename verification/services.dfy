/**
 * app/services: one class per table, each holding the database session it
 * was built with. Their writes are the ones of app/crud.py, except where
 * noted; their reads are the queries of the `Crud` module.
 */
module Services {
  import opened Wrappers
  import opened Models
  import opened Store
  import Crud

  /** app/services/patient_service.py */
  class PatientService {
    const db: Database

    constructor (db: Database)
      ensures this.db == db
    {
      this.db := db;
    }

    method Create(payload: PatientCreate) returns (p: Patient)
      requires db.Valid()
      modifies db`patients, db`nextPatientId
      ensures db.Valid()
      ensures p == NewPatient(old(db.nextPatientId), payload) && p.id !in old(db.patients)
      ensures db.patients == old(db.patients)[p.id := p]
      ensures db.nextPatientId == old(db.nextPatientId) + 1
    {
      p := Crud.CreatePatient(db, payload);
    }
  }

  /** app/services/appointment_service.py */
  class AppointmentService {
    const db: Database

    constructor (db: Database)
      ensures this.db == db
    {
      this.db := db;
    }

    /** Raises `ValueError("Patient not found")`, modelled as `Err`, when the patient does not exist. */
    method Create(payload: AppointmentCreate, now: int) returns (r: Result<Appointment, string>)
      requires db.Valid()
      modifies db`appointments, db`nextAppointmentId
      ensures db.Valid()
      ensures payload.patientId !in db.patients ==>
        && r == Err("Patient not found")
        && db.appointments == old(db.appointments) && db.nextAppointmentId == old(db.nextAppointmentId)
      ensures payload.patientId in db.patients ==>
        && r == Ok(NewAppointment(old(db.nextAppointmentId), payload, now))
        && db.appointments == old(db.appointments)[old(db.nextAppointmentId) := r.value]
        && db.nextAppointmentId == old(db.nextAppointmentId) + 1
    {
      r := Crud.CreateAppointment(db, payload, now);
    }

    method Reschedule(id: int, newTime: int) returns (r: Option<Appointment>)
      requires db.Valid()
      modifies db`appointments
      ensures db.Valid()
      ensures db.appointments == Crud.Rescheduled(old(db.appointments), id, newTime)
      ensures r == Crud.GetAppointment(db.appointments, id)
    {
      r := Crud.RescheduleAppointment(db, id, newTime);
    }

    /** `cancel`: the status becomes "canceled"; None and no change for an unknown id. */
    method Cancel(id: int) returns (r: Option<Appointment>)
      requires db.Valid()
      modifies db`appointments
      ensures db.Valid()
      ensures db.appointments == Crud.WithStatus(old(db.appointments), id, CANCELED)
      ensures r == Crud.GetAppointment(db.appointments, id)
    {
      r := Crud.UpdateAppointmentStatus(db, id, CANCELED);
    }
  }

  /** app/services/medicine_service.py */
  class MedicineService {
    const db: Database

    constructor (db: Database)
      ensures this.db == db
    {
      this.db := db;
    }

    method Create(payload: MedicineCreate) returns (m: Medicine)
      requires db.Valid()
      modifies db`medicines, db`nextMedicineId
      ensures db.Valid()
      ensures m == NewMedicine(old(db.nextMedicineId), payload) && m.id !in old(db.medicines)
      ensures db.medicines == old(db.medicines)[m.id := m]
      ensures db.nextMedicineId == old(db.nextMedicineId) + 1
    {
      m := Crud.CreateMedicine(db, payload);
    }

    method Adjust(id: int, delta: int) returns (r: Option<Medicine>)
      requires db.Valid()
      modifies db`medicines
      ensures db.Valid()
      ensures db.medicines == Crud.Restocked(old(db.medicines), id, delta)
      ensures r == Crud.GetMedicine(db.medicines, id)
    {
      r := Crud.AdjustMedicineStock(db, id, delta);
    }
  }

  /** What the unique constraint on `users.username` raises at commit. */
  const INTEGRITY_ERROR := "IntegrityError: UNIQUE constraint failed: users.username"

  /** app/services/user_service.py */
  class UserService {
    const db: Database

    constructor (db: Database)
      ensures this.db == db
    {
      this.db := db;
    }

    /**
     * `create` does not look for an existing user: a taken username reaches
     * the database, whose unique constraint refuses the row.
     */
    method Create(payload: UserCreate, salt: nat) returns (r: Result<User, string>)
      requires db.Valid()
      modifies db`users, db`nextUserId
      ensures db.Valid()
      ensures Crud.GetUserByUsername(old(db.users), payload.username).Some? ==>
        r == Err(INTEGRITY_ERROR) && db.users == old(db.users) && db.nextUserId == old(db.nextUserId)
      ensures Crud.GetUserByUsername(old(db.users), payload.username).None? ==>
        && r == Ok(NewUser(old(db.nextUserId), payload, salt))
        && db.users == old(db.users)[old(db.nextUserId) := r.value]
        && db.nextUserId == old(db.nextUserId) + 1
    {
      var created := Crud.CreateUser(db, payload, salt);
      r := if created.Some? then Ok(created.value) else Err(INTEGRITY_ERROR);
    }
  }
}
