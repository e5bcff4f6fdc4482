/**
 * The database behind the SQLAlchemy session: one map per table from
 * primary key to row, and per table the next key SQLite will hand out
 * (rows are never deleted, so keys only grow).
 */
module Store {
  import opened Models

  ghost predicate PatientsKeyed(patients: map<int, Patient>, next: int) {
    0 < next && forall k :: k in patients ==> 0 < k < next && patients[k].id == k
  }

  ghost predicate AppointmentsKeyed(appointments: map<int, Appointment>, next: int, patients: map<int, Patient>) {
    0 < next && forall k :: k in appointments ==>
      0 < k < next && appointments[k].id == k && appointments[k].patientId in patients
  }

  ghost predicate MedicinesKeyed(medicines: map<int, Medicine>, next: int) {
    0 < next && forall k :: k in medicines ==> 0 < k < next && medicines[k].id == k
  }

  ghost predicate UsersKeyed(users: map<int, User>, next: int) {
    && 0 < next && (forall k :: k in users ==> 0 < k < next && users[k].id == k)
    && UniqueUsernames(users)
  }

  class Database {
    var patients: map<int, Patient>
    var appointments: map<int, Appointment>
    var medicines: map<int, Medicine>
    var users: map<int, User>
    var nextPatientId: int
    var nextAppointmentId: int
    var nextMedicineId: int
    var nextUserId: int

    /**
     * Keys are the rows' `id` columns and lie below the next key to be used;
     * every appointment's patient exists (the foreign key, which the code
     * checks since SQLite does not); usernames are unique.
     */
    ghost predicate Valid()
      reads this
    {
      && PatientsKeyed(patients, nextPatientId)
      && AppointmentsKeyed(appointments, nextAppointmentId, patients)
      && MedicinesKeyed(medicines, nextMedicineId)
      && UsersKeyed(users, nextUserId)
    }

    /** `Base.metadata.create_all`: four empty tables. */
    constructor ()
      ensures Valid()
      ensures patients == map[] && appointments == map[] && medicines == map[] && users == map[]
      ensures nextPatientId == 1 && nextAppointmentId == 1 && nextMedicineId == 1 && nextUserId == 1
    {
      patients, appointments, medicines, users := map[], map[], map[], map[];
      nextPatientId, nextAppointmentId, nextMedicineId, nextUserId := 1, 1, 1, 1;
    }
  }
}
