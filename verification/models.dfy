/**
 * The four tables of app/models.py as records, and the request payloads of
 * app/schemas.py that create them. Nullable text columns are `Option<string>`;
 * timestamps are whole seconds since the epoch.
 */
module Models {
  import opened Wrappers
  import opened Passwords

  datatype Patient = Patient(
    id: int,
    firstName: string,
    lastName: Option<string>,
    dob: Option<string>,
    gender: Option<string>,
    phone: Option<string>,
    email: Option<string>,
    address: Option<string>,
    medicalHistory: Option<string>)

  datatype PatientCreate = PatientCreate(
    firstName: string,
    lastName: Option<string>,
    dob: Option<string>,
    gender: Option<string>,
    phone: Option<string>,
    email: Option<string>,
    address: Option<string>,
    medicalHistory: Option<string>)

  /** `Patient(**payload.dict())` once the database has given it `id`. */
  function NewPatient(id: int, payload: PatientCreate): Patient {
    Patient(id, payload.firstName, payload.lastName, payload.dob, payload.gender,
            payload.phone, payload.email, payload.address, payload.medicalHistory)
  }

  /** The column default of `Appointment.status`. */
  const SCHEDULED := "scheduled"
  /** The status `AppointmentService.cancel` writes. */
  const CANCELED := "canceled"

  datatype Appointment = Appointment(
    id: int,
    patientId: int,
    scheduledAt: int,
    reason: Option<string>,
    status: string,
    createdAt: int)

  datatype AppointmentCreate = AppointmentCreate(patientId: int, scheduledAt: int, reason: Option<string>)

  /** A new appointment: the payload's three fields, the default status, created `now`. */
  function NewAppointment(id: int, payload: AppointmentCreate, now: int): Appointment {
    Appointment(id, payload.patientId, payload.scheduledAt, payload.reason, SCHEDULED, now)
  }

  datatype Medicine = Medicine(
    id: int,
    name: string,
    manufacturer: Option<string>,
    quantity: int,
    description: Option<string>,
    reorderThreshold: int)

  /** The schema fills in `quantity` 0 and `reorder_threshold` 5 when a request omits them. */
  datatype MedicineCreate = MedicineCreate(
    name: string,
    manufacturer: Option<string>,
    quantity: int,
    description: Option<string>,
    reorderThreshold: int)

  function NewMedicine(id: int, payload: MedicineCreate): Medicine {
    Medicine(id, payload.name, payload.manufacturer, payload.quantity, payload.description, payload.reorderThreshold)
  }

  datatype User = User(
    id: int,
    username: string,
    fullName: Option<string>,
    role: string,
    hashedPassword: Digest)

  /** The schema fills in role "staff" when a request omits it. */
  datatype UserCreate = UserCreate(username: string, fullName: Option<string>, role: string, password: string)

  /** A new user keeps the digest of the password drawn with `salt`, not the password. */
  function NewUser(id: int, payload: UserCreate, salt: nat): User {
    User(id, payload.username, payload.fullName, payload.role, PasswordHash(payload.password, salt))
  }

  /** The `unique=True` constraint on `users.username`. */
  ghost predicate UniqueUsernames(users: map<int, User>) {
    forall j, k :: j in users && k in users && users[j].username == users[k].username ==> j == k
  }

  /** Adding a row whose username no other row has keeps usernames unique. */
  lemma AddKeepsUsernamesUnique(users: map<int, User>, id: int, u: User)
    requires UniqueUsernames(users) && id !in users
    requires forall k :: k in users ==> users[k].username != u.username
    ensures UniqueUsernames(users[id := u])
  {
  }
}
