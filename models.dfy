/**
  The rows of the four tables (users, doctors, doctor_schedules, appointments), the two
  enumerations and the column defaults.
 */
module Models {
  import opened Wrappers
  import opened DateTime

  // ---------------------------------------------------------------- enumerations

  datatype Role = Admin | Patient

  /** The stored value of a role: `UserRole.X.value`. */
  function RoleValue(r: Role): (v: string)
    ensures v == "ADMIN" <==> r == Admin
    ensures v == "PATIENT" <==> r == Patient
  {
    match r
    case Admin => "ADMIN"
    case Patient => "PATIENT"
  }

  /** `role = Column(Enum(UserRole), default=UserRole.PATIENT)`. */
  const DefaultRole: Role := Patient

  datatype DayOfWeek = Monday | Tuesday | Wednesday | Thursday | Friday | Saturday | Sunday

  /** The stored value of a day: `DayOfWeek.X.value`. */
  function DayValue(d: DayOfWeek): string
  {
    match d
    case Monday => "MONDAY"
    case Tuesday => "TUESDAY"
    case Wednesday => "WEDNESDAY"
    case Thursday => "THURSDAY"
    case Friday => "FRIDAY"
    case Saturday => "SATURDAY"
    case Sunday => "SUNDAY"
  }

  /** The members of `DayOfWeek` in declaration order: seven days with seven distinct values. */
  function AllDays(): (days: seq<DayOfWeek>)
    ensures |days| == 7
    ensures forall i, j :: 0 <= i < j < |days| ==> DayValue(days[i]) != DayValue(days[j])
  {
    [Monday, Tuesday, Wednesday, Thursday, Friday, Saturday, Sunday]
  }

  lemma AllDaysComplete(d: DayOfWeek)
    ensures d in AllDays()
  {
    match d
    case Monday =>
    case Tuesday =>
    case Wednesday =>
    case Thursday =>
    case Friday =>
    case Saturday =>
    case Sunday =>
  }

  /** The status column holds one of the two strings the handlers write. */
  datatype Status = Pending | Cancelled

  function StatusValue(s: Status): (v: string)
    ensures v == "CANCELLED" <==> s == Cancelled
  {
    match s
    case Pending => "PENDING"
    case Cancelled => "CANCELLED"
  }

  /** `status = Column(String(20), default="PENDING")`. */
  const DefaultStatus: Status := Pending

  /** `duration_minutes = Column(Integer, default=60)`. */
  const DefaultDurationMinutes: int := 60

  // ---------------------------------------------------------------- rows

  datatype User = User(id: int, name: string, email: string, passwordHash: string, role: Role)

  datatype Doctor = Doctor(
    id: int, name: string, email: string, specialty: string, bio: Option<string>,
    durationMinutes: int)

  datatype Schedule = Schedule(
    id: int, doctorId: int, day: DayOfWeek, startTime: Minute, endTime: Minute)

  datatype Appointment = Appointment(
    id: int, doctorId: int, patientId: int, date: Date, time: Minute, status: Status)

  /** A booking that still holds its slot: `status != "CANCELLED"`. */
  predicate Active(a: Appointment)
  {
    a.status != Cancelled
  }

  // ---------------------------------------------------------------- columns used as keys

  function UserId(u: User): int { u.id }
  function UserEmail(u: User): string { u.email }
  function DoctorId(d: Doctor): int { d.id }
  function DoctorEmail(d: Doctor): string { d.email }
  function ScheduleId(s: Schedule): int { s.id }
  function ScheduleDoctor(s: Schedule): int { s.doctorId }
  function ScheduleDay(s: Schedule): (int, DayOfWeek) { (s.doctorId, s.day) }
  function AppointmentId(a: Appointment): int { a.id }
  function AppointmentDoctor(a: Appointment): int { a.doctorId }
  function AppointmentPatient(a: Appointment): int { a.patientId }
}
