/**
  The relational store: the four tables, the constraints the schema declares (primary keys,
  `unique=True` emails, foreign keys with `ondelete="CASCADE"`), and the rules the handlers
  keep on top of them (one schedule per doctor and day, end after start, no two live bookings
  of one slot, a non-zero duration). Every write of a handler is one atomic commit.
 */
module Store {
  import opened Wrappers
  import opened DateTime
  import opened Models
  import opened Tables

  ghost predicate UsersOk(users: seq<User>)
  {
    UniqueBy(users, UserId) && Determines(users, UserEmail)
  }

  ghost predicate DoctorsOk(doctors: seq<Doctor>)
  {
    && UniqueBy(doctors, DoctorId)
    && Determines(doctors, DoctorEmail)
    && forall d :: d in doctors ==> d.durationMinutes != 0
  }

  ghost predicate SchedulesOk(schedules: seq<Schedule>, doctors: seq<Doctor>)
  {
    && UniqueBy(schedules, ScheduleId)
    && Determines(schedules, ScheduleDay)
    && forall s :: s in schedules ==> s.startTime < s.endTime && HasKey(doctors, DoctorId, s.doctorId)
  }

  /** Two live bookings never share (doctor, date, time): the one conflict rule. */
  ghost predicate NoDoubleBooking(appointments: seq<Appointment>)
  {
    forall a, b ::
      (a in appointments && b in appointments && Active(a) && Active(b) &&
       a.doctorId == b.doctorId && a.date == b.date && a.time == b.time) ==> a == b
  }

  ghost predicate AppointmentsOk(appointments: seq<Appointment>, doctors: seq<Doctor>, users: seq<User>)
  {
    && UniqueBy(appointments, AppointmentId)
    && NoDoubleBooking(appointments)
    && forall a :: a in appointments ==>
         HasKey(doctors, DoctorId, a.doctorId) && HasKey(users, UserId, a.patientId)
  }

  ghost predicate Consistent(
    users: seq<User>, doctors: seq<Doctor>, schedules: seq<Schedule>, appointments: seq<Appointment>)
  {
    UsersOk(users) && DoctorsOk(doctors) && SchedulesOk(schedules, doctors) &&
    AppointmentsOk(appointments, doctors, users)
  }

  /** A live booking holds the slot (doctor, date, time). */
  ghost predicate SlotTaken(appointments: seq<Appointment>, doctorId: int, date: Date, time: Minute)
  {
    exists a :: a in appointments && Active(a) && a.doctorId == doctorId && a.date == date && a.time == time
  }

  /** The store, one sequence per table in rowid order. */
  class Database {
    var users: seq<User>
    var doctors: seq<Doctor>
    var schedules: seq<Schedule>
    var appointments: seq<Appointment>

    ghost predicate Valid()
      reads this
    {
      Consistent(users, doctors, schedules, appointments)
    }

    constructor ()
      ensures Valid()
      ensures users == [] && doctors == [] && schedules == [] && appointments == []
    {
      users, doctors, schedules, appointments := [], [], [], [];
    }
  }

  // ---------------------------------------------------------------- what each commit keeps

  lemma InsertUserKeeps(
    users: seq<User>, doctors: seq<Doctor>, schedules: seq<Schedule>, appointments: seq<Appointment>, u: User)
    requires Consistent(users, doctors, schedules, appointments)
    requires u.id == NextKey(users, UserId)
    requires !HasKey(users, UserEmail, u.email)
    ensures Consistent(users + [u], doctors, schedules, appointments)
  {
    AppendFreshKeepsUnique(users, u, UserId);
    var users' := users + [u];
    forall a | a in appointments ensures HasKey(users', UserId, a.patientId) {
      var x :| x in users && UserId(x) == a.patientId;
      assert x in users';
    }
  }

  lemma InsertDoctorKeeps(
    users: seq<User>, doctors: seq<Doctor>, schedules: seq<Schedule>, appointments: seq<Appointment>, d: Doctor)
    requires Consistent(users, doctors, schedules, appointments)
    requires d.id == NextKey(doctors, DoctorId)
    requires !HasKey(doctors, DoctorEmail, d.email)
    requires d.durationMinutes != 0
    ensures Consistent(users, doctors + [d], schedules, appointments)
  {
    AppendFreshKeepsUnique(doctors, d, DoctorId);
    var doctors' := doctors + [d];
    forall s | s in schedules ensures HasKey(doctors', DoctorId, s.doctorId) {
      var x :| x in doctors && DoctorId(x) == s.doctorId;
      assert x in doctors';
    }
    forall a | a in appointments ensures HasKey(doctors', DoctorId, a.doctorId) {
      var x :| x in doctors && DoctorId(x) == a.doctorId;
      assert x in doctors';
    }
  }

  lemma InsertScheduleKeeps(
    users: seq<User>, doctors: seq<Doctor>, schedules: seq<Schedule>, appointments: seq<Appointment>, s: Schedule)
    requires Consistent(users, doctors, schedules, appointments)
    requires s.id == NextKey(schedules, ScheduleId)
    requires HasKey(doctors, DoctorId, s.doctorId)
    requires s.startTime < s.endTime
    requires !HasKey(schedules, ScheduleDay, ScheduleDay(s))
    ensures Consistent(users, doctors, schedules + [s], appointments)
  {
    AppendFreshKeepsUnique(schedules, s, ScheduleId);
  }

  lemma InsertAppointmentKeeps(
    users: seq<User>, doctors: seq<Doctor>, schedules: seq<Schedule>, appointments: seq<Appointment>, a: Appointment)
    requires Consistent(users, doctors, schedules, appointments)
    requires a.id == NextKey(appointments, AppointmentId)
    requires HasKey(doctors, DoctorId, a.doctorId) && HasKey(users, UserId, a.patientId)
    requires !SlotTaken(appointments, a.doctorId, a.date, a.time)
    ensures Consistent(users, doctors, schedules, appointments + [a])
  {
    AppendFreshKeepsUnique(appointments, a, AppointmentId);
  }

  /** Setting one booking's status to CANCELLED. */
  lemma CancelKeeps(
    users: seq<User>, doctors: seq<Doctor>, schedules: seq<Schedule>, appointments: seq<Appointment>, k: nat)
    requires Consistent(users, doctors, schedules, appointments)
    requires k < |appointments|
    ensures Consistent(users, doctors, schedules, appointments[k := appointments[k].(status := Cancelled)])
  {
    var old_ := appointments[k];
    var a' := appointments[k := old_.(status := Cancelled)];
    forall x | x in a' && x != a'[k] ensures x in appointments && x != old_ {
      var m :| 0 <= m < |a'| && a'[m] == x;
      assert m != k;
      assert appointments[m] == x;
      assert AppointmentId(appointments[m]) != AppointmentId(appointments[k]);
    }
    forall x | x in a' ensures HasKey(doctors, DoctorId, x.doctorId) && HasKey(users, UserId, x.patientId) {
      if x != a'[k] { assert x in appointments; } else { assert old_ in appointments; }
    }
    assert UniqueBy(a', AppointmentId) by {
      forall i, j | 0 <= i < j < |a'| ensures AppointmentId(a'[i]) != AppointmentId(a'[j]) {
        assert AppointmentId(a'[i]) == AppointmentId(appointments[i]);
        assert AppointmentId(a'[j]) == AppointmentId(appointments[j]);
      }
    }
  }

  /** `db.delete(schedule)`. */
  lemma DeleteScheduleKeeps(
    users: seq<User>, doctors: seq<Doctor>, schedules: seq<Schedule>, appointments: seq<Appointment>, id: int)
    requires Consistent(users, doctors, schedules, appointments)
    ensures Consistent(users, doctors, Filter(schedules, KeyIsNot(ScheduleId, id)), appointments)
  {
    FilterKeepsUnique(schedules, KeyIsNot(ScheduleId, id), ScheduleId);
  }

  /** `db.delete(doctor)` with `cascade="all, delete"` on the doctor's schedules and appointments. */
  lemma DeleteDoctorKeeps(
    users: seq<User>, doctors: seq<Doctor>, schedules: seq<Schedule>, appointments: seq<Appointment>, id: int)
    requires Consistent(users, doctors, schedules, appointments)
    ensures Consistent(users, Filter(doctors, KeyIsNot(DoctorId, id)),
                       Filter(schedules, KeyIsNot(ScheduleDoctor, id)),
                       Filter(appointments, KeyIsNot(AppointmentDoctor, id)))
  {
    var doctors' := Filter(doctors, KeyIsNot(DoctorId, id));
    var schedules' := Filter(schedules, KeyIsNot(ScheduleDoctor, id));
    var appointments' := Filter(appointments, KeyIsNot(AppointmentDoctor, id));
    FilterKeepsUnique(doctors, KeyIsNot(DoctorId, id), DoctorId);
    FilterKeepsUnique(schedules, KeyIsNot(ScheduleDoctor, id), ScheduleId);
    FilterKeepsUnique(appointments, KeyIsNot(AppointmentDoctor, id), AppointmentId);
    forall s | s in schedules' ensures HasKey(doctors', DoctorId, s.doctorId) {
      var x :| x in doctors && DoctorId(x) == s.doctorId;
      assert KeyIsNot(DoctorId, id)(x);
      assert x in doctors';
    }
    forall a | a in appointments' ensures HasKey(doctors', DoctorId, a.doctorId) {
      var x :| x in doctors && DoctorId(x) == a.doctorId;
      assert KeyIsNot(DoctorId, id)(x);
      assert x in doctors';
    }
  }
}
