/** `/appointments`: booking and cancelling a slot, and the three listings of bookings. */
module AppointmentsRouter {
  import opened Wrappers
  import opened DateTime
  import opened Strptime
  import opened Models
  import opened Tables
  import opened Http
  import opened Store
  import opened AuthUtils
  import DoctorsRouter

  // ---------------------------------------------------------------- request and response bodies

  datatype AppointmentCreate = AppointmentCreate(doctorId: int, date: string, time: string)

  datatype DoctorInfo = DoctorInfo(id: int, name: string, specialty: string)

  datatype PatientInfo = PatientInfo(id: int, name: string)

  /** A booking as the patient and admin listings give it; `startAt`/`endAt` before `isoformat()`. */
  datatype AppointmentOut = AppointmentOut(
    id: int, startAt: Timestamp, endAt: Timestamp, status: string,
    doctor: Option<DoctorInfo>, patient: Option<PatientInfo>)

  /** A booking as the per-doctor listing gives it. */
  datatype SlotOut = SlotOut(id: int, startAt: Timestamp, endAt: Timestamp, status: string)

  const SlotAlreadyBooked: HttpError := HttpError(BadRequest, "This time slot is already booked")
  const AppointmentNotFound: HttpError := HttpError(NotFound, "Appointment not found")
  const NotAuthorized: HttpError := HttpError(Forbidden, "Not authorized")

  function InvalidDateTime(reason: string): HttpError
  {
    HttpError(BadRequest, "Invalid date/time format: " + reason)
  }

  // ---------------------------------------------------------------- relationship lookups

  /** `apt.doctor`: the doctor row the booking references, if it is still there. */
  function DoctorOf(doctors: seq<Doctor>, doctorId: int): (r: Option<Doctor>)
    ensures r.Some? <==> HasKey(doctors, DoctorId, doctorId)
    ensures r.Some? ==> r.value in doctors && r.value.id == doctorId
  {
    match FirstWhere(doctors, KeyIs(DoctorId, doctorId))
    case None =>
      assert forall d :: d in doctors ==> d.id != doctorId by {
        forall d | d in doctors ensures d.id != doctorId {
          var j :| 0 <= j < |doctors| && doctors[j] == d;
          assert !KeyIs(DoctorId, doctorId)(doctors[j]);
        }
      }
      None
    case Some(k) => Some(doctors[k])
  }

  /** `apt.patient`: the user row the booking references, if it is still there. */
  function PatientOf(users: seq<User>, userId: int): (r: Option<PatientInfo>)
    ensures r.Some? <==> HasKey(users, UserId, userId)
    ensures r.Some? ==> r.value.id == userId && exists u :: u in users && u.id == userId && r.value.name == u.name
  {
    match FirstWhere(users, KeyIs(UserId, userId))
    case None =>
      assert forall u :: u in users ==> u.id != userId by {
        forall u | u in users ensures u.id != userId {
          var j :| 0 <= j < |users| && users[j] == u;
          assert !KeyIs(UserId, userId)(users[j]);
        }
      }
      None
    case Some(k) =>
      assert users[k] in users;
      Some(PatientInfo(users[k].id, users[k].name))
  }

  /** `apt.doctor.duration_minutes if apt.doctor else 60`. */
  function DurationOf(doctor: Option<Doctor>): int
  {
    if doctor.Some? then doctor.value.durationMinutes else 60
  }

  function InfoOf(doctor: Option<Doctor>): Option<DoctorInfo>
  {
    if doctor.Some? then Some(DoctorInfo(doctor.value.id, doctor.value.name, doctor.value.specialty))
    else None
  }

  /** One entry of the patient and admin listings: the specification of their loop bodies. */
  function Entry(doctors: seq<Doctor>, a: Appointment, patient: Option<PatientInfo>): AppointmentOut
  {
    var doctor := DoctorOf(doctors, a.doctorId);
    var start := Combine(a.date, a.time);
    AppointmentOut(a.id, start, AddMinutes(start, DurationOf(doctor)), StatusValue(a.status),
                   InfoOf(doctor), patient)
  }

  /** One entry of the per-doctor listing. */
  function SlotEntry(doctors: seq<Doctor>, a: Appointment): SlotOut
  {
    var start := Combine(a.date, a.time);
    SlotOut(a.id, start, AddMinutes(start, DurationOf(DoctorOf(doctors, a.doctorId))), StatusValue(a.status))
  }

  /**
    In a consistent store every booking's doctor is present, so an entry always names it and
    lasts exactly that doctor's (non-zero) duration; the 60-minute fallback is never taken.
   */
  lemma EntryOfStored(users: seq<User>, doctors: seq<Doctor>, schedules: seq<Schedule>,
                      appointments: seq<Appointment>, a: Appointment, patient: Option<PatientInfo>)
    requires Consistent(users, doctors, schedules, appointments)
    requires a in appointments
    ensures var o := Entry(doctors, a, patient);
      && o.id == a.id && o.startAt == Combine(a.date, a.time)
      && o.doctor.Some? && o.doctor.value.id == a.doctorId
      && exists d :: d in doctors && d.id == a.doctorId &&
           MinutesBetween(o.startAt, o.endAt) == d.durationMinutes != 0
  {
    var d := DoctorOf(doctors, a.doctorId).value;
    assert d in doctors;
  }

  // ---------------------------------------------------------------- booking

  /** Every guard of `POST /appointments/` passes. */
  ghost predicate BookingAccepted(doctors: seq<Doctor>, appointments: seq<Appointment>, req: AppointmentCreate)
  {
    && HasKey(doctors, DoctorId, req.doctorId)
    && ParseDate(req.date).Ok? && ParseTime(req.time).Ok?
    && !SlotTaken(appointments, req.doctorId, ParseDate(req.date).value, ParseTime(req.time).value)
  }

  /** `POST /appointments/`: the guards in the order the handler runs them, then one insert. */
  method Book(db: Database, caller: User, req: AppointmentCreate) returns (r: Result<AppointmentOut, HttpError>)
    requires db.Valid()
    requires caller in db.users
    modifies db
    ensures db.Valid()
    ensures r.Err? ==> unchanged(db)
    ensures r.Ok? <==> BookingAccepted(old(db.doctors), old(db.appointments), req)
    ensures !HasKey(old(db.doctors), DoctorId, req.doctorId) ==> r == Err(DoctorsRouter.DoctorNotFound)
    ensures HasKey(old(db.doctors), DoctorId, req.doctorId) ==>
      && (ParseDate(req.date).Err? ==> r == Err(InvalidDateTime(ParseDate(req.date).error)))
      && (ParseDate(req.date).Ok? && ParseTime(req.time).Err? ==> r == Err(InvalidDateTime(ParseTime(req.time).error)))
      && (ParseDate(req.date).Ok? && ParseTime(req.time).Ok? &&
          SlotTaken(old(db.appointments), req.doctorId, ParseDate(req.date).value, ParseTime(req.time).value) ==>
            r == Err(SlotAlreadyBooked))
    ensures r.Ok? ==>
      var a := Appointment(NextKey(old(db.appointments), AppointmentId), req.doctorId, caller.id,
                           ParseDate(req.date).value, ParseTime(req.time).value, Pending);
      && db.appointments == old(db.appointments) + [a]
      && db.users == old(db.users) && db.doctors == old(db.doctors) && db.schedules == old(db.schedules)
      && r.value.id == a.id
      && r.value.status == "PENDING"
      && r.value.startAt == Combine(a.date, a.time)
      && r.value.patient == Some(PatientInfo(caller.id, caller.name))
      && exists d :: d in old(db.doctors) && d.id == req.doctorId
           && r.value.endAt == AddMinutes(r.value.startAt, d.durationMinutes)
           && MinutesBetween(r.value.startAt, r.value.endAt) == d.durationMinutes
           && r.value.doctor == Some(DoctorInfo(d.id, d.name, d.specialty))
  {
    var found := DoctorOf(db.doctors, req.doctorId);
    if found.None? {
      return Err(DoctorsRouter.DoctorNotFound);
    }
    var doctor := found.value;
    var date := ParseDate(req.date);
    if date.Err? {
      return Err(InvalidDateTime(date.error));
    }
    var time := ParseTime(req.time);
    if time.Err? {
      return Err(InvalidDateTime(time.error));
    }
    r := BookSlot(db, caller, req, doctor, date.value, time.value);
  }

  /** The rest of `POST /appointments/` once the date and time are read: the slot check, then the insert. */
  method BookSlot(db: Database, caller: User, req: AppointmentCreate, doctor: Doctor, date: Date, time: Minute)
    returns (r: Result<AppointmentOut, HttpError>)
    requires db.Valid()
    requires caller in db.users
    requires doctor in db.doctors && doctor.id == req.doctorId && ValidDate(date)
    modifies db
    ensures db.Valid()
    ensures r.Err? ==> unchanged(db)
    ensures r.Ok? <==> !SlotTaken(old(db.appointments), req.doctorId, date, time)
    ensures r.Err? ==> r == Err(SlotAlreadyBooked)
    ensures r.Ok? ==>
      var a := Appointment(NextKey(old(db.appointments), AppointmentId), req.doctorId, caller.id,
                           date, time, Pending);
      && db.appointments == old(db.appointments) + [a]
      && db.users == old(db.users) && db.doctors == old(db.doctors) && db.schedules == old(db.schedules)
      && r.value.id == a.id
      && r.value.status == "PENDING"
      && r.value.startAt == Combine(a.date, a.time)
      && r.value.patient == Some(PatientInfo(caller.id, caller.name))
      && r.value.endAt == AddMinutes(r.value.startAt, doctor.durationMinutes)
      && MinutesBetween(r.value.startAt, r.value.endAt) == doctor.durationMinutes
      && r.value.doctor == Some(DoctorInfo(doctor.id, doctor.name, doctor.specialty))
  {
    var start := Combine(date, time);
    var end := AddMinutes(start, doctor.durationMinutes);
    var existing := FirstWhere(db.appointments, (x: Appointment) =>
      x.doctorId == req.doctorId && x.date == date && x.time == time && x.status != Cancelled);
    if existing.Some? {
      assert db.appointments[existing.value] in db.appointments;
      return Err(SlotAlreadyBooked);
    }
    assert !SlotTaken(db.appointments, req.doctorId, date, time) by {
      forall x | x in db.appointments
        ensures !(Active(x) && x.doctorId == req.doctorId && x.date == date && x.time == time)
      {
        var j :| 0 <= j < |db.appointments| && db.appointments[j] == x;
      }
    }
    var a := Appointment(NextKey(db.appointments, AppointmentId), req.doctorId, caller.id,
                         date, time, DefaultStatus);
    assert HasKey(db.users, UserId, caller.id) by { assert UserId(caller) == caller.id; }
    InsertAppointmentKeeps(db.users, db.doctors, db.schedules, db.appointments, a);
    db.appointments := db.appointments + [a];
    return Ok(AppointmentOut(a.id, start, end, StatusValue(a.status),
                             Some(DoctorInfo(doctor.id, doctor.name, doctor.specialty)),
                             Some(PatientInfo(caller.id, caller.name))));
  }

  // ---------------------------------------------------------------- cancelling

  /**
    What `DELETE /appointments/{id}` does to the appointments table: 404 when no booking has
    the id, 403 when it is someone else's, otherwise that booking's status becomes CANCELLED.
   */
  function CancelOutcome(appointments: seq<Appointment>, callerId: int, appointmentId: int)
    : (r: Result<seq<Appointment>, HttpError>)
    ensures r.Err? ==> r.error == AppointmentNotFound || r.error == NotAuthorized
    ensures r.Ok? ==> |r.value| == |appointments|
  {
    match FirstWhere(appointments, KeyIs(AppointmentId, appointmentId))
    case None => Err(AppointmentNotFound)
    case Some(k) =>
      if appointments[k].patientId != callerId then Err(NotAuthorized)
      else Ok(appointments[k := appointments[k].(status := Cancelled)])
  }

  /**
    Only the patient who booked may cancel, an unknown id is 404, and a cancellation changes
    that one booking's status and nothing else: cancelling twice changes nothing, and an
    active booking's slot is free afterwards.
   */
  lemma CancelOutcomeMeaning(appointments: seq<Appointment>, callerId: int, appointmentId: int)
    requires UniqueBy(appointments, AppointmentId) && NoDoubleBooking(appointments)
    ensures var r := CancelOutcome(appointments, callerId, appointmentId);
      && (!HasKey(appointments, AppointmentId, appointmentId) <==> r == Err(AppointmentNotFound))
      && (forall a :: a in appointments && a.id == appointmentId ==>
            && (a.patientId != callerId ==> r == Err(NotAuthorized))
            && (a.patientId == callerId ==> r.Ok?))
    ensures CancelOutcome(appointments, callerId, appointmentId).Ok? ==>
      exists k ::
        && 0 <= k < |appointments|
        && var a, t := appointments[k], CancelOutcome(appointments, callerId, appointmentId).value;
           && a.id == appointmentId && a.patientId == callerId
           && t == appointments[k := a.(status := Cancelled)]
           && (a.status == Cancelled ==> t == appointments)
           && (Active(a) ==> !SlotTaken(t, a.doctorId, a.date, a.time))
  {
    var found := FirstWhere(appointments, KeyIs(AppointmentId, appointmentId));
    if found.None? {
      assert !HasKey(appointments, AppointmentId, appointmentId) by {
        forall x | x in appointments ensures x.id != appointmentId {
          var j :| 0 <= j < |appointments| && appointments[j] == x;
          assert !KeyIs(AppointmentId, appointmentId)(appointments[j]);
        }
      }
    } else {
      var k := found.value;
      var a := appointments[k];
      assert AppointmentId(a) == appointmentId;
      forall x | x in appointments && x.id == appointmentId ensures x == a {
        var j :| 0 <= j < |appointments| && appointments[j] == x;
        assert AppointmentId(appointments[j]) == AppointmentId(appointments[k]);
      }
      if a.patientId == callerId {
        CancelFrees(appointments, k);
        if a.status == Cancelled {
          assert appointments[k := a.(status := Cancelled)] == appointments;
        }
      }
    }
  }

  /** Cancelling an active booking leaves no live booking on its slot. */
  lemma CancelFrees(appointments: seq<Appointment>, k: nat)
    requires UniqueBy(appointments, AppointmentId) && NoDoubleBooking(appointments)
    requires k < |appointments|
    ensures var a := appointments[k];
      Active(a) ==> !SlotTaken(appointments[k := a.(status := Cancelled)], a.doctorId, a.date, a.time)
  {
    var a := appointments[k];
    var t := appointments[k := a.(status := Cancelled)];
    if Active(a) {
      forall x | x in t && Active(x) ensures !(x.doctorId == a.doctorId && x.date == a.date && x.time == a.time) {
        var m :| 0 <= m < |t| && t[m] == x;
        assert m != k;
        assert appointments[m] == x && x in appointments;
        assert AppointmentId(appointments[m]) != AppointmentId(appointments[k]);
      }
    }
  }

  /**
    An owner's cancellation of a live booking reopens its slot: a request for the same doctor,
    date and time passes every booking guard afterwards, and failed the slot guard before.
   */
  lemma CancelThenRebook(users: seq<User>, doctors: seq<Doctor>, schedules: seq<Schedule>,
                         appointments: seq<Appointment>, k: nat, req: AppointmentCreate)
    requires Consistent(users, doctors, schedules, appointments)
    requires k < |appointments| && Active(appointments[k])
    requires req.doctorId == appointments[k].doctorId
    requires ParseDate(req.date) == Ok(appointments[k].date) && ParseTime(req.time) == Ok(appointments[k].time)
    ensures !BookingAccepted(doctors, appointments, req)
    ensures var o := CancelOutcome(appointments, appointments[k].patientId, appointments[k].id);
      o.Ok? && BookingAccepted(doctors, o.value, req)
  {
    var a := appointments[k];
    assert a in appointments;
    var found := FirstWhere(appointments, KeyIs(AppointmentId, a.id));
    assert found.Some?;
    var j := found.value;
    assert j == k by {
      assert AppointmentId(appointments[j]) == AppointmentId(appointments[k]);
    }
    CancelFrees(appointments, k);
  }

  /** `DELETE /appointments/{id}`: the table becomes the cancellation outcome, or stays as it was. */
  method Cancel(db: Database, caller: User, appointmentId: int) returns (r: Result<string, HttpError>)
    requires db.Valid()
    modifies db
    ensures db.Valid()
    ensures var o := CancelOutcome(old(db.appointments), caller.id, appointmentId);
      && (o.Err? ==> r == Err(o.error) && unchanged(db))
      && (o.Ok? ==> r == Ok("Appointment cancelled successfully") && db.appointments == o.value)
    ensures db.users == old(db.users) && db.doctors == old(db.doctors) && db.schedules == old(db.schedules)
  {
    var found := FirstWhere(db.appointments, KeyIs(AppointmentId, appointmentId));
    if found.None? {
      return Err(AppointmentNotFound);
    }
    var k := found.value;
    if db.appointments[k].patientId != caller.id {
      return Err(NotAuthorized);
    }
    CancelKeeps(db.users, db.doctors, db.schedules, db.appointments, k);
    db.appointments := db.appointments[k := db.appointments[k].(status := Cancelled)];
    return Ok("Appointment cancelled successfully");
  }

  // ---------------------------------------------------------------- listings

  /** A listing entry by entry of one patient's bookings holds those bookings and only those. */
  lemma MineListed(doctors: seq<Doctor>, appointments: seq<Appointment>, patientId: int,
                   patient: Option<PatientInfo>, mine: seq<Appointment>, result: seq<AppointmentOut>)
    requires mine == Filter(appointments, KeyIs(AppointmentPatient, patientId))
    requires |result| == |mine| && forall i :: 0 <= i < |result| ==> result[i] == Entry(doctors, mine[i], patient)
    ensures forall o :: o in result ==>
      o.patient == patient && exists a :: a in appointments && a.patientId == patientId && a.id == o.id
    ensures forall a :: a in appointments && a.patientId == patientId ==>
      exists o :: o in result && o == Entry(doctors, a, patient)
  {
    forall o | o in result
      ensures o.patient == patient && exists a :: a in appointments && a.patientId == patientId && a.id == o.id
    {
      var k :| 0 <= k < |result| && result[k] == o;
      assert mine[k] in mine;
      assert KeyIs(AppointmentPatient, patientId)(mine[k]);
      assert AppointmentPatient(mine[k]) == patientId;
    }
    forall a | a in appointments && a.patientId == patientId
      ensures exists o :: o in result && o == Entry(doctors, a, patient)
    {
      assert AppointmentPatient(a) == patientId;
      assert KeyIs(AppointmentPatient, patientId)(a);
      var k :| 0 <= k < |mine| && mine[k] == a;
      assert result[k] in result;
    }
  }

  /** `GET /appointments/me`: the caller's bookings, cancelled ones included, in table order. */
  method MyAppointments(db: Database, caller: User) returns (result: seq<AppointmentOut>)
    requires db.Valid()
    ensures var mine := Filter(db.appointments, KeyIs(AppointmentPatient, caller.id));
      && |result| == |mine|
      && forall i :: 0 <= i < |result| ==>
           result[i] == Entry(db.doctors, mine[i], Some(PatientInfo(caller.id, caller.name)))
    ensures forall o :: o in result ==>
      o.patient == Some(PatientInfo(caller.id, caller.name)) &&
      exists a :: a in db.appointments && a.patientId == caller.id && a.id == o.id
    ensures forall a :: a in db.appointments && a.patientId == caller.id ==>
      exists o :: o in result && o == Entry(db.doctors, a, Some(PatientInfo(caller.id, caller.name)))
  {
    var appointments := Filter(db.appointments, KeyIs(AppointmentPatient, caller.id));
    var patient := Some(PatientInfo(caller.id, caller.name));
    result := [];
    for i := 0 to |appointments|
      invariant |result| == i
      invariant forall k :: 0 <= k < i ==> result[k] == Entry(db.doctors, appointments[k], patient)
    {
      var apt := appointments[i];
      var start := Combine(apt.date, apt.time);
      var doctor := DoctorOf(db.doctors, apt.doctorId);
      var duration := if doctor.Some? then doctor.value.durationMinutes else 60;
      var end := AddMinutes(start, duration);
      var info := if doctor.Some? then Some(DoctorInfo(doctor.value.id, doctor.value.name, doctor.value.specialty))
                  else None;
      result := result + [AppointmentOut(apt.id, start, end, StatusValue(apt.status), info, patient)];
    }
    MineListed(db.doctors, db.appointments, caller.id, patient, appointments, result);
  }

  /** The condition of the per-doctor listing: that doctor, and not cancelled. */
  function LiveFor(doctorId: int): Appointment -> bool
  {
    (x: Appointment) => x.doctorId == doctorId && x.status != Cancelled
  }

  /**
    `GET /appointments/doctor/{id}`: the doctor's live bookings in table order. No two of
    them start at the same moment, since no two live bookings share a slot.
   */
  method DoctorAppointments(db: Database, doctorId: int) returns (result: seq<SlotOut>)
    requires db.Valid()
    ensures var live := Filter(db.appointments, LiveFor(doctorId));
      && |result| == |live|
      && forall i :: 0 <= i < |result| ==> result[i] == SlotEntry(db.doctors, live[i])
    ensures forall o :: o in result ==> o.status != "CANCELLED"
    ensures forall a :: a in db.appointments && a.doctorId == doctorId && Active(a) ==>
      exists o :: o in result && o == SlotEntry(db.doctors, a)
    ensures forall i, j :: 0 <= i < j < |result| ==> result[i].startAt != result[j].startAt
  {
    var appointments := Filter(db.appointments, LiveFor(doctorId));
    result := [];
    for i := 0 to |appointments|
      invariant |result| == i
      invariant forall k :: 0 <= k < i ==> result[k] == SlotEntry(db.doctors, appointments[k])
    {
      var apt := appointments[i];
      var start := Combine(apt.date, apt.time);
      var doctor := DoctorOf(db.doctors, apt.doctorId);
      var duration := if doctor.Some? then doctor.value.durationMinutes else 60;
      result := result + [SlotOut(apt.id, start, AddMinutes(start, duration), StatusValue(apt.status))];
    }
    LiveListingDistinct(db.appointments, doctorId, appointments, result);
    forall a | a in db.appointments && a.doctorId == doctorId && Active(a)
      ensures exists o :: o in result && o == SlotEntry(db.doctors, a)
    {
      assert LiveFor(doctorId)(a);
      var k :| 0 <= k < |appointments| && appointments[k] == a;
      assert result[k] in result;
    }
  }

  lemma LiveListingDistinct(
    appointments: seq<Appointment>, doctorId: int, live: seq<Appointment>, result: seq<SlotOut>)
    requires UniqueBy(appointments, AppointmentId) && NoDoubleBooking(appointments)
    requires live == Filter(appointments, LiveFor(doctorId))
    requires |result| == |live|
    requires forall i :: 0 <= i < |result| ==>
      result[i].startAt == Combine(live[i].date, live[i].time) && result[i].status == StatusValue(live[i].status)
    ensures forall o :: o in result ==> o.status != "CANCELLED"
    ensures forall i, j :: 0 <= i < j < |result| ==> result[i].startAt != result[j].startAt
  {
    FilterKeepsUnique(appointments, LiveFor(doctorId), AppointmentId);
    forall o | o in result ensures o.status != "CANCELLED" {
      var k :| 0 <= k < |result| && result[k] == o;
      assert live[k] in live;
      assert LiveFor(doctorId)(live[k]);
    }
    forall i, j | 0 <= i < j < |result| ensures result[i].startAt != result[j].startAt {
      assert live[i] in live && live[j] in live;
      assert LiveFor(doctorId)(live[i]) && LiveFor(doctorId)(live[j]);
      assert AppointmentId(live[i]) != AppointmentId(live[j]);
    }
  }

  /** In a consistent store every entry of the full listing names its doctor and its patient. */
  lemma EntriesNamePeople(users: seq<User>, doctors: seq<Doctor>, schedules: seq<Schedule>,
                          appointments: seq<Appointment>, result: seq<AppointmentOut>)
    requires Consistent(users, doctors, schedules, appointments)
    requires |result| == |appointments|
    requires forall i :: 0 <= i < |result| ==>
      result[i] == Entry(doctors, appointments[i], PatientOf(users, appointments[i].patientId))
    ensures forall i :: 0 <= i < |result| ==>
      && result[i].id == appointments[i].id
      && result[i].doctor.Some? && result[i].doctor.value.id == appointments[i].doctorId
      && result[i].patient.Some? && result[i].patient.value.id == appointments[i].patientId
  {
    forall i | 0 <= i < |result|
      ensures && result[i].id == appointments[i].id
              && result[i].doctor.Some? && result[i].doctor.value.id == appointments[i].doctorId
              && result[i].patient.Some? && result[i].patient.value.id == appointments[i].patientId
    {
      var a := appointments[i];
      assert a in appointments;
      EntryOfStored(users, doctors, schedules, appointments, a, PatientOf(users, a.patientId));
    }
  }

  /** `GET /appointments/all`: every booking with its doctor and patient, for administrators only. */
  method AllAppointments(db: Database, caller: User) returns (r: Result<seq<AppointmentOut>, HttpError>)
    requires db.Valid()
    ensures r.Err? <==> caller.role != Admin
    ensures r.Err? ==> r.error == AdminAccessRequired
    ensures r.Ok? ==>
      && |r.value| == |db.appointments|
      && forall i :: 0 <= i < |r.value| ==>
           r.value[i] == Entry(db.doctors, db.appointments[i], PatientOf(db.users, db.appointments[i].patientId))
    ensures r.Ok? ==> forall i :: 0 <= i < |r.value| ==>
      && r.value[i].id == db.appointments[i].id
      && r.value[i].doctor.Some? && r.value[i].doctor.value.id == db.appointments[i].doctorId
      && r.value[i].patient.Some? && r.value[i].patient.value.id == db.appointments[i].patientId
  {
    var guard := AdminRequired(caller);
    if guard.Err? {
      return Err(guard.error);
    }
    var appointments := db.appointments;
    var result := [];
    for i := 0 to |appointments|
      invariant |result| == i
      invariant forall k :: 0 <= k < i ==>
        result[k] == Entry(db.doctors, appointments[k], PatientOf(db.users, appointments[k].patientId))
    {
      var apt := appointments[i];
      var start := Combine(apt.date, apt.time);
      var doctor := DoctorOf(db.doctors, apt.doctorId);
      var duration := if doctor.Some? then doctor.value.durationMinutes else 60;
      var info := if doctor.Some? then Some(DoctorInfo(doctor.value.id, doctor.value.name, doctor.value.specialty))
                  else None;
      var patient := PatientOf(db.users, apt.patientId);
      result := result + [AppointmentOut(apt.id, start, AddMinutes(start, duration), StatusValue(apt.status),
                                         info, patient)];
    }
    EntriesNamePeople(db.users, db.doctors, db.schedules, appointments, result);
    return Ok(result);
  }
}
