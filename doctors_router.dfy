/** `/doctors`: the doctor directory and the weekly schedules, most of it for administrators. */
module DoctorsRouter {
  import opened Wrappers
  import opened DateTime
  import opened Strptime
  import opened Models
  import opened Tables
  import opened Http
  import opened Store
  import opened AuthUtils

  // ---------------------------------------------------------------- request and response bodies

  /** The create body; `durationMinutes` defaults to `Some(60)` and may be sent as null. */
  datatype DoctorCreate = DoctorCreate(
    name: string, email: string, specialty: string, bio: Option<string>,
    durationMinutes: Option<int>)

  datatype ScheduleCreate = ScheduleCreate(weekday: int, startTime: string, endTime: string)

  datatype DoctorOut = DoctorOut(
    id: int, name: string, email: string, specialty: string, bio: Option<string>,
    durationMinutes: int)

  datatype ScheduleOut = ScheduleOut(id: int, weekday: int, startTime: string, endTime: string)

  /** A doctor with the schedules that reference it, as the admin listing and `GET /{id}` give it. */
  datatype DoctorDetail = DoctorDetail(doctor: DoctorOut, schedules: seq<ScheduleOut>)

  datatype ScheduleCreated = ScheduleCreated(
    id: int, doctorId: int, weekday: int, startTime: string, endTime: string, message: string)

  const EmailAlreadyExists: HttpError := HttpError(BadRequest, "Email already exists")
  const DoctorNotFound: HttpError := HttpError(NotFound, "Doctor not found")
  const ScheduleNotFound: HttpError := HttpError(NotFound, "Schedule not found")
  const InvalidTimeFormat: HttpError := HttpError(BadRequest, "Invalid time format. Use HH:MM")
  const EndNotAfterStart: HttpError := HttpError(BadRequest, "End time must be after start time")
  const ScheduleExists: HttpError :=
    HttpError(BadRequest, "Schedule already exists for this day. Delete the existing one first.")

  function InvalidWeekday(n: int): HttpError
  {
    HttpError(BadRequest, "Invalid weekday: " + IntToString(n) + ". Use 0-6")
  }

  // ---------------------------------------------------------------- the two weekday tables

  /** `day_mapping`: the client's weekday number (0 = Sunday) to the stored day. */
  const WeekdayDays: map<int, DayOfWeek> :=
    map[0 := Sunday, 1 := Monday, 2 := Tuesday, 3 := Wednesday, 4 := Thursday, 5 := Friday,
        6 := Saturday]

  /** `day_to_weekday`: a stored day's value back to the client's number. */
  const DayWeekdays: map<string, int> :=
    map["SUNDAY" := 0, "MONDAY" := 1, "TUESDAY" := 2, "WEDNESDAY" := 3, "THURSDAY" := 4,
        "FRIDAY" := 5, "SATURDAY" := 6]

  /** `day_to_weekday.get(s.day.value, 0)`: the fallback 0 is never taken. */
  function WeekdayOf(d: DayOfWeek): (n: int)
    ensures DayValue(d) in DayWeekdays
    ensures 0 <= n <= 6 && n in WeekdayDays && WeekdayDays[n] == d
  {
    var v := DayValue(d);
    if v in DayWeekdays then DayWeekdays[v] else 0
  }

  /** The accepted weekday numbers are exactly 0..6, and each comes back from the day it names. */
  lemma WeekdayRoundTrip(n: int)
    ensures n in WeekdayDays <==> 0 <= n <= 6
    ensures n in WeekdayDays ==> WeekdayOf(WeekdayDays[n]) == n
  {
    if n in WeekdayDays {
      assert n == 0 || n == 1 || n == 2 || n == 3 || n == 4 || n == 5 || n == 6;
    }
  }

  /** Sunday is 0 and the week then runs in calendar order. */
  lemma WeekdayOrder()
    ensures forall i :: 0 <= i < 6 ==> WeekdayOf(AllDays()[i]) == i + 1
    ensures WeekdayOf(Sunday) == 0
  {
  }

  // ---------------------------------------------------------------- views

  /** `x or 60`: null and 0 both fall back to 60. */
  function DurationOr60(x: Option<int>): (r: int)
    ensures r != 0
    ensures x.Some? && x.value != 0 ==> r == x.value
    ensures x.None? || x.value == 0 ==> r == DefaultDurationMinutes
  {
    if x.None? || x.value == 0 then 60 else x.value
  }

  /** A doctor as the listings show it. */
  function DoctorView(d: Doctor): (v: DoctorOut)
    ensures v.id == d.id && v.name == d.name && v.email == d.email
    ensures v.specialty == d.specialty && v.bio == d.bio
    ensures v.durationMinutes != 0
    ensures d.durationMinutes != 0 ==> v.durationMinutes == d.durationMinutes
    ensures d.durationMinutes == 0 ==> v.durationMinutes == DefaultDurationMinutes
  {
    DoctorOut(d.id, d.name, d.email, d.specialty, d.bio, DurationOr60(Some(d.durationMinutes)))
  }

  /** A schedule as the listings show it: the day as a number, the times as "HH:MM". */
  function ScheduleView(s: Schedule): (v: ScheduleOut)
    ensures v.id == s.id
    ensures 0 <= v.weekday <= 6 && WeekdayDays[v.weekday] == s.day
    ensures ParseHM(v.startTime) == Some(s.startTime) && ParseHM(v.endTime) == Some(s.endTime)
  {
    ParseFormatHM(s.startTime);
    ParseFormatHM(s.endTime);
    ScheduleOut(s.id, WeekdayOf(s.day), FormatHM(s.startTime), FormatHM(s.endTime))
  }

  /** The views of one doctor's schedules, in table order. */
  function SchedulesOf(schedules: seq<Schedule>, doctorId: int): (r: seq<ScheduleOut>)
    ensures forall v :: v in r ==> exists s :: s in schedules && s.doctorId == doctorId && v == ScheduleView(s)
    ensures forall s :: s in schedules && s.doctorId == doctorId ==> ScheduleView(s) in r
  {
    var mine := Filter(schedules, KeyIs(ScheduleDoctor, doctorId));
    var r := seq(|mine|, i requires 0 <= i < |mine| => ScheduleView(mine[i]));
    ViewsOfMine(schedules, doctorId, mine, r);
    r
  }

  lemma ViewsOfMine(schedules: seq<Schedule>, doctorId: int, mine: seq<Schedule>, r: seq<ScheduleOut>)
    requires mine == Filter(schedules, KeyIs(ScheduleDoctor, doctorId))
    requires |r| == |mine| && forall i :: 0 <= i < |r| ==> r[i] == ScheduleView(mine[i])
    ensures forall v :: v in r ==> exists s :: s in schedules && s.doctorId == doctorId && v == ScheduleView(s)
    ensures forall s :: s in schedules && s.doctorId == doctorId ==> ScheduleView(s) in r
  {
    forall v | v in r ensures exists s :: s in schedules && s.doctorId == doctorId && v == ScheduleView(s) {
      var i :| 0 <= i < |r| && r[i] == v;
      var s := mine[i];
      assert s in mine;
      assert KeyIs(ScheduleDoctor, doctorId)(s);
      assert ScheduleDoctor(s) == doctorId;
      assert s in schedules && s.doctorId == doctorId && v == ScheduleView(s);
    }
    forall s | s in schedules && s.doctorId == doctorId ensures ScheduleView(s) in r {
      assert ScheduleDoctor(s) == doctorId;
      assert KeyIs(ScheduleDoctor, doctorId)(s);
      var i :| 0 <= i < |mine| && mine[i] == s;
      assert r[i] == ScheduleView(s);
    }
  }

  /**
    In a stored doctor's schedule list no weekday appears twice, and every entry ends after
    it starts: the add-schedule guards, read back through the listing.
   */
  lemma SchedulesOfWellFormed(schedules: seq<Schedule>, doctors: seq<Doctor>, doctorId: int)
    requires SchedulesOk(schedules, doctors)
    ensures var r := SchedulesOf(schedules, doctorId);
      && (forall i, j :: 0 <= i < j < |r| ==> r[i].weekday != r[j].weekday)
      && (forall v :: v in r ==> ParseHM(v.startTime).value < ParseHM(v.endTime).value)
  {
    var mine := Filter(schedules, KeyIs(ScheduleDoctor, doctorId));
    FilterKeepsUnique(schedules, KeyIs(ScheduleDoctor, doctorId), ScheduleId);
    var r := SchedulesOf(schedules, doctorId);
    assert |r| == |mine| && forall i :: 0 <= i < |r| ==> r[i] == ScheduleView(mine[i]);
    forall i, j | 0 <= i < j < |r| ensures r[i].weekday != r[j].weekday {
      assert mine[i] in mine && mine[j] in mine;
      assert ScheduleId(mine[i]) != ScheduleId(mine[j]);
      assert KeyIs(ScheduleDoctor, doctorId)(mine[i]) && KeyIs(ScheduleDoctor, doctorId)(mine[j]);
      assert ScheduleDay(mine[i]) != ScheduleDay(mine[j]);
    }
  }

  function Detail(db: Database, d: Doctor): DoctorDetail
    reads db
  {
    DoctorDetail(DoctorView(d), SchedulesOf(db.schedules, d.id))
  }

  // ---------------------------------------------------------------- reads

  /** `GET /doctors/`: every doctor, in table order, with the duration fallback applied. */
  function ListDoctorsPublic(db: Database): (r: seq<DoctorOut>)
    reads db
    ensures |r| == |db.doctors|
    ensures forall i :: 0 <= i < |r| ==> r[i] == DoctorView(db.doctors[i])
  {
    seq(|db.doctors|, i requires 0 <= i < |db.doctors| reads db => DoctorView(db.doctors[i]))
  }

  /** `GET /doctors/all`: the same list with each doctor's schedules, for administrators only. */
  function ListDoctorsAdmin(db: Database, caller: User): (r: Result<seq<DoctorDetail>, HttpError>)
    reads db
    ensures r.Err? <==> caller.role != Admin
    ensures r.Err? ==> r.error == AdminAccessRequired
    ensures r.Ok? ==> |r.value| == |db.doctors| && forall i :: 0 <= i < |r.value| ==>
      && r.value[i].doctor == DoctorView(db.doctors[i])
      && (forall s :: s in db.schedules && s.doctorId == db.doctors[i].id ==>
            ScheduleView(s) in r.value[i].schedules)
      && (forall v :: v in r.value[i].schedules ==>
            exists s :: s in db.schedules && s.doctorId == db.doctors[i].id && v == ScheduleView(s))
  {
    match AdminRequired(caller)
    case Err(e) => Err(e)
    case Ok(_) =>
      Ok(seq(|db.doctors|, i requires 0 <= i < |db.doctors| reads db => Detail(db, db.doctors[i])))
  }

  /** `GET /doctors/{id}`: the first doctor with that id and its schedules, or 404. */
  function GetDoctor(db: Database, doctorId: int): (r: Result<DoctorDetail, HttpError>)
    reads db
    ensures r.Err? <==> !HasKey(db.doctors, DoctorId, doctorId)
    ensures r.Err? ==> r.error == DoctorNotFound
    ensures r.Ok? ==>
      && (exists d :: d in db.doctors && d.id == doctorId && r.value.doctor == DoctorView(d))
      && (forall s :: s in db.schedules && s.doctorId == doctorId ==> ScheduleView(s) in r.value.schedules)
      && (forall v :: v in r.value.schedules ==>
            exists s :: s in db.schedules && s.doctorId == doctorId && v == ScheduleView(s))
  {
    match FirstWhere(db.doctors, KeyIs(DoctorId, doctorId))
    case None =>
      assert forall d :: d in db.doctors ==> d.id != doctorId by {
        forall d | d in db.doctors ensures d.id != doctorId {
          var j :| 0 <= j < |db.doctors| && db.doctors[j] == d;
          assert !KeyIs(DoctorId, doctorId)(db.doctors[j]);
        }
      }
      Err(DoctorNotFound)
    case Some(k) => Ok(Detail(db, db.doctors[k]))
  }

  // ---------------------------------------------------------------- writes

  /** `POST /doctors/`. */
  method CreateDoctor(db: Database, caller: User, req: DoctorCreate) returns (r: Result<DoctorOut, HttpError>)
    requires db.Valid()
    modifies db
    ensures db.Valid()
    ensures r.Err? ==> unchanged(db)
    ensures caller.role != Admin ==> r == Err(AdminAccessRequired)
    ensures caller.role == Admin ==>
      (r.Err? <==> HasKey(old(db.doctors), DoctorEmail, req.email)) &&
      (r.Err? ==> r.error == EmailAlreadyExists)
    ensures r.Ok? ==>
      var d := Doctor(NextKey(old(db.doctors), DoctorId), req.name, req.email, req.specialty, req.bio,
                      DurationOr60(req.durationMinutes));
      && db.doctors == old(db.doctors) + [d]
      && db.users == old(db.users) && db.schedules == old(db.schedules)
      && db.appointments == old(db.appointments)
      && r.value == DoctorOut(d.id, d.name, d.email, d.specialty, d.bio, d.durationMinutes)
  {
    var guard := AdminRequired(caller);
    if guard.Err? {
      return Err(guard.error);
    }
    var existing := FirstWhere(db.doctors, KeyIs(DoctorEmail, req.email));
    if existing.Some? {
      return Err(EmailAlreadyExists);
    }
    var d := Doctor(NextKey(db.doctors, DoctorId), req.name, req.email, req.specialty, req.bio,
                    DurationOr60(req.durationMinutes));
    InsertDoctorKeeps(db.users, db.doctors, db.schedules, db.appointments, d);
    db.doctors := db.doctors + [d];
    return Ok(DoctorOut(d.id, d.name, d.email, d.specialty, d.bio, d.durationMinutes));
  }

  /** Every guard of `POST /doctors/{id}/schedule` passes. */
  ghost predicate ScheduleAccepted(
    doctors: seq<Doctor>, schedules: seq<Schedule>, caller: User, doctorId: int, req: ScheduleCreate)
  {
    && caller.role == Admin
    && HasKey(doctors, DoctorId, doctorId)
    && req.weekday in WeekdayDays
    && ParseTime(req.startTime).Ok? && ParseTime(req.endTime).Ok?
    && ParseTime(req.startTime).value < ParseTime(req.endTime).value
    && !HasKey(schedules, ScheduleDay, (doctorId, WeekdayDays[req.weekday]))
  }

  /** `POST /doctors/{id}/schedule`: the guards in the order the handler runs them. */
  method AddSchedule(db: Database, caller: User, doctorId: int, req: ScheduleCreate)
    returns (r: Result<ScheduleCreated, HttpError>)
    requires db.Valid()
    modifies db
    ensures db.Valid()
    ensures r.Err? ==> unchanged(db)
    ensures r.Ok? <==> ScheduleAccepted(old(db.doctors), old(db.schedules), caller, doctorId, req)
    ensures caller.role != Admin ==> r == Err(AdminAccessRequired)
    ensures caller.role == Admin && !HasKey(old(db.doctors), DoctorId, doctorId) ==> r == Err(DoctorNotFound)
    ensures caller.role == Admin && HasKey(old(db.doctors), DoctorId, doctorId) ==>
      && (req.weekday !in WeekdayDays ==> r == Err(InvalidWeekday(req.weekday)))
      && (req.weekday in WeekdayDays && (ParseTime(req.startTime).Err? || ParseTime(req.endTime).Err?) ==>
            r == Err(InvalidTimeFormat))
      && (req.weekday in WeekdayDays && ParseTime(req.startTime).Ok? && ParseTime(req.endTime).Ok? ==>
            && (ParseTime(req.endTime).value <= ParseTime(req.startTime).value ==> r == Err(EndNotAfterStart))
            && (ParseTime(req.startTime).value < ParseTime(req.endTime).value &&
                HasKey(old(db.schedules), ScheduleDay, (doctorId, WeekdayDays[req.weekday])) ==>
                  r == Err(ScheduleExists)))
    ensures r.Ok? ==>
      var s := Schedule(NextKey(old(db.schedules), ScheduleId), doctorId, WeekdayDays[req.weekday],
                        ParseTime(req.startTime).value, ParseTime(req.endTime).value);
      && db.schedules == old(db.schedules) + [s]
      && db.users == old(db.users) && db.doctors == old(db.doctors)
      && db.appointments == old(db.appointments)
      && r.value == ScheduleCreated(s.id, doctorId, req.weekday, req.startTime, req.endTime,
                                    "Schedule added successfully")
  {
    var guard := AdminRequired(caller);
    if guard.Err? {
      return Err(guard.error);
    }
    var doctor := FirstWhere(db.doctors, KeyIs(DoctorId, doctorId));
    if doctor.None? {
      assert !HasKey(db.doctors, DoctorId, doctorId) by {
        forall d | d in db.doctors ensures d.id != doctorId {
          var j :| 0 <= j < |db.doctors| && db.doctors[j] == d;
          assert !KeyIs(DoctorId, doctorId)(db.doctors[j]);
        }
      }
      return Err(DoctorNotFound);
    }
    assert db.doctors[doctor.value] in db.doctors;
    if req.weekday !in WeekdayDays {
      return Err(InvalidWeekday(req.weekday));
    }
    var start := ParseTime(req.startTime);
    var end := ParseTime(req.endTime);
    if start.Err? || end.Err? {
      return Err(InvalidTimeFormat);
    }
    r := AddTimes(db, doctorId, req, start.value, end.value);
  }

  /** The rest of `POST /doctors/{id}/schedule` once both times are read as `start` and `end`. */
  method AddTimes(db: Database, doctorId: int, req: ScheduleCreate, start: Minute, end: Minute)
    returns (r: Result<ScheduleCreated, HttpError>)
    requires db.Valid() && HasKey(db.doctors, DoctorId, doctorId) && req.weekday in WeekdayDays
    modifies db
    ensures db.Valid()
    ensures r.Err? ==> unchanged(db)
    ensures r.Ok? <==> start < end && !HasKey(old(db.schedules), ScheduleDay, (doctorId, WeekdayDays[req.weekday]))
    ensures end <= start ==> r == Err(EndNotAfterStart)
    ensures start < end && HasKey(old(db.schedules), ScheduleDay, (doctorId, WeekdayDays[req.weekday])) ==>
      r == Err(ScheduleExists)
    ensures r.Ok? ==>
      var s := Schedule(NextKey(old(db.schedules), ScheduleId), doctorId, WeekdayDays[req.weekday], start, end);
      && db.schedules == old(db.schedules) + [s]
      && db.users == old(db.users) && db.doctors == old(db.doctors)
      && db.appointments == old(db.appointments)
      && r.value == ScheduleCreated(s.id, doctorId, req.weekday, req.startTime, req.endTime,
                                    "Schedule added successfully")
  {
    var day := WeekdayDays[req.weekday];
    if end <= start {
      return Err(EndNotAfterStart);
    }
    var existing := FirstWhere(db.schedules, KeyIs(ScheduleDay, (doctorId, day)));
    if existing.Some? {
      assert db.schedules[existing.value] in db.schedules;
      return Err(ScheduleExists);
    }
    assert !HasKey(db.schedules, ScheduleDay, (doctorId, day)) by {
      forall t | t in db.schedules ensures ScheduleDay(t) != (doctorId, day) {
        var j :| 0 <= j < |db.schedules| && db.schedules[j] == t;
        assert !KeyIs(ScheduleDay, (doctorId, day))(db.schedules[j]);
      }
    }
    var s := Schedule(NextKey(db.schedules, ScheduleId), doctorId, day, start, end);
    InsertScheduleKeeps(db.users, db.doctors, db.schedules, db.appointments, s);
    db.schedules := db.schedules + [s];
    return Ok(ScheduleCreated(s.id, doctorId, req.weekday, req.startTime, req.endTime,
                              "Schedule added successfully"));
  }

  /** `DELETE /doctors/schedules/{id}`. */
  method DeleteSchedule(db: Database, caller: User, scheduleId: int) returns (r: Result<string, HttpError>)
    requires db.Valid()
    modifies db
    ensures db.Valid()
    ensures r.Err? ==> unchanged(db)
    ensures caller.role != Admin ==> r == Err(AdminAccessRequired)
    ensures caller.role == Admin ==>
      (r.Err? <==> !HasKey(old(db.schedules), ScheduleId, scheduleId)) &&
      (r.Err? ==> r.error == ScheduleNotFound)
    ensures r.Ok? ==>
      && r.value == "Schedule deleted successfully"
      && db.schedules == Filter(old(db.schedules), KeyIsNot(ScheduleId, scheduleId))
      && |db.schedules| == |old(db.schedules)| - 1
      && (forall s :: s in db.schedules <==> s in old(db.schedules) && s.id != scheduleId)
      && db.users == old(db.users) && db.doctors == old(db.doctors)
      && db.appointments == old(db.appointments)
  {
    var guard := AdminRequired(caller);
    if guard.Err? {
      return Err(guard.error);
    }
    var found := FirstWhere(db.schedules, KeyIs(ScheduleId, scheduleId));
    if found.None? {
      assert !HasKey(db.schedules, ScheduleId, scheduleId) by {
        forall t | t in db.schedules ensures t.id != scheduleId {
          var j :| 0 <= j < |db.schedules| && db.schedules[j] == t;
          assert !KeyIs(ScheduleId, scheduleId)(db.schedules[j]);
        }
      }
      return Err(ScheduleNotFound);
    }
    assert db.schedules[found.value] in db.schedules;
    FilterRemovesOne(db.schedules, ScheduleId, scheduleId);
    DeleteScheduleKeeps(db.users, db.doctors, db.schedules, db.appointments, scheduleId);
    db.schedules := Filter(db.schedules, KeyIsNot(ScheduleId, scheduleId));
    return Ok("Schedule deleted successfully");
  }

  /**
    What the cascade of `DELETE /doctors/{id}` leaves: no schedule and no booking of that
    doctor, and every schedule and booking of another doctor.
   */
  lemma DeleteDoctorCascade(schedules: seq<Schedule>, appointments: seq<Appointment>, doctorId: int)
    ensures forall s :: s in Filter(schedules, KeyIsNot(ScheduleDoctor, doctorId)) <==>
      s in schedules && s.doctorId != doctorId
    ensures forall a :: a in Filter(appointments, KeyIsNot(AppointmentDoctor, doctorId)) <==>
      a in appointments && a.doctorId != doctorId
  {
    forall s ensures s in Filter(schedules, KeyIsNot(ScheduleDoctor, doctorId)) <==>
      s in schedules && s.doctorId != doctorId
    {
      assert KeyIsNot(ScheduleDoctor, doctorId)(s) == (ScheduleDoctor(s) != doctorId);
    }
    forall a ensures a in Filter(appointments, KeyIsNot(AppointmentDoctor, doctorId)) <==>
      a in appointments && a.doctorId != doctorId
    {
      assert KeyIsNot(AppointmentDoctor, doctorId)(a) == (AppointmentDoctor(a) != doctorId);
    }
  }

  /** `DELETE /doctors/{id}`: the doctor goes, and its schedules and bookings with it. */
  method DeleteDoctor(db: Database, caller: User, doctorId: int) returns (r: Result<string, HttpError>)
    requires db.Valid()
    modifies db
    ensures db.Valid()
    ensures r.Err? ==> unchanged(db)
    ensures caller.role != Admin ==> r == Err(AdminAccessRequired)
    ensures caller.role == Admin ==>
      (r.Err? <==> !HasKey(old(db.doctors), DoctorId, doctorId)) &&
      (r.Err? ==> r.error == DoctorNotFound)
    ensures r.Ok? ==>
      && r.value == "Doctor deleted successfully"
      && db.doctors == Filter(old(db.doctors), KeyIsNot(DoctorId, doctorId))
      && db.schedules == Filter(old(db.schedules), KeyIsNot(ScheduleDoctor, doctorId))
      && db.appointments == Filter(old(db.appointments), KeyIsNot(AppointmentDoctor, doctorId))
      && db.users == old(db.users)
      && |db.doctors| == |old(db.doctors)| - 1
  {
    var guard := AdminRequired(caller);
    if guard.Err? {
      return Err(guard.error);
    }
    var found := FirstWhere(db.doctors, KeyIs(DoctorId, doctorId));
    if found.None? {
      assert !HasKey(db.doctors, DoctorId, doctorId) by {
        forall d | d in db.doctors ensures d.id != doctorId {
          var j :| 0 <= j < |db.doctors| && db.doctors[j] == d;
          assert !KeyIs(DoctorId, doctorId)(db.doctors[j]);
        }
      }
      return Err(DoctorNotFound);
    }
    assert db.doctors[found.value] in db.doctors;
    FilterRemovesOne(db.doctors, DoctorId, doctorId);
    DeleteDoctorKeeps(db.users, db.doctors, db.schedules, db.appointments, doctorId);
    var doctors := Filter(db.doctors, KeyIsNot(DoctorId, doctorId));
    var schedules := Filter(db.schedules, KeyIsNot(ScheduleDoctor, doctorId));
    var appointments := Filter(db.appointments, KeyIsNot(AppointmentDoctor, doctorId));
    db.doctors, db.schedules, db.appointments := doctors, schedules, appointments;
    return Ok("Doctor deleted successfully");
  }
}
