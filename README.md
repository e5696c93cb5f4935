# Clinic booking core, modelled in Dafny

This project models the booking rules of a small clinic web service.
- **Backend.** Patients register, log in and book a doctor's time slot. Patients cancel their own bookings. Administrators manage the doctor directory and each doctor's weekly schedule.
- **Browser helpers.** The helpers the booking pages use: the list of time slots, the weekday names, the e-mail shape test and the form checks.

The store is one `Database` object holding four tables (users, doctors, doctor schedules, appointments).
- Each table is a sequence of rows in rowid order.
- The schema's constraints and the rules the handlers keep are the class invariant `Valid()`:
  - primary keys;
  - unique user and doctor e-mails;
  - foreign keys;
  - at most one schedule per doctor and weekday;
  - a schedule ends after it starts;
  - no two live bookings of one slot;
  - a non-zero duration.

Each HTTP handler that writes is a method on the store. The read-only handlers are functions, except the three booking listings, which are methods with loops.
- It returns `Ok` with the response body or `Err` with the status code and detail the handler raises.
- It runs its guards in the order the handler does.
- Each write is one atomic commit.

Every write method is proved to keep `Valid()`. Each one states its new state exactly: the rows added, removed or updated, and the other tables unchanged. Each of its error cases leaves the store unchanged.

Modules:
- **`Wrappers`, `Http`**: `Option`, `Result`, and the HTTP error shape.
- **`DateTime`.**
  - The `%H:%M` and `isoformat()` formatters, and the strict two-digit `"HH:MM"` reading, proved inverse.
  - Times of day as minutes `0..1439`.
  - Timestamps as a date plus a minute offset.
- **`Strptime`**: `strptime` with `"%H:%M"` and `"%Y-%m-%d"`.
  - Each directive is its list of regular-expression alternatives, tried in order.
  - The three `ValueError` texts are modelled: no match, unconverted data, and a date the calendar refuses.
  - Each parser is proved to accept exactly one plainly stated set of strings.
- **`Models`**: the rows, the `UserRole`, `DayOfWeek` and status enumerations, and the column defaults.
- **`Tables`**: the query shapes `filter().first()`, `filter().all()`, deletion by key and rowid allocation, with their lemmas.
- **`Store`**: the `Database` class, its invariant, and one lemma per kind of commit showing it keeps the invariant.
- **`AuthUtils`, `AuthRouter`**: the current-user lookup, the admin guard, registration, login and `/me`.
  - The password hasher and the token codec are opaque function parameters (`Credentials`).
- **`DoctorsRouter`**: the doctor listings, creating and deleting doctors, and adding and deleting schedules.
- **`AppointmentsRouter`**: booking, cancelling and the three listings of bookings; the listings are `for` loops proved against a per-entry function.
- **`Text`**: `upper()` as far as comparing with `"ADMIN"` can observe.
- **`Utils`**: `generateTimeSlots` (a `while` loop proved against a recursive specification, with the browser's reading of `"24:00"` as the next midnight), `getDayName` and `isValidEmail`.
- **`FormValidator`**: the five form checks.

Where the system's design specification and its code disagree, this model follows the code:
- **Duplicates.** A duplicate e-mail, duplicate schedule day or taken slot is status 400, not a distinct "conflict" status.
- **Admin role.** Any caller can register as an administrator by asking for the role "admin" in any letter case. This is the contract of `AuthRouter.RoleFromRequest`.
- **Time formats.** The handlers' messages ask for `HH:MM`, but `strptime` also accepts one-digit hours, minutes, months and days, and a blank-padded day. So `"9:05"` books 09:05 and `"2025-1-5"` is 5 January.
- **Token expiry.** The login token carries only the user id and the role, with no expiry claim.
- **72-byte truncation.** No truncation of passwords to 72 bytes appears in the code; hashing is an opaque function.

## Model

| member | source | states |
|---|---|---|
| Tables.FirstWhere | Backend2/appointments/router.py:137 | `filter(p).first()`: the index of the first row meeting `p`; it is none exactly when no row meets `p` |
| Tables.Filter | Backend2/appointments/router.py:98-100 | `filter(p).all()`: a row is in the result exactly when it is in the table and meets `p` |
| Tables.MaxKey | Backend2/models.py:15 | the largest id of a non-empty table, and 0 for an empty one |
| Tables.NextKey | Backend2/models.py:15 | the rowid given to a new row is larger than every id in use |
| Tables.FilterKeepsUnique | Backend2/models.py:15 | deleting rows keeps a primary key unique |
| Tables.FilterRemovesOne | Backend2/doctors/router.py:256 | deleting by a primary key that is present removes exactly one row |
| Tables.AppendFreshKeepsUnique | Backend2/models.py:15 | inserting a row with a new key keeps the primary key unique |
| DateTime.ParseFormatHM | Backend2/doctors/router.py:61-62 | reading back a time written with `%H:%M` gives that time |
| DateTime.FormatParseHM | Frontend/assets/script.js:252-253 | every string the strict reading accepts is exactly the `%H:%M` rendering of its value |
| DateTime.ParseHM | Frontend/assets/script.js:252-253 | a strict "HH:MM" reading: whatever it accepts is five characters with the colon in the middle |
| DateTime.FormatHM | Backend2/doctors/router.py:61-62 | `%H:%M` writes two digits, a colon and two digits |
| DateTime.NatToString | Backend2/doctors/router.py:199 | `str(n)`: decimal digits with no leading zero, whose value is `n` |
| Strptime.HourAt | Backend2/doctors/router.py:205 | every field `%H` can read is one or two digits with a value below 24 |
| Strptime.MinuteAt | Backend2/doctors/router.py:205 | the field `%M` reads is one or two digits with a value below 60 |
| Strptime.MonthAt | Backend2/appointments/router.py:38 | every field `%m` can read is one or two digits with a value from 1 to 12 |
| Strptime.DayAt | Backend2/appointments/router.py:38 | the field `%d` reads is one or two digits, or a blank and a digit, with a value from 1 to 31 |
| Strptime.MatchTime | Backend2/appointments/router.py:39 | a match is an hour alternative followed by a colon and a minute; no match means no hour alternative is so followed |
| Strptime.MatchMonthDay | Backend2/appointments/router.py:38 | a match is a month alternative followed by a dash and a day; no match means no month alternative is so followed |
| Strptime.PyRepr | Backend2/appointments/router.py:42 | `%r` of the input in the no-match message is quoted with `"` exactly when it holds `'` and no `"`, else with `'` |
| Strptime.PyReprPlain | Backend2/appointments/router.py:42 | a string with no quote, backslash or control character is written between single quotes as it is |
| Strptime.NoMatchPlain | Backend2/appointments/router.py:42 | the no-match message of such a string is "time data '<s>' does not match format '<format>'" |
| Strptime.ParseDate | Backend2/appointments/router.py:38 | a parsed date is a real calendar date: month 1..12, day within the month, leap years, year 1..9999 |
| Strptime.ClockValueParses | Backend2/appointments/router.py:39 | every time of the reference shape (hour below 24, colon, minute below 60, one or two digits each) is read with the value 60 * hour + minute |
| Strptime.ParseTimeClock | Backend2/appointments/router.py:39 | every time the parser reads has the reference shape, with the same value |
| Strptime.DateValueParses | Backend2/appointments/router.py:38 | every date of the reference shape is read as the reference date |
| Strptime.ParseDateValue | Backend2/appointments/router.py:38 | every date the parser reads has the reference shape, with the same date |
| Strptime.ParseTimeAccepts | Backend2/appointments/router.py:39 | a time is accepted exactly when it is a one- or two-digit hour below 24, a colon and a one- or two-digit minute below 60, with nothing after; its value is 60 * hour + minute |
| Strptime.ParseDateAccepts | Backend2/appointments/router.py:38 | a date is accepted exactly when it is four digits, a dash, a one- or two-digit month 1..12, a dash and a one- or two-digit (or blank-padded) day that exists in that month of a nonzero year, with nothing after; its value is that date |
| Strptime.ParseTimeStrict | Backend2/doctors/router.py:205-206 | every strict two-digit "HH:MM" time is accepted with the value the strict reading gives |
| Strptime.ParseFormatTime | Backend2/doctors/router.py:61-62 | reading back a time written with `%H:%M` gives that time |
| Strptime.ParseFormatDate | Backend2/appointments/router.py:38 | reading back a valid date written as YYYY-MM-DD gives that date |
| Strptime.FormatParseDate | Backend2/appointments/router.py:38 | every ten-character YYYY-MM-DD string the date parser accepts is the `isoformat()` of its date |
| Strptime.MinuteSixtyExample | Backend2/appointments/router.py:39-42 | "12:60" is refused with "unconverted data remains: 0" |
| Strptime.HourTwentyFourExample | Backend2/appointments/router.py:39-42 | "24:00" is refused with the no-match message |
| Strptime.ShortTimeExamples | Backend2/appointments/router.py:39 | "9:05" is 545 minutes and "12:5" is 725 |
| Strptime.DayThirtyTwoExample | Backend2/appointments/router.py:38-42 | "2025-01-32" is refused with "unconverted data remains: 2" |
| Strptime.DateNoMatchExamples | Backend2/appointments/router.py:38-42 | "2025-01-00" and "2025-13-01" are refused with the no-match message |
| Strptime.DayRangeExample | Backend2/appointments/router.py:38-42 | "2025-02-29" is refused with "day is out of range for month" |
| Strptime.YearZeroExample | Backend2/appointments/router.py:38-42 | "0000-01-01" is refused with "year 0 is out of range" |
| Strptime.ShortDateExample | Backend2/appointments/router.py:38 | "2025-1-5" is 5 January 2025 |
| Strptime.BlankDayExample | Backend2/appointments/router.py:38 | "2025-01- 5" is 5 January 2025 |
| Models.RoleValue | Backend2/models.py:9-11 | the stored role string is "ADMIN" exactly for ADMIN and "PATIENT" exactly for PATIENT |
| Models.AllDays | Backend2/models.py:27-34 | `DayOfWeek` has seven members with seven distinct stored values |
| Models.AllDaysComplete | Backend2/models.py:27-34 | every day is among those seven |
| Models.StatusValue | Backend2/appointments/router.py:53 | the status string is "CANCELLED" exactly for a cancelled booking |
| Text.UpperString | Backend2/auth/router.py:95 | `upper()` maps each character and keeps the length |
| Store.Database.constructor | Backend2/models.py:13-80 | the empty store meets every constraint of the schema |
| Store.InsertUserKeeps | Backend2/models.py:15-17 | inserting a user with a fresh id and an unused e-mail keeps the store consistent |
| Store.InsertDoctorKeeps | Backend2/models.py:42-47 | inserting a doctor with a fresh id, an unused e-mail and a non-zero duration keeps the store consistent |
| Store.InsertScheduleKeeps | Backend2/models.py:58-62 | inserting a schedule of an existing doctor for a free day, ending after it starts, keeps the store consistent |
| Store.InsertAppointmentKeeps | Backend2/models.py:72-77 | inserting a booking of existing rows on a free slot keeps the store consistent, including no double booking |
| Store.CancelKeeps | Backend2/appointments/router.py:146-147 | setting one booking's status to CANCELLED keeps the store consistent |
| Store.DeleteScheduleKeeps | Backend2/doctors/router.py:256-257 | deleting a schedule keeps the store consistent |
| Store.DeleteDoctorKeeps | Backend2/models.py:49-50 | deleting a doctor together with its schedules and bookings keeps the store consistent, with no dangling reference |
| AuthUtils.CurrentUser | Backend2/auth/utils.py:59-77 | a decode failure, a payload without a user id or an unknown id gives 401; otherwise the stored user with the decoded id |
| AuthUtils.AdminRequired | Backend2/auth/utils.py:80-87 | 403 "Admin access required" for every non-admin; an admin passes through unchanged |
| AuthRouter.RoleFromRequest | Backend2/auth/router.py:95 | the new role is ADMIN exactly when the requested string is "admin" in some letter case, and PATIENT otherwise |
| AuthRouter.DefaultRequestRoleIsDefault | Backend2/models.py:19 | a register body without a role makes a PATIENT, the column's default |
| AuthRouter.Register | Backend2/auth/router.py:87-121 | a taken e-mail gives 400 and stores nothing; otherwise exactly one user is added with the given name and e-mail, the hashed password and the mapped role, and the response echoes that role's value |
| AuthRouter.Login | Backend2/auth/router.py:163-177 | 401 unless some user has the e-mail and the password verifies; on success a bearer token signed over that user's id and role value |
| AuthRouter.Me | Backend2/auth/router.py:188-195 | `/me` echoes the caller's id, name and e-mail, and a role value that is "ADMIN" exactly for administrators and otherwise "PATIENT" |
| AuthRouter.LoginThenMe | Backend2/auth/router.py:171-195 | a token from login, presented back, identifies the user who logged in, and `/me` echoes that user's e-mail, id and role |
| DoctorsRouter.WeekdayOf | Backend2/doctors/router.py:134-137 | every stored day has a number in 0..6 that maps back to it, so the fallback 0 is never used |
| DoctorsRouter.WeekdayRoundTrip | Backend2/doctors/router.py:188-199 | weekday numbers are accepted exactly on 0..6, and number to day to number is the identity |
| DoctorsRouter.WeekdayOrder | Backend2/doctors/router.py:44-47 | Sunday is 0 and Monday..Saturday are 1..6 in calendar order |
| DoctorsRouter.DurationOr60 | Backend2/doctors/router.py:106 | `x or 60`: null and 0 become 60, every other value is kept, so the result is never 0 |
| DoctorsRouter.DoctorView | Backend2/doctors/router.py:75-85 | a listed doctor shows the stored id, name, e-mail, specialty and bio; the stored duration when it is non-zero, and 60 when it is 0 |
| DoctorsRouter.ScheduleView | Backend2/doctors/router.py:147-152 | a listed schedule shows its id, the client number of its day, and times that parse back to the stored ones |
| DoctorsRouter.SchedulesOf | Backend2/doctors/router.py:131-154 | a doctor's listed schedules are exactly the views of its stored schedules |
| DoctorsRouter.ViewsOfMine | Backend2/doctors/router.py:146-154 | a listing built entry by entry from the filtered schedules holds those schedules and only those |
| DoctorsRouter.SchedulesOfWellFormed | Backend2/doctors/router.py:211-221 | in a stored doctor's listing no weekday appears twice, and each entry ends after it starts |
| DoctorsRouter.ListDoctorsPublic | Backend2/doctors/router.py:71-85 | one entry per doctor, in table order, each that doctor's view |
| DoctorsRouter.ListDoctorsAdmin | Backend2/doctors/router.py:35-68 | 403 for non-admins; otherwise one entry per doctor, in table order, holding that doctor's view and exactly its schedule views |
| DoctorsRouter.GetDoctor | Backend2/doctors/router.py:123-155 | 404 exactly when no doctor has the id; otherwise that doctor and exactly its schedules |
| DoctorsRouter.CreateDoctor | Backend2/doctors/router.py:88-120 | non-admins get 403; a taken e-mail gives 400 and stores nothing; otherwise exactly one doctor is added with the fallback duration, and nothing else changes |
| DoctorsRouter.AddSchedule | Backend2/doctors/router.py:174-242 | 403, 404, 400 for a bad weekday, a malformed time, end not after start and a taken day, in that order; success exactly when every guard passes, adding exactly one schedule |
| DoctorsRouter.AddTimes | Backend2/doctors/router.py:210-242 | once both times are read: 400 when the end is not after the start, then 400 when the doctor already has a schedule on that day; otherwise exactly one schedule with the next id is appended and echoed with the request's own time strings, nothing else changing |
| DoctorsRouter.DeleteSchedule | Backend2/doctors/router.py:245-258 | 403 for non-admins; 404 exactly when no schedule has the id; otherwise exactly that schedule is removed |
| DoctorsRouter.DeleteDoctorCascade | Backend2/models.py:49-50 | after the cascade, no schedule or booking of the doctor remains, and every one of another doctor is kept |
| DoctorsRouter.DeleteDoctor | Backend2/doctors/router.py:158-171 | 403 for non-admins; 404 exactly when no doctor has the id; otherwise exactly one doctor goes with its schedules and bookings, and users are untouched |
| AppointmentsRouter.DoctorOf | Backend2/appointments/router.py:108 | `apt.doctor` is present exactly when a doctor has the id, and it is that doctor |
| AppointmentsRouter.PatientOf | Backend2/appointments/router.py:213-216 | `apt.patient` is present exactly when a user has the id, and it shows that user's id and name |
| AppointmentsRouter.EntryOfStored | Backend2/appointments/router.py:105-109 | in a consistent store an entry names its doctor, and its end is exactly that doctor's non-zero duration after its start |
| AppointmentsRouter.Book | Backend2/appointments/router.py:22-89 | 404 for an unknown doctor; 400 "Invalid date/time format: " followed by the parser's own message for a date, then a time, that `strptime` refuses; 400 for a slot with a live booking (exact match only); success exactly when all guards pass, adding one PENDING booking of the caller, with end = start + the doctor's duration |
| AppointmentsRouter.BookSlot | Backend2/appointments/router.py:45-89 | once the date and time are read: 400 exactly when a live booking of that doctor has that date and time; otherwise exactly one PENDING booking of the caller with the next id is appended, its end is its start plus the doctor's duration, nothing else changing |
| AppointmentsRouter.CancelOutcome | Backend2/appointments/router.py:137-147 | a cancellation fails only with 404 or 403, and a success keeps every booking row |
| AppointmentsRouter.CancelOutcomeMeaning | Backend2/appointments/router.py:137-147 | 404 exactly for an unknown id; 403 for a booking of someone else; otherwise only that booking's status becomes CANCELLED, cancelling twice changes nothing, and the slot is then free |
| AppointmentsRouter.CancelFrees | Backend2/appointments/router.py:49-57 | cancelling a live booking leaves no live booking on its slot |
| AppointmentsRouter.CancelThenRebook | Backend2/appointments/router.py:49-70 | a request for a live booking's slot is refused; after the owner cancels, the same request passes every booking guard |
| AppointmentsRouter.Cancel | Backend2/appointments/router.py:130-151 | the appointments table becomes the cancellation outcome; on 404 or 403 the store is unchanged; other tables are never touched |
| AppointmentsRouter.MineListed | Backend2/appointments/router.py:98-125 | a listing of the caller's bookings holds each of them, and only them |
| AppointmentsRouter.MyAppointments | Backend2/appointments/router.py:92-127 | one entry per booking of the caller, cancelled ones included, in table order; end falls back to 60 minutes when the doctor is missing |
| AppointmentsRouter.LiveListingDistinct | Backend2/appointments/router.py:164-167 | no listed entry is cancelled, and no two start at the same moment |
| AppointmentsRouter.DoctorAppointments | Backend2/appointments/router.py:158-182 | exactly the doctor's live bookings, in table order, none cancelled, no two at the same start |
| AppointmentsRouter.EntriesNamePeople | Backend2/appointments/router.py:197-217 | in a consistent store every entry of the full listing names its booking's doctor and patient |
| AppointmentsRouter.AllAppointments | Backend2/appointments/router.py:189-219 | 403 for non-admins; otherwise one entry per booking in table order, each with its doctor and patient |
| Utils.SlotMinutesBounds | Frontend/assets/script.js:255 | there are slots exactly when start < end, and every slot lies in [start, end) |
| Utils.SlotMinutesAt | Frontend/assets/script.js:255-258 | slot i begins `i * duration` after the start, and one more step would reach the end |
| Utils.RenderSnoc | Frontend/assets/script.js:256-257 | pushing one more slot appends its "HH:MM" |
| Utils.RenderAt | Frontend/assets/script.js:256 | the i-th string is the "HH:MM" of the i-th slot |
| Utils.ParseClock | Frontend/assets/script.js:252-253 | the browser reads a strict "HH:MM" as its minute and "24:00" as 1440, the midnight that ends the day; every other string is an invalid date |
| Utils.SlotsBetween | Frontend/assets/script.js:255-259 | the loop produces exactly the specified slots |
| Utils.GenerateTimeSlots | Frontend/assets/script.js:250-262 | the result is the specified slot list, and empty when a time does not read as a date |
| Utils.TimeSlotsMeaning | Frontend/assets/script.js:252-258 | no slots when a time does not read; otherwise each slot reads back as its minute, and the first slot is the start string itself |
| Utils.TimeSlotsSteps | Frontend/assets/script.js:252-258 | slots exist exactly when start < end; slot i is start + i * duration and before the end (no wrap past midnight); none is missing |
| Utils.MidnightEndExample | Frontend/assets/script.js:250-262 | from "22:00" to "24:00" an hour apart the slots are "22:00" and "23:00" |
| Utils.GetDayName | Frontend/assets/script.js:265-268 | a name exactly for 0..6 |
| Utils.DayNamesAgree | Frontend/assets/script.js:265-268 | the page's name of day n, upper-cased, is the stored value of the backend's day n |
| Utils.IsValidEmailMatchesPattern | Frontend/assets/script.js:271-274 | the e-mail test accepts exactly the strings the regular expression matches: no whitespace, one '@' with text before it, a '.' in the domain neither first nor last |
| FormValidator.TrimStart | Frontend/assets/script.js:354 | drops exactly the leading whitespace |
| FormValidator.TrimEnd | Frontend/assets/script.js:354 | drops exactly the trailing whitespace |
| FormValidator.Trim | Frontend/assets/script.js:354 | the result is the middle of the string, with only whitespace cut off either side, and neither begins nor ends with whitespace |
| FormValidator.TrimEmpty | Frontend/assets/script.js:354 | a string trims to "" exactly when all of it is whitespace |
| FormValidator.ValidateRequired | Frontend/assets/script.js:353-358 | fails with "<field> is required" exactly for a missing, empty or all-whitespace value |
| FormValidator.ValidateEmail | Frontend/assets/script.js:360-365 | fails exactly on strings the e-mail pattern rejects |
| FormValidator.Utf16Length | Frontend/assets/script.js:368 | `length` is the number of characters plus the number of them beyond the Basic Multilingual Plane |
| FormValidator.Utf16LengthAppend | Frontend/assets/script.js:368 | the length of two strings put together is the sum of their lengths |
| FormValidator.ValidatePassword | Frontend/assets/script.js:367-372 | fails exactly when the password is shorter than the minimum, with the minimum in the message |
| FormValidator.ShortPasswordRefused | Frontend/assets/script.js:367 | with the default minimum, fewer than six characters is refused |
| FormValidator.ValidatePasswordMatch | Frontend/assets/script.js:374-379 | fails exactly when the two strings differ |
| FormValidator.ValidateTime | Frontend/assets/script.js:381-386 | fails exactly when the start string is not below the end string |
| FormValidator.StrLessTotal | Frontend/assets/script.js:382 | string `<` is a strict total order: irreflexive, never both ways, and one way for any two different strings |
| FormValidator.FormatHMOrder | Frontend/assets/script.js:382 | on zero-padded "HH:MM" strings, string order is time order |
| FormValidator.ValidateTimeChronological | Frontend/assets/script.js:381-386 | for "HH:MM" times the check passes exactly when the end is later |

## Left out

- **HTTP wiring.** FastAPI routing, dependency injection, route order, response-model validation, CORS and logging are framework behaviour. `Backend2/main.py` is not part of this model.
- **Persistence.** The SQLAlchemy sessions of `Backend2/db.py`, and `Backend2/doctors/create_tables.py` (entirely commented out), are not modelled. Each handler's writes are one atomic step.
- **Concurrency.** Two simultaneous bookings of one slot can race between the check and the insert. The model is sequential.
- **Crypto and tokens.**
  - bcrypt hashing and verification, and JWT signing and decoding, are opaque functions.
  - Token expiry is not modelled, since the code issues none.
  - Truncation of passwords to 72 bytes is not modelled.
- **Pydantic validation.** `EmailStr`, request-body type coercion, the unused schema modules and all commented-out code are not modelled.
- **Browser I/O.** `APIService`, `AuthHelper`, `NavigationHelper`, notifications, loading spinners and `debounce` touch the network, storage, the DOM and timers. The locale formatting of `formatDate`, `formatTime` and `formatDateTime` is left out too.
- **Time parsing.**
  - `\d` in `strptime`'s expressions also matches non-ASCII decimal digits. The model's digits are ASCII only.
  - `repr` writes non-ASCII characters that are not printable as `\x`, `\u` or `\U` escapes. The model writes every non-ASCII character as itself.
  - The error texts are those of the CPython releases whose `_strptime` and `date` constructor word them this way. Other releases word them differently.
  - `Utils.ParseClock` reads strict `"HH:MM"` and `"24:00"` only. The browser's `Date` also reads forms with seconds, and some browsers accept further forms.
- **Timestamps.** A booking's end is its date plus a minute offset that may pass 1439. It is not normalised to the next calendar day, and `isoformat()` is not modelled. An end past midnight on the last day of year 9999 would overflow in Python; that case is not modelled.
- Utils.GenerateTimeSlots: requires a positive duration, because for a duration of zero or less the browser loop never ends. Slots are minutes of one day. Time-zone and daylight-saving effects of the browser's local `Date` are not modelled.
- Text.UpperString: models `upper()` only as far as comparing the result with an ASCII capital word can tell.
  - Characters whose upper case is several characters map to themselves.
  - Such an expansion never spells a word made of A, D, M, I and N, so the role mapping is exact.
- FormValidator.ValidateRequired: a present value is a string. The other falsy JavaScript values (`0`, `false`, `NaN`) that the check also refuses are not modelled.
- FormValidator.StrLess: compares code points. JavaScript compares UTF-16 code units, which order differently only for characters beyond the Basic Multilingual Plane.
- Strptime.FormatParseDate: requires the ten-character `YYYY-MM-DD` shape. A one-digit or blank-padded field is read, but `isoformat()` writes it back with a leading zero.
- AppointmentsRouter.Book: requires that the caller is a stored user, as the current-user lookup guarantees.
