# Hospital appointment book, modelled in Dafny

Hospital-Management is a chatbot front desk. A language-model agent talks
to the patient and calls four tools: book an appointment, cancel one,
reschedule one, and list the doctors. The tools keep two JSON "databases":
a doctor directory and an appointment list. A seeding script fills the
appointment list with random bookings.

This project models the deterministic core behind the agent:

- **Database** (`database.py`): doctor-name normalization and lookup,
  appointment numbers of the form `APT-0001`, and the exact-text conflict
  check `_find_conflict`.
- **Tools** (`Tools.py`): `book_appointment`, `cancel_appointment`,
  `reschedule_appointment` and `list_doctors`. Each is a pure transition
  from the old appointment list to an outcome and the new list.
- **Router** (`Main.py`): `detect_booking_intent`, and the two-mode
  switch of the interactive loop. The switch decides which agent answers a
  line and which history that agent continues. Its reply is an input.
- **Calendar** and **Seeding** (`MakeDataBase.py`): dates of the
  proleptic Gregorian calendar, `_daterange`, the `strptime`/`strftime`
  layouts, `_normalize_time_to_minute`, `_generate_slots_for_date`, the
  minute-normalized `_find_conflict`, and the three seeding entry points.
- **Text**, **Seqs** and **Wrappers**: the Python string primitives and
  list patterns these need, and `Option`/`Result`.

`Main.py` holds copies of `_normalize_doctor_name`, `_get_doctor_by_name`,
`_extract_id_number`, `_get_next_appointment_id`, `_find_conflict`,
`book_appointment` (lines 107-155), `cancel_appointment` (158-191) and
`list_doctors` (210-241). `MakeDataBase.py` copies the name and id helpers
(105-117, 151-157). These copies are the same code, so one model serves
every copy. The `Main.py` rows below cite the copy a lemma is stated for.

The model is abstract in these places:

- The two JSON files are parameters. The directory is a `seq<Doctor>`.
  The appointment list is a `seq<Appointment>`, and a tool returns the
  list it would save.
- A tool's JSON reply is an `Outcome`: `Ok(message, record)` or
  `Err(message, conflict)`. The message is a `Message` constructor, not
  its text.
- A record's status is `Booked | Cancelled`. Every test in the program is
  "is it `CANCELLED`", so any other status string acts like `BOOKED`.
- The agents are not modelled. A turn takes the agent's reply as input.
- The random generator is a parameter. `sample(draws, n, k)` gives `k`
  distinct positions out of `n`, as `random.sample` does.
  `patientNo(created)` is the number `randint` gives the record created as
  number `created`.
- `datetime.now()` is the date `today` plus `micros`, the microseconds
  since that day's midnight.
- The seeding plan holds the working window as `ClockWindow(start_hm,
  end_hm)`, read once (see `Seeding.PlanOf`). The program re-reads both
  clock times for every date. Reading is pure, so every re-read gives the
  same answer, and a bad clock time still fails at the first date seeded.
  `Seeding.DaySlotsGenerated` proves that the per-date slots equal what
  `_generate_slots_for_date` returns, and that both fail on the same inputs.

## Model

| member | source | states |
|---|---|---|
| Database.NormalizeDoctorNameShape | database.py:28-34 | the name key is lower-case, no longer than the name, and is the trimmed lower-cased name with at most one `dr. ` or `dr ` taken off its front |
| Database.NormalizeDropsTitle | database.py:29-33 | a title `dr. ` or `dr ` in any letter case, followed by a name, gives the lower-cased name |
| Database.OnlyOneTitleRemoved | database.py:30-33 | only the first title is removed: whatever follows it, a second title included, is kept, lower-cased |
| Database.TitledNameMatchesUntitled | database.py:42-46 | a directory name `Dr. X` is found by the query `X` |
| Database.GetDoctorByName | database.py:42-47 | None exactly when no directory row's name matches the query; otherwise the first matching row |
| Database.SecondFieldOf | database.py:62 | `s.split("-")[1]` is the text between the first separator and the next one (or the end) |
| Database.ExtractIdNumberSplits | database.py:59-64 | the id number is what `int(id.split("-")[1])` gives, and 0 where that raises |
| Database.ExtractIdNumberOf | database.py:59-64 | the number of `p-x` or `p-x-...` is `int(x)`, and 0 when `int()` rejects `x` |
| Database.ExtractFormattedId | database.py:59-72 | the number of `APT-{n:04d}` reads back as `n` |
| Database.MaxIdNumberSnoc | database.py:68-71 | appending a record makes the largest number the larger of the old largest and the new record's number |
| Database.NextAppointmentId | database.py:67-72 | the next id starts `APT-`, is one above the largest number present, and differs from every existing id |
| Database.FindConflict | database.py:75-83 | None exactly when no live record has the same normalized doctor and the same trimmed lower-cased time; otherwise the first such record, which is BOOKED |
| Text.StripIsInfix | database.py:29 | `strip()` gives a slice of the text with only whitespace cut from either end |
| Text.ParseIntDigits | database.py:62 | `int()` on a plain digit string gives the number the digits denote |
| Text.ParseIntNonNegative | database.py:62 | `int()` never gives a negative number for text without a minus sign |
| Text.ContainsIff | Tools.py:171 | the substring test `sub in s` holds exactly when `sub` occurs at some position |
| Text.ContainsBoundedIff | Main.py:328 | the `\b...\b` search succeeds exactly when the phrase occurs with a word boundary on both sides |
| Tools.BookAppointment | Tools.py:16-63 | an unknown doctor gives `Doctor not found`; an error leaves the list unchanged; a reported conflict is a live record of the list; a success appends one BOOKED record at the requested time, with an id above every existing id, for the first matching directory row |
| Tools.BookOutcome | Tools.py:29-63 | for the first matching directory row: the first live record holding that doctor at that time is reported as the conflict, named with the directory's spelling; without one, the record for that row is appended |
| Tools.BookSucceedsIff | Tools.py:29-44 | a booking succeeds exactly when some directory row matches and no live record holds that doctor at that time |
| Tools.BookPreservesInvariants | Main.py:107-155 | booking keeps the list free of double bookings and of repeated ids |
| Tools.AppendFreeKeeps | Tools.py:47-56 | appending a record whose slot no live record holds and whose id is new keeps both invariants |
| Tools.CancelAppointment | Tools.py:66-100 | an unknown id is an error that changes nothing; otherwise only the first record with the id becomes CANCELLED, reported as `already cancelled` exactly when it was cancelled before |
| Tools.CancelIdempotent | Main.py:158-191 | cancelling twice leaves the list as cancelling once does, and the second call reports `already cancelled` |
| Tools.CancelPreservesInvariants | Tools.py:80-95 | cancelling keeps the list free of double bookings and of repeated ids |
| Tools.RescheduleAppointment | Tools.py:103-138 | an unknown id gives `Appointment not found`; an error changes nothing; a reported conflict carries another id; a success moves the first record with the id, which is BOOKED, to the new time and changes nothing else |
| Tools.RescheduleOutcome | Tools.py:117-138 | for the first record with the id: a cancelled record is refused, a first live holder of the new slot with another id is reported as the conflict, and otherwise the record is moved |
| Tools.RescheduleSucceedsIff | Tools.py:117-138 | a reschedule succeeds exactly when the first record with the id is BOOKED and the new slot is free or first held by a record with that id |
| Tools.RescheduleRefusesCancelled | Tools.py:124-125 | a cancelled appointment is never moved |
| Tools.OnlyTargetHoldsSlot | Tools.py:127-134 | when the slot check lets a reschedule through, no other record holds the new slot |
| Tools.ReschedulePreservesInvariants | Tools.py:127-138 | rescheduling keeps the list free of double bookings and of repeated ids |
| Tools.ListedRows | Tools.py:170-174 | filtering by department and then by name keeps exactly the rows that pass both active filters, in directory order |
| Tools.FilterStages | Main.py:234-238 | the two filter stages give the rows that pass both active filters, as a subsequence of the directory |
| Tools.ListDoctors | Tools.py:146-177 | at most `max(1, limit)` rows, counted, all passing the active filters, and exactly the first such rows of the directory in order |
| Router.ContainsAny | Main.py:280-281 | `any(v in t for v in verbs)` holds exactly when some verb occurs in the text |
| Router.DetectBookingIntentIff | Main.py:276-281 | intent is detected exactly when the lower-cased text mentions `appointment` or `appt` and contains a booking verb |
| Router.NoMentionNoIntent | Main.py:278-279 | without `appointment` or `appt` there is no intent |
| Router.IntentIgnoresCase | Main.py:277 | the test gives the same answer for a text and its lower-cased form |
| Router.RescheduleCountsAsBooking | Main.py:280-281 | a text with `appointment` and `reschedule` is taken for a booking request, since `reschedule` contains `schedule` |
| Router.Dispatch | Main.py:318-325 | a blank line is skipped; otherwise the trimmed line goes to the booking agent exactly when it shows intent or booking mode is on, and it continues that agent's history |
| Router.Turn | Main.py:322-334 | a booking turn returns to general mode, with its history cleared, exactly when the reply contains `appointment booked` as words; a general turn leaves the booking history alone |
| Router.BookingModeEndsOnlyOnConfirmation | Main.py:325-331 | booking mode is left only by a confirming reply to a non-blank line |
| Router.IntentForcesBookingMode | Main.py:322-331 | a line with intent goes to the booking agent, and the loop stays in booking mode unless the reply confirms |
| Router.BookingModePersists | Main.py:316-331 | once in booking mode, the loop stays there as long as no reply confirms a booking |
| Router.ConfirmsBookingIff | Main.py:328 | the confirmation test holds exactly when `appointment booked` occurs in the lower-cased reply with a word boundary on both sides |
| Router.OneShot | Main.py:305-312 | with arguments, the joined words go to the booking agent exactly when they show intent, with an empty history |
| Router.OneShotAgreesWithLoop | Main.py:305-325 | a trimmed non-empty command line goes where the first line of a fresh session would go |
| Calendar.NextDay | MakeDataBase.py:132 | the next day is a valid date whose ordinal is one more |
| Calendar.AddDays | MakeDataBase.py:299 | `d + timedelta(days=n)` fails exactly past `date.max`, and otherwise has ordinal `n` more |
| Calendar.DateRange | MakeDataBase.py:128-132 | every day from start to end in order, none when start is after end, and OverflowError exactly when the range reaches `date.max` |
| Calendar.DateRangeSteps | MakeDataBase.py:128-132 | the range starts at the start date, ends at the end date, and steps one day at a time |
| Calendar.DateRoundTrip | MakeDataBase.py:124-125 | a date written `%Y-%m-%d` reads back as itself |
| Calendar.RenderParses | MakeDataBase.py:164-168 | a moment written in any of the four layouts reads back as itself |
| Calendar.NormalizeTimeToMinute | MakeDataBase.py:160-171 | the empty string gives None, and a result is always 16 characters |
| Calendar.NormalizeReadsLayouts | MakeDataBase.py:163-168 | a moment written in each of the four layouts, with any seconds, normalizes to its `YYYY-MM-DD HH:MM` form |
| Calendar.NormalizeParsed | MakeDataBase.py:165-168 | trimmed text that a layout reads is normalized through that layout |
| Calendar.LayoutsExclusive | MakeDataBase.py:164-170 | no text fits two of the layouts |
| Calendar.NormalizeIdempotent | MakeDataBase.py:160-171 | normalizing a normalized time gives it back |
| Calendar.FormatMinuteInjective | MakeDataBase.py:146 | different moments are written differently |
| Calendar.ParseClockOf | MakeDataBase.py:138-140 | a clock time written `HH:MM` reads as `HH * 60 + MM` minutes |
| Calendar.ClockWindow | MakeDataBase.py:138-141 | both clock times read give a window inside the day |
| Calendar.WindowSlots | MakeDataBase.py:140-147 | an unread window raises ValueError; every slot generated in a window is a valid moment of the requested day |
| Calendar.GenerateSlots | MakeDataBase.py:135-148 | a clock time that does not read raises ValueError; otherwise the slots between the two clock times |
| Calendar.Slots | MakeDataBase.py:142-147 | a step outside `timedelta`'s range raises OverflowError; with a step of zero or less, the result is empty exactly when `end < start + step`; otherwise a zero step never returns and a negative one raises OverflowError |
| Calendar.SlotLoopShape | MakeDataBase.py:145-147 | the loop gives `(end - start) // step` slots a step apart from the start, each ending by the end |
| Calendar.SlotsShape | MakeDataBase.py:142-148 | with a positive step the slots lie on the date, start at the start time, follow each other a step apart, and number `(end - start) // step` |
| Calendar.SlotsFitBeforeMaxDate | MakeDataBase.py:144-147 | on any day but the last, a step of at most a day never overflows |
| Seeding.FindConflictByMinute | MakeDataBase.py:174-187 | a request time that does not read finds nothing; otherwise None exactly when no live record of the doctor reads as the same minute, and the first such record when one does |
| Seeding.MinuteConflictIgnoresLayout | MakeDataBase.py:174-187 | a request finds the same conflict in each of the four layouts, with any seconds |
| Seeding.SlotTextsCanonical | MakeDataBase.py:146 | distinct slots are written as distinct texts that are their own comparison keys |
| Seeding.FreeSlots | MakeDataBase.py:217-223 | the free slots are exactly the slots whose key the doctor's live records do not hold |
| Seeding.AppendChosenNumbered | MakeDataBase.py:229-240 | appending one record at a time under the next id numbers the records consecutively from one above the largest number present |
| Seeding.SeedDoctorSpec | MakeDataBase.py:215-240 | seeding a doctor fails only for a negative `per_doctor` with free slots; otherwise it appends `min(per_doctor, free)` records for that doctor at distinct free slots under fresh ids, and the list stays sound |
| Seeding.SeedDoctorsSpec | MakeDataBase.py:215-240 | the doctor loop keeps the list sound and only appends records at the day's slots; it fails only with ValueError for a negative `per_doctor` |
| Seeding.SeedDoctorsSucceeds | MakeDataBase.py:226-227 | with a non-negative `per_doctor` the doctor loop never fails |
| Seeding.DaySlotsGenerated | MakeDataBase.py:214 | the slots seeded on a date are the written forms of what `_generate_slots_for_date` returns, and fail exactly when it raises, with the same error |
| Seeding.SeedDatesSpec | MakeDataBase.py:191-243 | seeding a list of dates keeps the list sound, only appends, and counts what it appends |
| Seeding.SeedDatesSucceed | MakeDataBase.py:212-227 | with workable inputs and readable dates before 9999-12-31, seeding succeeds |
| Seeding.SeedDatesRejectsUnreadable | MakeDataBase.py:212-213 | a date text that does not read, anywhere in the list, makes the call fail |
| Seeding.FormattedDatesSeedDays | MakeDataBase.py:258-268 | writing the days out and reading them back seeds exactly those days |
| Seeding.RangeSeedsEachDay | MakeDataBase.py:246-268 | unreadable dates raise ValueError; otherwise the range seeds each day from the first to the last in order, none when the last is before the first, and OverflowError when it reaches 9999-12-31 |
| Seeding.TodayOnlyIff | MakeDataBase.py:301-302 | a slot of today stays exactly when it is strictly after now |
| Seeding.DaySlotsLater | MakeDataBase.py:299-302 | every slot left on a day from today on is canonical and strictly after now |
| Seeding.SeedRandomDaysSpec | MakeDataBase.py:271-334 | a non-positive count creates nothing; otherwise a success on a sound list keeps it sound, only appends records strictly after now, and returns the count it appended; with workable inputs it succeeds whenever its last day is before 9999-12-31 |

## Left out

- The JSON files are not modelled: `_read_json`, `_write_json`,
  `_load_doctors`, `_load_all_appointments`, `_save_all_appointments`, and
  the missing-file and bad-JSON defaults. They are I/O; the lists are
  parameters and results.
- `_ensure_dataset_seeded` and the rest of `MakeDataBase.py` outside the
  seeding functions (the directory fixture and the command line) are
  left out. They write fixtures or parse arguments.
- Records as dictionaries are not modelled: missing keys (`a.get(...)`
  defaults, `doc["name"]` raising KeyError) and values that are not
  strings are left out. Every record here has all six fields as text.
- The language-model agents are not modelled: `_init_model`,
  `build_general_agent`, `build_booking_agent`, `run_turn`, the prompts,
  and the `recursion_limit`. They call an external service, so a turn
  takes the agent's reply as input.
- `input`, `print`, `argparse`, `KeyboardInterrupt`, `load_dotenv` and
  `logging` are left out. They are I/O with no effect on the lists.
- The tools run one at a time. Concurrent writers to the JSON files are
  not modelled.
- `random.Random` is left out: `rng.sample` and `rng.randint` are
  parameters (a sampler and a patient-number function). The two draw
  from one stream in the program; here they are independent functions.
- Text.Lower: `str.lower()` is modelled on ASCII letters only. Python also
  lower-cases other letters, such as `É`.
- Database.NormalizeDoctorName: the key lower-cases ASCII only, so names
  that differ only in the case of a non-ASCII letter do not match here.
  Python would match them.
- Database.GetDoctorByName: a directory name and a query that differ only
  in the case of a non-ASCII letter are not matched here. Python would
  match them.
- Router.DetectBookingIntent: lower-casing is ASCII only, so a keyword
  written with non-ASCII capitals is not recognised.
- Router.ConfirmsBooking: `\w` is modelled as ASCII word characters only.
  Python's `re` also counts non-ASCII letters and digits as word characters.
  So `Appointment bookedé` confirms here but not in Python.
- Database.ExtractIdNumber: `int()` is modelled on ASCII digits only.
  Python also accepts other Unicode decimal digits.
- Text.IsSpace: whitespace is Python's `str.isspace()` set restricted to
  the characters listed. The model assumes no other character is a space.
- Calendar.ParseClock: `time(sh, sm)` raising OverflowError for numbers
  beyond a C int is modelled as the ValueError it raises for other
  out-of-range values.
- Calendar.ParseDate: `strptime` also accepts a one-digit month or day,
  a day written as a space and one digit, and non-ASCII decimal digits
  such as full-width `２０２５-01-05`. The model reads only `YYYY-MM-DD`
  with four, two and two ASCII digits. Like `strptime`, it takes exactly
  four year digits.
- Calendar.ParseMoment: `strptime` also accepts one-digit hours, minutes
  and seconds, a day written as a space and one digit, non-ASCII decimal
  digits, and any run of whitespace where a layout has a space. The model
  reads only the full-width ASCII forms with one separator character.
- Text.ParseInt: CPython's limit on converting between `int` and decimal
  text is not modelled. By default `int()` raises ValueError on more than
  4300 digits; here any number of digits reads.
- Text.ParseIntDigits: a digit string longer than 4300 digits gives its number
  here, while `int()` raises ValueError on it under CPython's default limit.
- Database.ExtractIdNumber: an id whose second field has more than 4300
  digits gives that number here; the program catches the ValueError of
  `int()` and gives 0.
- Database.ExtractIdNumberSplits: states `int()` without the 4300-digit limit, so
  for a second field longer than that it gives the number where the
  program gives 0.
- Database.ExtractIdNumberOf: the same 4300-digit gap; a field `x` of more than
  4300 digits gives `int(x)` here and 0 in the program.
- Database.NextAppointmentId: fields over 4300 digits count as their number here,
  not as 0. When the largest number plus one has more than 4300 digits,
  `f"{n:04d}"` raises ValueError in the program, while the model still
  gives an id.
- Database.ExtractFormattedId: formatting a number of more than 4300
  digits raises ValueError in the program; the model formats any number.
- Calendar.FormatDate and Calendar.FormatMinute: the model follows
  platforms where `strftime("%Y")` pads the year to four digits. With
  CPython 3.12 or earlier on Linux, years below 1000 come out unpadded
  (`5-01-01`), and `%Y` then rejects that text when it is read again.
- Calendar.DateRoundTrip: holds where `%Y` writes four digits. On a platform that
  writes years below 1000 unpadded, such a date does not read back.
- Calendar.NormalizeTimeToMinute: "always 16 characters" assumes a padded year.
  On a platform that writes years below 1000 unpadded, the result is
  shorter.
- Calendar.NormalizeReadsLayouts: the `YYYY-MM-DD HH:MM` result assumes a padded
  year. Years below 1000 come out unpadded on some platforms.
- Calendar.NormalizeIdempotent: on a platform that writes years below 1000
  unpadded, the normalized text of such a year does not read again, so
  normalizing twice gives None there.
- Seeding.FormattedDatesSeedDays: assumes four-digit `strftime` years. On a
  platform that writes years below 1000 unpadded, the re-read at
  MakeDataBase.py:213 raises ValueError for those days.
- Seeding.RangeSeedsEachDay: assumes four-digit `strftime` years. On a platform
  that writes years below 1000 unpadded, a range touching those years
  raises ValueError instead of seeding each day.
- Calendar.NormalizeTimeToMinute: through ParseMoment, text such as
  `2025-01-05 9:00` or `2025-01-05  09:00` gives None here. Python
  normalizes it.
- Seeding.FindConflictByMinute: through NormalizeTimeToMinute, a request
  or a stored time written with short fields or a run of spaces does not
  read here. So a conflict the program would report through such a time is
  missed here.
- Calendar.Slots: times are kept to the minute; seconds and microseconds
  of `datetime` are not modelled.
- Seeding.SeedDoctorSpec: the order of records inside one doctor's sample
  is the sampler's order; which slots `random.sample` picks is not
  specified beyond being distinct and free.
- Seeding.SeedDatesSucceed: the success lemmas are stated as
  implications from workable inputs, not as an exact characterization of
  every failing input.
- Seeding.SeedRandomDaysSpec: the count is the number of records appended,
  not the saved file. A failure here saves nothing, as in the program,
  where the save comes after the loop.
