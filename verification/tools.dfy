/** The four tools the chatbot calls (Tools.py; Main.py holds copies of three
    of them): book, cancel and reschedule an appointment, and list doctors.
    Each tool reads the appointment list, decides, and writes the list back;
    here it is a pure transition from the old list to an outcome and the new
    list. The JSON text a tool returns is represented by the `Outcome` datatype. */
module Tools {
  import opened Wrappers
  import opened Text
  import opened Seqs
  import opened Database

  /** The "message" of a tool result, one constructor per message text the
      tools write, carrying the parts the text interpolates. */
  datatype Message =
    | DoctorNotFound(doctor: string)
    | TimeConflict(doctor: string, time: string)
    | AppointmentBooked
    | AppointmentNotFound(id: string)
    | AlreadyCancelled
    | AppointmentCancelled
    | CannotRescheduleCancelled
    | AppointmentRescheduled

  /** `{"ok": true, "message": ..., "appointment": record}` or
      `{"ok": false, "message": ..., "conflict": record?}`. */
  datatype Outcome =
    | Ok(message: Message, record: Appointment)
    | Err(message: Message, conflict: Option<Appointment>)

  /** What a tool reports, and the appointment list it leaves behind. */
  datatype Transition = Transition(outcome: Outcome, appts: seq<Appointment>)

  // ---------------------------------------------------------------------
  // book_appointment
  // ---------------------------------------------------------------------

  /** The record a successful booking appends for directory row `d`. */
  function NewBooking(appts: seq<Appointment>, patient: string, d: Doctor, time: string): Appointment {
    Appointment(NextAppointmentId(appts), patient, d.name, d.department, time, Booked)
  }

  /** `book_appointment`: look the doctor up in the directory, refuse a slot
      a live record already holds, otherwise append a BOOKED record under the
      next id with the directory's spelling of the name and its department. */
  function BookAppointment(directory: seq<Doctor>, appts: seq<Appointment>, patient: string, doctor: string, time: string): (r: Transition)
    ensures r.outcome.Err? ==> r.appts == appts
    ensures (forall i :: 0 <= i < |directory| ==> !NamesMatch(directory[i].name, doctor)) ==>
      r.outcome == Err(DoctorNotFound(doctor), None)
    ensures r.outcome.Err? && r.outcome.conflict.Some? ==>
      r.outcome.conflict.value in appts && r.outcome.conflict.value.status == Booked
    ensures r.outcome.Ok? ==> r.appts == appts + [r.outcome.record] && r.outcome.message == AppointmentBooked
    ensures r.outcome.Ok? ==> r.outcome.record.status == Booked && r.outcome.record.time == time
    ensures r.outcome.Ok? ==> forall i :: 0 <= i < |appts| ==>
      appts[i].id != r.outcome.record.id && ExtractIdNumber(appts[i].id) < ExtractIdNumber(r.outcome.record.id)
    ensures r.outcome.Ok? ==>
      exists k :: FirstNamedAt(directory, doctor, k) && r.outcome.record == NewBooking(appts, patient, directory[k], time)
  {
    match GetDoctorByName(directory, doctor)
    case None => Transition(Err(DoctorNotFound(doctor), None), appts)
    case Some(d) =>
      match FindConflict(appts, d.name, time)
      case Some(c) => Transition(Err(TimeConflict(d.name, time), Some(c)), appts)
      case None =>
        var rec := NewBooking(appts, patient, d, time);
        Transition(Ok(AppointmentBooked, rec), appts + [rec])
  }

  /** A booking succeeds exactly when some directory row matches the doctor
      and no live record holds that doctor at that time. */
  lemma BookSucceedsIff(directory: seq<Doctor>, appts: seq<Appointment>, patient: string, doctor: string, time: string)
    ensures BookAppointment(directory, appts, patient, doctor, time).outcome.Ok? <==>
      (exists i :: 0 <= i < |directory| && NamesMatch(directory[i].name, doctor))
      && (forall j :: 0 <= j < |appts| ==> !Blocks(appts[j], NormalizeDoctorName(doctor), TimeKey(time)))
  {
    var found := GetDoctorByName(directory, doctor);
    if found.Some? {
      var k :| FirstNamedAt(directory, doctor, k) && directory[k] == found.value;
      BookOutcome(directory, appts, patient, doctor, time, k);
      assert NormalizeDoctorName(directory[k].name) == NormalizeDoctorName(doctor);
    }
  }

  /** Once the first matching directory row is known, the booking is decided
      by the first live record holding that doctor at that time: that record
      is reported as the conflict, under the directory's spelling of the name;
      without one, the record for that row is appended. */
  lemma BookOutcome(directory: seq<Doctor>, appts: seq<Appointment>, patient: string, doctor: string, time: string, k: int)
    requires FirstNamedAt(directory, doctor, k)
    ensures var d := directory[k];
      var c := FindConflict(appts, d.name, time);
      var rec := NewBooking(appts, patient, d, time);
      BookAppointment(directory, appts, patient, doctor, time)
        == if c.Some? then Transition(Err(TimeConflict(d.name, time), c), appts)
           else Transition(Ok(AppointmentBooked, rec), appts + [rec])
  {
    FirstNamedUnique(directory, doctor, k);
  }

  /** The first matching row is the one the directory lookup returns. */
  lemma FirstNamedUnique(directory: seq<Doctor>, doctor: string, k: int)
    requires FirstNamedAt(directory, doctor, k)
    ensures GetDoctorByName(directory, doctor) == Some(directory[k])
  {
    var found := GetDoctorByName(directory, doctor);
    var j :| FirstNamedAt(directory, doctor, j) && directory[j] == found.value;
  }

  /** Booking keeps the list free of double bookings and of repeated ids. */
  lemma BookPreservesInvariants(directory: seq<Doctor>, appts: seq<Appointment>, patient: string, doctor: string, time: string)
    requires NoDoubleBooking(appts) && UniqueIds(appts)
    ensures var r := BookAppointment(directory, appts, patient, doctor, time);
      NoDoubleBooking(r.appts) && UniqueIds(r.appts)
  {
    var found := GetDoctorByName(directory, doctor);
    if found.Some? {
      var k :| FirstNamedAt(directory, doctor, k) && directory[k] == found.value;
      BookOutcome(directory, appts, patient, doctor, time, k);
      var d := directory[k];
      if FindConflict(appts, d.name, time).None? {
        var rec := NewBooking(appts, patient, d, time);
        AppendFreeKeeps(appts, rec);
      }
    }
  }

  /** Appending a BOOKED record whose slot no live record holds and whose id
      no record carries keeps both invariants. */
  lemma AppendFreeKeeps(appts: seq<Appointment>, rec: Appointment)
    requires NoDoubleBooking(appts) && UniqueIds(appts)
    requires forall i :: 0 <= i < |appts| ==> !Blocks(appts[i], NormalizeDoctorName(rec.doctor), TimeKey(rec.time))
    requires forall i :: 0 <= i < |appts| ==> appts[i].id != rec.id
    ensures NoDoubleBooking(appts + [rec]) && UniqueIds(appts + [rec])
  {
    var s := appts + [rec];
    forall i, j | 0 <= i < j < |s|
      ensures !Clash(s[i], s[j]) && s[i].id != s[j].id
    {
      if j == |appts| {
        assert s[i] == appts[i] && s[j] == rec;
      } else {
        assert s[i] == appts[i] && s[j] == appts[j];
      }
    }
  }

  // ---------------------------------------------------------------------
  // cancel_appointment
  // ---------------------------------------------------------------------

  /** `cancel_appointment`: the first record with the id becomes CANCELLED;
      one that already is stays as it is and the call still succeeds; an
      unknown id is an error. */
  function CancelAppointment(appts: seq<Appointment>, id: string): (r: Transition)
    ensures |r.appts| == |appts|
    ensures r.outcome.Err? <==> forall i :: 0 <= i < |appts| ==> appts[i].id != id
    ensures r.outcome.Err? ==> r == Transition(Err(AppointmentNotFound(id), None), appts)
    ensures r.outcome.Ok? ==>
      exists k :: FirstWithId(appts, id, k)
        && r.appts == appts[k := appts[k].(status := Cancelled)]
        && r.outcome.record == r.appts[k]
        && (r.outcome.message == AlreadyCancelled <==> appts[k].status == Cancelled)
  {
    match FindById(appts, id)
    case None => Transition(Err(AppointmentNotFound(id), None), appts)
    case Some(k) =>
      if appts[k].status == Cancelled then
        assert appts[k := appts[k].(status := Cancelled)] == appts;
        Transition(Ok(AlreadyCancelled, appts[k]), appts)
      else
        var a := appts[k].(status := Cancelled);
        Transition(Ok(AppointmentCancelled, a), appts[k := a])
  }

  /** Cancelling twice is cancelling once, and the second call reports that
      the record was already cancelled. */
  lemma CancelIdempotent(appts: seq<Appointment>, id: string)
    ensures var once := CancelAppointment(appts, id);
      var twice := CancelAppointment(once.appts, id);
      twice.appts == once.appts
      && (once.outcome.Ok? ==> twice.outcome == Ok(AlreadyCancelled, once.outcome.record))
      && (once.outcome.Err? ==> twice.outcome == once.outcome)
  {
    var once := CancelAppointment(appts, id);
    if once.outcome.Ok? {
      var k := FindById(appts, id).value;
      assert FirstWithId(once.appts, id, k);
      assert FindById(once.appts, id) == Some(k);
    } else {
      assert once.appts == appts;
    }
  }

  /** Cancelling keeps the list free of double bookings and of repeated ids. */
  lemma CancelPreservesInvariants(appts: seq<Appointment>, id: string)
    requires NoDoubleBooking(appts) && UniqueIds(appts)
    ensures var r := CancelAppointment(appts, id);
      NoDoubleBooking(r.appts) && UniqueIds(r.appts)
  {
    var r := CancelAppointment(appts, id);
    if r.outcome.Ok? {
      var k := FindById(appts, id).value;
      var s := r.appts;
      forall i, j | 0 <= i < j < |s|
        ensures !Clash(s[i], s[j]) && s[i].id != s[j].id
      {
        assert !Clash(appts[i], appts[j]);
        assert s[i].id == appts[i].id && s[j].id == appts[j].id;
      }
    }
  }

  // ---------------------------------------------------------------------
  // reschedule_appointment
  // ---------------------------------------------------------------------

  /** `reschedule_appointment`: move the first record with the id to a new
      time, refusing an unknown id, a cancelled record, and a slot whose first
      live holder carries a different id. */
  function RescheduleAppointment(appts: seq<Appointment>, id: string, newTime: string): (r: Transition)
    ensures |r.appts| == |appts|
    ensures r.outcome.Err? ==> r.appts == appts
    ensures (forall i :: 0 <= i < |appts| ==> appts[i].id != id) ==>
      r.outcome == Err(AppointmentNotFound(id), None)
    ensures r.outcome.Err? && r.outcome.conflict.Some? ==>
      r.outcome.conflict.value in appts && r.outcome.conflict.value.id != id
    ensures r.outcome.Ok? ==>
      exists k :: FirstWithId(appts, id, k)
        && appts[k].status == Booked
        && r.appts == appts[k := appts[k].(time := newTime)]
        && r.outcome == Ok(AppointmentRescheduled, r.appts[k])
  {
    match FindById(appts, id)
    case None => Transition(Err(AppointmentNotFound(id), None), appts)
    case Some(k) =>
      var target := appts[k];
      if target.status == Cancelled then
        Transition(Err(CannotRescheduleCancelled, None), appts)
      else
        var conflict := FindConflict(appts, target.doctor, newTime);
        if conflict.Some? && conflict.value.id != id then
          Transition(Err(TimeConflict(target.doctor, newTime), conflict), appts)
        else
          var moved := target.(time := newTime);
          Transition(Ok(AppointmentRescheduled, moved), appts[k := moved])
  }

  /** Once the first record with the id is known, rescheduling refuses it
      when it is cancelled, reports the first live holder of the new slot
      when that holder carries another id, and moves it otherwise. */
  lemma RescheduleOutcome(appts: seq<Appointment>, id: string, newTime: string, k: int)
    requires FirstWithId(appts, id, k)
    ensures var target := appts[k];
      var c := FindConflict(appts, target.doctor, newTime);
      var moved := target.(time := newTime);
      RescheduleAppointment(appts, id, newTime)
        == if target.status == Cancelled then Transition(Err(CannotRescheduleCancelled, None), appts)
           else if c.Some? && c.value.id != id then Transition(Err(TimeConflict(target.doctor, newTime), c), appts)
           else Transition(Ok(AppointmentRescheduled, moved), appts[k := moved])
  {
    assert FindById(appts, id) == Some(k);
  }

  /** Rescheduling succeeds exactly when a record carries the id, the first
      such record is not cancelled, and the new slot is free or first held
      by a record with the same id. */
  lemma RescheduleSucceedsIff(appts: seq<Appointment>, id: string, newTime: string)
    ensures RescheduleAppointment(appts, id, newTime).outcome.Ok? <==>
      exists k :: FirstWithId(appts, id, k) && appts[k].status == Booked
        && var c := FindConflict(appts, appts[k].doctor, newTime); c.None? || c.value.id == id
  {
    var found := FindById(appts, id);
    if found.Some? {
      RescheduleOutcome(appts, id, newTime, found.value);
      forall k | FirstWithId(appts, id, k)
        ensures k == found.value
      {
        assert FindById(appts, id) == Some(k);
      }
    }
  }

  /** A cancelled record is never moved. */
  lemma RescheduleRefusesCancelled(appts: seq<Appointment>, id: string, newTime: string, k: int)
    requires FirstWithId(appts, id, k) && appts[k].status == Cancelled
    ensures RescheduleAppointment(appts, id, newTime) == Transition(Err(CannotRescheduleCancelled, None), appts)
  {
    assert FindById(appts, id) == Some(k);
  }

  /** When the first live holder of a slot is absent or carries the target's
      id, no record but the target holds the slot. */
  lemma OnlyTargetHoldsSlot(appts: seq<Appointment>, id: string, k: int, newTime: string, m: int)
    requires NoDoubleBooking(appts) && UniqueIds(appts)
    requires FirstWithId(appts, id, k) && 0 <= m < |appts| && m != k
    requires var c := FindConflict(appts, appts[k].doctor, newTime); c.None? || c.value.id == id
    ensures !Blocks(appts[m], NormalizeDoctorName(appts[k].doctor), TimeKey(newTime))
  {
    var dk := NormalizeDoctorName(appts[k].doctor);
    var tk := TimeKey(newTime);
    var c := FindConflict(appts, appts[k].doctor, newTime);
    if c.Some? {
      var f :| FirstBlockingAt(appts, dk, tk, f) && appts[f] == c.value;
      assert f == k;
      if m < k {
        assert !Clash(appts[m], appts[k]);
      } else {
        assert !Clash(appts[k], appts[m]);
      }
    }
  }

  /** On a list without double bookings and with distinct ids, rescheduling
      keeps both properties: the only live holder of the new slot the tool
      lets through is the record being moved. */
  lemma ReschedulePreservesInvariants(appts: seq<Appointment>, id: string, newTime: string)
    requires NoDoubleBooking(appts) && UniqueIds(appts)
    ensures var r := RescheduleAppointment(appts, id, newTime);
      NoDoubleBooking(r.appts) && UniqueIds(r.appts)
  {
    var r := RescheduleAppointment(appts, id, newTime);
    if r.outcome.Ok? {
      forall i, j | 0 <= i < j < |r.appts|
        ensures !Clash(r.appts[i], r.appts[j]) && r.appts[i].id != r.appts[j].id
      {
        RescheduledPair(appts, id, newTime, i, j);
      }
    }
  }

  lemma RescheduledPair(appts: seq<Appointment>, id: string, newTime: string, i: int, j: int)
    requires NoDoubleBooking(appts) && UniqueIds(appts)
    requires RescheduleAppointment(appts, id, newTime).outcome.Ok?
    requires 0 <= i < j < |appts|
    ensures var s := RescheduleAppointment(appts, id, newTime).appts;
      !Clash(s[i], s[j]) && s[i].id != s[j].id
  {
    var k := FindById(appts, id).value;
    var s := RescheduleAppointment(appts, id, newTime).appts;
    assert s == appts[k := appts[k].(time := newTime)];
    if i == k {
      OnlyTargetHoldsSlot(appts, id, k, newTime, j);
    } else if j == k {
      OnlyTargetHoldsSlot(appts, id, k, newTime, i);
    } else {
      assert !Clash(appts[i], appts[j]);
    }
  }

  // ---------------------------------------------------------------------
  // list_doctors
  // ---------------------------------------------------------------------

  /** `{"ok": true, "count": ..., "doctors": [...]}`. */
  datatype Listing = Listing(count: nat, doctors: seq<Doctor>)

  /** `x or ""` on an optional string. */
  function OrEmpty(x: Option<string>): string {
    match x
    case None => ""
    case Some(s) => s
  }

  /** The department filter: the trimmed, lower-cased department contains `dep`. */
  predicate InDepartment(dep: string, d: Doctor) {
    Contains(StripLower(d.department), dep)
  }

  /** The name filter: the normalized name contains `q`. */
  predicate NameHas(q: string, d: Doctor) {
    Contains(NormalizeDoctorName(d.name), q)
  }

  /** A row passes both filters that are switched on (a filter with an empty key is off). */
  predicate Listed(dep: string, q: string, d: Doctor) {
    (dep == "" || InDepartment(dep, d)) && (q == "" || NameHas(q, d))
  }

  /** The two filter stages of `list_doctors`: by department when `dep` is
      not empty, then by name when `q` is not empty. */
  function FilterStages(directory: seq<Doctor>, dep: string, q: string): (r: seq<Doctor>)
    ensures r == Filter(directory, d => Listed(dep, q, d))
    ensures IsSubsequence(r, directory)
  {
    var byDep := if dep != "" then Filter(directory, d => InDepartment(dep, d)) else directory;
    var byName := if q != "" then Filter(byDep, d => NameHas(q, d)) else byDep;
    ListedRows(directory, dep, q);
    byName
  }

  /** Filtering by department and then by name keeps exactly the rows that
      pass both switched-on filters, in directory order. */
  lemma ListedRows(directory: seq<Doctor>, dep: string, q: string)
    ensures var byDep := if dep != "" then Filter(directory, d => InDepartment(dep, d)) else directory;
      var byName := if q != "" then Filter(byDep, d => NameHas(q, d)) else byDep;
      byName == Filter(directory, d => Listed(dep, q, d)) && IsSubsequence(byName, directory)
  {
    var listed := d => Listed(dep, q, d);
    if dep != "" && q != "" {
      FilterTwice(directory, d => InDepartment(dep, d), d => NameHas(q, d), listed);
    } else if dep != "" {
      FilterSameCondition(directory, d => InDepartment(dep, d), listed);
    } else if q != "" {
      FilterSameCondition(directory, d => NameHas(q, d), listed);
    } else {
      FilterKeepsAll(directory, listed);
    }
    FilterIsSubsequence(directory, listed);
  }

  /** `list_doctors`: filter by department, then by name, then keep the first
      `max(1, limit)` rows. */
  function ListDoctors(directory: seq<Doctor>, department: Option<string>, query: Option<string>, limit: int): (r: Listing)
    ensures r.count == |r.doctors| <= Max(1, limit)
    ensures IsSubsequence(r.doctors, directory)
    ensures var dep := StripLower(OrEmpty(department));
      var q := StripLower(OrEmpty(query));
      r.doctors == Take(Filter(directory, d => Listed(dep, q, d)), Max(1, limit))
    ensures forall i :: 0 <= i < |r.doctors| ==>
      Listed(StripLower(OrEmpty(department)), StripLower(OrEmpty(query)), r.doctors[i])
  {
    var rows := FilterStages(directory, StripLower(OrEmpty(department)), StripLower(OrEmpty(query)));
    var docs := Take(rows, Max(1, limit));
    PrefixIsSubsequence(rows, directory, |docs|);
    Listing(|docs|, docs)
  }
}
