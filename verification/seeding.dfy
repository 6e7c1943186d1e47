/** The random seeding of MakeDataBase.py without its randomness: the
    minute-normalized `_find_conflict`, and the loops that give every doctor up
    to `per_doctor` BOOKED appointments at free slots of each date. What
    `random.Random` would choose is a parameter. */
module Seeding {
  import opened Wrappers
  import opened Text
  import opened Seqs
  import opened Database
  import opened Calendar
  import Tools

  // ---------------------------------------------------------------------
  // _find_conflict of MakeDataBase.py
  // ---------------------------------------------------------------------

  /** Record `a` is live and holds the doctor with key `doctorKey` at the
      minute written `minute`, however its own time is laid out. */
  predicate BlocksMinute(a: Appointment, doctorKey: string, minute: string) {
    a.status != Cancelled && NormalizeDoctorName(a.doctor) == doctorKey && NormalizeTimeToMinute(a.time) == Some(minute)
  }

  predicate FirstBlockingMinuteAt(appts: seq<Appointment>, doctorKey: string, minute: string, k: int) {
    0 <= k < |appts| && BlocksMinute(appts[k], doctorKey, minute)
    && forall j :: 0 <= j < k ==> !BlocksMinute(appts[j], doctorKey, minute)
  }

  /** The slot a record holds to the minute: None when it is cancelled or its time does not read. */
  function MinuteKey(a: Appointment): Option<(string, string)> {
    if a.status == Cancelled then None
    else
      match NormalizeTimeToMinute(a.time)
      case None => None
      case Some(t) => Some((NormalizeDoctorName(a.doctor), t))
  }

  function MinuteKeys(appts: seq<Appointment>): (r: seq<Option<(string, string)>>)
    ensures |r| == |appts|
    ensures forall i :: 0 <= i < |r| ==> r[i] == MinuteKey(appts[i])
  {
    if |appts| == 0 then [] else [MinuteKey(appts[0])] + MinuteKeys(appts[1..])
  }

  /** The index of the first record holding the doctor at the minute. */
  function FirstBlockingMinute(appts: seq<Appointment>, doctorKey: string, minute: string): (r: Option<nat>)
    ensures r.None? <==> forall i :: 0 <= i < |appts| ==> !BlocksMinute(appts[i], doctorKey, minute)
    ensures r.Some? ==> FirstBlockingMinuteAt(appts, doctorKey, minute, r.value)
  {
    KeysMarkBlocking(appts, doctorKey, minute);
    FindIndex(MinuteKeys(appts), Some((doctorKey, minute)))
  }

  /** A record's minute key is the slot exactly when the record holds it. */
  lemma KeysMarkBlocking(appts: seq<Appointment>, doctorKey: string, minute: string)
    ensures var keys := MinuteKeys(appts);
      forall i :: 0 <= i < |appts| ==> (keys[i] == Some((doctorKey, minute)) <==> BlocksMinute(appts[i], doctorKey, minute))
  {
    var keys := MinuteKeys(appts);
    forall i | 0 <= i < |appts|
      ensures keys[i] == Some((doctorKey, minute)) <==> BlocksMinute(appts[i], doctorKey, minute)
    {
      assert keys[i] == MinuteKey(appts[i]);
    }
  }

  /** `_find_conflict` of MakeDataBase.py: a requested time that does not
      read gives None; otherwise the first live record of the same doctor
      whose time reads as the same minute. */
  function FindConflictByMinute(appts: seq<Appointment>, doctor: string, time: string): (r: Option<Appointment>)
    ensures NormalizeTimeToMinute(time).None? ==> r.None?
    ensures NormalizeTimeToMinute(time).Some? ==>
      (r.None? <==> forall i :: 0 <= i < |appts| ==>
        !BlocksMinute(appts[i], NormalizeDoctorName(doctor), NormalizeTimeToMinute(time).value))
    ensures r.Some? ==> exists k ::
      FirstBlockingMinuteAt(appts, NormalizeDoctorName(doctor), NormalizeTimeToMinute(time).value, k) && appts[k] == r.value
  {
    match NormalizeTimeToMinute(time)
    case None => None
    case Some(req) =>
      match FirstBlockingMinute(appts, NormalizeDoctorName(doctor), req)
      case None => None
      case Some(k) => Some(appts[k])
  }

  /** A request finds the same conflict in any of the four layouts, with any seconds. */
  lemma MinuteConflictIgnoresLayout(appts: seq<Appointment>, doctor: string, m: Moment, k: int, c: char, second: nat)
    requires ValidMoment(m) && 0 <= k < |Layouts| && SeparatorFits(Layouts[k], c) && second < 60
    ensures FindConflictByMinute(appts, doctor, Render(m, c, if Layouts[k].seconds then Some(second) else None))
         == FindConflictByMinute(appts, doctor, FormatMinute(m))
  {
    NormalizeReadsLayouts(m, k, c, second);
    NormalizeReadsLayouts(m, 0, ' ', 0);
  }

  // ---------------------------------------------------------------------
  // Slots as text
  // ---------------------------------------------------------------------

  /** `slot.strftime("%Y-%m-%d %H:%M")` for every slot. */
  function SlotTexts(slots: seq<Moment>): (r: seq<string>)
    requires forall k :: 0 <= k < |slots| ==> ValidMoment(slots[k])
    ensures |r| == |slots|
    ensures forall k :: 0 <= k < |r| ==> r[k] == FormatMinute(slots[k])
  {
    seq(|slots|, k requires 0 <= k < |slots| => FormatMinute(slots[k]))
  }

  /** Every slot text is its own comparison key, and no two are equal. */
  predicate CanonicalSlots(slots: seq<string>) {
    Distinct(slots) && forall i :: 0 <= i < |slots| ==> TimeKey(slots[i]) == slots[i]
  }

  lemma DigitsLower(s: string)
    requires AllDigits(s)
    ensures IsLower(s)
  {
    assert forall i :: 0 <= i < |s| ==> IsDigit(s[i]);
  }

  /** A written minute is trimmed and has no capital letter. */
  lemma FormatMinuteIsKey(m: Moment)
    requires ValidMoment(m)
    ensures TimeKey(FormatMinute(m)) == FormatMinute(m)
  {
    var s := FormatMinute(m);
    RenderLength(m, ' ', None);
    StripKeepsTrimmed(s);
    var y := FormatPadded(m.date.year, 4);
    var mo := FormatPadded(m.date.month, 2);
    var d := FormatPadded(m.date.day, 2);
    var h := FormatPadded(m.minute / 60, 2);
    var mi := FormatPadded(m.minute % 60, 2);
    DigitsLower(y);
    DigitsLower(mo);
    DigitsLower(d);
    DigitsLower(h);
    DigitsLower(mi);
    assert s == y + "-" + mo + "-" + d + " " + h + ":" + mi;
    assert IsLower(s) by {
      forall i | 0 <= i < |s|
        ensures !IsUpper(s[i])
      {
      }
    }
    LowerKeepsLower(s);
  }

  /** Distinct valid moments are written as canonical slot texts. */
  lemma SlotTextsCanonical(slots: seq<Moment>)
    requires forall k :: 0 <= k < |slots| ==> ValidMoment(slots[k])
    requires Distinct(slots)
    ensures CanonicalSlots(SlotTexts(slots))
  {
    var r := SlotTexts(slots);
    forall i, j | 0 <= i < j < |r|
      ensures r[i] != r[j]
    {
      if r[i] == r[j] {
        FormatMinuteInjective(slots[i], slots[j]);
      }
    }
    forall i | 0 <= i < |r|
      ensures TimeKey(r[i]) == r[i]
    {
      FormatMinuteIsKey(slots[i]);
    }
  }

  /** Slots that follow each other a positive step apart are all different. */
  lemma {:induction false} StepsIncrease(slots: seq<Moment>, step: int)
    requires step > 0
    requires forall k :: 0 <= k < |slots| - 1 ==> slots[k + 1].minute == slots[k].minute + step
    ensures forall i, j :: 0 <= i < j < |slots| ==> slots[i].minute < slots[j].minute
    ensures Distinct(slots)
    decreases |slots|
  {
    if |slots| > 1 {
      var init := slots[..|slots| - 1];
      StepsIncrease(init, step);
      forall i, j | 0 <= i < j < |slots|
        ensures slots[i].minute < slots[j].minute
      {
        if j == |slots| - 1 {
          assert init[i] == slots[i];
          if i < j - 1 {
            assert init[i].minute < init[j - 1].minute;
          }
        } else {
          assert init[i] == slots[i] && init[j] == slots[j];
        }
      }
    }
  }

  /** The slots of a day, written out, are canonical. */
  lemma GeneratedSlotsCanonical(d: Date, s: int, e: int, step: int)
    requires ValidDate(d) && 0 <= s < 24 * 60 && 0 <= e < 24 * 60 && step > 0
    requires Slots(d, s, e, step).Success?
    ensures var slots := Slots(d, s, e, step).value;
      (forall k :: 0 <= k < |slots| ==> ValidMoment(slots[k])) && CanonicalSlots(SlotTexts(slots))
  {
    var slots := Slots(d, s, e, step).value;
    SlotsShape(d, s, e, step);
    StepsIncrease(slots, step);
    SlotTextsCanonical(slots);
  }

  // ---------------------------------------------------------------------
  // One doctor on one date
  // ---------------------------------------------------------------------

  /** `[s for s in slots if s.strip().lower() not in taken]`, where `taken`
      holds the time keys of the doctor's live records, read from `keys`. */
  function FreeSlots(slots: seq<string>, keys: seq<Option<(string, string)>>, doctorKey: string): (r: seq<string>)
    ensures |r| <= |slots|
    ensures forall i :: 0 <= i < |r| ==> r[i] in slots && Some((doctorKey, TimeKey(r[i]))) !in keys
    ensures forall i :: 0 <= i < |slots| && Some((doctorKey, TimeKey(slots[i]))) !in keys ==> slots[i] in r
    ensures CanonicalSlots(slots) ==> CanonicalSlots(r)
  {
    var r := Filter(slots, s => Some((doctorKey, TimeKey(s))) !in keys);
    if Distinct(slots) then FilterKeepsDistinct(slots, s => Some((doctorKey, TimeKey(s))) !in keys); r else r
  }

  /** What `random.Random.sample(population, k)` returns, as positions: `k`
      distinct positions of a population of `n`. */
  predicate IsSample(idx: seq<nat>, n: nat, k: nat) {
    |idx| == k && (forall i :: 0 <= i < |idx| ==> idx[i] < n) && (forall i, j :: 0 <= i < j < |idx| ==> idx[i] != idx[j])
  }

  /** A stand-in for the generator: asked with the number of draws made so
      far, a population size and a sample size, it gives a sample. */
  ghost predicate ValidSampler(sample: (nat, nat, nat) -> seq<nat>) {
    forall draw: nat, n: nat, k: nat :: k <= n ==> IsSample(sample(draw, n, k), n, k)
  }

  /** The elements of `free` at the positions `idx`. */
  function Pick(free: seq<string>, idx: seq<nat>): (r: seq<string>)
    requires forall i :: 0 <= i < |idx| ==> idx[i] < |free|
    ensures |r| == |idx|
    ensures forall i :: 0 <= i < |r| ==> r[i] == free[idx[i]]
  {
    if |idx| == 0 then [] else [free[idx[0]]] + Pick(free, idx[1..])
  }

  /** `f"Patient-{n}"`. */
  function PatientName(n: nat): string {
    "Patient-" + FormatNat(n)
  }

  /** The state the seeding loops carry: the appointment list, the count of
      records created, and the number of samples drawn. */
  datatype Seeded = Seeded(appts: seq<Appointment>, created: nat, draws: nat)

  /** The inner loop as written: each chosen slot, in order, becomes a BOOKED
      record under `_get_next_appointment_id` of the list so far, appended to
      it; `created` counts the records made before, and the record made as
      number `n` gets the patient number `patientNo(n)`. */
  function AppendChosen(appts: seq<Appointment>, chosen: seq<string>, doc: Doctor, patientNo: nat -> nat, created: nat): (r: seq<Appointment>)
    ensures |r| == |appts| + |chosen|
    decreases |chosen|
  {
    if |chosen| == 0 then appts
    else
      var rec := Tools.NewBooking(appts, PatientName(patientNo(created)), doc, chosen[0]);
      AppendChosen(appts + [rec], chosen[1..], doc, patientNo, created + 1)
  }

  /** The BOOKED record of `doc` at `time` under the id numbered `no`. */
  function Numbered(doc: Doctor, time: string, no: nat, patient: string): Appointment {
    Appointment(FormatId(no), patient, doc.name, doc.department, time, Booked)
  }

  /** The records the inner loop creates, numbered consecutively from `first`:
      one for each chosen time, in order, the first numbered `first` for
      patient number `patientNo(created)`, the rest numbered on from there. */
  function NewRecords(chosen: seq<string>, doc: Doctor, patientNo: nat -> nat, created: nat, first: nat): (r: seq<Appointment>)
    ensures |r| == |chosen|
    decreases |chosen|
  {
    if |chosen| == 0 then []
    else [Numbered(doc, chosen[0], first, PatientName(patientNo(created)))] + NewRecords(chosen[1..], doc, patientNo, created + 1, first + 1)
  }

  /** The first record split off: the list with the numbered records appended
      is the list with the first of them appended, then the rest. */
  lemma NewRecordsCons(appts: seq<Appointment>, chosen: seq<string>, doc: Doctor, patientNo: nat -> nat, created: nat, first: nat)
    requires |chosen| > 0
    ensures appts + NewRecords(chosen, doc, patientNo, created, first)
      == (appts + [Numbered(doc, chosen[0], first, PatientName(patientNo(created)))])
        + NewRecords(chosen[1..], doc, patientNo, created + 1, first + 1)
  {
    var rec := Numbered(doc, chosen[0], first, PatientName(patientNo(created)));
    var rest := NewRecords(chosen[1..], doc, patientNo, created + 1, first + 1);
    assert appts + ([rec] + rest) == (appts + [rec]) + rest;
  }

  /** A record numbered above the largest id number becomes the largest. */
  lemma MaxAfterNumbered(appts: seq<Appointment>, doc: Doctor, time: string, no: nat, patient: string)
    requires MaxIdNumber(appts) < no
    ensures MaxIdNumber(appts + [Numbered(doc, time, no, patient)]) == no
  {
    MaxIdNumberSnoc(appts, Numbered(doc, time, no, patient));
    ExtractFormattedId(no);
  }

  /** Appending numbered records from above the largest id number: the
      largest is then that of the last one appended. */
  lemma MaxAfterNewRecords(appts: seq<Appointment>, chosen: seq<string>, doc: Doctor, patientNo: nat -> nat, created: nat, first: nat)
    requires MaxIdNumber(appts) < first
    ensures MaxIdNumber(appts + NewRecords(chosen, doc, patientNo, created, first))
      == if |chosen| == 0 then MaxIdNumber(appts) else first + |chosen| - 1
  {
    if |chosen| == 0 {
      assert appts + NewRecords(chosen, doc, patientNo, created, first) == appts;
    } else {
      NewRecordsNumbered(chosen, doc, patientNo, created, first);
      MaxOfNumbered(appts, NewRecords(chosen, doc, patientNo, created, first), first);
    }
  }

  /** Records numbered `first`, `first + 1`, ... from above the largest id
      number present make the last of them the largest. */
  lemma MaxOfNumbered(appts: seq<Appointment>, added: seq<Appointment>, first: nat)
    requires MaxIdNumber(appts) < first && NumberedFrom(added, first) && |added| > 0
    ensures MaxIdNumber(appts + added) == first + |added| - 1
  {
    var s := appts + added;
    var top := first + |added| - 1;
    assert s[|s| - 1] == added[|added| - 1];
    forall i | 0 <= i < |s|
      ensures ExtractIdNumber(s[i].id) <= top
    {
      if i < |appts| {
        assert s[i] == appts[i];
      } else {
        assert s[i] == added[i - |appts|];
      }
    }
  }

  /** The next id after a list is that numbered one above its largest id number. */
  lemma NextIsNumbered(appts: seq<Appointment>, patient: string, doc: Doctor, time: string)
    ensures Tools.NewBooking(appts, patient, doc, time) == Numbered(doc, time, MaxIdNumber(appts) + 1, patient)
  {
  }

  /** Appending one record at a time, each under the next id of the list so
      far, numbers the records consecutively from one above the largest id
      number already present. */
  lemma {:induction false} AppendChosenNumbered(appts: seq<Appointment>, chosen: seq<string>, doc: Doctor, patientNo: nat -> nat, created: nat)
    ensures AppendChosen(appts, chosen, doc, patientNo, created)
      == appts + NewRecords(chosen, doc, patientNo, created, MaxIdNumber(appts) + 1)
    decreases |chosen|
  {
    var first := MaxIdNumber(appts) + 1;
    if |chosen| == 0 {
      assert appts + NewRecords(chosen, doc, patientNo, created, first) == appts;
    } else {
      var patient := PatientName(patientNo(created));
      var rec := Numbered(doc, chosen[0], first, patient);
      NextIsNumbered(appts, patient, doc, chosen[0]);
      MaxAfterNumbered(appts, doc, chosen[0], first, patient);
      NewRecordsCons(appts, chosen, doc, patientNo, created, first);
      AppendChosenNumbered(appts + [rec], chosen[1..], doc, patientNo, created + 1);
    }
  }

  /** From position `from` on, every record is BOOKED and carries an id
      number above that of every record before it. */
  predicate FreshFrom(appts: seq<Appointment>, from: nat) {
    forall k :: from <= k < |appts| ==>
      appts[k].status == Booked && forall j :: 0 <= j < k ==> ExtractIdNumber(appts[j].id) < ExtractIdNumber(appts[k].id)
  }

  /** Records numbered on from the largest id number present are added. */
  lemma NewRecordsFresh(st: Seeded, chosen: seq<string>, doc: Doctor, patientNo: nat -> nat)
    ensures FreshFrom(st.appts + NewRecords(chosen, doc, patientNo, st.created, MaxIdNumber(st.appts) + 1), |st.appts|)
  {
    var appts := st.appts;
    var created := st.created;
    var first := MaxIdNumber(appts) + 1;
    var added := NewRecords(chosen, doc, patientNo, created, first);
    NewRecordsShape(chosen, doc, patientNo, created, first);
    NumberedFresh(appts, added, first);
  }

  lemma NumberedFresh(appts: seq<Appointment>, added: seq<Appointment>, first: nat)
    requires MaxIdNumber(appts) < first && NumberedFrom(added, first)
    requires forall k :: 0 <= k < |added| ==> added[k].status == Booked
    ensures FreshFrom(appts + added, |appts|)
  {
    var s := appts + added;
    forall k | |appts| <= k < |s|
      ensures s[k].status == Booked && forall j :: 0 <= j < k ==> ExtractIdNumber(s[j].id) < ExtractIdNumber(s[k].id)
    {
      assert s[k] == added[k - |appts|];
      forall j | 0 <= j < k
        ensures ExtractIdNumber(s[j].id) < ExtractIdNumber(s[k].id)
      {
        if j < |appts| {
          assert s[j] == appts[j];
        } else {
          assert s[j] == added[j - |appts|];
        }
      }
    }
  }

  /** Both invariants of the appointment list: no doctor double-booked, no id repeated. */
  predicate Sound(appts: seq<Appointment>) {
    NoDoubleBooking(appts) && UniqueIds(appts)
  }

  /** The doctor's slot key for a time. */
  function DoctorSlot(doc: Doctor, time: string): Option<(string, string)> {
    Some((NormalizeDoctorName(doc.name), TimeKey(time)))
  }

  /** The times are free for the doctor: no live record holds any of them. */
  predicate AllFree(appts: seq<Appointment>, doc: Doctor, chosen: seq<string>) {
    forall k, i :: 0 <= k < |chosen| && 0 <= i < |appts| ==> SlotKey(appts[i]) != DoctorSlot(doc, chosen[k])
  }

  /** No two of the times denote the same slot. */
  predicate PairwiseApart(chosen: seq<string>) {
    forall k, j :: 0 <= j < k < |chosen| ==> TimeKey(chosen[j]) != TimeKey(chosen[k])
  }

  /** The records carry the id numbers `first`, `first + 1`, ... in order. */
  predicate NumberedFrom(added: seq<Appointment>, first: nat) {
    forall k :: 0 <= k < |added| ==> ExtractIdNumber(added[k].id) == first + k
  }

  /** The records are BOOKED records of `doc` at the times `chosen`, in order. */
  predicate BookedAt(added: seq<Appointment>, doc: Doctor, chosen: seq<string>) {
    |added| == |chosen|
    && forall k :: 0 <= k < |added| ==>
      added[k].status == Booked && added[k].doctor == doc.name && added[k].time == chosen[k]
  }

  /** Records numbered from above every id present repeat no id. */
  lemma NewRecordIds(appts: seq<Appointment>, added: seq<Appointment>, first: nat, i: nat, j: nat)
    requires UniqueIds(appts) && MaxIdNumber(appts) < first && NumberedFrom(added, first)
    requires i < j < |appts| + |added|
    ensures (appts + added)[i].id != (appts + added)[j].id
  {
    var s := appts + added;
    if j < |appts| {
      assert s[i] == appts[i] && s[j] == appts[j];
    } else {
      assert s[j] == added[j - |appts|];
      if i < |appts| {
        assert s[i] == appts[i];
      } else {
        assert s[i] == added[i - |appts|];
      }
    }
  }

  /** Records of one doctor at free, pairwise different times clash with no
      old record and with no other new one. */
  lemma NewRecordApart(appts: seq<Appointment>, doc: Doctor, chosen: seq<string>, added: seq<Appointment>, i: nat, j: nat)
    requires NoDoubleBooking(appts) && AllFree(appts, doc, chosen) && PairwiseApart(chosen)
    requires BookedAt(added, doc, chosen)
    requires i < j < |appts| + |added|
    ensures !Clash((appts + added)[i], (appts + added)[j])
  {
    var s := appts + added;
    if j < |appts| {
      assert s[i] == appts[i] && s[j] == appts[j];
    } else {
      var k := j - |appts|;
      assert s[j] == added[k];
      if i < |appts| {
        assert s[i] == appts[i];
        assert SlotKey(appts[i]) != DoctorSlot(doc, chosen[k]);
      } else {
        var h := i - |appts|;
        assert s[i] == added[h];
        assert TimeKey(chosen[h]) != TimeKey(chosen[k]);
      }
    }
  }

  /** The records of a run are numbered from `first` and booked at `chosen`. */
  lemma NewRecordsShape(chosen: seq<string>, doc: Doctor, patientNo: nat -> nat, created: nat, first: nat)
    ensures NumberedFrom(NewRecords(chosen, doc, patientNo, created, first), first)
    ensures BookedAt(NewRecords(chosen, doc, patientNo, created, first), doc, chosen)
  {
    NewRecordsNumbered(chosen, doc, patientNo, created, first);
    NewRecordsBooked(chosen, doc, patientNo, created, first);
  }

  /** The records of a run carry the id numbers `first`, `first + 1`, ... */
  lemma {:induction false} NewRecordsNumbered(chosen: seq<string>, doc: Doctor, patientNo: nat -> nat, created: nat, first: nat)
    ensures NumberedFrom(NewRecords(chosen, doc, patientNo, created, first), first)
    decreases |chosen|
  {
    if |chosen| > 0 {
      var added := NewRecords(chosen, doc, patientNo, created, first);
      var rest := NewRecords(chosen[1..], doc, patientNo, created + 1, first + 1);
      NewRecordsNumbered(chosen[1..], doc, patientNo, created + 1, first + 1);
      ExtractFormattedId(first);
      forall k | 0 <= k < |added|
        ensures ExtractIdNumber(added[k].id) == first + k
      {
        if k > 0 {
          assert added[k] == rest[k - 1];
        }
      }
    }
  }

  /** The records of a run are BOOKED records of the doctor at the chosen times. */
  lemma {:induction false} NewRecordsBooked(chosen: seq<string>, doc: Doctor, patientNo: nat -> nat, created: nat, first: nat)
    ensures BookedAt(NewRecords(chosen, doc, patientNo, created, first), doc, chosen)
    decreases |chosen|
  {
    if |chosen| > 0 {
      var added := NewRecords(chosen, doc, patientNo, created, first);
      var rest := NewRecords(chosen[1..], doc, patientNo, created + 1, first + 1);
      NewRecordsBooked(chosen[1..], doc, patientNo, created + 1, first + 1);
      forall k | 0 <= k < |added|
        ensures added[k].status == Booked && added[k].doctor == doc.name && added[k].time == chosen[k]
      {
        if k > 0 {
          assert added[k] == rest[k - 1];
          assert chosen[1..][k - 1] == chosen[k];
        }
      }
    }
  }

  /** Appending records of one doctor at free, pairwise different times,
      numbered on from the largest id number present, keeps the list sound. */
  lemma NewRecordsSound(st: Seeded, chosen: seq<string>, doc: Doctor, patientNo: nat -> nat)
    requires Sound(st.appts) && AllFree(st.appts, doc, chosen) && PairwiseApart(chosen)
    ensures Sound(st.appts + NewRecords(chosen, doc, patientNo, st.created, MaxIdNumber(st.appts) + 1))
  {
    var first := MaxIdNumber(st.appts) + 1;
    NewRecordsShape(chosen, doc, patientNo, st.created, first);
    AppendSound(st.appts, NewRecords(chosen, doc, patientNo, st.created, first), doc, chosen, first);
  }

  /** Booked records of one doctor at free, pairwise different times,
      numbered from above every id present, keep a sound list sound. */
  lemma AppendSound(appts: seq<Appointment>, added: seq<Appointment>, doc: Doctor, chosen: seq<string>, first: nat)
    requires Sound(appts) && AllFree(appts, doc, chosen) && PairwiseApart(chosen)
    requires MaxIdNumber(appts) < first && NumberedFrom(added, first) && BookedAt(added, doc, chosen)
    ensures Sound(appts + added)
  {
    var s := appts + added;
    forall i, j | 0 <= i < j < |s|
      ensures !Clash(s[i], s[j]) && s[i].id != s[j].id
    {
      NewRecordIds(appts, added, first, i, j);
      NewRecordApart(appts, doc, chosen, added, i, j);
    }
  }

  /** Distinct positions of canonical slots pick times that denote different slots. */
  lemma PickApart(free: seq<string>, idx: seq<nat>, k: nat)
    requires CanonicalSlots(free) && IsSample(idx, |free|, k)
    ensures PairwiseApart(Pick(free, idx))
  {
    var p := Pick(free, idx);
    forall h, j | 0 <= j < h < |p|
      ensures TimeKey(p[j]) != TimeKey(p[h])
    {
      assert p[j] == free[idx[j]] && p[h] == free[idx[h]];
      assert TimeKey(free[idx[j]]) == free[idx[j]];
      assert TimeKey(free[idx[h]]) == free[idx[h]];
    }
  }

  /** Every picked slot is free for the doctor. */
  lemma PickFree(appts: seq<Appointment>, doc: Doctor, slots: seq<string>, idx: seq<nat>)
    requires forall i :: 0 <= i < |idx| ==> idx[i] < |FreeSlots(slots, SlotKeys(appts), NormalizeDoctorName(doc.name))|
    ensures AllFree(appts, doc, Pick(FreeSlots(slots, SlotKeys(appts), NormalizeDoctorName(doc.name)), idx))
  {
    var keys := SlotKeys(appts);
    var free := FreeSlots(slots, keys, NormalizeDoctorName(doc.name));
    var p := Pick(free, idx);
    forall k, i | 0 <= k < |p| && 0 <= i < |appts|
      ensures SlotKey(appts[i]) != DoctorSlot(doc, p[k])
    {
      assert p[k] == free[idx[k]];
      assert keys[i] == SlotKey(appts[i]);
    }
  }

  /** One pass of the doctor loop: nothing when the doctor has no free slot,
      otherwise `min(per_doctor, len(free_slots))` records at sampled free
      slots, numbered on from the largest id number present (the inner loop
      as written does the same, see AppendChosenNumbered). A negative
      `per_doctor` makes `sample` raise ValueError. */
  function SeedDoctor(st: Seeded, doc: Doctor, slots: seq<string>, perDoctor: int,
                      sample: (nat, nat, nat) -> seq<nat>, patientNo: nat -> nat): (r: Result<Seeded, PyError>)
    requires ValidSampler(sample)
  {
    var free := FreeSlots(slots, SlotKeys(st.appts), NormalizeDoctorName(doc.name));
    if |free| == 0 then Success(st)
    else if perDoctor < 0 then Failure(ValueError)
    else
      var k: nat := Min(perDoctor, |free|);
      Success(BookChosen(st, Pick(free, sample(st.draws, |free|, k)), doc, patientNo))
  }

  /** The state after one sample: the records of the chosen slots appended
      and counted, one more draw made. */
  function BookChosen(st: Seeded, chosen: seq<string>, doc: Doctor, patientNo: nat -> nat): Seeded {
    Seeded(st.appts + NewRecords(chosen, doc, patientNo, st.created, MaxIdNumber(st.appts) + 1), st.created + |chosen|, st.draws + 1)
  }

  /** `after` extends `before`: the old records are kept, the count grew by
      the number of records appended, and every appended record is BOOKED
      with an id number above every record before it. */
  predicate Grows(before: Seeded, after: Seeded) {
    && |before.appts| <= |after.appts|
    && after.appts[..|before.appts|] == before.appts
    && after.created == before.created + (|after.appts| - |before.appts|)
    && FreshFrom(after.appts, |before.appts|)
  }

  lemma GrowsTransitive(a: Seeded, b: Seeded, c: Seeded)
    requires Grows(a, b) && Grows(b, c)
    ensures Grows(a, c)
  {
    assert c.appts[..|a.appts|] == c.appts[..|b.appts|][..|a.appts|];
    forall k | |a.appts| <= k < |c.appts|
      ensures c.appts[k].status == Booked
        && forall j :: 0 <= j < k ==> ExtractIdNumber(c.appts[j].id) < ExtractIdNumber(c.appts[k].id)
    {
      if k < |b.appts| {
        assert forall j :: 0 <= j <= k ==> c.appts[..|b.appts|][j] == c.appts[j];
      }
    }
  }

  /** Seeding one doctor: a failure only for a negative `per_doctor` with free
      slots; otherwise exactly `min(per_doctor, |free|)` records, none when
      nothing is free, each for that doctor at a free slot, no two at the
      same slot, under added ids; the list stays sound. */
  lemma SeedDoctorSpec(st: Seeded, doc: Doctor, slots: seq<string>, perDoctor: int,
                       sample: (nat, nat, nat) -> seq<nat>, patientNo: nat -> nat)
    requires ValidSampler(sample) && CanonicalSlots(slots) && Sound(st.appts)
    ensures var free := FreeSlots(slots, SlotKeys(st.appts), NormalizeDoctorName(doc.name));
      var r := SeedDoctor(st, doc, slots, perDoctor, sample, patientNo);
      && (r.Failure? <==> |free| > 0 && perDoctor < 0)
      && (r.Failure? ==> r.error == ValueError)
      && (r.Success? ==>
            && Grows(st, r.value) && Sound(r.value.appts) && AddedWithin(st, r.value, slots)
            && |r.value.appts| - |st.appts| == (if |free| == 0 then 0 else Min(perDoctor, |free|))
            && DoctorAdded(st.appts, r.value.appts, doc, free))
  {
    var free := FreeSlots(slots, SlotKeys(st.appts), NormalizeDoctorName(doc.name));
    if |free| > 0 && perDoctor >= 0 {
      var k: nat := Min(perDoctor, |free|);
      var idx := sample(st.draws, |free|, k);
      assert IsSample(idx, |free|, k);
      var chosen := Pick(free, idx);
      PickApart(free, idx, k);
      PickFree(st.appts, doc, slots, idx);
      PickWithin(free, idx);
      BookChosenGrows(st, doc, chosen, patientNo);
      BookChosenSound(st, doc, chosen, patientNo);
      BookChosenPlaced(st, doc, slots, free, chosen, patientNo);
    } else {
      assert DoctorAdded(st.appts, st.appts, doc, free);
    }
  }

  /** The records appended after `before` are for `doc`, each at one of the
      times `free`, no two at the same slot. */
  predicate DoctorAdded(before: seq<Appointment>, after: seq<Appointment>, doc: Doctor, free: seq<string>) {
    && |before| <= |after|
    && (forall k :: |before| <= k < |after| ==> after[k].doctor == doc.name && after[k].time in free)
    && (forall k, j :: |before| <= j < k < |after| ==> TimeKey(after[j].time) != TimeKey(after[k].time))
  }

  /** Booking times free for `doc` keeps the old records and extends the
      state by one fresh record per time. */
  lemma BookChosenGrows(st: Seeded, doc: Doctor, chosen: seq<string>, patientNo: nat -> nat)
    ensures Grows(st, BookChosen(st, chosen, doc, patientNo))
    ensures |BookChosen(st, chosen, doc, patientNo).appts| - |st.appts| == |chosen|
  {
    var added := NewRecords(chosen, doc, patientNo, st.created, MaxIdNumber(st.appts) + 1);
    BookChosenAppts(st, chosen, doc, patientNo);
    NewRecordsFresh(st, chosen, doc, patientNo);
    assert (st.appts + added)[..|st.appts|] == st.appts;
  }

  /** Booking free, pairwise different times for `doc` keeps the list sound. */
  lemma BookChosenSound(st: Seeded, doc: Doctor, chosen: seq<string>, patientNo: nat -> nat)
    requires Sound(st.appts) && AllFree(st.appts, doc, chosen) && PairwiseApart(chosen)
    ensures Sound(BookChosen(st, chosen, doc, patientNo).appts)
  {
    NewRecordsSound(st, chosen, doc, patientNo);
    BookChosenAppts(st, chosen, doc, patientNo);
  }

  /** The records after booking are the old ones followed by the new ones. */
  lemma BookChosenAppts(st: Seeded, chosen: seq<string>, doc: Doctor, patientNo: nat -> nat)
    ensures BookChosen(st, chosen, doc, patientNo).appts == st.appts + NewRecords(chosen, doc, patientNo, st.created, MaxIdNumber(st.appts) + 1)
  {
  }

  /** Booking pairwise different times out of `free`, itself drawn from
      `slots`, places each new record for `doc` at one of them. */
  lemma BookChosenPlaced(st: Seeded, doc: Doctor, slots: seq<string>, free: seq<string>, chosen: seq<string>, patientNo: nat -> nat)
    requires PairwiseApart(chosen)
    requires forall i :: 0 <= i < |chosen| ==> chosen[i] in free
    requires forall i :: 0 <= i < |free| ==> free[i] in slots
    ensures AddedWithin(st, BookChosen(st, chosen, doc, patientNo), slots)
    ensures DoctorAdded(st.appts, BookChosen(st, chosen, doc, patientNo).appts, doc, free)
  {
    NewRecordsShape(chosen, doc, patientNo, st.created, MaxIdNumber(st.appts) + 1);
    AppendedAt(st.appts, NewRecords(chosen, doc, patientNo, st.created, MaxIdNumber(st.appts) + 1), doc, chosen, free, slots);
  }

  /** Every picked slot is one of the slots picked from. */
  lemma PickWithin(free: seq<string>, idx: seq<nat>)
    requires forall i :: 0 <= i < |idx| ==> idx[i] < |free|
    ensures forall i :: 0 <= i < |idx| ==> Pick(free, idx)[i] in free
  {
    var p := Pick(free, idx);
    forall i | 0 <= i < |idx|
      ensures p[i] in free
    {
      assert p[i] == free[idx[i]];
    }
  }

  /** Appending records booked for `doc` at pairwise different times out of
      `free`, itself drawn from `slots`, keeps the old records and places each
      new one for `doc` at one of those times. */
  lemma AppendedAt(appts: seq<Appointment>, added: seq<Appointment>, doc: Doctor, chosen: seq<string>, free: seq<string>, slots: seq<string>)
    requires BookedAt(added, doc, chosen) && PairwiseApart(chosen)
    requires forall i :: 0 <= i < |chosen| ==> chosen[i] in free
    requires forall i :: 0 <= i < |free| ==> free[i] in slots
    ensures forall h :: |appts| <= h < |appts + added| ==>
      (appts + added)[h].doctor == doc.name && (appts + added)[h].time in free && (appts + added)[h].time in slots
    ensures forall h, j :: |appts| <= j < h < |appts + added| ==>
      TimeKey((appts + added)[j].time) != TimeKey((appts + added)[h].time)
  {
    var s := appts + added;
    forall h | |appts| <= h < |s|
      ensures s[h] == added[h - |appts|]
    {
    }
  }

  /** Every record appended between `before` and `after` is at one of `slots`. */
  predicate AddedWithin(before: Seeded, after: Seeded, slots: seq<string>) {
    forall k :: |before.appts| <= k < |after.appts| ==> after.appts[k].time in slots
  }

  lemma AddedWithinTransitive(a: Seeded, b: Seeded, c: Seeded, slots: seq<string>)
    requires Grows(a, b) && Grows(b, c) && AddedWithin(a, b, slots) && AddedWithin(b, c, slots)
    ensures AddedWithin(a, c, slots)
  {
    forall k | |a.appts| <= k < |b.appts|
      ensures c.appts[k].time in slots
    {
      assert c.appts[k] == c.appts[..|b.appts|][k];
    }
  }

  // ---------------------------------------------------------------------
  // All doctors on one date
  // ---------------------------------------------------------------------

  /** The loop over the directory: each doctor in turn, on the list the
      previous doctors left; the first failure ends the loop. */
  function SeedDoctors(st: Seeded, doctors: seq<Doctor>, slots: seq<string>, perDoctor: int,
                       sample: (nat, nat, nat) -> seq<nat>, patientNo: nat -> nat): (r: Result<Seeded, PyError>)
    requires ValidSampler(sample)
    decreases |doctors|
  {
    if |doctors| == 0 then Success(st)
    else
      match SeedDoctor(st, doctors[0], slots, perDoctor, sample, patientNo)
      case Failure(e) => Failure(e)
      case Success(next) => SeedDoctors(next, doctors[1..], slots, perDoctor, sample, patientNo)
  }

  /** Seeding all doctors on canonical slots keeps the list sound and only
      appends, at those slots; it fails only with ValueError for a negative
      `per_doctor`. */
  lemma {:induction false} SeedDoctorsSpec(st: Seeded, doctors: seq<Doctor>, slots: seq<string>, perDoctor: int,
                                           sample: (nat, nat, nat) -> seq<nat>, patientNo: nat -> nat)
    requires ValidSampler(sample) && CanonicalSlots(slots) && Sound(st.appts)
    ensures var r := SeedDoctors(st, doctors, slots, perDoctor, sample, patientNo);
      && (r.Failure? ==> r.error == ValueError && perDoctor < 0)
      && (r.Success? ==> Grows(st, r.value) && Sound(r.value.appts) && AddedWithin(st, r.value, slots))
    decreases |doctors|
  {
    if |doctors| > 0 {
      SeedDoctorSpec(st, doctors[0], slots, perDoctor, sample, patientNo);
      match SeedDoctor(st, doctors[0], slots, perDoctor, sample, patientNo)
      case Failure(_) =>
      case Success(next) =>
        SeedDoctorsSpec(next, doctors[1..], slots, perDoctor, sample, patientNo);
        var r := SeedDoctors(next, doctors[1..], slots, perDoctor, sample, patientNo);
        if r.Success? {
          GrowsTransitive(st, next, r.value);
          AddedWithinTransitive(st, next, r.value, slots);
        }
    }
  }

  /** With a non-negative `per_doctor`, seeding the doctors never fails. */
  lemma {:induction false} SeedDoctorsSucceeds(st: Seeded, doctors: seq<Doctor>, slots: seq<string>, perDoctor: int,
                                               sample: (nat, nat, nat) -> seq<nat>, patientNo: nat -> nat)
    requires ValidSampler(sample) && perDoctor >= 0
    ensures SeedDoctors(st, doctors, slots, perDoctor, sample, patientNo).Success?
    decreases |doctors|
  {
    if |doctors| > 0 {
      var next := SeedDoctor(st, doctors[0], slots, perDoctor, sample, patientNo);
      assert next.Success?;
      SeedDoctorsSucceeds(next.value, doctors[1..], slots, perDoctor, sample, patientNo);
    }
  }

  // ---------------------------------------------------------------------
  // The slots of a date
  // ---------------------------------------------------------------------

  /** Whatever `_generate_slots_for_date` returns are valid moments whose
      written forms are canonical. */
  lemma GeneratedCanonical(d: Date, w: Option<(int, int)>, slotMinutes: int)
    requires ValidDate(d) && WithinDay(w) && WindowSlots(d, w, slotMinutes).Success?
    ensures var ms := WindowSlots(d, w, slotMinutes).value;
      (forall k :: 0 <= k < |ms| ==> ValidMoment(ms[k])) && CanonicalSlots(SlotTexts(ms))
  {
    if slotMinutes > 0 {
      GeneratedSlotsCanonical(d, w.value.0, w.value.1, slotMinutes);
    }
  }

  /** The slot texts of date `d` in the read window, or the error generating them raises. */
  function DaySlots(d: Date, w: Option<(int, int)>, slotMinutes: int): (r: Result<seq<string>, PyError>)
    requires ValidDate(d) && WithinDay(w)
    ensures r.Failure? <==> WindowSlots(d, w, slotMinutes).Failure?
    ensures r.Failure? ==> r.error == WindowSlots(d, w, slotMinutes).error
    ensures r.Success? ==> CanonicalSlots(r.value)
  {
    match WindowSlots(d, w, slotMinutes)
    case Failure(e) => Failure(e)
    case Success(ms) =>
      GeneratedCanonical(d, w, slotMinutes);
      Success(SlotTexts(ms))
  }

  /** On the window read from `start_hm` and `end_hm`, the day's slots are
      the written forms of what `_generate_slots_for_date` returns, and they
      fail exactly when it raises, with the same error. */
  lemma DaySlotsGenerated(d: Date, startHm: string, endHm: string, slotMinutes: int)
    requires ValidDate(d)
    ensures var r := DaySlots(d, ClockWindow(startHm, endHm), slotMinutes);
      var g := GenerateSlots(d, startHm, endHm, slotMinutes);
      && (r.Failure? <==> g.Failure?)
      && (r.Failure? ==> r.error == g.error)
      && (r.Success? ==> r.value == SlotTexts(g.value))
  {
    var w := ClockWindow(startHm, endHm);
    var g := GenerateSlots(d, startHm, endHm, slotMinutes);
    assert g == WindowSlots(d, w, slotMinutes);
    if g.Success? {
      assert DaySlots(d, w, slotMinutes) == Success(SlotTexts(g.value));
    }
  }

  /** Slot generation succeeds on any day but the last for a read window
      and a step of at most a day. */
  lemma DaySlotsSucceed(d: Date, w: Option<(int, int)>, slotMinutes: int)
    requires ValidDate(d) && d != MaxDate && 0 < slotMinutes <= 24 * 60
    requires w.Some? && WithinDay(w)
    ensures DaySlots(d, w, slotMinutes).Success?
  {
    SlotsFitBeforeMaxDate(d, w.value.0, w.value.1, slotMinutes);
  }

  // ---------------------------------------------------------------------
  // seed_random_appointments_for_dates
  // ---------------------------------------------------------------------

  /** The parameters the seeding loops share. The clock times `start_hm` and
      `end_hm` are kept as the window they read as (see PlanOf): reading them
      again for every date gives the same answer each time. */
  datatype Plan = Plan(doctors: seq<Doctor>, perDoctor: int, window: Option<(int, int)>, slotMinutes: int,
                       sample: (nat, nat, nat) -> seq<nat>, patientNo: nat -> nat)

  /** The plan of the keyword arguments `per_doctor`, `start_hm`, `end_hm` and
      `slot_minutes`, the loaded doctors, and the random choices. */
  function PlanOf(doctors: seq<Doctor>, perDoctor: int, startHm: string, endHm: string, slotMinutes: int,
                  sample: (nat, nat, nat) -> seq<nat>, patientNo: nat -> nat): (p: Plan)
    ensures WithinDay(p.window)
  {
    Plan(doctors, perDoctor, ClockWindow(startHm, endHm), slotMinutes, sample, patientNo)
  }

  /** A plan can be followed: its sampler behaves like `random.sample` and
      its window lies within the day. */
  ghost predicate ValidPlan(p: Plan) {
    ValidSampler(p.sample) && WithinDay(p.window)
  }

  /** The readable inputs under which seeding cannot fail on an ordinary day. */
  predicate Workable(p: Plan) {
    p.perDoctor >= 0 && 0 < p.slotMinutes <= 24 * 60 && p.window.Some?
  }

  /** One date of the loop: its slots, then every doctor. */
  function SeedDate(st: Seeded, d: Date, p: Plan): (r: Result<Seeded, PyError>)
    requires ValidDate(d) && ValidPlan(p)
  {
    match DaySlots(d, p.window, p.slotMinutes)
    case Failure(e) => Failure(e)
    case Success(slots) => SeedDoctors(st, p.doctors, slots, p.perDoctor, p.sample, p.patientNo)
  }

  /** The loop over date texts: each is read as `%Y-%m-%d` (ValueError when it
      does not read), then seeded; the first failure ends the loop. A date
      text that does not read anywhere in the list makes the whole loop fail. */
  function SeedDates(st: Seeded, dates: seq<string>, p: Plan): (r: Result<Seeded, PyError>)
    requires ValidPlan(p)
    decreases |dates|
  {
    if |dates| == 0 then Success(st)
    else
      match ParseDate(dates[0])
      case None => Failure(ValueError)
      case Some(d) =>
        match SeedDate(st, d, p)
        case Failure(e) => Failure(e)
        case Success(next) => SeedDates(next, dates[1..], p)
  }

  /** A date text that does not read, anywhere in the list, makes the loop fail. */
  lemma {:induction false} SeedDatesRejectsUnreadable(st: Seeded, dates: seq<string>, p: Plan, k: nat)
    requires ValidPlan(p) && k < |dates|
    ensures ParseDate(dates[k]).None? ==> SeedDates(st, dates, p).Failure?
    decreases k
  {
    if k > 0 && ParseDate(dates[k]).None? {
      var first := ParseDate(dates[0]);
      if first.Some? {
        var r0 := SeedDate(st, first.value, p);
        if r0.Success? {
          assert dates[1..][k - 1] == dates[k];
          SeedDatesRejectsUnreadable(r0.value, dates[1..], p, k - 1);
        }
      }
    }
  }

  /** The same loop over dates already read. */
  function SeedDays(st: Seeded, days: seq<Date>, p: Plan): (r: Result<Seeded, PyError>)
    requires ValidPlan(p) && forall k :: 0 <= k < |days| ==> ValidDate(days[k])
    decreases |days|
  {
    if |days| == 0 then Success(st)
    else
      match SeedDate(st, days[0], p)
      case Failure(e) => Failure(e)
      case Success(next) => SeedDays(next, days[1..], p)
  }

  /** `seed_random_appointments_for_dates`: start from the stored list with
      nothing created; the result's `created` is the returned count. Any
      failure leaves the stored list as it was, since it is saved only at the end. */
  function SeedRandomForDates(appts: seq<Appointment>, dates: seq<string>, p: Plan): (r: Result<Seeded, PyError>)
    requires ValidPlan(p)
  {
    SeedDates(Seeded(appts, 0, 0), dates, p)
  }

  /** Seeding one date keeps the list sound and only appends. */
  lemma SeedDateSpec(st: Seeded, d: Date, p: Plan)
    requires ValidDate(d) && ValidPlan(p) && Sound(st.appts)
    ensures var r := SeedDate(st, d, p);
      r.Success? ==> Grows(st, r.value) && Sound(r.value.appts)
  {
    match DaySlots(d, p.window, p.slotMinutes)
    case Failure(_) =>
    case Success(slots) =>
      SeedDoctorsSpec(st, p.doctors, slots, p.perDoctor, p.sample, p.patientNo);
  }

  /** With workable inputs, seeding a date before 9999-12-31 succeeds. */
  lemma SeedDateSucceeds(st: Seeded, d: Date, p: Plan)
    requires ValidDate(d) && ValidPlan(p) && Workable(p) && d != MaxDate
    ensures SeedDate(st, d, p).Success?
  {
    DaySlotsSucceed(d, p.window, p.slotMinutes);
    SeedDoctorsSucceeds(st, p.doctors, DaySlots(d, p.window, p.slotMinutes).value, p.perDoctor, p.sample, p.patientNo);
  }

  /** Every text reads as a date before 9999-12-31. */
  predicate OrdinaryDates(dates: seq<string>) {
    forall k :: 0 <= k < |dates| ==> ParseDate(dates[k]).Some? && ParseDate(dates[k]).value != MaxDate
  }

  /** Seeding a list of date texts keeps the list sound, only appends, and
      counts what it appended. */
  lemma {:induction false} SeedDatesSpec(st: Seeded, dates: seq<string>, p: Plan)
    requires ValidPlan(p) && Sound(st.appts)
    ensures var r := SeedDates(st, dates, p);
      r.Success? ==> Grows(st, r.value) && Sound(r.value.appts)
    decreases |dates|
  {
    if |dates| > 0 {
      match ParseDate(dates[0])
      case None =>
      case Some(d) =>
        SeedDateSpec(st, d, p);
        match SeedDate(st, d, p)
        case Failure(_) =>
        case Success(next) =>
          SeedDatesSpec(next, dates[1..], p);
          var r := SeedDates(next, dates[1..], p);
          if r.Success? {
            GrowsTransitive(st, next, r.value);
          }
    }
  }

  /** With workable inputs and readable dates before 9999-12-31, the loop succeeds. */
  lemma {:induction false} SeedDatesSucceed(st: Seeded, dates: seq<string>, p: Plan)
    requires ValidPlan(p)
    ensures Workable(p) && OrdinaryDates(dates) ==> SeedDates(st, dates, p).Success?
    decreases |dates|
  {
    if |dates| > 0 && Workable(p) && OrdinaryDates(dates) {
      var d := ParseDate(dates[0]).value;
      SeedDateSucceeds(st, d, p);
      var next := SeedDate(st, d, p).value;
      assert OrdinaryDates(dates[1..]) by {
        assert forall k :: 1 <= k < |dates| ==> dates[1..][k - 1] == dates[k];
      }
      SeedDatesSucceed(next, dates[1..], p);
    }
  }

  // ---------------------------------------------------------------------
  // seed_random_appointments_range
  // ---------------------------------------------------------------------

  /** `[d.strftime("%Y-%m-%d") for d in days]`. */
  function FormatDates(days: seq<Date>): (r: seq<string>)
    requires forall k :: 0 <= k < |days| ==> ValidDate(days[k])
    ensures |r| == |days|
    ensures forall k :: 0 <= k < |r| ==> r[k] == FormatDate(days[k])
  {
    if |days| == 0 then [] else [FormatDate(days[0])] + FormatDates(days[1..])
  }

  /** Writing the days out and reading them back seeds exactly those days. */
  lemma {:induction false} FormattedDatesSeedDays(st: Seeded, days: seq<Date>, p: Plan)
    requires ValidPlan(p) && forall k :: 0 <= k < |days| ==> ValidDate(days[k])
    ensures SeedDates(st, FormatDates(days), p) == SeedDays(st, days, p)
    decreases |days|
  {
    if |days| > 0 {
      var texts := FormatDates(days);
      DateRoundTrip(days[0]);
      assert texts[1..] == FormatDates(days[1..]);
      match SeedDate(st, days[0], p)
      case Failure(_) =>
      case Success(next) =>
        FormattedDatesSeedDays(next, days[1..], p);
    }
  }

  /** `seed_random_appointments_range`: read both dates (ValueError), list the
      days from the first to the last inclusive (OverflowError when the last
      is 9999-12-31), write them out and seed them. */
  function SeedRandomRange(appts: seq<Appointment>, startDate: string, endDate: string, p: Plan): (r: Result<Seeded, PyError>)
    requires ValidPlan(p)
  {
    match (ParseDate(startDate), ParseDate(endDate))
    case (Some(s), Some(e)) =>
      (match DateRange(s, e)
       case Failure(err) => Failure(err)
       case Success(days) => SeedRandomForDates(appts, FormatDates(days), p))
    case _ => Failure(ValueError)
  }

  /** The range seeds each day from the first date to the last, in order,
      and nothing when the last comes before the first; unreadable dates
      raise ValueError. */
  lemma RangeSeedsEachDay(appts: seq<Appointment>, startDate: string, endDate: string, p: Plan)
    requires ValidPlan(p)
    ensures ParseDate(startDate).None? || ParseDate(endDate).None? ==>
      SeedRandomRange(appts, startDate, endDate, p) == Failure(ValueError)
    ensures ParseDate(startDate).Some? && ParseDate(endDate).Some? ==>
      var s := ParseDate(startDate).value;
      var e := ParseDate(endDate).value;
      var r := SeedRandomRange(appts, startDate, endDate, p);
      && (r.Failure? && r.error == OverflowError <== NotAfter(s, e) && e == MaxDate)
      && (DateRange(s, e).Success? ==>
            var days := DateRange(s, e).value;
            && |days| == (if NotAfter(s, e) then Ordinal(e) - Ordinal(s) + 1 else 0)
            && (forall k :: 0 <= k < |days| ==> Ordinal(days[k]) == Ordinal(s) + k)
            && r == SeedDays(Seeded(appts, 0, 0), days, p))
  {
    if ParseDate(startDate).Some? && ParseDate(endDate).Some? {
      var s := ParseDate(startDate).value;
      var e := ParseDate(endDate).value;
      if DateRange(s, e).Success? {
        FormattedDatesSeedDays(Seeded(appts, 0, 0), DateRange(s, e).value, p);
      }
    }
  }

  // ---------------------------------------------------------------------
  // seed_random_appointments_days
  // ---------------------------------------------------------------------

  /** A moment is strictly after `now`, given as the date `today` and the
      microseconds since its midnight. */
  predicate Later(m: Moment, today: Date, micros: int) {
    Before(today, m.date) || (m.date == today && m.minute * 60000000 > micros)
  }

  /** `datetime.strptime(s, ISO_FMT) > now` for a slot text; slot texts always read. */
  predicate LaterText(t: string, today: Date, micros: int) {
    match ParseMoment(t, Layouts[0])
    case None => false
    case Some(m) => Later(m, today, micros)
  }

  /** The written slot reads back as that slot. */
  lemma SlotTextReads(m: Moment)
    requires ValidMoment(m)
    ensures ParseMoment(FormatMinute(m), Layouts[0]) == Some(m)
  {
    RenderParses(m, Layouts[0], ' ', 0);
  }

  /** Today's slots: only those strictly after now. */
  function TodayOnly(slots: seq<string>, today: Date, micros: int): (r: seq<string>)
    ensures forall i :: 0 <= i < |r| ==> r[i] in slots && LaterText(r[i], today, micros)
    ensures forall i :: 0 <= i < |slots| && LaterText(slots[i], today, micros) ==> slots[i] in r
    ensures CanonicalSlots(slots) ==> CanonicalSlots(r)
  {
    var r := Filter(slots, t => LaterText(t, today, micros));
    if Distinct(slots) then FilterKeepsDistinct(slots, t => LaterText(t, today, micros)); r else r
  }

  /** Today's generated slots that remain are exactly the slots after now. */
  lemma TodayOnlyIff(ms: seq<Moment>, today: Date, micros: int, m: Moment)
    requires forall k :: 0 <= k < |ms| ==> ValidMoment(ms[k])
    requires m in ms
    ensures FormatMinute(m) in TodayOnly(SlotTexts(ms), today, micros) <==> Later(m, today, micros)
  {
    var k :| 0 <= k < |ms| && ms[k] == m;
    var texts := SlotTexts(ms);
    assert texts[k] == FormatMinute(m);
    SlotTextReads(m);
  }

  /** One day of the loop: its slots, only those after now when it is today;
      a day with no slot left is skipped, otherwise every doctor is seeded. */
  function SeedDay(st: Seeded, d: Date, today: Date, micros: int, p: Plan): (r: Result<Seeded, PyError>)
    requires ValidDate(d) && ValidPlan(p)
  {
    match DaySlots(d, p.window, p.slotMinutes)
    case Failure(e) => Failure(e)
    case Success(all) =>
      SeedSlots(st, if d == today then TodayOnly(all, today, micros) else all, p)
  }

  /** The doctor loop over one day's remaining slots, skipped when none remain. */
  function SeedSlots(st: Seeded, slots: seq<string>, p: Plan): (r: Result<Seeded, PyError>)
    requires ValidPlan(p)
  {
    if |slots| == 0 then Success(st)
    else SeedDoctors(st, p.doctors, slots, p.perDoctor, p.sample, p.patientNo)
  }

  /** Days `i` to `days - 1` after today: `today + timedelta(days=i)` past
      9999-12-31 raises OverflowError. */
  function SeedDaysFrom(st: Seeded, today: Date, micros: int, i: nat, days: nat, p: Plan): (r: Result<Seeded, PyError>)
    requires ValidDate(today) && ValidPlan(p)
    decreases days - i
  {
    if i >= days then Success(st)
    else
      match AddDays(today, i)
      case None => Failure(OverflowError)
      case Some(d) =>
        match SeedDay(st, d, today, micros, p)
        case Failure(e) => Failure(e)
        case Success(next) => SeedDaysFrom(next, today, micros, i + 1, days, p)
  }

  /** `seed_random_appointments_days`: nothing for a non-positive count;
      otherwise `days` days from today, `now` being `micros` microseconds
      after today's midnight. */
  function SeedRandomDays(appts: seq<Appointment>, days: int, today: Date, micros: int, p: Plan): (r: Result<Seeded, PyError>)
    requires ValidDate(today) && ValidPlan(p)
  {
    if days <= 0 then Success(Seeded(appts, 0, 0))
    else SeedDaysFrom(Seeded(appts, 0, 0), today, micros, 0, days, p)
  }

  /** The text is the written form of a moment strictly after now. */
  ghost predicate WrittenLater(t: string, today: Date, micros: int) {
    exists m :: ValidMoment(m) && t == FormatMinute(m) && Later(m, today, micros)
  }

  /** Every record appended between `before` and `after` is at a time strictly after now. */
  ghost predicate AddedLater(before: Seeded, after: Seeded, today: Date, micros: int) {
    forall k :: |before.appts| <= k < |after.appts| ==> WrittenLater(after.appts[k].time, today, micros)
  }

  lemma AddedLaterTransitive(a: Seeded, b: Seeded, c: Seeded, today: Date, micros: int)
    requires Grows(a, b) && Grows(b, c) && AddedLater(a, b, today, micros) && AddedLater(b, c, today, micros)
    ensures AddedLater(a, c, today, micros)
  {
    forall k | |a.appts| <= k < |b.appts|
      ensures WrittenLater(c.appts[k].time, today, micros)
    {
      assert c.appts[k] == c.appts[..|b.appts|][k];
    }
  }

  /** The moments generated for `d` all fall on `d`. */
  lemma GeneratedOnDay(d: Date, w: Option<(int, int)>, slotMinutes: int)
    requires ValidDate(d) && WithinDay(w) && WindowSlots(d, w, slotMinutes).Success?
    ensures var ms := WindowSlots(d, w, slotMinutes).value;
      forall k :: 0 <= k < |ms| ==> ValidMoment(ms[k]) && ms[k].date == d
  {
    if slotMinutes > 0 {
      SlotsShape(d, w.value.0, w.value.1, slotMinutes);
    }
  }

  /** The slots of a day on or after today, filtered when it is today, are
      all canonical and written forms of moments after now. */
  lemma DaySlotsLater(d: Date, today: Date, micros: int, p: Plan)
    requires ValidDate(d) && WithinDay(p.window) && NotAfter(today, d) && DaySlots(d, p.window, p.slotMinutes).Success?
    ensures var all := DaySlots(d, p.window, p.slotMinutes).value;
      var slots := if d == today then TodayOnly(all, today, micros) else all;
      CanonicalSlots(slots) && forall i :: 0 <= i < |slots| ==> WrittenLater(slots[i], today, micros)
  {
    var all := DaySlots(d, p.window, p.slotMinutes).value;
    var ms := WindowSlots(d, p.window, p.slotMinutes).value;
    var slots := if d == today then TodayOnly(all, today, micros) else all;
    GeneratedOnDay(d, p.window, p.slotMinutes);
    assert all == SlotTexts(ms);
    forall i | 0 <= i < |slots|
      ensures WrittenLater(slots[i], today, micros)
    {
      if d == today {
        TodaySlotLater(ms, today, micros, slots, i);
      } else {
        assert ValidMoment(ms[i]) && slots[i] == FormatMinute(ms[i]) && Later(ms[i], today, micros);
      }
    }
  }

  /** A slot text today's filter keeps is the written form of a moment after now. */
  lemma TodaySlotLater(ms: seq<Moment>, today: Date, micros: int, slots: seq<string>, i: int)
    requires forall k :: 0 <= k < |ms| ==> ValidMoment(ms[k])
    requires slots == TodayOnly(SlotTexts(ms), today, micros) && 0 <= i < |slots|
    ensures WrittenLater(slots[i], today, micros)
  {
    var all := SlotTexts(ms);
    assert slots[i] in all;
    var j :| 0 <= j < |all| && all[j] == slots[i];
    WrittenFormLater(ms[j], slots[i], today, micros);
  }

  /** A written slot that reads as after now is the written form of a moment after now. */
  lemma WrittenFormLater(m: Moment, t: string, today: Date, micros: int)
    requires ValidMoment(m) && t == FormatMinute(m) && LaterText(t, today, micros)
    ensures WrittenLater(t, today, micros)
  {
    SlotTextReads(m);
  }

  /** `after` grows `before` soundly, by records strictly after now only. */
  ghost predicate Progress(st: Seeded, after: Seeded, today: Date, micros: int) {
    Grows(st, after) && Sound(after.appts) && AddedLater(st, after, today, micros)
  }

  lemma ProgressTransitive(a: Seeded, b: Seeded, c: Seeded, today: Date, micros: int)
    requires Progress(a, b, today, micros) && Progress(b, c, today, micros)
    ensures Progress(a, c, today, micros)
  {
    GrowsTransitive(a, b, c);
    AddedLaterTransitive(a, b, c, today, micros);
  }

  /** Seeding every doctor at slots all after now appends only records after now. */
  lemma SeedLaterSlots(st: Seeded, slots: seq<string>, today: Date, micros: int, p: Plan)
    requires ValidPlan(p) && Sound(st.appts) && CanonicalSlots(slots)
    requires forall i :: 0 <= i < |slots| ==> WrittenLater(slots[i], today, micros)
    ensures var r := SeedSlots(st, slots, p); r.Success? ==> Progress(st, r.value, today, micros)
  {
    if |slots| > 0 {
      SeedDoctorsSpec(st, p.doctors, slots, p.perDoctor, p.sample, p.patientNo);
      var r := SeedDoctors(st, p.doctors, slots, p.perDoctor, p.sample, p.patientNo);
      if r.Success? {
        forall k | |st.appts| <= k < |r.value.appts|
          ensures WrittenLater(r.value.appts[k].time, today, micros)
        {
          var j :| 0 <= j < |slots| && slots[j] == r.value.appts[k].time;
        }
      }
    }
  }

  /** With a non-negative `per_doctor` the doctor loop over a day always succeeds. */
  lemma SeedSlotsSucceed(st: Seeded, slots: seq<string>, p: Plan)
    requires ValidPlan(p) && p.perDoctor >= 0
    ensures SeedSlots(st, slots, p).Success?
  {
    if |slots| > 0 {
      SeedDoctorsSucceeds(st, p.doctors, slots, p.perDoctor, p.sample, p.patientNo);
    }
  }

  /** Seeding one day on or after today keeps the list sound, only appends,
      and appends only records strictly after now. */
  lemma SeedDayProgress(st: Seeded, d: Date, today: Date, micros: int, p: Plan)
    requires ValidDate(d) && ValidPlan(p) && Sound(st.appts) && NotAfter(today, d)
    ensures var r := SeedDay(st, d, today, micros, p); r.Success? ==> Progress(st, r.value, today, micros)
  {
    if DaySlots(d, p.window, p.slotMinutes).Success? {
      var all := DaySlots(d, p.window, p.slotMinutes).value;
      DaySlotsLater(d, today, micros, p);
      SeedLaterSlots(st, if d == today then TodayOnly(all, today, micros) else all, today, micros, p);
    }
  }

  /** With workable inputs, seeding any day but 9999-12-31 succeeds. */
  lemma SeedDaySucceeds(st: Seeded, d: Date, today: Date, micros: int, p: Plan)
    requires ValidDate(d) && ValidPlan(p) && Workable(p) && d != MaxDate
    ensures SeedDay(st, d, today, micros, p).Success?
  {
    DaySlotsSucceed(d, p.window, p.slotMinutes);
    var all := DaySlots(d, p.window, p.slotMinutes).value;
    SeedSlotsSucceed(st, if d == today then TodayOnly(all, today, micros) else all, p);
  }

  /** Day `i` after today, seeded on a sound list, makes progress. */
  lemma DayStep(st: Seeded, today: Date, micros: int, i: nat, p: Plan)
    requires ValidDate(today) && ValidPlan(p) && Sound(st.appts) && AddDays(today, i).Some?
    ensures var r := SeedDay(st, AddDays(today, i).value, today, micros, p);
      r.Success? ==> Progress(st, r.value, today, micros)
  {
    var d := AddDays(today, i).value;
    OrdinalOrder(today, d);
    SeedDayProgress(st, d, today, micros, p);
  }

  /** Days `i` onwards keep the list sound, only append, and append only
      records strictly after now. */
  lemma {:induction false} SeedDaysFromSpec(st: Seeded, today: Date, micros: int, i: nat, days: nat, p: Plan)
    requires ValidDate(today) && ValidPlan(p) && Sound(st.appts)
    ensures var r := SeedDaysFrom(st, today, micros, i, days, p);
      r.Success? ==> Progress(st, r.value, today, micros)
    decreases days - i
  {
    if i < days && AddDays(today, i).Some? {
      DayStep(st, today, micros, i, p);
      var d := AddDays(today, i).value;
      var r0 := SeedDay(st, d, today, micros, p);
      if r0.Success? {
        var next := r0.value;
        var j: nat := i + 1;
        SeedDaysFromSpec(next, today, micros, j, days, p);
        var r := SeedDaysFrom(next, today, micros, j, days, p);
        if r.Success? {
          ProgressTransitive(st, next, r.value, today, micros);
        }
      }
    }
  }

  /** With workable inputs, day `i` before the last day in range seeds successfully. */
  lemma DayOk(st: Seeded, today: Date, micros: int, i: nat, days: nat, p: Plan)
    requires ValidDate(today) && ValidPlan(p) && Workable(p) && i < days && Ordinal(today) + days <= MaxOrdinal
    ensures AddDays(today, i).Some? && SeedDay(st, AddDays(today, i).value, today, micros, p).Success?
  {
    var d := AddDays(today, i).value;
    OrdinalAtMostMax(d);
    SeedDaySucceeds(st, d, today, micros, p);
  }

  /** With workable inputs and every day before 9999-12-31, days `i` onwards succeed. */
  lemma {:induction false} SeedDaysFromSucceed(st: Seeded, today: Date, micros: int, i: nat, days: nat, p: Plan)
    requires ValidDate(today) && ValidPlan(p)
    ensures Workable(p) && Ordinal(today) + days <= MaxOrdinal ==> SeedDaysFrom(st, today, micros, i, days, p).Success?
    decreases days - i
  {
    if i < days && Workable(p) && Ordinal(today) + days <= MaxOrdinal {
      DayOk(st, today, micros, i, days, p);
      var d := AddDays(today, i).value;
      var r0 := SeedDay(st, d, today, micros, p);
      var next := r0.value;
      var j: nat := i + 1;
      SeedDaysFromSucceed(next, today, micros, j, days, p);
    }
  }

  /** `seed_random_appointments_days`: a non-positive count creates nothing
      and leaves the list as it was; otherwise, on a sound list, a success
      keeps it sound, returns the number of records it appended, and appends
      only records strictly after now; with workable inputs it fails only
      when the last day would pass 9999-12-31. */
  lemma SeedRandomDaysSpec(appts: seq<Appointment>, days: int, today: Date, micros: int, p: Plan)
    requires ValidDate(today) && ValidPlan(p)
    ensures days <= 0 ==> SeedRandomDays(appts, days, today, micros, p) == Success(Seeded(appts, 0, 0))
    ensures var r := SeedRandomDays(appts, days, today, micros, p);
      Sound(appts) ==>
        && (r.Success? ==>
              && |appts| <= |r.value.appts| && r.value.appts[..|appts|] == appts
              && r.value.created == |r.value.appts| - |appts|
              && Sound(r.value.appts) && AddedLater(Seeded(appts, 0, 0), r.value, today, micros))
        && (Workable(p) && Ordinal(today) + days <= MaxOrdinal ==> r.Success?)
  {
    if days > 0 && Sound(appts) {
      var st := Seeded(appts, 0, 0);
      SeedDaysFromSpec(st, today, micros, 0, days, p);
      var r := SeedDaysFrom(st, today, micros, 0, days, p);
      if r.Success? {
        assert Progress(st, r.value, today, micros);
      }
      if Workable(p) && Ordinal(today) + days <= MaxOrdinal {
        SeedDaysFromSucceed(st, today, micros, 0, days, p);
      }
    }
  }
}
