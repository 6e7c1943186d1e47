/** The appointment book's shared helpers (database.py; MakeDataBase.py and
    Main.py carry the same code): doctor-name matching, appointment numbers of
    the form APT-0001, and the exact-text conflict check. The two JSON files are
    not read here: the doctor directory and the appointment list are passed in. */
module Database {
  import opened Wrappers
  import opened Text
  import opened Seqs

  /** A row of the doctor directory. */
  datatype Doctor = Doctor(name: string, department: string)

  /** Every record the program writes carries "BOOKED" or "CANCELLED", and every
      test it makes is "is it CANCELLED". */
  datatype Status = Booked | Cancelled

  /** A row of the appointment list. */
  datatype Appointment = Appointment(
    id: string,
    patient: string,
    doctor: string,
    department: string,
    time: string,
    status: Status)

  // ---------------------------------------------------------------------
  // Doctor names
  // ---------------------------------------------------------------------

  /** The comparison key of a doctor's name: trimmed, lower-cased, and with
      one leading "dr. " (tried first) or "dr " removed. */
  function NormalizeDoctorName(name: string): string {
    var n := StripLower(name);
    if StartsWith(n, "dr. ") then n[4..]
    else if StartsWith(n, "dr ") then n[3..]
    else n
  }

  /** The key is lower-case, no longer than the name, and is the trimmed,
      lower-cased name with at most one title taken off its front. */
  lemma NormalizeDoctorNameShape(name: string)
    ensures IsLower(NormalizeDoctorName(name))
    ensures |NormalizeDoctorName(name)| <= |name|
    ensures var r := NormalizeDoctorName(name);
      StripLower(name) in {"dr. " + r, "dr " + r, r}
  {
    var n := StripLower(name);
    if StartsWith(n, "dr. ") {
      assert n == n[..4] + n[4..];
    } else if StartsWith(n, "dr ") {
      assert n == n[..3] + n[3..];
    }
  }

  predicate NamesMatch(a: string, b: string) {
    NormalizeDoctorName(a) == NormalizeDoctorName(b)
  }

  /** A title in any letter case in front of a name is ignored: "Dr. X", "DR X"
      and "dr. X" all compare as the lower-cased X. */
  lemma NormalizeDropsTitle(title: string, x: string)
    requires Lower(title) == "dr. " || Lower(title) == "dr "
    requires |x| > 0 && !IsSpace(x[|x| - 1])
    ensures NormalizeDoctorName(title + x) == Lower(x)
  {
    var s := title + x;
    assert Lower(title)[0] == LowerChar(title[0]);
    assert s[0] == title[0] && s[|s| - 1] == x[|x| - 1];
    StripKeepsTrimmed(s);
    LowerConcat(title, x);
    TitleOff(Lower(title), Lower(x));
  }

  /** The key of a lower-cased title followed by `y` is `y`. */
  lemma TitleOff(t: string, y: string)
    requires t == "dr. " || t == "dr "
    ensures var n := t + y;
      if t == "dr. " then StartsWith(n, "dr. ") && n[4..] == y
      else !StartsWith(n, "dr. ") && StartsWith(n, "dr ") && n[3..] == y
  {
    var n := t + y;
    assert n[..|t|] == t && n[|t|..] == y;
    if t == "dr " {
      assert n[2] == ' ' && "dr. "[2] == '.';
    }
  }

  /** A trimmed name without a title compares as its lower-cased self. */
  lemma NormalizeUntitled(x: string)
    requires NoEdgeSpace(x)
    requires !StartsWith(Lower(x), "dr. ") && !StartsWith(Lower(x), "dr ")
    ensures NormalizeDoctorName(x) == Lower(x)
  {
    StripKeepsTrimmed(x);
  }

  /** A directory name "Dr. X" is found by the query "X" (in any letter case). */
  lemma TitledNameMatchesUntitled(title: string, x: string)
    requires Lower(title) == "dr. " || Lower(title) == "dr "
    requires |x| > 0 && NoEdgeSpace(x)
    requires !StartsWith(Lower(x), "dr. ") && !StartsWith(Lower(x), "dr ")
    ensures NamesMatch(title + x, x)
  {
    NormalizeDropsTitle(title, x);
    NormalizeUntitled(x);
  }

  /** Only one title is removed: "Dr. Dr. X" keeps its second title. */
  lemma OnlyOneTitleRemoved(title: string, second: string, x: string)
    requires Lower(title) == "dr. " || Lower(title) == "dr "
    requires |x| > 0 && !IsSpace(x[|x| - 1])
    ensures NormalizeDoctorName(title + (second + x)) == Lower(second) + Lower(x)
  {
    NormalizeDropsTitle(title, second + x);
    LowerConcat(second, x);
  }

  /** The normalized name of every directory row, in directory order. */
  function NameKeys(directory: seq<Doctor>): (r: seq<string>)
    ensures |r| == |directory|
    ensures forall i :: 0 <= i < |r| ==> r[i] == NormalizeDoctorName(directory[i].name)
  {
    if |directory| == 0 then [] else [NormalizeDoctorName(directory[0].name)] + NameKeys(directory[1..])
  }

  /** Row `k` is the first directory row whose name matches `name`. */
  predicate FirstNamedAt(directory: seq<Doctor>, name: string, k: int) {
    0 <= k < |directory| && NamesMatch(directory[k].name, name)
    && forall j :: 0 <= j < k ==> !NamesMatch(directory[j].name, name)
  }

  /** `_get_doctor_by_name`: the first directory row whose name matches the
      query once both are normalized, or None when no row matches. */
  function GetDoctorByName(directory: seq<Doctor>, name: string): (r: Option<Doctor>)
    ensures r.None? <==> forall i :: 0 <= i < |directory| ==> !NamesMatch(directory[i].name, name)
    ensures r.Some? ==> exists k :: FirstNamedAt(directory, name, k) && directory[k] == r.value
  {
    match FirstNamed(directory, NormalizeDoctorName(name))
    case None => None
    case Some(k) => Some(directory[k])
  }

  /** The loop of `_get_doctor_by_name`: the index of the first row whose key is `target`. */
  function FirstNamed(directory: seq<Doctor>, target: string): (r: Option<nat>)
    ensures r.None? <==> forall i :: 0 <= i < |directory| ==> NormalizeDoctorName(directory[i].name) != target
    ensures r.Some? ==> r.value < |directory| && NormalizeDoctorName(directory[r.value].name) == target
    ensures r.Some? ==> forall j :: 0 <= j < r.value ==> NormalizeDoctorName(directory[j].name) != target
  {
    FindIndex(NameKeys(directory), target)
  }

  // ---------------------------------------------------------------------
  // Appointment numbers
  // ---------------------------------------------------------------------

  /** The text of `s` up to its first `sep`, or all of it. */
  function UpTo(s: string, sep: char): (r: string)
    ensures sep !in r
  {
    match FindIndex(s, sep)
    case None => s
    case Some(j) => s[..j]
  }

  /** `s.split(sep)[1]`: the text between the first and the second separator
      (or the end); None where Python raises IndexError, i.e. no separator. */
  function SecondField(s: string, sep: char): (r: Option<string>)
    ensures r.None? <==> sep !in s
    ensures r.Some? ==> sep !in r.value
  {
    match FindIndex(s, sep)
    case None => None
    case Some(i) => Some(UpTo(s[i + 1..], sep))
  }

  /** The second field is the text between the first separator and the next one (or the end). */
  lemma SecondFieldOf(p: string, sep: char, x: string, rest: string)
    requires sep !in p && sep !in x
    requires |rest| == 0 || rest[0] == sep
    ensures SecondField(p + [sep] + x + rest, sep) == Some(x)
  {
    var s := p + [sep] + x + rest;
    assert s[|p|] == sep;
    forall j | 0 <= j < |p|
      ensures s[j] != sep
    {
      assert s[j] == p[j];
    }
    assert FindIndex(s, sep) == Some(|p|);
    var after := s[|p| + 1..];
    assert after == x + rest;
    if |rest| > 0 {
      assert after[|x|] == sep;
      forall j | 0 <= j < |x|
        ensures after[j] != sep
      {
        assert after[j] == x[j];
      }
      assert FindIndex(after, sep) == Some(|x|);
      assert after[..|x|] == x;
    } else {
      assert after == x;
    }
  }

  /** What `int()` makes of a field, and 0 where there is no field or `int()`
      rejects it; never negative, since a field holds no '-'. */
  function FieldValue(field: Option<string>): (r: nat)
    requires field.Some? ==> '-' !in field.value
  {
    match field
    case None => 0
    case Some(f) =>
      ParseIntNonNegative(f);
      match ParseInt(f)
      case None => 0
      case Some(v) => v
  }

  /** `_extract_id_number`: the integer after the first '-' (APT-0001 -> 1),
      up to the next '-'; 0 when there is no '-' or the field is not an
      integer. Written as a scan to the first '-'; ExtractIdNumberSplits
      relates it to the split. */
  function ExtractIdNumber(id: string): nat
    decreases |id|
  {
    if |id| == 0 then 0
    else if id[0] == '-' then FieldValue(Some(UpTo(id[1..], '-')))
    else ExtractIdNumber(id[1..])
  }

  /** The scan gives what `int(id.split("-")[1])` gives, and 0 where that raises. */
  lemma {:induction false} ExtractIdNumberSplits(id: string)
    ensures ExtractIdNumber(id) == FieldValue(SecondField(id, '-'))
    decreases |id|
  {
    if |id| > 0 && id[0] != '-' {
      ExtractIdNumberSplits(id[1..]);
      SecondFieldSkips(id, '-');
    }
  }

  /** A leading character other than the separator does not change the second field. */
  lemma SecondFieldSkips(s: string, sep: char)
    requires |s| > 0 && s[0] != sep
    ensures SecondField(s, sep) == SecondField(s[1..], sep)
  {
    match FindIndex(s[1..], sep)
    case None =>
    case Some(k) =>
      assert FindIndex(s, sep) == Some(k + 1);
      assert s[k + 2..] == s[1..][k + 1..];
  }

  /** The number of an id `p-x`, or `p-x-...`, is what `int()` makes of `x`,
      and 0 when `int()` rejects `x`. */
  lemma ExtractIdNumberOf(p: string, x: string, rest: string)
    requires '-' !in p && '-' !in x
    requires |rest| == 0 || rest[0] == '-'
    ensures ParseInt(x).Some? ==> ExtractIdNumber(p + ['-'] + x + rest) == ParseInt(x).value
    ensures ParseInt(x).None? ==> ExtractIdNumber(p + ['-'] + x + rest) == 0
  {
    SecondFieldOf(p, '-', x, rest);
    ExtractIdNumberSplits(p + ['-'] + x + rest);
  }

  /** `f"APT-{n:04d}"`. */
  function FormatId(n: nat): string {
    "APT-" + FormatPadded(n, 4)
  }

  /** Formatting an appointment number and extracting it again gives it back. */
  lemma ExtractFormattedId(n: nat)
    ensures ExtractIdNumber(FormatId(n)) == n
  {
    var digits := FormatPadded(n, 4);
    assert '-' !in digits by {
      forall i | 0 <= i < |digits| ensures digits[i] != '-' {
        assert IsDigit(digits[i]);
      }
    }
    assert FormatId(n) == "APT" + ['-'] + digits + [];
    ExtractIdNumberOf("APT", digits, []);
    ParseIntDigits(digits);
  }

  /** The extracted number of every record, in list order. */
  function IdNumbers(appts: seq<Appointment>): (r: seq<nat>)
    ensures |r| == |appts|
    ensures forall i :: 0 <= i < |r| ==> r[i] == ExtractIdNumber(appts[i].id)
  {
    if |appts| == 0 then [] else [ExtractIdNumber(appts[0].id)] + IdNumbers(appts[1..])
  }

  /** The largest extracted number among the records, or 0 for none. */
  function MaxIdNumber(appts: seq<Appointment>): (m: nat)
    ensures forall i :: 0 <= i < |appts| ==> ExtractIdNumber(appts[i].id) <= m
    ensures m == 0 || exists i :: 0 <= i < |appts| && ExtractIdNumber(appts[i].id) == m
  {
    var ns := IdNumbers(appts);
    var m := Largest(ns);
    assert forall i :: 0 <= i < |appts| ==> ns[i] <= m;
    m
  }

  /** Appending a record: the largest number is the larger of the old
      largest and the new record's. */
  lemma MaxIdNumberSnoc(appts: seq<Appointment>, a: Appointment)
    ensures MaxIdNumber(appts + [a]) == if ExtractIdNumber(a.id) <= MaxIdNumber(appts) then MaxIdNumber(appts) else ExtractIdNumber(a.id)
  {
    var s := appts + [a];
    var m := MaxIdNumber(s);
    var m0 := MaxIdNumber(appts);
    assert s[|appts|] == a;
    assert forall i :: 0 <= i < |appts| ==> s[i] == appts[i];
    if m0 != 0 {
      var i :| 0 <= i < |appts| && ExtractIdNumber(appts[i].id) == m0;
      assert ExtractIdNumber(s[i].id) <= m;
    }
    if m != 0 {
      var i :| 0 <= i < |s| && ExtractIdNumber(s[i].id) == m;
      if i < |appts| {
        assert ExtractIdNumber(appts[i].id) <= m0;
      }
    }
  }

  /** `_get_next_appointment_id`: an id whose number is one more than the
      largest existing number, hence greater than every existing number and
      different from every existing id. */
  function NextAppointmentId(appts: seq<Appointment>): (id: string)
    ensures StartsWith(id, "APT-") && |id| >= 8
    ensures ExtractIdNumber(id) == MaxIdNumber(appts) + 1
    ensures forall i :: 0 <= i < |appts| ==> ExtractIdNumber(appts[i].id) < ExtractIdNumber(id)
    ensures forall i :: 0 <= i < |appts| ==> appts[i].id != id
  {
    var n := MaxIdNumber(appts) + 1;
    ExtractFormattedId(n);
    FormatId(n)
  }

  // ---------------------------------------------------------------------
  // Conflicts
  // ---------------------------------------------------------------------

  /** The comparison key of a time: `time.strip().lower()`. */
  function TimeKey(t: string): string {
    StripLower(t)
  }

  /** Record `a` occupies the slot with doctor key `doctorKey` and time key `timeKey`. */
  predicate Blocks(a: Appointment, doctorKey: string, timeKey: string) {
    a.status != Cancelled && NormalizeDoctorName(a.doctor) == doctorKey && TimeKey(a.time) == timeKey
  }

  /** Record `k` is the first record occupying the slot. */
  predicate FirstBlockingAt(appts: seq<Appointment>, doctorKey: string, timeKey: string, k: int) {
    0 <= k < |appts| && Blocks(appts[k], doctorKey, timeKey)
    && forall j :: 0 <= j < k ==> !Blocks(appts[j], doctorKey, timeKey)
  }

  /** `_find_conflict` of database.py: the first non-cancelled record of the
      same doctor (by normalized name) at the same time (by trimmed,
      lower-cased text), or None when there is none. */
  function FindConflict(appts: seq<Appointment>, doctor: string, time: string): (r: Option<Appointment>)
    ensures r.None? <==>
      forall i :: 0 <= i < |appts| ==> !Blocks(appts[i], NormalizeDoctorName(doctor), TimeKey(time))
    ensures r.Some? ==>
      exists k :: FirstBlockingAt(appts, NormalizeDoctorName(doctor), TimeKey(time), k) && appts[k] == r.value
    ensures r.Some? ==> r.value.status == Booked
  {
    match FirstBlocking(appts, NormalizeDoctorName(doctor), TimeKey(time))
    case None => None
    case Some(k) => Some(appts[k])
  }

  /** The slot a record occupies: None for a cancelled record, otherwise its
      doctor key and time key. */
  function SlotKey(a: Appointment): Option<(string, string)> {
    if a.status == Cancelled then None else Some((NormalizeDoctorName(a.doctor), TimeKey(a.time)))
  }

  function SlotKeys(appts: seq<Appointment>): (r: seq<Option<(string, string)>>)
    ensures |r| == |appts|
    ensures forall i :: 0 <= i < |r| ==> r[i] == SlotKey(appts[i])
  {
    if |appts| == 0 then [] else [SlotKey(appts[0])] + SlotKeys(appts[1..])
  }

  /** The loop of `_find_conflict`: the index of the first record occupying the slot. */
  function FirstBlocking(appts: seq<Appointment>, doctorKey: string, timeKey: string): (r: Option<nat>)
    ensures r.None? <==> forall i :: 0 <= i < |appts| ==> !Blocks(appts[i], doctorKey, timeKey)
    ensures r.Some? ==> FirstBlockingAt(appts, doctorKey, timeKey, r.value)
  {
    FindIndex(SlotKeys(appts), Some((doctorKey, timeKey)))
  }

  // ---------------------------------------------------------------------
  // Invariants of the appointment list
  // ---------------------------------------------------------------------

  /** Two live records hold the same doctor at the same time. */
  predicate Clash(a: Appointment, b: Appointment) {
    b.status != Cancelled && Blocks(a, NormalizeDoctorName(b.doctor), TimeKey(b.time))
  }

  /** No doctor is double-booked. */
  predicate NoDoubleBooking(appts: seq<Appointment>) {
    forall i, j :: 0 <= i < j < |appts| ==> !Clash(appts[i], appts[j])
  }

  /** No two records share an id. */
  predicate UniqueIds(appts: seq<Appointment>) {
    forall i, j :: 0 <= i < j < |appts| ==> appts[i].id != appts[j].id
  }

  /** The first record carrying `id` is at index `k`. */
  predicate FirstWithId(appts: seq<Appointment>, id: string, k: int) {
    0 <= k < |appts| && appts[k].id == id && forall j :: 0 <= j < k ==> appts[j].id != id
  }

  /** The id of every record, in list order. */
  function Ids(appts: seq<Appointment>): (r: seq<string>)
    ensures |r| == |appts|
    ensures forall i :: 0 <= i < |r| ==> r[i] == appts[i].id
  {
    if |appts| == 0 then [] else [appts[0].id] + Ids(appts[1..])
  }

  /** The loop `for a in appts: if a["appointment_id"] == id` of the cancel and
      reschedule tools: the position of the first record carrying `id`. */
  function FindById(appts: seq<Appointment>, id: string): (r: Option<nat>)
    ensures r.None? <==> forall i :: 0 <= i < |appts| ==> appts[i].id != id
    ensures r.Some? ==> FirstWithId(appts, id, r.value)
  {
    FindIndex(Ids(appts), id)
  }
}
