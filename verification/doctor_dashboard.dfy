/** The appointment list of the doctor dashboard (app/doctor-dashboard/page.js): the
    search-and-status filter, the status badge colours, the status counts and the number
    of distinct patients.  The fetched appointments are an input sequence. */
module DoctorDashboard {
  import opened Wrappers
  import opened Seqs

  datatype PatientUser = PatientUser(email: Option<string>, firstName: Option<string>, lastName: Option<string>)
  datatype Patient = Patient(user: Option<PatientUser>)
  datatype Appointment = Appointment(id: string, patientId: string, status: string, patient: Option<Patient>)

  /** `toLowerCase` on the ASCII letters. */
  function ToLower(s: string): (r: string)
    ensures |r| == |s|
    ensures forall i :: 0 <= i < |s| ==> r[i] == if 'A' <= s[i] <= 'Z' then (s[i] as int + 32) as char else s[i]
  {
    seq(|s|, i requires 0 <= i < |s| => if 'A' <= s[i] <= 'Z' then (s[i] as int + 32) as char else s[i])
  }

  /** `needle` occurs in `haystack` starting at position `i`. */
  predicate OccursAt(haystack: string, needle: string, i: int)
  {
    0 <= i <= |haystack| - |needle| && haystack[i..i + |needle|] == needle
  }

  /** `haystack.includes(needle)`. */
  function Includes(haystack: string, needle: string): (b: bool)
    ensures b <==> exists i :: OccursAt(haystack, needle, i)
    decreases |haystack|
  {
    if |needle| > |haystack| then false
    else if haystack[..|needle|] == needle then
      assert OccursAt(haystack, needle, 0);
      true
    else
      var b := Includes(haystack[1..], needle);
      assert b ==> exists i :: OccursAt(haystack, needle, i) by {
        if b {
          var j :| OccursAt(haystack[1..], needle, j);
          assert haystack[j + 1..j + 1 + |needle|] == haystack[1..][j..j + |needle|];
          assert OccursAt(haystack, needle, j + 1);
        }
      }
      assert (exists i :: OccursAt(haystack, needle, i)) ==> b by {
        if exists i :: OccursAt(haystack, needle, i) {
          var i :| OccursAt(haystack, needle, i);
          assert i != 0;
          assert haystack[1..][i - 1..i - 1 + |needle|] == haystack[i..i + |needle|];
          assert OccursAt(haystack[1..], needle, i - 1);
        }
      }
      b
  }

  /** `field?.toLowerCase().includes(term.toLowerCase())`, false when the field is absent. */
  predicate FieldIncludes(field: Option<string>, term: string)
  {
    field.Some? && Includes(ToLower(field.value), ToLower(term))
  }

  /** `appointment.patient?.user`. */
  function PatientUserOf(a: Appointment): Option<PatientUser>
  {
    if a.patient.Some? then a.patient.value.user else None
  }

  /** `matchesSearch`: the term occurs, ignoring ASCII case, in the patient's e-mail, first
      name or last name. */
  predicate MatchesSearch(a: Appointment, term: string)
  {
    match PatientUserOf(a)
    case None => false
    case Some(u) => FieldIncludes(u.email, term) || FieldIncludes(u.firstName, term) || FieldIncludes(u.lastName, term)
  }

  /** `matchesStatus`. */
  predicate MatchesStatus(a: Appointment, statusFilter: string)
  {
    statusFilter == "ALL" || a.status == statusFilter
  }

  function Matches(term: string, statusFilter: string): Appointment -> bool
  {
    a => MatchesSearch(a, term) && MatchesStatus(a, statusFilter)
  }

  /** `filteredAppointments`. */
  function FilteredAppointments(apps: seq<Appointment>, term: string, statusFilter: string): (r: seq<Appointment>)
    ensures IsSubsequence(r, apps)
    ensures forall a :: a in r <==> a in apps && MatchesSearch(a, term) && MatchesStatus(a, statusFilter)
    ensures statusFilter != "ALL" ==> forall a :: a in r ==> a.status == statusFilter
    ensures |r| == Count(apps, Matches(term, statusFilter))
  {
    Filter(apps, Matches(term, statusFilter))
  }

  function SearchOnly(term: string): Appointment -> bool
  {
    a => MatchesSearch(a, term)
  }

  /** With the status filter at "ALL" only the search applies: the list is exactly the
      search-only filter of the appointments. */
  lemma {:induction false} AllStatusesIgnoresStatus(apps: seq<Appointment>, term: string)
    ensures FilteredAppointments(apps, term, "ALL") == Filter(apps, SearchOnly(term))
  {
    if apps != [] {
      AllStatusesIgnoresStatus(apps[1..], term);
    }
  }

  /** The patient has at least one of the three searched fields. */
  predicate HasSearchableField(a: Appointment)
  {
    match PatientUserOf(a)
    case None => false
    case Some(u) => u.email.Some? || u.firstName.Some? || u.lastName.Some?
  }

  /** Every field includes the empty term, so the empty term matches exactly the
      appointments whose patient has a searched field, whatever the status filter. */
  lemma EmptyTermMatchesSearchable(a: Appointment)
    ensures MatchesSearch(a, "") <==> HasSearchableField(a)
  {
    assert ToLower("") == "";
    forall x: string ensures Includes(ToLower(x), "") {
      assert OccursAt(ToLower(x), "", 0);
    }
  }

  /** An empty search term keeps every appointment whose patient has an e-mail, first name or
      last name, and only those. */
  lemma {:induction false} EmptySearchKeepsSearchable(apps: seq<Appointment>)
    ensures FilteredAppointments(apps, "", "ALL") == Filter(apps, HasSearchableField)
  {
    if apps != [] {
      var a := apps[0];
      assert ToLower("") == "";
      forall x: string ensures Includes(ToLower(x), "") {
        assert OccursAt(ToLower(x), "", 0);
      }
      assert MatchesSearch(a, "") == HasSearchableField(a);
      EmptySearchKeepsSearchable(apps[1..]);
    }
  }

  const PendingColor := "bg-yellow-100 text-yellow-800 border-yellow-200"
  const ConfirmedColor := "bg-blue-100 text-blue-800 border-blue-200"
  const CompletedColor := "bg-green-100 text-green-800 border-green-200"
  const CancelledColor := "bg-red-100 text-red-800 border-red-200"
  const DefaultColor := "bg-gray-100 text-gray-800 border-gray-200"

  /** `getStatusColor`: the badge classes of a status. */
  function StatusColor(status: string): (c: string)
    ensures status !in {"PENDING", "CONFIRMED", "COMPLETED", "CANCELLED"} <==> c == DefaultColor
  {
    match status
    case "PENDING" => PendingColor
    case "CONFIRMED" => ConfirmedColor
    case "COMPLETED" => CompletedColor
    case "CANCELLED" => CancelledColor
    case _ => DefaultColor
  }

  /** Distinct known statuses get distinct badges. */
  lemma StatusColorsDistinct(s1: string, s2: string)
    requires s1 in {"PENDING", "CONFIRMED", "COMPLETED", "CANCELLED"} && s1 != s2
    ensures StatusColor(s1) != StatusColor(s2)
  {
  }

  predicate IsPending(a: Appointment) { a.status == "PENDING" }
  predicate IsConfirmed(a: Appointment) { a.status == "CONFIRMED" }
  predicate IsCompleted(a: Appointment) { a.status == "COMPLETED" }

  datatype Stats = Stats(total: nat, pending: nat, confirmed: nat, completed: nat)

  lemma {:induction false} DisjointCountsBound(apps: seq<Appointment>)
    ensures Count(apps, IsPending) + Count(apps, IsConfirmed) + Count(apps, IsCompleted) <= |apps|
  {
    if apps != [] {
      DisjointCountsBound(apps[1..]);
    }
  }

  /** `stats`: the number of appointments and the number with each of three statuses. */
  function ComputeStats(apps: seq<Appointment>): (st: Stats)
    ensures st.total == |apps|
    ensures st.pending == Count(apps, IsPending)
    ensures st.confirmed == Count(apps, IsConfirmed)
    ensures st.completed == Count(apps, IsCompleted)
    ensures st.pending + st.confirmed + st.completed <= st.total
  {
    DisjointCountsBound(apps);
    Stats(|apps|, |Filter(apps, IsPending)|, |Filter(apps, IsConfirmed)|, |Filter(apps, IsCompleted)|)
  }

  /** `appointments.map(a => a.patientId)`. */
  function PatientIds(apps: seq<Appointment>): (r: seq<string>)
    ensures |r| == |apps| && forall i :: 0 <= i < |apps| ==> r[i] == apps[i].patientId
  {
    seq(|apps|, i requires 0 <= i < |apps| => apps[i].patientId)
  }

  /** The "Active Patients" figure: `new Set(appointments.map(a => a.patientId)).size`. */
  function ActivePatients(apps: seq<Appointment>): (n: nat)
    ensures n == |set a | a in apps :: a.patientId|
    ensures n <= |apps|
    ensures |apps| > 0 ==> n >= 1
    ensures n == |apps| <==> NoDup(PatientIds(apps))
  {
    var ids := PatientIds(apps);
    DistinctCount(ids);
    assert |apps| > 0 ==> ids[0] in Elems(ids);
    assert Elems(ids) == set a | a in apps :: a.patientId by {
      forall x | x in Elems(ids) ensures x in set a | a in apps :: a.patientId {
        var i :| 0 <= i < |ids| && ids[i] == x;
        assert apps[i] in apps;
      }
      forall a | a in apps ensures a.patientId in Elems(ids) {
        var i :| 0 <= i < |apps| && apps[i] == a;
        assert ids[i] == a.patientId;
      }
    }
    |Elems(ids)|
  }
}
