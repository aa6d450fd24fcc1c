/** The consistency report of app/api/debug/patients/route.js: users without a patient
    profile, repeated clerk ids and repeated e-mail addresses, and the issue list built
    from them.  The two database reads become the input sequence of users. */
module DebugPatients {
  import opened Seqs

  datatype PatientProfile = PatientProfile(id: string)

  /** A user row with its `patients` relation included. */
  datatype User = User(id: string, clerkId: string, email: string, role: string, patients: seq<PatientProfile>)

  /** The entries pushed onto `issues`, and the placeholder reported when there are none. */
  datatype Issue =
    | UsersWithoutProfiles(count: nat)
    | DuplicateClerkIds(ids: seq<string>)
    | DuplicateEmails(emails: seq<string>)
    | NoIssuesDetected

  /** The computed parts of the response: `summary` and `debug`. */
  datatype Report = Report(
    totalPatients: nat,
    totalUsers: nat,
    issues: seq<Issue>,
    usersWithoutPatients: seq<User>,
    duplicateClerkIds: seq<string>,
    duplicateEmails: seq<string>)

  predicate HasNoPatients(u: User)
  {
    |u.patients| == 0
  }

  /** `users.filter(user => user.patients.length === 0)`. */
  function UsersWithoutPatients(users: seq<User>): (r: seq<User>)
    ensures forall u :: u in r <==> u in users && u.patients == []
    ensures IsSubsequence(r, users)
    ensures |r| == Count(users, HasNoPatients)
  {
    Filter(users, HasNoPatients)
  }

  /** `users.map(u => u.clerkId)`. */
  function ClerkIds(users: seq<User>): (r: seq<string>)
    ensures |r| == |users| && forall i :: 0 <= i < |users| ==> r[i] == users[i].clerkId
  {
    seq(|users|, i requires 0 <= i < |users| => users[i].clerkId)
  }

  /** `users.map(u => u.email)`. */
  function Emails(users: seq<User>): (r: seq<string>)
    ensures |r| == |users| && forall i :: 0 <= i < |users| ==> r[i] == users[i].email
  {
    seq(|users|, i requires 0 <= i < |users| => users[i].email)
  }

  /** `s.indexOf(x)`: the first position holding `x`, or -1. */
  function IndexOf<T(==)>(s: seq<T>, x: T): (i: int)
    ensures -1 <= i < |s|
    ensures i == -1 <==> x !in s
    ensures 0 <= i ==> s[i] == x && forall k :: 0 <= k < i ==> s[k] != x
  {
    if s == [] then -1
    else if s[0] == x then 0
    else
      var k := IndexOf(s[1..], x);
      if k == -1 then -1 else k + 1
  }

  /** The element at position k is dropped by the duplicate filter exactly when it is the
      first occurrence of its value. */
  lemma IndexOfIsFirst<T>(s: seq<T>, k: nat)
    requires k < |s|
    ensures IndexOf(s, s[k]) != k <==> s[k] in s[..k]
  {
    var i := IndexOf(s, s[k]);
    if i != k {
      assert s[..k][i] == s[k];
    }
    if s[k] in s[..k] {
      var j :| 0 <= j < k && s[..k][j] == s[k];
      assert s[j] == s[k];
    }
  }

  /** The first `n` positions of `s.filter((x, index) => keep(index))`. */
  function KeepUpTo<T>(s: seq<T>, n: nat, keep: nat -> bool): seq<T>
    requires n <= |s|
  {
    if n == 0 then []
    else KeepUpTo(s, n - 1, keep) + (if keep(n - 1) then [s[n - 1]] else [])
  }

  /** The test `(x, index) => s.indexOf(x) !== index`. */
  function IsRepeatAt<T(==)>(s: seq<T>): nat -> bool
  {
    (k: nat) => k < |s| && IndexOf(s, s[k]) != k
  }

  /** `s.filter((x, index) => s.indexOf(x) !== index)`: every occurrence but the first. */
  function Duplicates<T(==)>(s: seq<T>): seq<T>
  {
    KeepUpTo(s, |s|, IsRepeatAt(s))
  }

  /** `keep` picks exactly the positions whose value occurred before. */
  ghost predicate KeepsRepeats<T>(s: seq<T>, keep: nat -> bool)
  {
    forall k {:trigger keep(k)} :: 0 <= k < |s| ==> (keep(k) <==> s[k] in s[..k])
  }

  lemma RepeatTestKeepsRepeats<T>(s: seq<T>)
    ensures KeepsRepeats(s, IsRepeatAt(s))
  {
    forall k | 0 <= k < |s| ensures IsRepeatAt(s)(k) <==> s[k] in s[..k] {
      IndexOfIsFirst(s, k);
    }
  }

  /** Position `n - 1` adds to the kept list exactly when its value occurred before. */
  lemma KeepStep<T>(s: seq<T>, n: nat, keep: nat -> bool)
    requires 0 < n <= |s| && KeepsRepeats(s, keep)
    ensures |KeepUpTo(s, n, keep)| == |KeepUpTo(s, n - 1, keep)| + (if s[n - 1] in s[..n - 1] then 1 else 0)
  {
    assert keep(n - 1) <==> s[n - 1] in s[..n - 1];
  }

  /** Position `n - 1` adds to the distinct values exactly when its value did not occur before. */
  lemma ElemsStep<T>(s: seq<T>, n: nat)
    requires 0 < n <= |s|
    ensures |Elems(s[..n])| == |Elems(s[..n - 1])| + (if s[n - 1] in s[..n - 1] then 0 else 1)
  {
    PrefixSnoc(s, n - 1);
    assert s[..n] == s[..n - 1] + [s[n - 1]];
    ElemsSnoc(s[..n - 1], s[n - 1]);
  }

  lemma {:induction false} KeepRepeatsLength<T>(s: seq<T>, n: nat, keep: nat -> bool)
    requires n <= |s| && KeepsRepeats(s, keep)
    ensures |KeepUpTo(s, n, keep)| + |Elems(s[..n])| == n
  {
    if n == 0 {
      assert Elems(s[..0]) == {};
    } else {
      KeepRepeatsLength(s, n - 1, keep);
      KeepStep(s, n, keep);
      ElemsStep(s, n);
    }
  }

  /** Every occurrence except the first of each value is reported, so the list has as many
      entries as `s` has beyond its distinct values. */
  lemma DuplicatesLength<T>(s: seq<T>)
    ensures |Duplicates(s)| == |s| - |Elems(s)|
  {
    RepeatTestKeepsRepeats(s);
    KeepRepeatsLength(s, |s|, IsRepeatAt(s));
    assert s[..|s|] == s;
  }

  lemma {:induction false} KeptRepeatOccursEarlier<T>(s: seq<T>, n: nat, keep: nat -> bool, x: T)
    requires n <= |s| && KeepsRepeats(s, keep) && x in KeepUpTo(s, n, keep)
    ensures exists i, j :: 0 <= i < j < n && s[i] == x && s[j] == x
  {
    var last := s[n - 1];
    if x in KeepUpTo(s, n - 1, keep) {
      KeptRepeatOccursEarlier(s, n - 1, keep, x);
    } else {
      assert x == last && last in s[..n - 1];
      var i :| 0 <= i < n - 1 && s[..n - 1][i] == last;
      assert s[i] == x && s[n - 1] == x;
    }
  }

  /** Every reported duplicate occurs at least twice in the input. */
  lemma DuplicatesOccurTwice<T>(s: seq<T>)
    ensures forall x :: x in Duplicates(s) ==> exists i, j :: 0 <= i < j < |s| && s[i] == x && s[j] == x
  {
    RepeatTestKeepsRepeats(s);
    forall x | x in Duplicates(s) ensures exists i, j :: 0 <= i < j < |s| && s[i] == x && s[j] == x {
      KeptRepeatOccursEarlier(s, |s|, IsRepeatAt(s), x);
    }
  }

  /** The duplicate list is empty exactly when no value repeats. */
  lemma NoDuplicatesIff<T>(s: seq<T>)
    ensures Duplicates(s) == [] <==> NoDup(s)
  {
    DuplicatesLength(s);
    DistinctCount(s);
  }

  /** Rank of an issue in the order the handler pushes them. */
  function IssueRank(i: Issue): nat
  {
    match i
    case UsersWithoutProfiles(_) => 0
    case DuplicateClerkIds(_) => 1
    case DuplicateEmails(_) => 2
    case NoIssuesDetected => 3
  }

  /** The summary's `issues`: one entry per non-empty finding, in a fixed order, or the
      single placeholder when nothing was found. */
  function IssuesOf(withoutPatients: seq<User>, duplicateClerkIds: seq<string>, duplicateEmails: seq<string>): seq<Issue>
  {
    var found := (if |withoutPatients| > 0 then [UsersWithoutProfiles(|withoutPatients|)] else [])
                 + (if |duplicateClerkIds| > 0 then [DuplicateClerkIds(duplicateClerkIds)] else [])
                 + (if |duplicateEmails| > 0 then [DuplicateEmails(duplicateEmails)] else []);
    if found == [] then [NoIssuesDetected] else found
  }

  /** Each finding is listed exactly when it is non-empty, and nothing else is listed but
      the placeholder. */
  lemma IssuesListFindings(withoutPatients: seq<User>, duplicateClerkIds: seq<string>, duplicateEmails: seq<string>)
    ensures var issues := IssuesOf(withoutPatients, duplicateClerkIds, duplicateEmails);
            (UsersWithoutProfiles(|withoutPatients|) in issues <==> withoutPatients != [])
            && (DuplicateClerkIds(duplicateClerkIds) in issues <==> duplicateClerkIds != [])
            && (DuplicateEmails(duplicateEmails) in issues <==> duplicateEmails != [])
            && forall i :: i in issues ==>
                 i == UsersWithoutProfiles(|withoutPatients|) || i == DuplicateClerkIds(duplicateClerkIds)
                 || i == DuplicateEmails(duplicateEmails) || i == NoIssuesDetected
  {
  }

  /** The findings appear in the order the handler checks them. */
  lemma IssuesOrdered(withoutPatients: seq<User>, duplicateClerkIds: seq<string>, duplicateEmails: seq<string>)
    ensures var issues := IssuesOf(withoutPatients, duplicateClerkIds, duplicateEmails);
            forall a, b :: 0 <= a < b < |issues| ==> IssueRank(issues[a]) < IssueRank(issues[b])
  {
  }

  /** The placeholder is reported exactly when all three findings are empty, and then alone. */
  lemma NoIssuesIff(withoutPatients: seq<User>, duplicateClerkIds: seq<string>, duplicateEmails: seq<string>)
    ensures var issues := IssuesOf(withoutPatients, duplicateClerkIds, duplicateEmails);
            (NoIssuesDetected in issues <==> withoutPatients == [] && duplicateClerkIds == [] && duplicateEmails == [])
            && (NoIssuesDetected in issues ==> issues == [NoIssuesDetected])
  {
  }

  /** The pushes onto `issues`, then the placeholder when it stayed empty. */
  method CollectIssues(withoutPatients: seq<User>, duplicateClerkIds: seq<string>, duplicateEmails: seq<string>)
    returns (issues: seq<Issue>)
    ensures issues == IssuesOf(withoutPatients, duplicateClerkIds, duplicateEmails)
  {
    issues := [];
    if |withoutPatients| > 0 {
      issues := issues + [UsersWithoutProfiles(|withoutPatients|)];
    }
    if |duplicateClerkIds| > 0 {
      issues := issues + [DuplicateClerkIds(duplicateClerkIds)];
    }
    if |duplicateEmails| > 0 {
      issues := issues + [DuplicateEmails(duplicateEmails)];
    }
    if |issues| == 0 {
      issues := [NoIssuesDetected];
    }
  }

  /** The handler's computation after the reads; `totalPatients` and `totalUsers` are the
      two `count()` results. */
  method DebugReport(users: seq<User>, totalPatients: nat, totalUsers: nat) returns (report: Report)
    ensures report.totalPatients == totalPatients && report.totalUsers == totalUsers
    ensures report.usersWithoutPatients == UsersWithoutPatients(users)
    ensures report.duplicateClerkIds == Duplicates(ClerkIds(users))
    ensures report.duplicateEmails == Duplicates(Emails(users))
    ensures report.issues == IssuesOf(report.usersWithoutPatients, report.duplicateClerkIds, report.duplicateEmails)
    ensures NoIssuesDetected in report.issues <==>
              (forall u :: u in users ==> u.patients != []) && NoDup(ClerkIds(users)) && NoDup(Emails(users))
  {
    var withoutPatients := UsersWithoutPatients(users);
    var duplicateClerkIds := Duplicates(ClerkIds(users));
    var duplicateEmails := Duplicates(Emails(users));
    NoDuplicatesIff(ClerkIds(users));
    NoDuplicatesIff(Emails(users));
    var issues := CollectIssues(withoutPatients, duplicateClerkIds, duplicateEmails);
    NoIssuesIff(withoutPatients, duplicateClerkIds, duplicateEmails);
    if withoutPatients != [] {
      assert withoutPatients[0] in withoutPatients;
    }
    report := Report(totalPatients, totalUsers, issues, withoutPatients, duplicateClerkIds, duplicateEmails);
  }
}
