/** The admin statistics route (app/api/admin/stats/route.js): the access decision, and
    the per-month counts of appointment dates, keyed by `YYYY-MM-01` strings and sorted by
    date.  The signed-in user id, the user table, `NODE_ENV` and the fetched dates are inputs;
    each date is given as the year and 0-based month its local-time `Date` reports. */
module AdminStats {
  import opened Wrappers
  import opened Seqs

  /* ---------------------------------------------------------------- access */

  datatype UserRecord = UserRecord(clerkId: string, role: string)

  /** The four ways the gate can end. */
  datatype Access = Unauthorized | UserNotFound | AdminRequired | Granted

  function AccessStatus(a: Access): (code: nat)
    ensures code == 200 <==> a == Granted
    ensures a == Unauthorized <==> code == 401
    ensures a == UserNotFound <==> code == 404
    ensures a == AdminRequired <==> code == 403
  {
    match a
    case Unauthorized => 401
    case UserNotFound => 404
    case AdminRequired => 403
    case Granted => 200
  }

  /** `prisma.user.findFirst({ where: { clerkId } })`: the first row with that clerk id. */
  function FindFirstByClerkId(users: seq<UserRecord>, clerkId: string): (r: Option<UserRecord>)
    ensures r.None? <==> forall u :: u in users ==> u.clerkId != clerkId
    ensures r.Some? ==> exists i :: 0 <= i < |users| && users[i] == r.value && r.value.clerkId == clerkId
                                    && forall j :: 0 <= j < i ==> users[j].clerkId != clerkId
  {
    if users == [] then None
    else if users[0].clerkId == clerkId then Some(users[0])
    else
      var r := FindFirstByClerkId(users[1..], clerkId);
      if r.Some? then
        var i :| 0 <= i < |users| - 1 && users[1..][i] == r.value && r.value.clerkId == clerkId
                 && forall j :: 0 <= j < i ==> users[1..][j].clerkId != clerkId;
        assert users[i + 1] == r.value;
        assert forall j :: 0 <= j < i + 1 ==> users[j].clerkId != clerkId by {
          forall j | 0 <= j < i + 1 ensures users[j].clerkId != clerkId {
            if j > 0 { assert users[j] == users[1..][j - 1]; }
          }
        }
        r
      else r
  }

  /** The gate before any statistics are read: no signed-in user gives 401, no user row
      404, a non-ADMIN row 403 unless `NODE_ENV` is "development". */
  function Authorize(caller: Option<string>, users: seq<UserRecord>, nodeEnv: Option<string>): (a: Access)
    ensures a == Unauthorized <==> !IsTruthy(caller)
    ensures a == UserNotFound <==> IsTruthy(caller) && forall u :: u in users ==> u.clerkId != caller.value
    ensures a == AdminRequired <==>
              IsTruthy(caller) && FindFirstByClerkId(users, caller.value).Some?
              && FindFirstByClerkId(users, caller.value).value.role != "ADMIN" && nodeEnv != Some("development")
    ensures a == Granted <==>
              IsTruthy(caller) && FindFirstByClerkId(users, caller.value).Some?
              && (FindFirstByClerkId(users, caller.value).value.role == "ADMIN" || nodeEnv == Some("development"))
  {
    if !IsTruthy(caller) then Unauthorized
    else
      match FindFirstByClerkId(users, caller.value)
      case None => UserNotFound
      case Some(user) =>
        if user.role != "ADMIN" && nodeEnv != Some("development") then AdminRequired else Granted
  }

  /** Outside development, access is granted only to a signed-in user whose row has the
      ADMIN role. */
  lemma OnlyAdminsOutsideDevelopment(caller: Option<string>, users: seq<UserRecord>, nodeEnv: Option<string>)
    requires nodeEnv != Some("development")
    ensures Authorize(caller, users, nodeEnv) == Granted ==>
              caller.Some? && exists u :: u in users && u.clerkId == caller.value && u.role == "ADMIN"
  {
    if Authorize(caller, users, nodeEnv) == Granted {
      var u := FindFirstByClerkId(users, caller.value).value;
      assert u in users;
    }
  }

  /** In development every signed-in user that has a row is let in, whatever its role. */
  lemma DevelopmentAdmitsEveryUser(caller: Option<string>, users: seq<UserRecord>)
    requires IsTruthy(caller)
    ensures Authorize(caller, users, Some("development")) == Granted <==>
              exists u :: u in users && u.clerkId == caller.value
  {
    if exists u :: u in users && u.clerkId == caller.value {
      assert FindFirstByClerkId(users, caller.value).Some?;
    } else {
      assert FindFirstByClerkId(users, caller.value).None?;
    }
  }

  /* ------------------------------------------------------- month keys */

  type Year = y: int | 1000 <= y <= 9999 witness 2000
  type MonthIndex = m: int | 0 <= m < 12

  /** `getFullYear()` and `getMonth()` of an appointment date. */
  datatype YearMonth = YearMonth(year: Year, month: MonthIndex)

  predicate IsDigit(c: char) { '0' <= c <= '9' }

  predicate AllDigits(s: string) { forall i :: 0 <= i < |s| ==> IsDigit(s[i]) }

  function Digit(d: nat): (c: char)
    requires d < 10
    ensures IsDigit(c) && c as int - '0' as int == d
  {
    ('0' as int + d) as char
  }

  /** `String(n)` for a natural number: its decimal digits, without leading zeros. */
  function DecimalString(n: nat): string
  {
    if n < 10 then [Digit(n)] else DecimalString(n / 10) + [Digit(n % 10)]
  }

  /** The value of a string of decimal digits. */
  function DigitsValue(s: string): int
  {
    if s == [] then 0 else DigitsValue(s[..|s| - 1]) * 10 + (s[|s| - 1] as int - '0' as int)
  }

  /** `String(n)` is a non-empty string of digits without a leading zero, whose value is `n`. */
  lemma {:induction false} DecimalStringDigits(n: nat)
    ensures var s := DecimalString(n);
            |s| >= 1 && AllDigits(s) && DigitsValue(s) == n && (n > 0 ==> s[0] != '0')
  {
    var s := DecimalString(n);
    if n >= 10 {
      DecimalStringDigits(n / 10);
      var p := DecimalString(n / 10);
      assert s == p + [Digit(n % 10)];
      assert s[..|s| - 1] == p;
      assert s[0] == p[0];
    } else {
      assert s[..0] == [];
    }
  }

  lemma FourDigitYear(y: Year)
    ensures |DecimalString(y)| == 4
  {
    var a := y / 10;
    var b := a / 10;
    var c := b / 10;
    assert |DecimalString(c)| == 1;
    assert |DecimalString(b)| == 2;
    assert |DecimalString(a)| == 3;
  }

  /** `s.padStart(2, '0')`. */
  function PadStart2(s: string): string
  {
    if |s| == 0 then "00" else if |s| == 1 then "0" + s else s
  }

  /** Padding leaves the string at the end, preceded by as many '0's as make it two long. */
  lemma PadStart2Pads(s: string)
    ensures var r := PadStart2(s);
            |r| == (if |s| >= 2 then |s| else 2) && r[|r| - |s|..] == s
            && forall i :: 0 <= i < |r| - |s| ==> r[i] == '0'
  {
  }

  /** The value of a two-character string is that of its two digits. */
  lemma TwoDigitsValue(c0: char, c1: char)
    ensures DigitsValue([c0, c1]) == (c0 as int - '0' as int) * 10 + (c1 as int - '0' as int)
  {
    var s := [c0, c1];
    assert s[..1] == [c0];
    assert [c0][..0] == [];
    assert DigitsValue([c0]) == DigitsValue([]) * 10 + (c0 as int - '0' as int);
    assert DigitsValue(s) == DigitsValue([c0]) * 10 + (c1 as int - '0' as int);
  }

  /** The padded month number is two digits with the month's value. */
  lemma PaddedMonth(m: MonthIndex)
    ensures |PadStart2(DecimalString(m + 1))| == 2
    ensures AllDigits(PadStart2(DecimalString(m + 1)))
    ensures DigitsValue(PadStart2(DecimalString(m + 1))) == m + 1
  {
    var n: nat := m + 1;
    if n < 10 {
      assert DecimalString(n) == [Digit(n)];
      assert PadStart2(DecimalString(n)) == ['0', Digit(n)];
      TwoDigitsValue('0', Digit(n));
    } else {
      assert DecimalString(n / 10) == [Digit(1)];
      assert DecimalString(n) == [Digit(1), Digit(n % 10)];
      TwoDigitsValue(Digit(1), Digit(n % 10));
    }
  }

  /** `monthKey(d)`: `YYYY-MM-01`. */
  function MonthKey(d: YearMonth): string
  {
    DecimalString(d.year) + "-" + PadStart2(DecimalString(d.month + 1)) + "-01"
  }

  /** A key is ten characters: four year digits, a dash, two month digits (1 to 12), and
      "-01". */
  lemma MonthKeyFormat(d: YearMonth)
    ensures var k := MonthKey(d);
            |k| == 10 && k[4] == '-' && k[7] == '-' && k[8..] == "01"
            && AllDigits(k[..4]) && DigitsValue(k[..4]) == d.year
            && AllDigits(k[5..7]) && DigitsValue(k[5..7]) == d.month + 1
  {
    var ys := DecimalString(d.year);
    var ms := PadStart2(DecimalString(d.month + 1));
    FourDigitYear(d.year);
    DecimalStringDigits(d.year);
    PaddedMonth(d.month);
    var k := MonthKey(d);
    assert k == ys + "-" + ms + "-01";
    assert k[..4] == ys && k[5..7] == ms && k[8..] == "01";
  }

  /** `new Date(key)` on a `YYYY-MM-01` key: its year and 0-based month, or None when the
      string does not have that form. */
  function ParseMonthKey(k: string): Option<YearMonth>
  {
    if |k| == 10 && k[4] == '-' && k[7] == '-' && k[8..] == "01" && AllDigits(k[..4]) && AllDigits(k[5..7]) then
      var y := DigitsValue(k[..4]);
      var m := DigitsValue(k[5..7]);
      if 1000 <= y <= 9999 && 1 <= m <= 12 then Some(YearMonth(y, m - 1)) else None
    else None
  }

  /** Reading a key back gives the year and month it was made from. */
  lemma MonthKeyRoundTrip(d: YearMonth)
    ensures ParseMonthKey(MonthKey(d)) == Some(d)
  {
    MonthKeyFormat(d);
  }

  /** Two dates share a bucket exactly when they have the same year and month. */
  lemma MonthKeyInjective(d1: YearMonth, d2: YearMonth)
    ensures MonthKey(d1) == MonthKey(d2) <==> d1 == d2
  {
    MonthKeyRoundTrip(d1);
    MonthKeyRoundTrip(d2);
  }

  /** The comparator's view of a key, `new Date(key)`, as a month count; keys that do not
      parse never occur. */
  function DateValue(key: string): int
  {
    match ParseMonthKey(key)
    case Some(d) => d.year * 12 + d.month
    case None => 0
  }

  /** Ordering keys by `DateValue` is ordering by (year, month). */
  lemma DateValueOrder(d1: YearMonth, d2: YearMonth)
    ensures DateValue(MonthKey(d1)) < DateValue(MonthKey(d2)) <==>
              d1.year < d2.year || (d1.year == d2.year && d1.month < d2.month)
    ensures DateValue(MonthKey(d1)) == DateValue(MonthKey(d2)) <==> d1 == d2
  {
    MonthKeyRoundTrip(d1);
    MonthKeyRoundTrip(d2);
  }

  /* -------------------------------------------------------- counting */

  /** `recentMonthsAppointments.map(({ date }) => monthKey(new Date(date)))`. */
  function MonthKeys(dates: seq<YearMonth>): (ks: seq<string>)
    ensures |ks| == |dates| && forall i :: 0 <= i < |dates| ==> ks[i] == MonthKey(dates[i])
  {
    seq(|dates|, i requires 0 <= i < |dates| => MonthKey(dates[i]))
  }

  /** How many times `x` occurs in `s`. */
  function Occurrences(s: seq<string>, x: string): (n: nat)
    ensures n <= |s|
    ensures n == 0 <==> x !in s
  {
    if s == [] then 0
    else
      var p := s[..|s| - 1];
      assert s == p + [s[|s| - 1]];
      Occurrences(p, x) + (if s[|s| - 1] == x then 1 else 0)
  }

  /** One entry of `appointmentsByMonth`: `{ date, _count: { date: count } }`. */
  datatype MonthBucket = MonthBucket(date: string, count: nat)

  /** `Array.from(map.entries()).map(...)`: the entries in insertion order. */
  function Buckets(keys: seq<string>, counts: map<string, nat>): (bs: seq<MonthBucket>)
    requires forall k :: k in keys ==> k in counts
    ensures |bs| == |keys| && forall i :: 0 <= i < |keys| ==> bs[i] == MonthBucket(keys[i], counts[keys[i]])
  {
    seq(|keys|, i requires 0 <= i < |keys| => MonthBucket(keys[i], counts[keys[i]]))
  }

  /** The sum of the bucket counts. */
  function TotalCount(bs: seq<MonthBucket>): nat
  {
    if bs == [] then 0 else bs[0].count + TotalCount(bs[1..])
  }

  lemma {:induction false} TotalCountSnoc(bs: seq<MonthBucket>, b: MonthBucket)
    ensures TotalCount(bs + [b]) == TotalCount(bs) + b.count
  {
    if bs != [] {
      assert (bs + [b])[1..] == bs[1..] + [b];
      TotalCountSnoc(bs[1..], b);
    }
  }

  lemma {:induction false} TotalCountUpdate(bs: seq<MonthBucket>, p: nat, b: MonthBucket)
    requires p < |bs|
    ensures TotalCount(bs[p := b]) == TotalCount(bs) - bs[p].count + b.count
  {
    if p > 0 {
      assert bs[p := b][1..] == bs[1..][p - 1 := b];
      TotalCountUpdate(bs[1..], p - 1, b);
    }
  }

  /** `keys` (the map's insertion order) and `counts` (its contents) hold the tally of the
      keys in `seen`. */
  ghost predicate Tallies(keys: seq<string>, counts: map<string, nat>, seen: seq<string>)
  {
    NoDup(keys)
    && (forall k :: k in keys <==> k in counts)
    && (forall k :: k in counts <==> k in seen)
    && (forall k :: k in counts ==> counts[k] == Occurrences(seen, k))
    && TotalCount(Buckets(keys, counts)) == |seen|
    && |keys| <= |seen|
  }

  /** The entries in insertion order after `map.set(key, (map.get(key) || 0) + 1)`: an
      existing key keeps its place and a new one goes last. */
  lemma BucketsStep(keys: seq<string>, counts: map<string, nat>, key: string)
    requires NoDup(keys) && forall k :: k in keys <==> k in counts
    ensures var c := counts[key := (if key in counts then counts[key] else 0) + 1];
            var ks := if key in counts then keys else keys + [key];
            NoDup(ks) && (forall k :: k in ks <==> k in c)
            && TotalCount(Buckets(ks, c)) == TotalCount(Buckets(keys, counts)) + 1
  {
    var c := counts[key := (if key in counts then counts[key] else 0) + 1];
    if key in counts {
      var p :| 0 <= p < |keys| && keys[p] == key;
      assert Buckets(keys, c) == Buckets(keys, counts)[p := MonthBucket(key, counts[key] + 1)];
      TotalCountUpdate(Buckets(keys, counts), p, MonthBucket(key, counts[key] + 1));
    } else {
      NoDupSnoc(keys, key);
      assert Buckets(keys + [key], c) == Buckets(keys, counts) + [MonthBucket(key, 1)];
      TotalCountSnoc(Buckets(keys, counts), MonthBucket(key, 1));
    }
  }

  lemma OccurrencesSnoc(s: seq<string>, x: string, k: string)
    ensures Occurrences(s + [x], k) == Occurrences(s, k) + (if x == k then 1 else 0)
  {
    assert (s + [x])[..|s|] == s;
  }

  /** One step of the `forEach` keeps the tally. */
  lemma TallyStep(keys: seq<string>, counts: map<string, nat>, seen: seq<string>, key: string)
    requires Tallies(keys, counts, seen)
    ensures var c := counts[key := (if key in counts then counts[key] else 0) + 1];
            var ks := if key in counts then keys else keys + [key];
            Tallies(ks, c, seen + [key])
  {
    BucketsStep(keys, counts, key);
    var c := counts[key := (if key in counts then counts[key] else 0) + 1];
    var s := seen + [key];
    forall k | k in c ensures c[k] == Occurrences(s, k) {
      OccurrencesSnoc(seen, key, k);
    }
    assert forall k :: k in c <==> k in s;
  }

  /** The `forEach` over the fetched dates, filling `monthCountsMap`: `keys` is the map's
      insertion order and `counts` its contents. */
  method CountByMonth(dates: seq<YearMonth>) returns (keys: seq<string>, counts: map<string, nat>)
    ensures Tallies(keys, counts, MonthKeys(dates))
    ensures NoDup(keys)
    ensures forall k :: k in keys <==> k in counts
    ensures forall k :: k in counts <==> k in MonthKeys(dates)
    ensures forall k :: k in counts ==> counts[k] == Occurrences(MonthKeys(dates), k) && counts[k] >= 1
    ensures TotalCount(Buckets(keys, counts)) == |dates|
    ensures |keys| <= |dates|
  {
    var ks := MonthKeys(dates);
    keys := [];
    counts := map[];
    for i := 0 to |dates|
      invariant Tallies(keys, counts, ks[..i])
    {
      var key := MonthKey(dates[i]);
      PrefixSnoc(ks, i);
      TallyStep(keys, counts, ks[..i], key);
      var present := key in counts;
      counts := counts[key := (if key in counts then counts[key] else 0) + 1];
      if !present {
        keys := keys + [key];
      }
    }
    assert ks[..|dates|] == ks;
  }

  /* --------------------------------------------------------- sorting */

  /** No bucket comes after one whose `key` is smaller. */
  predicate SortedBy(bs: seq<MonthBucket>, key: string -> int)
  {
    forall i, j :: 0 <= i < j < |bs| ==> key(bs[i].date) <= key(bs[j].date)
  }

  lemma SortedCons(x: MonthBucket, s: seq<MonthBucket>, key: string -> int)
    requires SortedBy(s, key) && forall y :: y in s ==> key(x.date) <= key(y.date)
    ensures SortedBy([x] + s, key)
  {
    var t := [x] + s;
    forall i, j | 0 <= i < j < |t| ensures key(t[i].date) <= key(t[j].date) {
      assert t[j] == s[j - 1];
      if i > 0 { assert t[i] == s[i - 1]; }
    }
  }

  /** Puts `b` in front of the first bucket whose key is not smaller. */
  function InsertBy(b: MonthBucket, bs: seq<MonthBucket>, key: string -> int): seq<MonthBucket>
  {
    if bs == [] || key(b.date) <= key(bs[0].date) then [b] + bs
    else [bs[0]] + InsertBy(b, bs[1..], key)
  }

  /** `.sort(compare)` for a comparator that subtracts the keys of its arguments, as an
      insertion sort. */
  function SortBy(bs: seq<MonthBucket>, key: string -> int): seq<MonthBucket>
  {
    if bs == [] then [] else InsertBy(bs[0], SortBy(bs[1..], key), key)
  }

  lemma {:induction false} InsertByPermutes(b: MonthBucket, bs: seq<MonthBucket>, key: string -> int)
    ensures multiset(InsertBy(b, bs, key)) == multiset(bs) + multiset{b}
  {
    if !(bs == [] || key(b.date) <= key(bs[0].date)) {
      InsertByPermutes(b, bs[1..], key);
      assert bs == [bs[0]] + bs[1..];
    }
  }

  lemma {:induction false} InsertBySorted(b: MonthBucket, bs: seq<MonthBucket>, key: string -> int)
    requires SortedBy(bs, key)
    ensures SortedBy(InsertBy(b, bs, key), key)
  {
    if bs == [] || key(b.date) <= key(bs[0].date) {
      SortedCons(b, bs, key);
    } else {
      var rest := InsertBy(b, bs[1..], key);
      InsertBySorted(b, bs[1..], key);
      InsertByPermutes(b, bs[1..], key);
      forall y | y in rest ensures key(bs[0].date) <= key(y.date) {
        assert y in multiset(rest);
        if y != b {
          assert y in bs[1..];
        }
      }
      SortedCons(bs[0], rest, key);
    }
  }

  /** The sort yields the same buckets, each as often as before. */
  lemma {:induction false} SortByPermutes(bs: seq<MonthBucket>, key: string -> int)
    ensures multiset(SortBy(bs, key)) == multiset(bs)
  {
    if bs != [] {
      SortByPermutes(bs[1..], key);
      InsertByPermutes(bs[0], SortBy(bs[1..], key), key);
      assert bs == [bs[0]] + bs[1..];
    }
  }

  /** The sort yields the buckets in ascending order of their keys. */
  lemma {:induction false} SortBySorted(bs: seq<MonthBucket>, key: string -> int)
    ensures SortedBy(SortBy(bs, key), key)
  {
    if bs != [] {
      SortBySorted(bs[1..], key);
      InsertBySorted(bs[0], SortBy(bs[1..], key), key);
    }
  }

  lemma {:induction false} InsertByNoDup(b: MonthBucket, bs: seq<MonthBucket>, key: string -> int)
    ensures NoDup(bs) && b !in bs ==> NoDup(InsertBy(b, bs, key))
  {
    if NoDup(bs) && b !in bs {
      if bs == [] || key(b.date) <= key(bs[0].date) {
        NoDupCons(b, bs);
      } else {
        var rest := InsertBy(b, bs[1..], key);
        assert bs == [bs[0]] + bs[1..];
        NoDupCons(bs[0], bs[1..]);
        InsertByNoDup(b, bs[1..], key);
        InsertByPermutes(b, bs[1..], key);
        assert bs[0] !in rest by {
          assert bs[0] !in multiset(bs[1..]) + multiset{b};
        }
        NoDupCons(bs[0], rest);
      }
    }
  }

  /** Sorting a list without repetitions gives one without repetitions, holding the same
      buckets. */
  lemma {:induction false} SortByNoDup(bs: seq<MonthBucket>, key: string -> int)
    ensures forall x :: x in SortBy(bs, key) <==> x in bs
    ensures NoDup(bs) ==> NoDup(SortBy(bs, key))
  {
    var r := SortBy(bs, key);
    SortByPermutes(bs, key);
    forall x ensures x in r <==> x in bs {
      assert x in r <==> x in multiset(r);
    }
    if bs != [] {
      assert bs == [bs[0]] + bs[1..];
      NoDupCons(bs[0], bs[1..]);
      SortByNoDup(bs[1..], key);
      InsertByNoDup(bs[0], SortBy(bs[1..], key), key);
    }
  }

  lemma {:induction false} InsertByTotal(b: MonthBucket, bs: seq<MonthBucket>, key: string -> int)
    ensures TotalCount(InsertBy(b, bs, key)) == TotalCount(bs) + b.count
  {
    if bs == [] || key(b.date) <= key(bs[0].date) {
      assert ([b] + bs)[1..] == bs;
    } else {
      InsertByTotal(b, bs[1..], key);
      assert ([bs[0]] + InsertBy(b, bs[1..], key))[1..] == InsertBy(b, bs[1..], key);
    }
  }

  /** Sorting neither loses nor adds to the total count. */
  lemma {:induction false} SortByTotal(bs: seq<MonthBucket>, key: string -> int)
    ensures TotalCount(SortBy(bs, key)) == TotalCount(bs)
  {
    if bs != [] {
      SortByTotal(bs[1..], key);
      InsertByTotal(bs[0], SortBy(bs[1..], key), key);
    }
  }

  /** The dates of the buckets, in order. */
  function BucketDates(bs: seq<MonthBucket>): (ds: seq<string>)
    ensures |ds| == |bs| && forall i :: 0 <= i < |bs| ==> ds[i] == bs[i].date
  {
    seq(|bs|, i requires 0 <= i < |bs| => bs[i].date)
  }

  /** Entries of a map with distinct keys: no two alike, and one per date. */
  lemma BucketsDistinct(keys: seq<string>, counts: map<string, nat>)
    requires NoDup(keys) && forall k :: k in keys ==> k in counts
    ensures NoDup(Buckets(keys, counts))
    ensures forall b1, b2 :: b1 in Buckets(keys, counts) && b2 in Buckets(keys, counts) && b1.date == b2.date ==> b1 == b2
  {
    var u := Buckets(keys, counts);
    forall i, j | 0 <= i < j < |u| ensures u[i] != u[j] {
      assert u[i].date == keys[i] && u[j].date == keys[j];
    }
  }

  /** Sorted by a key that tells the dates apart, the buckets' dates strictly increase. */
  lemma SortedTallyIncreasing(keys: seq<string>, counts: map<string, nat>, key: string -> int)
    requires NoDup(keys) && forall k :: k in keys <==> k in counts
    requires forall k1, k2 :: k1 in keys && k2 in keys && k1 != k2 ==> key(k1) != key(k2)
    ensures var r := SortBy(Buckets(keys, counts), key);
            forall i, j :: 0 <= i < j < |r| ==> key(r[i].date) < key(r[j].date)
  {
    var u := Buckets(keys, counts);
    var r := SortBy(u, key);
    BucketsDistinct(keys, counts);
    SortByNoDup(u, key);
    SortBySorted(u, key);
    forall i, j | 0 <= i < j < |r| ensures key(r[i].date) < key(r[j].date) {
      assert r[i] in u && r[j] in u;
      assert r[i] != r[j];
    }
  }

  /** The sorted buckets are the dates seen, each once, with its number of occurrences. */
  lemma SortedTallyContents(keys: seq<string>, counts: map<string, nat>, seen: seq<string>, key: string -> int)
    requires Tallies(keys, counts, seen)
    ensures var r := SortBy(Buckets(keys, counts), key);
            (forall b :: b in r ==> b.count == Occurrences(seen, b.date) && b.count >= 1)
            && (forall k :: k in seen <==> k in BucketDates(r))
  {
    var u := Buckets(keys, counts);
    var r := SortBy(u, key);
    SortByNoDup(u, key);
    var ds := BucketDates(r);
    forall k | k in seen ensures k in ds {
      assert k in keys;
      var p :| 0 <= p < |keys| && keys[p] == k;
      assert u[p] in r;
      var q :| 0 <= q < |r| && r[q] == u[p];
      assert ds[q] == k;
    }
    forall k | k in ds ensures k in seen {
      var q :| 0 <= q < |r| && ds[q] == k;
      assert r[q] in u;
    }
  }

  /** Sorting keeps the number of buckets and their total. */
  lemma SortedTallySize(keys: seq<string>, counts: map<string, nat>, seen: seq<string>, key: string -> int)
    requires Tallies(keys, counts, seen)
    ensures var r := SortBy(Buckets(keys, counts), key);
            TotalCount(r) == |seen| && |r| <= |seen|
  {
    var u := Buckets(keys, counts);
    var r := SortBy(u, key);
    SortByTotal(u, key);
    SortByPermutes(u, key);
    assert |r| == |multiset(r)| == |multiset(u)| == |u|;
  }

  /** The comparator's value of every key is its month count. */
  lemma DateValueOfKeys()
    ensures forall d: YearMonth :: DateValue(MonthKey(d)) == d.year * 12 + d.month
  {
    forall d: YearMonth ensures DateValue(MonthKey(d)) == d.year * 12 + d.month {
      MonthKeyRoundTrip(d);
    }
  }

  /** Different (year, month) pairs have different month counts. */
  lemma MonthCountInjective(d1: YearMonth, d2: YearMonth)
    requires d1 != d2
    ensures d1.year * 12 + d1.month != d2.year * 12 + d2.month
  {
    if d1.year < d2.year {
      assert d1.year * 12 + d1.month < (d1.year + 1) * 12 <= d2.year * 12;
    } else if d2.year < d1.year {
      assert d2.year * 12 + d2.month < (d2.year + 1) * 12 <= d1.year * 12;
    }
  }

  /** A comparator that counts months tells different keys of the fetched dates apart. */
  lemma KeysSeparated(dates: seq<YearMonth>, key: string -> int)
    requires forall d: YearMonth :: key(MonthKey(d)) == d.year * 12 + d.month
    ensures forall k1, k2 :: k1 in MonthKeys(dates) && k2 in MonthKeys(dates) && k1 != k2 ==> key(k1) != key(k2)
  {
    var ks := MonthKeys(dates);
    forall k1, k2 | k1 in ks && k2 in ks && k1 != k2 ensures key(k1) != key(k2) {
      var i :| 0 <= i < |ks| && ks[i] == k1;
      var j :| 0 <= j < |ks| && ks[j] == k2;
      var d1, d2 := dates[i], dates[j];
      assert d1 != d2;
      assert key(k1) == d1.year * 12 + d1.month;
      assert key(k2) == d2.year * 12 + d2.month;
      MonthCountInjective(d1, d2);
    }
  }

  /** `appointmentsByMonth`: one bucket per month that has appointments, with the number of
      appointments in it, earliest month first. */
  method AppointmentsByMonth(dates: seq<YearMonth>) returns (buckets: seq<MonthBucket>)
    ensures forall i, j :: 0 <= i < j < |buckets| ==> DateValue(buckets[i].date) < DateValue(buckets[j].date)
    ensures forall k :: k in BucketDates(buckets) <==> k in MonthKeys(dates)
    ensures forall b :: b in buckets ==> b.count == Occurrences(MonthKeys(dates), b.date) && b.count >= 1
    ensures TotalCount(buckets) == |dates|
    ensures |buckets| <= |dates|
  {
    var keys, counts := CountByMonth(dates);
    buckets := SortBy(Buckets(keys, counts), DateValue);
    DateValueOfKeys();
    KeysSeparated(dates, DateValue);
    SortedTallyIncreasing(keys, counts, DateValue);
    SortedTallyContents(keys, counts, MonthKeys(dates), DateValue);
    SortedTallySize(keys, counts, MonthKeys(dates), DateValue);
  }

  /** Dates strictly increasing means no date is listed twice. */
  lemma StrictlyIncreasingNoDup(bs: seq<MonthBucket>)
    requires forall i, j :: 0 <= i < j < |bs| ==> DateValue(bs[i].date) < DateValue(bs[j].date)
    ensures NoDup(BucketDates(bs))
  {
  }

  /* ------------------------------------------------------------ handler */

  /** What the handler returns, as far as this model goes. */
  datatype StatsResponse = Denied(status: nat) | Stats(appointmentsByMonth: seq<MonthBucket>)

  /** The GET handler: the gate, then the monthly buckets; nothing is computed for a denied
      request. */
  method GetStats(caller: Option<string>, users: seq<UserRecord>, nodeEnv: Option<string>, dates: seq<YearMonth>)
    returns (response: StatsResponse)
    ensures response.Denied? <==> Authorize(caller, users, nodeEnv) != Granted
    ensures response.Denied? ==> response.status == AccessStatus(Authorize(caller, users, nodeEnv))
    ensures response.Stats? ==> TotalCount(response.appointmentsByMonth) == |dates|
    ensures response.Stats? ==> forall i, j :: 0 <= i < j < |response.appointmentsByMonth| ==>
              DateValue(response.appointmentsByMonth[i].date) < DateValue(response.appointmentsByMonth[j].date)
    ensures response.Stats? ==> NoDup(BucketDates(response.appointmentsByMonth))
    ensures response.Stats? ==> forall k :: k in BucketDates(response.appointmentsByMonth) <==> k in MonthKeys(dates)
    ensures response.Stats? ==> forall b :: b in response.appointmentsByMonth ==>
              b.count == Occurrences(MonthKeys(dates), b.date) && b.count >= 1
    ensures response.Stats? ==> |response.appointmentsByMonth| <= |dates|
  {
    var access := Authorize(caller, users, nodeEnv);
    if access != Granted {
      return Denied(AccessStatus(access));
    }
    var buckets := AppointmentsByMonth(dates);
    StrictlyIncreasingNoDup(buckets);
    response := Stats(buckets);
  }
}
