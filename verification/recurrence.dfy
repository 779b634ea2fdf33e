/** Recurrence (`get_recurrence_metrics`): the average number of days between
    consecutive sessions of the same user, and the number of distinct
    calendar days with a session. Timestamps are whole seconds on a naive
    (time-zone free) clock, so the calendar day of `t` is `t` divided by
    86400, rounded down. */
module Recurrence {
  import opened Wrappers
  import opened Events
  import opened Grouping

  const SecondsPerDay: int := 86400

  datatype Metrics = Metrics(avgRecurrenceDays: real, uniqueDates: nat)

  /** The session time of a row; anything but a timestamp is `NaT` (the
      loader coerces this column with `errors='coerce'`). */
  function TimeOf(row: Row): (r: Option<int>)
    ensures r.Some? <==> Get(row, TimestampCol).Some? && Get(row, TimestampCol).value.Time?
    ensures r.Some? ==> r.value == row[TimestampCol].t
  {
    match Get(row, TimestampCol)
    case Some(Time(t)) => Some(t)
    case _ => None
  }

  /** Rows of user `u` with a valid time. */
  predicate SessionOf(row: Row, u: Val) {
    Get(row, UserCol) == Some(u) && TimeOf(row).Some?
  }

  /** The session times of user `u`, in row order. */
  function UserTimes(rows: seq<Row>, u: Val): (r: seq<int>)
    ensures |r| == SessionCount(rows, u)
  {
    if |rows| == 0 then []
    else
      var rest := UserTimes(rows[1..], u);
      if SessionOf(rows[0], u) then [TimeOf(rows[0]).value] + rest else rest
  }

  /** The number of sessions of user `u` (reference count). */
  function SessionCount(rows: seq<Row>, u: Val): nat {
    if |rows| == 0 then 0 else (if SessionOf(rows[0], u) then 1 else 0) + SessionCount(rows[1..], u)
  }

  // ---------------------------------------------------------------------
  // sort_values(['user_id', 'timestamp']) within one user

  predicate Sorted(s: seq<int>) {
    forall i, j :: 0 <= i < j < |s| ==> s[i] <= s[j]
  }

  function InsertTime(t: int, s: seq<int>): (r: seq<int>)
    requires Sorted(s)
    ensures Sorted(r)
    ensures multiset(r) == multiset(s) + multiset{t}
    ensures r[0] == t || (|s| > 0 && r[0] == s[0])
  {
    if |s| == 0 || t <= s[0] then [t] + s
    else
      assert s == [s[0]] + s[1..];
      [s[0]] + InsertTime(t, s[1..])
  }

  function SortTimes(s: seq<int>): (r: seq<int>)
    ensures Sorted(r)
    ensures multiset(r) == multiset(s)
  {
    if |s| == 0 then []
    else
      assert s == [s[0]] + s[1..];
      InsertTime(s[0], SortTimes(s[1..]))
  }

  // ---------------------------------------------------------------------
  // groupby('user_id')['timestamp'].shift(1) and the differences

  /** Differences between consecutive times: the first session of a user
      has no previous one and yields no gap. */
  function Gaps(s: seq<int>): (r: seq<int>)
    ensures |s| > 0 ==> |r| == |s| - 1
    ensures |s| == 0 ==> r == []
    ensures forall i :: 0 <= i < |r| ==> r[i] == s[i + 1] - s[i]
  {
    if |s| < 2 then [] else [s[1] - s[0]] + Gaps(s[1..])
  }

  function SumInts(s: seq<int>): int {
    if |s| == 0 then 0 else s[0] + SumInts(s[1..])
  }

  function MinOf(s: seq<int>): (m: int)
    requires |s| > 0
    ensures m in s && forall x :: x in s ==> m <= x
  {
    if |s| == 1 then s[0]
    else
      var rest := MinOf(s[1..]);
      assert s == [s[0]] + s[1..];
      if s[0] <= rest then s[0] else rest
  }

  function MaxOf(s: seq<int>): (m: int)
    requires |s| > 0
    ensures m in s && forall x :: x in s ==> x <= m
  {
    if |s| == 1 then s[0]
    else
      var rest := MaxOf(s[1..]);
      assert s == [s[0]] + s[1..];
      if s[0] >= rest then s[0] else rest
  }

  /** The gaps of user `u`, time-ordered. */
  function UserGaps(f: Frame, u: Val): seq<int> {
    Gaps(SortTimes(UserTimes(f.rows, u)))
  }

  /** The gaps of all the given users (rows without a user belong to no
      group and have no previous session). */
  function AllGaps(f: Frame, users: seq<Val>): seq<int> {
    if |users| == 0 then [] else UserGaps(f, users[0]) + AllGaps(f, users[1..])
  }

  /** The calendar day of each row's session (`dt.date`). */
  function Days(f: Frame): (r: seq<Option<int>>)
    ensures |r| == |f.rows|
    ensures forall i :: 0 <= i < |f.rows| ==>
              r[i] == (if TimeOf(f.rows[i]).Some? then Some(TimeOf(f.rows[i]).value / SecondsPerDay) else None)
  {
    seq(|f.rows|, i requires 0 <= i < |f.rows| =>
      if TimeOf(f.rows[i]).Some? then Some(TimeOf(f.rows[i]).value / SecondsPerDay) else None)
  }

  /** Mean of the gaps, converted from seconds to days; the mean of no gaps
      is `NaN`, reported as 0. */
  function MeanDays(gaps: seq<int>): (r: real)
    ensures |gaps| == 0 ==> r == 0.0
    // the mean times the number of gaps is their total, in days
    ensures |gaps| > 0 ==> r * (|gaps| as real) * (SecondsPerDay as real) == SumInts(gaps) as real
  {
    if |gaps| == 0 then 0.0
    else
      var days := SumInts(gaps) as real / SecondsPerDay as real;
      var n := |gaps| as real;
      assert days / n * n == days;
      assert days * (SecondsPerDay as real) == SumInts(gaps) as real;
      days / n
  }

  /** `get_recurrence_metrics()`: sorting by a missing column raises (the
      user column is looked up first); the mean of no gaps is `NaN`, which is
      reported as 0. */
  function RecurrenceMetrics(f: Frame): (r: Result<Metrics, AnalyticsError>)
    ensures UserCol !in f.columns ==> r == Failure(MissingColumn(UserCol))
    ensures UserCol in f.columns && TimestampCol !in f.columns ==> r == Failure(MissingColumn(TimestampCol))
    ensures r.Success? <==> UserCol in f.columns && TimestampCol in f.columns
  {
    if UserCol !in f.columns then Failure(MissingColumn(UserCol))
    else if TimestampCol !in f.columns then Failure(MissingColumn(TimestampCol))
    else
      var gaps := AllGaps(f, Distinct(Column(f, UserCol)));
      Success(Metrics(MeanDays(gaps), |Distinct(Days(f))|))
  }

  // ---------------------------------------------------------------------
  // Properties

  /** The gaps of a time-ordered user telescope: they add up to the span
      between the first and the last session. */
  lemma {:induction false} GapsTelescope(s: seq<int>)
    requires |s| > 0
    ensures SumInts(Gaps(s)) == s[|s| - 1] - s[0]
    decreases |s|
  {
    if |s| > 1 {
      GapsTelescope(s[1..]);
    }
  }

  /** A user with `n` sessions has `n - 1` gaps, and they add up to the time
      between their earliest and their latest session. */
  lemma UserSpan(f: Frame, u: Val)
    requires SessionCount(f.rows, u) > 0
    ensures var times := UserTimes(f.rows, u);
            |UserGaps(f, u)| == |times| - 1 &&
            SumInts(UserGaps(f, u)) == MaxOf(times) - MinOf(times)
  {
    var times := UserTimes(f.rows, u);
    var sorted := SortTimes(times);
    assert |sorted| == |multiset(sorted)| == |multiset(times)| == |times|;
    GapsTelescope(sorted);
    SortedEnds(times, sorted);
  }

  /** The ends of a sorted permutation are the minimum and the maximum. */
  lemma SortedEnds(s: seq<int>, r: seq<int>)
    requires |s| > 0 && Sorted(r) && multiset(r) == multiset(s)
    ensures |r| > 0 && r[0] == MinOf(s) && r[|r| - 1] == MaxOf(s)
  {
    assert |r| == |multiset(r)| == |s|;
    assert forall x :: x in r <==> x in s by {
      forall x ensures x in r <==> x in s {
        assert x in r <==> x in multiset(r);
        assert x in s <==> x in multiset(s);
      }
    }
    assert r[0] in r && r[|r| - 1] in r;
    assert MinOf(s) in r && MaxOf(s) in r;
  }

  /** A user's time-ordered gaps are never negative, and neither is their
      sum. */
  lemma UserGapsNonNegative(f: Frame, u: Val)
    ensures forall g :: g in UserGaps(f, u) ==> g >= 0
    ensures SumInts(UserGaps(f, u)) >= 0
  {
    var sorted := SortTimes(UserTimes(f.rows, u));
    var g := Gaps(sorted);
    forall i | 0 <= i < |g| ensures g[i] >= 0 {
      assert sorted[i] <= sorted[i + 1];
    }
    SumNonNegative(g);
  }

  /** A user with `n` sessions has `n - 1` gaps (none without a session). */
  lemma UserGapsCount(f: Frame, u: Val)
    ensures var n := SessionCount(f.rows, u);
            |UserGaps(f, u)| == if n == 0 then 0 else n - 1
  {
    var times := UserTimes(f.rows, u);
    assert |SortTimes(times)| == |multiset(SortTimes(times))| == |times|;
  }

  lemma {:induction false} SumAppend(a: seq<int>, b: seq<int>)
    ensures SumInts(a + b) == SumInts(a) + SumInts(b)
    decreases |a|
  {
    if |a| > 0 {
      SumAppend(a[1..], b);
      assert (a + b)[0] == a[0];
      assert (a + b)[1..] == a[1..] + b;
    } else {
      assert a + b == b;
    }
  }

  lemma {:induction false} SumNonNegative(s: seq<int>)
    requires forall i :: 0 <= i < |s| ==> s[i] >= 0
    ensures SumInts(s) >= 0
    decreases |s|
  {
    if |s| > 0 {
      assert forall i :: 0 <= i < |s[1..]| ==> s[1..][i] == s[i + 1];
      SumNonNegative(s[1..]);
    }
  }

  lemma {:induction false} AllGapsNonNegative(f: Frame, users: seq<Val>)
    ensures SumInts(AllGaps(f, users)) >= 0
    decreases |users|
  {
    if |users| > 0 {
      AllGapsNonNegative(f, users[1..]);
      UserGapsNonNegative(f, users[0]);
      SumAppend(UserGaps(f, users[0]), AllGaps(f, users[1..]));
    }
  }

  /** Every gap of every user is non-negative. */
  lemma {:induction false} AllGapsEach(f: Frame, users: seq<Val>)
    ensures forall g :: g in AllGaps(f, users) ==> g >= 0
    decreases |users|
  {
    if |users| > 0 {
      AllGapsEach(f, users[1..]);
      UserGapsNonNegative(f, users[0]);
    }
  }

  /** The average recurrence is never negative. */
  lemma AverageNonNegative(f: Frame)
    requires RecurrenceMetrics(f).Success?
    ensures RecurrenceMetrics(f).value.avgRecurrenceDays >= 0.0
  {
    var gaps := AllGaps(f, Distinct(Column(f, UserCol)));
    AllGapsNonNegative(f, Distinct(Column(f, UserCol)));
    MeanNonNegative(gaps);
  }

  lemma MeanNonNegative(gaps: seq<int>)
    requires SumInts(gaps) >= 0
    ensures MeanDays(gaps) >= 0.0
  {
    if |gaps| > 0 {
      var x := SumInts(gaps) as real / SecondsPerDay as real;
      assert x >= 0.0;
    }
  }

  /** There is no gap at all exactly when no user has two sessions; the
      average is then reported as 0. */
  lemma {:induction false} NoGapsIff(f: Frame, users: seq<Val>)
    ensures |AllGaps(f, users)| == 0 <==> forall u :: u in users ==> SessionCount(f.rows, u) <= 1
    decreases |users|
  {
    if |users| > 0 {
      NoGapsIff(f, users[1..]);
      UserGapsCount(f, users[0]);
      assert forall u :: u in users <==> u == users[0] || u in users[1..];
    }
  }

  /** The average is 0 when no user came back. */
  lemma NoReturnNoRecurrence(f: Frame)
    requires RecurrenceMetrics(f).Success?
    requires forall i :: 0 <= i < |f.rows| && Get(f.rows[i], UserCol).Some? ==> SessionCount(f.rows, Get(f.rows[i], UserCol).value) <= 1
    ensures RecurrenceMetrics(f).value.avgRecurrenceDays == 0.0
  {
    var users := Distinct(Column(f, UserCol));
    forall u | u in users ensures SessionCount(f.rows, u) <= 1 {
      var ks := Column(f, UserCol);
      var i :| 0 <= i < |ks| && ks[i] == Some(u);
    }
    NoGapsIff(f, users);
  }

  /** The number of unique dates is the number of distinct calendar days on
      which some session happened. */
  lemma UniqueDates(f: Frame)
    requires RecurrenceMetrics(f).Success?
    ensures RecurrenceMetrics(f).value.uniqueDates ==
              |set i | 0 <= i < |f.rows| && TimeOf(f.rows[i]).Some? :: TimeOf(f.rows[i]).value / SecondsPerDay|
  {
    var ds := Days(f);
    DistinctCard(ds);
    assert (set i | 0 <= i < |ds| && ds[i].Some? :: ds[i].value) ==
           (set i | 0 <= i < |f.rows| && TimeOf(f.rows[i]).Some? :: TimeOf(f.rows[i]).value / SecondsPerDay);
  }

  // ---------------------------------------------------------------------
  // How many gaps there are

  /** The user of a row that has a valid session time, and `None` for any
      other row. */
  function TimedUser(row: Row): (r: Option<Val>)
    ensures r.Some? <==> Get(row, UserCol).Some? && TimeOf(row).Some?
    ensures r.Some? ==> r == Get(row, UserCol)
    ensures forall u :: r == Some(u) <==> SessionOf(row, u)
  {
    if TimeOf(row).Some? then Get(row, UserCol) else None
  }

  function TimedUsers(rows: seq<Row>): (r: seq<Option<Val>>)
    ensures |r| == |rows| && forall i :: 0 <= i < |rows| ==> r[i] == TimedUser(rows[i])
  {
    seq(|rows|, i requires 0 <= i < |rows| => TimedUser(rows[i]))
  }

  /** The number of rows with a user and a valid session time. */
  function TimedRows(rows: seq<Row>): nat {
    if |rows| == 0 then 0 else (if TimedUser(rows[0]).Some? then 1 else 0) + TimedRows(rows[1..])
  }

  /** The total number of sessions of the given users. */
  function SessionTotal(rows: seq<Row>, users: seq<Val>): nat {
    if |users| == 0 then 0 else SessionCount(rows, users[0]) + SessionTotal(rows, users[1..])
  }

  /** How many of the given users a single row is a session of. */
  function Hits(row: Row, users: seq<Val>): nat {
    if |users| == 0 then 0 else (if SessionOf(row, users[0]) then 1 else 0) + Hits(row, users[1..])
  }

  /** The given users that have at least one session, in order. */
  function Active(rows: seq<Row>, users: seq<Val>): (r: seq<Val>)
    ensures forall u :: u in r <==> u in users && SessionCount(rows, u) > 0
  {
    if |users| == 0 then []
    else
      assert forall u :: u in users <==> u == users[0] || u in users[1..];
      (if SessionCount(rows, users[0]) > 0 then [users[0]] else []) + Active(rows, users[1..])
  }

  /** Each user with sessions contributes one gap fewer than sessions. */
  lemma {:induction false} GapsPlusActive(f: Frame, users: seq<Val>)
    ensures |AllGaps(f, users)| + |Active(f.rows, users)| == SessionTotal(f.rows, users)
    decreases |users|
  {
    if |users| > 0 {
      GapsPlusActive(f, users[1..]);
      UserGapsCount(f, users[0]);
    }
  }

  lemma {:induction false} SessionTotalCons(rows: seq<Row>, users: seq<Val>)
    requires |rows| > 0
    ensures SessionTotal(rows, users) == Hits(rows[0], users) + SessionTotal(rows[1..], users)
    decreases |users|
  {
    if |users| > 0 {
      SessionTotalCons(rows, users[1..]);
    }
  }

  /** Among duplicate-free users, a row is a session of at most its own
      user. */
  lemma {:induction false} HitsOne(row: Row, users: seq<Val>)
    requires NoDup(users)
    ensures Hits(row, users) == if TimedUser(row).Some? && TimedUser(row).value in users then 1 else 0
    decreases |users|
  {
    if |users| > 0 {
      var rest := users[1..];
      assert NoDup(rest) by {
        forall i, j | 0 <= i < j < |rest| ensures rest[i] != rest[j] {
          assert rest[i] == users[i + 1] && rest[j] == users[j + 1];
        }
      }
      HitsOne(row, rest);
      assert users[0] !in rest by {
        forall j | 0 <= j < |rest| ensures rest[j] != users[0] {
          assert rest[j] == users[j + 1];
        }
      }
      assert forall u :: u in users <==> u == users[0] || u in rest;
    }
  }

  /** The sessions of duplicate-free users that cover every timed row are
      exactly the timed rows. */
  lemma {:induction false} SessionTotalRows(rows: seq<Row>, users: seq<Val>)
    requires NoDup(users)
    requires forall i :: 0 <= i < |rows| && TimedUser(rows[i]).Some? ==> TimedUser(rows[i]).value in users
    ensures SessionTotal(rows, users) == TimedRows(rows)
    decreases |rows|
  {
    if |rows| == 0 {
      SessionTotalEmpty(rows, users);
    } else {
      SessionTotalCons(rows, users);
      HitsOne(rows[0], users);
      SessionTotalRows(rows[1..], users);
    }
  }

  lemma {:induction false} SessionTotalEmpty(rows: seq<Row>, users: seq<Val>)
    requires |rows| == 0
    ensures SessionTotal(rows, users) == 0
    decreases |users|
  {
    if |users| > 0 {
      SessionTotalEmpty(rows, users[1..]);
    }
  }

  /** A user has a session exactly when some row is a timed row of theirs. */
  lemma {:induction false} SessionCountPositive(rows: seq<Row>, u: Val)
    ensures SessionCount(rows, u) > 0 <==> Some(u) in TimedUsers(rows)
    decreases |rows|
  {
    if |rows| > 0 {
      SessionCountPositive(rows[1..], u);
      assert TimedUsers(rows) == [TimedUser(rows[0])] + TimedUsers(rows[1..]);
    }
  }

  /** Filtering duplicate-free users keeps them duplicate-free. */
  lemma {:induction false} ActiveNoDup(rows: seq<Row>, users: seq<Val>)
    requires NoDup(users)
    ensures NoDup(Active(rows, users))
    decreases |users|
  {
    if |users| > 0 {
      var rest := users[1..];
      assert NoDup(rest) by {
        forall i, j | 0 <= i < j < |rest| ensures rest[i] != rest[j] {
          assert rest[i] == users[i + 1] && rest[j] == users[j + 1];
        }
      }
      ActiveNoDup(rows, rest);
      assert users[0] !in rest by {
        forall j | 0 <= j < |rest| ensures rest[j] != users[0] {
          assert rest[j] == users[j + 1];
        }
      }
      var a := Active(rows, users);
      var tail := Active(rows, rest);
      if SessionCount(rows, users[0]) > 0 {
        assert a == [users[0]] + tail;
        forall i, j | 0 <= i < j < |a| ensures a[i] != a[j] {
          assert a[j] == tail[j - 1];
          if i > 0 {
            assert a[i] == tail[i - 1];
          } else {
            assert a[j] in tail;
          }
        }
      } else {
        assert a == tail;
      }
    }
  }

  /** The number of gaps: every timed row of a user is a session, and each
      user with sessions has one gap fewer than sessions, so there are as
      many gaps as timed rows minus the users that have one. */
  lemma GapCount(f: Frame)
    ensures |AllGaps(f, Distinct(Column(f, UserCol)))| == TimedRows(f.rows) - |Distinct(TimedUsers(f.rows))|
  {
    var users := Distinct(Column(f, UserCol));
    var timed := Distinct(TimedUsers(f.rows));
    forall i | 0 <= i < |f.rows| && TimedUser(f.rows[i]).Some? ensures TimedUser(f.rows[i]).value in users {
      assert Column(f, UserCol)[i] == TimedUser(f.rows[i]);
    }
    GapsPlusActive(f, users);
    SessionTotalRows(f.rows, users);
    var active := Active(f.rows, users);
    ActiveNoDup(f.rows, users);
    forall u ensures u in active <==> u in timed {
      SessionCountPositive(f.rows, u);
      if Some(u) in TimedUsers(f.rows) {
        var i :| 0 <= i < |f.rows| && TimedUsers(f.rows)[i] == Some(u);
      }
    }
    NoDupSubset(active, timed);
    NoDupSubset(timed, active);
  }
}
