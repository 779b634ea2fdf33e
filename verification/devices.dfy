/** The omnichannel ratio (`get_device_ratio`): the number of distinct
    devices per user, averaged over the users. */
module Devices {
  import opened Wrappers
  import opened Events
  import opened Grouping

  /** The device of each event of user `u`, and nothing for other users'
      events. */
  function DevicesOf(f: Frame, u: Val): (r: seq<Option<Val>>)
    ensures |r| == |f.rows|
    ensures forall i :: 0 <= i < |f.rows| ==>
              r[i] == (if Get(f.rows[i], UserCol) == Some(u) then Get(f.rows[i], DeviceCol) else None)
  {
    seq(|f.rows|, i requires 0 <= i < |f.rows| =>
      if Get(f.rows[i], UserCol) == Some(u) then Get(f.rows[i], DeviceCol) else None)
  }

  /** `nunique()` of one user's devices: missing devices are not counted. */
  function DeviceCount(f: Frame, u: Val): (r: nat)
    ensures r == 0 <==> forall i :: 0 <= i < |f.rows| ==>
              !(Get(f.rows[i], UserCol) == Some(u) && Get(f.rows[i], DeviceCol).Some?)
  {
    var ds := DevicesOf(f, u);
    var r := Distinct(ds);
    assert |r| > 0 ==> r[0] in r;
    assert (exists i :: 0 <= i < |ds| && ds[i].Some?) ==> |r| > 0 by {
      if i :| 0 <= i < |ds| && ds[i].Some? {
        assert Some(ds[i].value) in ds;
      }
    }
    |r|
  }

  /** The per-user counts of the given users. */
  function Counts(f: Frame, users: seq<Val>): (r: seq<nat>)
    ensures |r| == |users| && forall k :: 0 <= k < |users| ==> r[k] == DeviceCount(f, users[k])
  {
    seq(|users|, k requires 0 <= k < |users| => DeviceCount(f, users[k]))
  }

  function SumNat(xs: seq<nat>): nat {
    if |xs| == 0 then 0 else xs[0] + SumNat(xs[1..])
  }

  /** `get_device_ratio()`: grouping by a missing column or selecting a
      missing one raises; the mean over no users is `NaN`, here `None`. */
  function DeviceRatio(f: Frame): (r: Result<Option<real>, AnalyticsError>)
    ensures UserCol !in f.columns ==> r == Failure(MissingColumn(UserCol))
    ensures UserCol in f.columns && DeviceCol !in f.columns ==> r == Failure(MissingColumn(DeviceCol))
    ensures r.Success? <==> UserCol in f.columns && DeviceCol in f.columns
    ensures r.Success? ==> (r.value.None? <==> forall i :: 0 <= i < |f.rows| ==> Get(f.rows[i], UserCol).None?)
  {
    if UserCol !in f.columns then Failure(MissingColumn(UserCol))
    else if DeviceCol !in f.columns then Failure(MissingColumn(DeviceCol))
    else
      var users := Distinct(Column(f, UserCol));
      assert |users| == 0 <==> forall i :: 0 <= i < |f.rows| ==> Get(f.rows[i], UserCol).None? by {
        if |users| > 0 {
          assert Some(users[0]) in Column(f, UserCol);
        } else {
          forall i | 0 <= i < |f.rows| ensures Get(f.rows[i], UserCol).None? {
            assert Column(f, UserCol)[i] == Get(f.rows[i], UserCol);
          }
        }
      }
      if |users| == 0 then Success(None)
      else Success(Some(SumNat(Counts(f, users)) as real / |users| as real))
  }

  // ---------------------------------------------------------------------
  // Properties

  /** A user's count is the number of distinct devices seen on their
      events. */
  lemma DeviceCountIsSet(f: Frame, u: Val)
    ensures DeviceCount(f, u) ==
              |set i | 0 <= i < |f.rows| && Get(f.rows[i], UserCol) == Some(u) && Get(f.rows[i], DeviceCol).Some?
                     :: Get(f.rows[i], DeviceCol).value|
  {
    var ds := DevicesOf(f, u);
    DistinctCard(ds);
    assert (set i | 0 <= i < |ds| && ds[i].Some? :: ds[i].value) ==
           (set i | 0 <= i < |f.rows| && Get(f.rows[i], UserCol) == Some(u) && Get(f.rows[i], DeviceCol).Some?
                  :: Get(f.rows[i], DeviceCol).value);
  }

  /** No user has more devices than the whole frame. */
  lemma DeviceCountBound(f: Frame, u: Val)
    ensures DeviceCount(f, u) <= |Distinct(Column(f, DeviceCol))|
  {
    var mine := Distinct(DevicesOf(f, u));
    var all := Distinct(Column(f, DeviceCol));
    forall d | d in mine ensures d in all {
      var i :| 0 <= i < |f.rows| && DevicesOf(f, u)[i] == Some(d);
      assert Column(f, DeviceCol)[i] == Some(d);
    }
    NoDupSubset(mine, all);
  }

  /** A user who has a device on some event counts at least one. */
  lemma DeviceCountPositive(f: Frame, u: Val, i: nat)
    requires i < |f.rows| && Get(f.rows[i], UserCol) == Some(u) && Get(f.rows[i], DeviceCol).Some?
    ensures DeviceCount(f, u) >= 1
  {
    assert DevicesOf(f, u)[i] == Get(f.rows[i], DeviceCol);
    assert Get(f.rows[i], DeviceCol).value in Distinct(DevicesOf(f, u));
  }

  lemma {:induction false} SumBounds(xs: seq<nat>, lo: nat, hi: nat)
    requires forall k :: 0 <= k < |xs| ==> lo <= xs[k] <= hi
    ensures |xs| * lo <= SumNat(xs) <= |xs| * hi
    decreases |xs|
  {
    if |xs| > 0 {
      assert forall k :: 0 <= k < |xs| - 1 ==> xs[1..][k] == xs[k + 1];
      SumBounds(xs[1..], lo, hi);
      var n := |xs|;
      assert n * lo == (n - 1) * lo + lo;
      assert n * hi == (n - 1) * hi + hi;
    }
  }

  /** Every user's count is at most the number of devices in the frame. */
  lemma CountsAtMost(f: Frame, users: seq<Val>)
    ensures forall k :: 0 <= k < |users| ==> Counts(f, users)[k] <= |Distinct(Column(f, DeviceCol))|
  {
    forall k | 0 <= k < |users| ensures DeviceCount(f, users[k]) <= |Distinct(Column(f, DeviceCol))| {
      DeviceCountBound(f, users[k]);
    }
  }

  /** When every event of a known user has a device, every user counts at
      least one. */
  lemma CountsAtLeastOne(f: Frame, users: seq<Val>)
    requires forall k :: 0 <= k < |users| ==> Some(users[k]) in Column(f, UserCol)
    requires forall i :: 0 <= i < |f.rows| && Get(f.rows[i], UserCol).Some? ==> Get(f.rows[i], DeviceCol).Some?
    ensures forall k :: 0 <= k < |users| ==> Counts(f, users)[k] >= 1
  {
    forall k | 0 <= k < |users| ensures DeviceCount(f, users[k]) >= 1 {
      var i :| 0 <= i < |Column(f, UserCol)| && Column(f, UserCol)[i] == Some(users[k]);
      DeviceCountPositive(f, users[k], i);
    }
  }

  /** The ratio lies between 0 and the number of distinct devices in the
      frame. */
  lemma RatioBounds(f: Frame)
    requires DeviceRatio(f).Success? && DeviceRatio(f).value.Some?
    ensures 0.0 <= DeviceRatio(f).value.value <= |Distinct(Column(f, DeviceCol))| as real
  {
    var users := Distinct(Column(f, UserCol));
    var counts := Counts(f, users);
    var all := |Distinct(Column(f, DeviceCol))|;
    CountsAtMost(f, users);
    SumBounds(counts, 0, all);
    RatioBetween(SumNat(counts), |users|, 0, all);
  }

  /** The ratio is at least 1 when every event of a known user names a
      device. */
  lemma RatioAtLeastOne(f: Frame)
    requires DeviceRatio(f).Success? && DeviceRatio(f).value.Some?
    requires forall i :: 0 <= i < |f.rows| && Get(f.rows[i], UserCol).Some? ==> Get(f.rows[i], DeviceCol).Some?
    ensures DeviceRatio(f).value.value >= 1.0
  {
    var users := Distinct(Column(f, UserCol));
    var counts := Counts(f, users);
    var all := |Distinct(Column(f, DeviceCol))|;
    CountsAtMost(f, users);
    CountsAtLeastOne(f, users);
    SumBounds(counts, 1, all);
    RatioBetween(SumNat(counts), |users|, 1, all);
  }

  /** A total between `n * lo` and `n * hi` averages between `lo` and `hi`. */
  lemma RatioBetween(total: nat, n: nat, lo: nat, hi: nat)
    requires n > 0 && n * lo <= total <= n * hi
    ensures lo as real <= total as real / n as real <= hi as real
  {
    assert (n * lo) as real == n as real * lo as real;
    assert (n * hi) as real == n as real * hi as real;
  }
}
