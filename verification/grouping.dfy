/** Group-by over a key series with missing keys: the distinct keys in order
    of first appearance, per-key sums and counts (rows whose key is missing
    belong to no group, as with pandas' default `dropna=True`), and the fact
    that the groups partition the keyed rows. */
module Grouping {
  import opened Wrappers

  predicate NoDup<K(==)>(s: seq<K>) {
    forall i, j :: 0 <= i < j < |s| ==> s[i] != s[j]
  }

  /** The distinct present keys, in order of first appearance. */
  function Distinct<K(==,!new)>(ks: seq<Option<K>>): (r: seq<K>)
    ensures NoDup(r)
    ensures forall k :: k in r <==> Some(k) in ks
    decreases |ks|
  {
    if |ks| == 0 then []
    else
      var front := ks[..|ks| - 1];
      var last := ks[|ks| - 1];
      var p := Distinct(front);
      assert ks == front + [last];
      if last.Some? && last.value !in p then p + [last.value] else p
  }

  /** Sum of the weights of the rows whose key is `k` (the reference
      definition of a group total). */
  function SumOf<K(==)>(ks: seq<Option<K>>, ws: seq<real>, k: K): real
    requires |ks| == |ws|
    decreases |ks|
  {
    if |ks| == 0 then 0.0
    else SumOf(ks[..|ks| - 1], ws[..|ws| - 1], k) + (if ks[|ks| - 1] == Some(k) then ws[|ws| - 1] else 0.0)
  }

  /** Sum of the weights of all rows with a key. */
  function KeyedSum<K(==)>(ks: seq<Option<K>>, ws: seq<real>): real
    requires |ks| == |ws|
    decreases |ks|
  {
    if |ks| == 0 then 0.0
    else KeyedSum(ks[..|ks| - 1], ws[..|ws| - 1]) + (if ks[|ks| - 1].Some? then ws[|ws| - 1] else 0.0)
  }

  /** Sum of the group totals of the given keys. */
  function SumOver<K(==)>(keys: seq<K>, ks: seq<Option<K>>, ws: seq<real>): real
    requires |ks| == |ws|
    decreases |keys|
  {
    if |keys| == 0 then 0.0 else SumOf(ks, ws, keys[0]) + SumOver(keys[1..], ks, ws)
  }

  /** Weight one per row: sums become counts. */
  function Ones(n: nat): (r: seq<real>)
    ensures |r| == n && forall i :: 0 <= i < n ==> r[i] == 1.0
  {
    seq(n, i => 1.0)
  }

  function CountOf<K(==)>(ks: seq<Option<K>>, k: K): real {
    SumOf(ks, Ones(|ks|), k)
  }

  function KeyedCount<K(==)>(ks: seq<Option<K>>): real {
    KeyedSum(ks, Ones(|ks|))
  }

  /** Appending a row changes the sum over a duplicate-free key list by the
      row's weight if its key is in the list, and not at all otherwise. */
  lemma {:induction false} SumOverSnoc<K>(keys: seq<K>, ks: seq<Option<K>>, ws: seq<real>, x: Option<K>, w: real)
    requires |ks| == |ws| && NoDup(keys)
    ensures SumOver(keys, ks + [x], ws + [w]) ==
              SumOver(keys, ks, ws) + (if x.Some? && x.value in keys then w else 0.0)
    decreases |keys|
  {
    if |keys| > 0 {
      assert (ks + [x])[..|ks|] == ks;
      assert (ws + [w])[..|ws|] == ws;
      assert NoDup(keys[1..]) by {
        forall i, j | 0 <= i < j < |keys[1..]| ensures keys[1..][i] != keys[1..][j] {
          assert keys[1..][i] == keys[i + 1] && keys[1..][j] == keys[j + 1];
        }
      }
      SumOverSnoc(keys[1..], ks, ws, x, w);
      if x.Some? && x.value == keys[0] {
        assert x.value !in keys[1..] by {
          forall j | 0 <= j < |keys[1..]| ensures keys[1..][j] != keys[0] {
            assert keys[1..][j] == keys[j + 1];
          }
        }
      } else if x.Some? && x.value in keys {
        var j :| 0 <= j < |keys| && keys[j] == x.value;
        assert keys[1..][j - 1] == x.value;
      }
    }
  }

  /** The groups partition the keyed rows: summing the group totals over the
      distinct keys gives the total weight of the rows that have a key. */
  lemma {:induction false} PartitionSum<K>(keys: seq<K>, ks: seq<Option<K>>, ws: seq<real>)
    requires |ks| == |ws| && NoDup(keys)
    requires forall i :: 0 <= i < |ks| && ks[i].Some? ==> ks[i].value in keys
    ensures SumOver(keys, ks, ws) == KeyedSum(ks, ws)
    decreases |ks|
  {
    if |ks| == 0 {
      SumOverEmpty(keys, ks, ws);
    } else {
      var n := |ks|;
      var front := ks[..n - 1];
      PartitionSum(keys, front, ws[..n - 1]);
      SumOverSnoc(keys, front, ws[..n - 1], ks[n - 1], ws[n - 1]);
      assert front + [ks[n - 1]] == ks;
      assert ws[..n - 1] + [ws[n - 1]] == ws;
    }
  }

  lemma {:induction false} SumOverEmpty<K>(keys: seq<K>, ks: seq<Option<K>>, ws: seq<real>)
    requires |ks| == 0 && |ws| == 0
    ensures SumOver(keys, ks, ws) == 0.0
    decreases |keys|
  {
    if |keys| > 0 {
      SumOverEmpty(keys[1..], ks, ws);
    }
  }

  /** A group total of non-negative weights is non-negative. */
  lemma {:induction false} SumOfNonNegative<K>(ks: seq<Option<K>>, ws: seq<real>, k: K)
    requires |ks| == |ws| && forall i :: 0 <= i < |ws| ==> ws[i] >= 0.0
    ensures SumOf(ks, ws, k) >= 0.0
    decreases |ks|
  {
    if |ks| > 0 {
      SumOfNonNegative(ks[..|ks| - 1], ws[..|ws| - 1], k);
    }
  }

  /** A key that occurs has a count of at least one. */
  lemma {:induction false} CountOfPositive<K>(ks: seq<Option<K>>, k: K)
    requires Some(k) in ks
    ensures CountOf(ks, k) >= 1.0
    decreases |ks|
  {
    var n := |ks|;
    var front := ks[..n - 1];
    assert Ones(n)[..n - 1] == Ones(n - 1);
    if ks[n - 1] == Some(k) {
      SumOfNonNegative(front, Ones(n - 1), k);
    } else {
      assert ks == front + [ks[n - 1]];
      CountOfPositive(front, k);
    }
  }

  /** The keyed total of non-negative weights is non-negative. */
  lemma {:induction false} KeyedSumNonNegative<K>(ks: seq<Option<K>>, ws: seq<real>)
    requires |ks| == |ws| && forall i :: 0 <= i < |ws| ==> ws[i] >= 0.0
    ensures KeyedSum(ks, ws) >= 0.0
    decreases |ks|
  {
    if |ks| > 0 {
      KeyedSumNonNegative(ks[..|ks| - 1], ws[..|ws| - 1]);
    }
  }

  /** A series with at least one present key counts at least one keyed row. */
  lemma {:induction false} KeyedCountPositive<K>(ks: seq<Option<K>>, i: nat)
    requires i < |ks| && ks[i].Some?
    ensures KeyedCount(ks) >= 1.0
    decreases |ks|
  {
    var n := |ks|;
    var front := ks[..n - 1];
    assert Ones(n)[..n - 1] == Ones(n - 1);
    if i == n - 1 {
      KeyedSumNonNegative(front, Ones(n - 1));
    } else {
      KeyedCountPositive(front, i);
    }
  }

  /** Distinct elements: as many as the set they form. */
  lemma {:induction false} NoDupCard<K>(s: seq<K>)
    requires NoDup(s)
    ensures |set x | x in s| == |s|
    decreases |s|
  {
    if |s| > 0 {
      var front := s[..|s| - 1];
      assert NoDup(front) by {
        forall i, j | 0 <= i < j < |front| ensures front[i] != front[j] {
          assert front[i] == s[i] && front[j] == s[j];
        }
      }
      NoDupCard(front);
      assert s == front + [s[|s| - 1]];
      assert s[|s| - 1] !in front;
      assert (set x | x in s) == (set x | x in front) + {s[|s| - 1]};
    }
  }

  /** The distinct present keys are as many as the set of present values. */
  lemma DistinctCard<K(!new)>(ks: seq<Option<K>>)
    ensures |Distinct(ks)| == |set i | 0 <= i < |ks| && ks[i].Some? :: ks[i].value|
  {
    var ds := Distinct(ks);
    NoDupCard(ds);
    var a := set x | x in ds;
    var b := set i | 0 <= i < |ks| && ks[i].Some? :: ks[i].value;
    forall d | d in b ensures d in a {
      var i :| 0 <= i < |ks| && ks[i].Some? && ks[i].value == d;
    }
    forall d | d in a ensures d in b {
      var i :| 0 <= i < |ks| && ks[i] == Some(d);
    }
    assert a == b;
  }

  /** A duplicate-free sequence inside another one is no longer. */
  lemma NoDupSubset<K>(a: seq<K>, b: seq<K>)
    requires NoDup(a) && NoDup(b) && forall x :: x in a ==> x in b
    ensures |a| <= |b|
  {
    NoDupCard(a);
    NoDupCard(b);
    var sa, sb := set x | x in a, set x | x in b;
    assert sb == sa + (sb - sa);
    assert sa * (sb - sa) == {};
  }
}
