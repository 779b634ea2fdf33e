/** The content ranking (`get_top_content_ranking`): total watch time per
    title (or per genre when the frame has no title column), largest first. */
module Ranking {
  import opened Wrappers
  import opened Events
  import opened Grouping

  /** Column names that hold a title, in the order they are tried. */
  const TitleCandidates: seq<string> := ["title", "titulo", "content_name", "nombre_contenido"]

  /** The grouping column: the first title candidate the frame has, else
      `genre`. */
  function RankingKey(columns: seq<string>): (k: string)
    ensures k == GenreCol || k in TitleCandidates
    ensures k != GenreCol ==> k in columns
    ensures k == GenreCol <==> forall c :: c in TitleCandidates ==> c !in columns
    ensures k != GenreCol ==>
              exists j :: 0 <= j < |TitleCandidates| && TitleCandidates[j] == k &&
                (forall i :: 0 <= i < j ==> TitleCandidates[i] !in columns)
  {
    FirstCandidate(TitleCandidates, columns, GenreCol)
  }

  /** The first of `candidates` that is among `columns`, else `fallback`. */
  function FirstCandidate(candidates: seq<string>, columns: seq<string>, fallback: string): (k: string)
    requires fallback !in candidates
    ensures k == fallback || k in candidates
    ensures k != fallback ==> k in columns
    ensures k == fallback <==> forall c :: c in candidates ==> c !in columns
    ensures k != fallback ==>
              exists j :: 0 <= j < |candidates| && candidates[j] == k &&
                (forall i :: 0 <= i < j ==> candidates[i] !in columns)
  {
    if |candidates| == 0 then fallback
    else if candidates[0] in columns then candidates[0]
    else
      var k := FirstCandidate(candidates[1..], columns, fallback);
      assert k != fallback ==>
               exists j :: 0 <= j < |candidates| && candidates[j] == k &&
                 (forall i :: 0 <= i < j ==> candidates[i] !in columns) by {
        if k != fallback {
          var j :| 0 <= j < |candidates[1..]| && candidates[1..][j] == k
              && forall i :: 0 <= i < j ==> candidates[1..][i] !in columns;
          assert candidates[j + 1] == k;
          forall i | 0 <= i < j + 1 ensures candidates[i] !in columns {
            if i > 0 { assert candidates[i] == candidates[1..][i - 1]; }
          }
        }
      }
      k
  }

  /** One line of the ranking: a key and its total watch time. */
  datatype Entry = Entry(key: Val, total: real)

  function Keys(s: seq<Entry>): (r: seq<Val>)
    ensures |r| == |s| && forall i :: 0 <= i < |s| ==> r[i] == s[i].key
  {
    seq(|s|, i requires 0 <= i < |s| => s[i].key)
  }

  function SumTotals(s: seq<Entry>): real {
    if |s| == 0 then 0.0 else s[0].total + SumTotals(s[1..])
  }

  predicate SortedDesc(s: seq<Entry>) {
    forall i, j :: 0 <= i < j < |s| ==> s[i].total >= s[j].total
  }

  predicate UniqueKeys(s: seq<Entry>) {
    forall i, j :: 0 <= i < j < |s| ==> s[i].key != s[j].key
  }

  // ---------------------------------------------------------------------
  // groupby(target)['watch_time_minutes'].sum(), in one pass

  /** Add weight `w` to the group of `k`, opening a new group at the end if
      there is none. */
  function AddTo(acc: seq<Entry>, k: Val, w: real): (r: seq<Entry>)
    requires UniqueKeys(acc)
    ensures k in Keys(acc) ==> |r| == |acc| && forall i :: 0 <= i < |acc| ==>
              r[i].key == acc[i].key && r[i].total == acc[i].total + (if acc[i].key == k then w else 0.0)
    ensures k !in Keys(acc) ==> r == acc + [Entry(k, w)]
  {
    if |acc| == 0 then [Entry(k, w)]
    else if acc[0].key == k then [Entry(k, acc[0].total + w)] + acc[1..]
    else
      assert k in Keys(acc) <==> k in Keys(acc[1..]) by {
        assert Keys(acc) == [acc[0].key] + Keys(acc[1..]);
      }
      [acc[0]] + AddTo(acc[1..], k, w)
  }

  /** The groups of `ks` weighted by `ws` (see `Accumulate`). */
  ghost predicate Groups(r: seq<Entry>, ks: seq<Option<Val>>, ws: seq<real>)
    requires |ks| == |ws|
  {
    Keys(r) == Distinct(ks) && forall i :: 0 <= i < |r| ==> r[i].total == SumOf(ks, ws, r[i].key)
  }

  /** One row folded into the accumulator; a row without a key is dropped. */
  function Step(acc: seq<Entry>, x: Option<Val>, w: real): seq<Entry>
    requires UniqueKeys(acc)
  {
    if x.Some? then AddTo(acc, x.value, w) else acc
  }

  /** One more row keeps the accumulator equal to the groups. */
  lemma AddRow(acc: seq<Entry>, ks: seq<Option<Val>>, ws: seq<real>, x: Option<Val>, w: real)
    requires |ks| == |ws| && Groups(acc, ks, ws)
    ensures UniqueKeys(acc)
    ensures Groups(Step(acc, x, w), ks + [x], ws + [w])
  {
    var ks' := ks + [x];
    var ws' := ws + [w];
    assert ks'[..|ks|] == ks && ws'[..|ws|] == ws;
    assert Distinct(ks') == (if x.Some? && x.value !in Distinct(ks) then Distinct(ks) + [x.value] else Distinct(ks));
    assert forall v :: SumOf(ks', ws', v) == SumOf(ks, ws, v) + (if x == Some(v) then w else 0.0);
    if x.Some? {
      var r := AddTo(acc, x.value, w);
      if x.value !in Keys(acc) {
        assert Keys(r) == Keys(acc) + [x.value];
        assert r[|acc|] == Entry(x.value, w);
        assert SumOf(ks, ws, x.value) == 0.0 by {
          SumOfAbsent(ks, ws, x.value);
        }
      }
    }
  }

  /** A key that does not occur has a zero total. */
  lemma {:induction false} SumOfAbsent(ks: seq<Option<Val>>, ws: seq<real>, k: Val)
    requires |ks| == |ws| && Some(k) !in ks
    ensures SumOf(ks, ws, k) == 0.0
    decreases |ks|
  {
    if |ks| > 0 {
      assert ks == ks[..|ks| - 1] + [ks[|ks| - 1]];
      SumOfAbsent(ks[..|ks| - 1], ws[..|ws| - 1], k);
    }
  }

  /** `groupby(key)[weight].sum()` in one pass: one entry per distinct
      present key, in order of first appearance, holding the sum of the
      weights of that key's rows. */
  function Accumulate(ks: seq<Option<Val>>, ws: seq<real>): (r: seq<Entry>)
    requires |ks| == |ws|
    ensures Keys(r) == Distinct(ks)
    ensures forall i :: 0 <= i < |r| ==> r[i].total == SumOf(ks, ws, r[i].key)
    decreases |ks|
  {
    if |ks| == 0 then []
    else
      var n := |ks|;
      var acc := Accumulate(ks[..n - 1], ws[..n - 1]);
      AddRow(acc, ks[..n - 1], ws[..n - 1], ks[n - 1], ws[n - 1]);
      assert ks[..n - 1] + [ks[n - 1]] == ks && ws[..n - 1] + [ws[n - 1]] == ws;
      Step(acc, ks[n - 1], ws[n - 1])
  }

  // ---------------------------------------------------------------------
  // sort_values(ascending=False)

  function Insert(e: Entry, s: seq<Entry>): (r: seq<Entry>)
    requires SortedDesc(s)
    ensures SortedDesc(r)
    ensures multiset(r) == multiset(s) + multiset{e}
    ensures r[0] == e || (|s| > 0 && r[0] == s[0])
  {
    if |s| == 0 || e.total >= s[0].total then [e] + s
    else
      var t := Insert(e, s[1..]);
      assert s == [s[0]] + s[1..];
      [s[0]] + t
  }

  /** Largest total first; the order among equal totals is not specified. */
  function SortDesc(s: seq<Entry>): (r: seq<Entry>)
    ensures SortedDesc(r)
    ensures multiset(r) == multiset(s)
  {
    if |s| == 0 then []
    else
      assert s == [s[0]] + s[1..];
      Insert(s[0], SortDesc(s[1..]))
  }

  /** Sorting neither adds nor drops an entry. */
  lemma SortDescMembers(s: seq<Entry>)
    ensures forall x :: x in SortDesc(s) <==> x in s
  {
    var r := SortDesc(s);
    forall x ensures x in r <==> x in s {
      assert x in r <==> x in multiset(r);
      assert x in s <==> x in multiset(s);
    }
  }

  /** Sorting keeps the sum of the totals. */
  lemma {:induction false} SortDescSum(s: seq<Entry>)
    ensures SumTotals(SortDesc(s)) == SumTotals(s)
  {
    if |s| > 0 {
      SortDescSum(s[1..]);
      InsertSum(s[0], SortDesc(s[1..]));
    }
  }

  lemma {:induction false} InsertSum(e: Entry, s: seq<Entry>)
    requires SortedDesc(s)
    ensures SumTotals(Insert(e, s)) == e.total + SumTotals(s)
  {
    if |s| > 0 && e.total < s[0].total {
      InsertSum(e, s[1..]);
      var t := Insert(e, s[1..]);
      assert ([s[0]] + t)[1..] == t;
    }
  }

  /** Sorting keeps keys unique. */
  lemma SortDescUnique(s: seq<Entry>)
    requires UniqueKeys(s)
    ensures UniqueKeys(SortDesc(s))
  {
    var r := SortDesc(s);
    SortDescMembers(s);
    forall i, j | 0 <= i < j < |r| ensures r[i].key != r[j].key {
      if r[i] == r[j] {
        MultisetTwice(r, i, j);
        SeqTwice(s, r[i]);
      } else {
        assert r[i] in s && r[j] in s;
      }
    }
  }

  /** An element at two positions occurs at least twice. */
  lemma {:induction false} MultisetTwice(r: seq<Entry>, i: nat, j: nat)
    requires 0 <= i < j < |r| && r[i] == r[j]
    ensures multiset(r)[r[i]] >= 2
  {
    assert r == r[..j] + [r[j]] + r[j + 1..];
    assert r[i] in r[..j];
    assert multiset(r) == multiset(r[..j]) + multiset{r[j]} + multiset(r[j + 1..]);
  }

  /** With unique keys, no entry occurs twice. */
  lemma {:induction false} SeqTwice(s: seq<Entry>, x: Entry)
    requires UniqueKeys(s)
    ensures multiset(s)[x] <= 1
    decreases |s|
  {
    if |s| > 0 {
      assert s == [s[0]] + s[1..];
      assert multiset(s) == multiset{s[0]} + multiset(s[1..]);
      assert UniqueKeys(s[1..]) by {
        forall i, j | 0 <= i < j < |s[1..]| ensures s[1..][i].key != s[1..][j].key {
          assert s[1..][i] == s[i + 1] && s[1..][j] == s[j + 1];
        }
      }
      SeqTwice(s[1..], x);
      if s[0] == x {
        forall k | 0 <= k < |s[1..]| ensures s[1..][k] != x {
          assert s[1..][k] == s[k + 1];
        }
        assert x !in multiset(s[1..]);
      }
    }
  }

  // ---------------------------------------------------------------------
  // The ranking

  /** `get_top_content_ranking()`: selecting a missing grouping column or a
      missing watch-time column raises. */
  function TopContentRanking(f: Frame): (r: Result<seq<Entry>, AnalyticsError>)
    ensures RankingKey(f.columns) !in f.columns ==> r == Failure(MissingColumn(RankingKey(f.columns)))
    ensures RankingKey(f.columns) in f.columns && WatchCol !in f.columns ==> r == Failure(MissingColumn(WatchCol))
    ensures r.Success? <==> RankingKey(f.columns) in f.columns && WatchCol in f.columns
  {
    var key := RankingKey(f.columns);
    if key !in f.columns then Failure(MissingColumn(key))
    else if WatchCol !in f.columns then Failure(MissingColumn(WatchCol))
    else Success(SortDesc(Accumulate(Column(f, key), Watches(f))))
  }

  /** Sorting the groups keeps them the groups: unique keys, the same keys,
      and each entry's total. */
  lemma SortedGroups(acc: seq<Entry>, ks: seq<Option<Val>>, ws: seq<real>)
    requires |ks| == |ws|
    requires Keys(acc) == Distinct(ks)
    requires forall i :: 0 <= i < |acc| ==> acc[i].total == SumOf(ks, ws, acc[i].key)
    ensures UniqueKeys(SortDesc(acc))
    ensures forall v :: v in Keys(SortDesc(acc)) <==> Some(v) in ks
    ensures forall i :: 0 <= i < |SortDesc(acc)| ==> SortDesc(acc)[i].total == SumOf(ks, ws, SortDesc(acc)[i].key)
  {
    var s := SortDesc(acc);
    assert UniqueKeys(acc);
    SortDescUnique(acc);
    SortDescMembers(acc);
    SameKeys(s, acc);
    forall i | 0 <= i < |s| ensures s[i].total == SumOf(ks, ws, s[i].key) {
      assert s[i] in acc;
      var m :| 0 <= m < |acc| && acc[m] == s[i];
    }
  }

  /** Sequences with the same entries have the same keys. */
  lemma SameKeys(s: seq<Entry>, t: seq<Entry>)
    requires forall x :: x in s <==> x in t
    ensures forall v :: v in Keys(s) <==> v in Keys(t)
  {
    forall v | v in Keys(s) ensures v in Keys(t) {
      var j :| 0 <= j < |s| && Keys(s)[j] == v;
      assert s[j] in s;
      var m :| 0 <= m < |t| && t[m] == s[j];
      assert Keys(t)[m] == v;
    }
    forall v | v in Keys(t) ensures v in Keys(s) {
      var m :| 0 <= m < |t| && Keys(t)[m] == v;
      assert t[m] in t;
      var j :| 0 <= j < |s| && s[j] == t[m];
      assert Keys(s)[j] == v;
    }
  }

  /** What a ranking contains: each present value of the grouping column
      exactly once, with the total watch time of its rows, largest first. */
  lemma RankingContents(f: Frame)
    requires TopContentRanking(f).Success?
    ensures var s := TopContentRanking(f).value;
            var key := RankingKey(f.columns);
            && SortedDesc(s)
            && UniqueKeys(s)
            && (forall v :: v in Keys(s) <==> exists i :: 0 <= i < |f.rows| && Get(f.rows[i], key) == Some(v))
            && (forall i :: 0 <= i < |s| ==> s[i].total == SumOf(Column(f, key), Watches(f), s[i].key))
  {
    var key := RankingKey(f.columns);
    var ks := Column(f, key);
    SortedGroups(Accumulate(ks, Watches(f)), ks, Watches(f));
    forall v ensures Some(v) in ks <==> exists i :: 0 <= i < |f.rows| && Get(f.rows[i], key) == Some(v) {
      if Some(v) in ks {
        var i :| 0 <= i < |ks| && ks[i] == Some(v);
        assert Get(f.rows[i], key) == Some(v);
      }
    }
  }

  /** The totals of a ranking add up to the watch time of all rows that have
      a value in the grouping column. */
  lemma RankingTotal(f: Frame)
    requires TopContentRanking(f).Success?
    ensures SumTotals(TopContentRanking(f).value) == KeyedSum(Column(f, RankingKey(f.columns)), Watches(f))
  {
    var ks := Column(f, RankingKey(f.columns));
    var ws := Watches(f);
    var acc := Accumulate(ks, ws);
    SortDescSum(acc);
    AccumulatedSum(acc, ks, ws);
    PartitionSum(Distinct(ks), ks, ws);
  }

  lemma {:induction false} AccumulatedSum(s: seq<Entry>, ks: seq<Option<Val>>, ws: seq<real>)
    requires |ks| == |ws|
    requires forall i :: 0 <= i < |s| ==> s[i].total == SumOf(ks, ws, s[i].key)
    ensures SumTotals(s) == SumOver(Keys(s), ks, ws)
    decreases |s|
  {
    if |s| > 0 {
      AccumulatedSum(s[1..], ks, ws);
      assert Keys(s)[1..] == Keys(s[1..]);
    }
  }
}
