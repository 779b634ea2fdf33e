/** The Segment Affinity Index (`get_sai`): for every segment and genre, the
    genre's share of the segment's events divided by the genre's share of all
    events, times 100. A value of 100 means the segment watches the genre
    exactly as much as everybody does. */
module Affinity {
  import opened Wrappers
  import opened Events
  import opened Grouping

  /** The index matrix: one row per segment, one column per genre. */
  datatype Affinity = Affinity(segments: seq<Val>, genres: seq<Val>, index: seq<seq<real>>)

  /** The empty frame returned when a column is missing. */
  const NoAffinity := Affinity([], [], [])

  /** The genre of each event of segment `s`, and nothing for the events of
      other segments: the row of the crosstab for `s`, before counting. */
  function GenresOf(f: Frame, segCol: string, genreCol: string, s: Val): (r: seq<Option<Val>>)
    ensures |r| == |f.rows|
    ensures forall i :: 0 <= i < |f.rows| ==>
              r[i] == (if Get(f.rows[i], segCol) == Some(s) then Get(f.rows[i], genreCol) else None)
  {
    seq(|f.rows|, i requires 0 <= i < |f.rows| =>
      if Get(f.rows[i], segCol) == Some(s) then Get(f.rows[i], genreCol) else None)
  }

  /** The segment of each event that also has a genre: the crosstab only
      counts events where both are present. */
  function PairedSegments(f: Frame, segCol: string, genreCol: string): (r: seq<Option<Val>>)
    ensures |r| == |f.rows|
    ensures forall i :: 0 <= i < |f.rows| ==>
              r[i] == (if Get(f.rows[i], genreCol).Some? then Get(f.rows[i], segCol) else None)
  {
    seq(|f.rows|, i requires 0 <= i < |f.rows| =>
      if Get(f.rows[i], genreCol).Some? then Get(f.rows[i], segCol) else None)
  }

  /** Share of genre `g` among the keyed entries of `ks` (0 for an empty
      row, which pandas would leave as NaN and `fillna` turns into 0). */
  function ShareOf(ks: seq<Option<Val>>, g: Val): real {
    var n := KeyedCount(ks);
    if n == 0.0 then 0.0 else CountOf(ks, g) / n
  }

  /** Share of genre `g` among all events, missing genres included in the
      denominator (`value_counts() / len(df)`). */
  function GlobalShare(f: Frame, genreCol: string, g: Val): real {
    if |f.rows| == 0 then 0.0 else CountOf(Column(f, genreCol), g) / (|f.rows| as real)
  }

  /** One cell of the matrix; a zero global share would give NaN, which
      `fillna(0)` turns into 0. */
  function Index(f: Frame, segCol: string, genreCol: string, s: Val, g: Val): (r: real)
    ensures GlobalShare(f, genreCol, g) == 0.0 ==> r == 0.0
    // the index scales the global share up to the segment share, in percent
    ensures r * GlobalShare(f, genreCol, g) == 100.0 * ShareOf(GenresOf(f, segCol, genreCol, s), g)
            || GlobalShare(f, genreCol, g) == 0.0
  {
    var global := GlobalShare(f, genreCol, g);
    var share := ShareOf(GenresOf(f, segCol, genreCol, s), g);
    if global == 0.0 then 0.0
    else
      assert share / global * 100.0 * global == 100.0 * share;
      share / global * 100.0
  }

  function IndexRow(f: Frame, segCol: string, genreCol: string, s: Val, genres: seq<Val>): (r: seq<real>)
    ensures |r| == |genres|
    ensures forall j :: 0 <= j < |genres| ==> r[j] == Index(f, segCol, genreCol, s, genres[j])
  {
    seq(|genres|, j requires 0 <= j < |genres| => Index(f, segCol, genreCol, s, genres[j]))
  }

  /** `get_sai(segment_col, genre_col)`: the empty matrix when either column
      is missing; otherwise one row per segment seen together with a genre
      and one column per genre seen at all (the column union of the crosstab
      and the global shares). */
  function Sai(f: Frame, segCol: string, genreCol: string): (r: Affinity)
    ensures segCol !in f.columns || genreCol !in f.columns ==> r == NoAffinity
    ensures segCol in f.columns && genreCol in f.columns ==>
              && NoDup(r.segments) && NoDup(r.genres)
              && (forall g :: g in r.genres <==> Some(g) in Column(f, genreCol))
              && (forall s :: s in r.segments <==> Some(s) in PairedSegments(f, segCol, genreCol))
              && |r.index| == |r.segments|
              && (forall i :: 0 <= i < |r.segments| ==>
                    r.index[i] == IndexRow(f, segCol, genreCol, r.segments[i], r.genres))
  {
    if segCol !in f.columns || genreCol !in f.columns then NoAffinity
    else
      var segments := Distinct(PairedSegments(f, segCol, genreCol));
      var genres := Distinct(Column(f, genreCol));
      Affinity(segments, genres,
               seq(|segments|, i requires 0 <= i < |segments| => IndexRow(f, segCol, genreCol, segments[i], genres)))
  }

  // ---------------------------------------------------------------------
  // Properties

  /** Every row and column label comes from the events: a segment label has
      an event with that segment and some genre, a genre label an event with
      that genre. */
  lemma SaiLabels(f: Frame, segCol: string, genreCol: string)
    requires segCol in f.columns && genreCol in f.columns
    ensures forall s :: s in Sai(f, segCol, genreCol).segments <==>
              exists i :: 0 <= i < |f.rows| && Get(f.rows[i], segCol) == Some(s) && Get(f.rows[i], genreCol).Some?
    ensures forall g :: g in Sai(f, segCol, genreCol).genres <==>
              exists i :: 0 <= i < |f.rows| && Get(f.rows[i], genreCol) == Some(g)
  {
    var r := Sai(f, segCol, genreCol);
    var ps := PairedSegments(f, segCol, genreCol);
    var gs := Column(f, genreCol);
    forall s | s in r.segments
      ensures exists i :: 0 <= i < |f.rows| && Get(f.rows[i], segCol) == Some(s) && Get(f.rows[i], genreCol).Some?
    {
      var i :| 0 <= i < |ps| && ps[i] == Some(s);
    }
    forall g | g in r.genres ensures exists i :: 0 <= i < |f.rows| && Get(f.rows[i], genreCol) == Some(g) {
      var i :| 0 <= i < |gs| && gs[i] == Some(g);
    }
    forall s | exists i :: 0 <= i < |f.rows| && Get(f.rows[i], segCol) == Some(s) && Get(f.rows[i], genreCol).Some?
      ensures s in r.segments
    {
      var i :| 0 <= i < |f.rows| && Get(f.rows[i], segCol) == Some(s) && Get(f.rows[i], genreCol).Some?;
      assert ps[i] == Some(s);
    }
    forall g | exists i :: 0 <= i < |f.rows| && Get(f.rows[i], genreCol) == Some(g) ensures g in r.genres {
      var i :| 0 <= i < |f.rows| && Get(f.rows[i], genreCol) == Some(g);
      assert gs[i] == Some(g);
    }
  }

  /** For a label in the matrix no denominator is zero, so every cell is the
      documented formula `segment share / global share * 100` and `fillna`
      never fires. */
  lemma SaiCell(f: Frame, segCol: string, genreCol: string, i: nat, j: nat)
    requires segCol in f.columns && genreCol in f.columns
    requires i < |Sai(f, segCol, genreCol).segments| && j < |Sai(f, segCol, genreCol).genres|
    ensures var r := Sai(f, segCol, genreCol);
            var row := GenresOf(f, segCol, genreCol, r.segments[i]);
            var count := CountOf(Column(f, genreCol), r.genres[j]);
            && KeyedCount(row) >= 1.0 && count >= 1.0 && |f.rows| > 0
            && r.index[i][j] == (CountOf(row, r.genres[j]) / KeyedCount(row)) / (count / (|f.rows| as real)) * 100.0
  {
    var r := Sai(f, segCol, genreCol);
    var s, g := r.segments[i], r.genres[j];
    var row := GenresOf(f, segCol, genreCol, s);
    SegmentRowPositive(f, segCol, genreCol, s);
    CountOfPositive(Column(f, genreCol), g);
    assert r.index[i][j] == Index(f, segCol, genreCol, s, g);
  }

  /** A segment label has at least one counted event. */
  lemma SegmentRowPositive(f: Frame, segCol: string, genreCol: string, s: Val)
    requires Some(s) in PairedSegments(f, segCol, genreCol)
    ensures KeyedCount(GenresOf(f, segCol, genreCol, s)) >= 1.0
  {
    var ps := PairedSegments(f, segCol, genreCol);
    var k :| 0 <= k < |ps| && ps[k] == Some(s);
    KeyedCountPositive(GenresOf(f, segCol, genreCol, s), k);
  }

  /** Sum of the shares of `keys` in `ks`. */
  function ShareTotal(ks: seq<Option<Val>>, keys: seq<Val>): real {
    if |keys| == 0 then 0.0 else ShareOf(ks, keys[0]) + ShareTotal(ks, keys[1..])
  }

  /** Sum of the cells of segment `s` weighted by the global shares. */
  function WeightedTotal(f: Frame, segCol: string, genreCol: string, s: Val, keys: seq<Val>): real {
    if |keys| == 0 then 0.0
    else Index(f, segCol, genreCol, s, keys[0]) * GlobalShare(f, genreCol, keys[0])
         + WeightedTotal(f, segCol, genreCol, s, keys[1..])
  }

  lemma {:induction false} ShareTotalIsSum(ks: seq<Option<Val>>, keys: seq<Val>)
    requires KeyedCount(ks) > 0.0
    ensures ShareTotal(ks, keys) == SumOver(keys, ks, Ones(|ks|)) / KeyedCount(ks)
    decreases |keys|
  {
    if |keys| > 0 {
      ShareTotalIsSum(ks, keys[1..]);
    }
  }

  /** Shares over a duplicate-free list covering every present key add up
      to one. */
  lemma SharesSumToOne(ks: seq<Option<Val>>, keys: seq<Val>)
    requires KeyedCount(ks) > 0.0 && NoDup(keys)
    requires forall k :: 0 <= k < |ks| && ks[k].Some? ==> ks[k].value in keys
    ensures ShareTotal(ks, keys) == 1.0
  {
    ShareTotalIsSum(ks, keys);
    PartitionSum(keys, ks, Ones(|ks|));
  }

  /** The genre shares within a segment add up to one: the crosstab row,
      normalised by its sum, is a distribution over the genres. */
  lemma RowSharesSum(f: Frame, segCol: string, genreCol: string, i: nat)
    requires segCol in f.columns && genreCol in f.columns
    requires i < |Sai(f, segCol, genreCol).segments|
    ensures var r := Sai(f, segCol, genreCol);
            ShareTotal(GenresOf(f, segCol, genreCol, r.segments[i]), r.genres) == 1.0
  {
    var r := Sai(f, segCol, genreCol);
    var row := GenresOf(f, segCol, genreCol, r.segments[i]);
    SegmentRowPositive(f, segCol, genreCol, r.segments[i]);
    forall k | 0 <= k < |row| && row[k].Some? ensures row[k].value in r.genres {
      assert Column(f, genreCol)[k] == row[k];
    }
    SharesSumToOne(row, r.genres);
  }

  lemma {:induction false} WeightedIsShares(f: Frame, segCol: string, genreCol: string, s: Val, keys: seq<Val>)
    requires forall k :: 0 <= k < |keys| ==> GlobalShare(f, genreCol, keys[k]) != 0.0
    ensures WeightedTotal(f, segCol, genreCol, s, keys) == 100.0 * ShareTotal(GenresOf(f, segCol, genreCol, s), keys)
    decreases |keys|
  {
    if |keys| > 0 {
      var g := keys[0];
      var global := GlobalShare(f, genreCol, g);
      var share := ShareOf(GenresOf(f, segCol, genreCol, s), g);
      assert forall k :: 0 <= k < |keys[1..]| ==> keys[1..][k] == keys[k + 1];
      WeightedIsShares(f, segCol, genreCol, s, keys[1..]);
      assert Index(f, segCol, genreCol, s, g) == share / global * 100.0;
      assert share / global * 100.0 * global == 100.0 * share;
    }
  }

  /** The cells of a segment, weighted by the global genre shares, add up to
      100: a segment cannot over-index on every genre at once. */
  lemma WeightedIndexSum(f: Frame, segCol: string, genreCol: string, i: nat)
    requires segCol in f.columns && genreCol in f.columns
    requires i < |Sai(f, segCol, genreCol).segments|
    ensures var r := Sai(f, segCol, genreCol);
            WeightedTotal(f, segCol, genreCol, r.segments[i], r.genres) == 100.0
  {
    var r := Sai(f, segCol, genreCol);
    GlobalSharesPositive(f, genreCol, r.genres);
    WeightedIsShares(f, segCol, genreCol, r.segments[i], r.genres);
    RowSharesSum(f, segCol, genreCol, i);
  }

  /** A genre that occurs has a positive global share. */
  lemma GlobalSharesPositive(f: Frame, genreCol: string, keys: seq<Val>)
    requires forall k :: 0 <= k < |keys| ==> Some(keys[k]) in Column(f, genreCol)
    ensures forall k :: 0 <= k < |keys| ==> GlobalShare(f, genreCol, keys[k]) > 0.0
  {
    forall k | 0 <= k < |keys| ensures GlobalShare(f, genreCol, keys[k]) > 0.0 {
      CountOfPositive(Column(f, genreCol), keys[k]);
    }
  }

  /** No cell is negative. */
  lemma IndexNonNegative(f: Frame, segCol: string, genreCol: string, s: Val, g: Val)
    ensures Index(f, segCol, genreCol, s, g) >= 0.0
  {
    var ks := GenresOf(f, segCol, genreCol, s);
    SumOfNonNegative(ks, Ones(|ks|), g);
    KeyedSumNonNegative(ks, Ones(|ks|));
    SumOfNonNegative(Column(f, genreCol), Ones(|f.rows|), g);
  }
}
