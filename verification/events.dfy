/** The event frame the analytics engine works on: one row per viewing event,
    each row a partial map from column name to value, where an absent entry
    is a missing value (NaN or NaT in the frame). */
module Events {
  import opened Wrappers

  /** A value of the frame: text (ids, genres, devices, ...), a number, or a
      timestamp in whole seconds. */
  datatype Val = Str(s: string) | Num(x: real) | Time(t: int)

  type Row = map<string, Val>

  datatype Frame = Frame(columns: seq<string>, rows: seq<Row>)

  /** Selecting a column the frame does not have raises `KeyError`. */
  datatype AnalyticsError = MissingColumn(name: string)

  const UserCol := "user_id"
  const DeviceCol := "device"
  const GenreCol := "genre"
  const SegmentCol := "segment"
  const TimestampCol := "timestamp"
  const WatchCol := "watch_time_minutes"

  /** The value of column `c` in a row, if it is not missing. */
  function Get(row: Row, c: string): (r: Option<Val>)
    ensures r.Some? <==> c in row
    ensures r.Some? ==> r.value == row[c]
  {
    if c in row then Some(row[c]) else None
  }

  /** Column `c` as a series of optional values. */
  function Column(f: Frame, c: string): (r: seq<Option<Val>>)
    ensures |r| == |f.rows|
    ensures forall i :: 0 <= i < |f.rows| ==> r[i] == Get(f.rows[i], c)
  {
    seq(|f.rows|, i requires 0 <= i < |f.rows| => Get(f.rows[i], c))
  }

  /** Every value of every row sits in one of the frame's columns. The
      queries look their columns up in `columns` before reading rows, so they
      do not depend on this. */
  predicate WellFormed(f: Frame) {
    forall i, k :: 0 <= i < |f.rows| && k in f.rows[i] ==> k in f.columns
  }

  /** In a well-formed frame, a column the frame does not list is missing
      in every row. */
  lemma ColumnOutside(f: Frame, c: string)
    requires WellFormed(f) && c !in f.columns
    ensures forall i :: 0 <= i < |f.rows| ==> Column(f, c)[i].None?
  {
  }

  /** The watch time of a row as `sum` sees it: missing values are skipped,
      that is, count as zero. The loader leaves this column numeric. */
  function WatchOf(row: Row): (w: real)
    ensures (Get(row, WatchCol).Some? && Get(row, WatchCol).value.Num?) ==> w == row[WatchCol].x
    ensures !(Get(row, WatchCol).Some? && Get(row, WatchCol).value.Num?) ==> w == 0.0
  {
    match Get(row, WatchCol)
    case Some(Num(x)) => x
    case _ => 0.0
  }

  function Watches(f: Frame): (r: seq<real>)
    ensures |r| == |f.rows|
    ensures forall i :: 0 <= i < |f.rows| ==> r[i] == WatchOf(f.rows[i])
  {
    seq(|f.rows|, i requires 0 <= i < |f.rows| => WatchOf(f.rows[i]))
  }
}
