/** Workbook loading (`load_data`): pick the instructions and dataset tabs,
    normalise the dataset's headers, derive `completion_rate` when it is
    absent, and force the metric columns to numbers with missing values
    filled by zero. */
module Loader {
  import opened Wrappers
  import opened Text
  import Sheets
  import Schema

  /** A spreadsheet cell after reading: a number, an empty cell, or any other
      value (text, a date, ...) that does not convert to a number. */
  datatype Cell = Num(x: real) | Missing | Other(text: string)

  /** A data frame in row-major form: column names and one row per record. */
  datatype Table = Table(names: seq<string>, rows: seq<seq<Cell>>)

  /** A tab of the workbook. */
  datatype Sheet = Sheet(name: string, table: Table)

  /** The dictionary `load_data` returns: the `instrucciones` entry is
      optional, the `dataset` entry always present. */
  datatype Loaded = Loaded(instructions: Option<Table>, dataset: Table)

  /** Why `load_data` raises: no tab for the dataset, or a column the loader
      selects by name occurs more than once, so that pandas hands back a
      frame where a series is needed. */
  datatype LoadError = NoDatasetSheet | AmbiguousColumn(name: string)

  const TimestampCol := "timestamp"
  const GenreCol := "genre"
  const WatchCol := "watch_time_minutes"
  const CompletionCol := "completion_rate"
  const DurationCol := "content_duration_minutes"

  /** The columns converted to numbers at the end of loading. */
  const MetricColumns: seq<string> := [WatchCol, CompletionCol, DurationCol]

  /** The columns the loader selects one by one, and so needs unique. */
  const SelectedColumns: seq<string> := [TimestampCol, GenreCol, WatchCol, CompletionCol, DurationCol]

  predicate Rectangular(t: Table) {
    forall i :: 0 <= i < |t.rows| ==> |t.rows[i]| == |t.names|
  }

  predicate WellFormed(sheets: seq<Sheet>) {
    forall i :: 0 <= i < |sheets| ==> Rectangular(sheets[i].table)
  }

  // ---------------------------------------------------------------------
  // Cell conversions

  /** `pd.to_numeric(..., errors='coerce')`: anything that is not a number
      becomes missing. */
  function ToNumeric(c: Cell): (r: Cell)
    ensures !r.Other?
    ensures r.Num? <==> c.Num?
    ensures c.Num? ==> r == c
  {
    if c.Num? then c else Missing
  }

  /** `.replace(0, pd.NA)`. */
  function ZeroToMissing(c: Cell): (r: Cell)
    ensures r.Num? ==> r.x != 0.0
    ensures c == Num(0.0) ==> r == Missing
    ensures c != Num(0.0) ==> r == c
  {
    if c == Num(0.0) then Missing else c
  }

  /** `.fillna(0)`. */
  function FillZero(c: Cell): (r: Cell)
    ensures c.Missing? ==> r == Num(0.0)
    ensures !c.Missing? ==> r == c
  {
    if c.Missing? then Num(0.0) else c
  }

  /** The conversion of the metric loop: to a number, missing as zero. */
  function Coerce(c: Cell): (r: Cell)
    ensures r.Num?
    ensures c.Num? ==> r == c
    ensures !c.Num? ==> r == Num(0.0)
  {
    FillZero(ToNumeric(c))
  }

  /** `.clip(0, 1)`. */
  function Clip01(x: real): (r: real)
    ensures 0.0 <= r <= 1.0
    ensures 0.0 <= x <= 1.0 ==> r == x
    ensures x < 0.0 ==> r == 0.0
    ensures x > 1.0 ==> r == 1.0
  {
    if x < 0.0 then 0.0 else if x > 1.0 then 1.0 else x
  }

  /** Element-wise division of two series; a missing operand gives a missing
      result. The divisor has had its zeros replaced by missing. */
  function Ratio(w: Cell, d: Cell): (r: Cell)
    requires d.Num? ==> d.x != 0.0
  {
    if w.Num? && d.Num? then Num(w.x / d.x) else Missing
  }

  /** The derived completion of one row, from the already converted watch
      time and duration cells: quotient, missing as zero, clipped. */
  function RateOf(w: Cell, d: Cell): real
    requires d.Num? ==> d.x != 0.0
  {
    var q := FillZero(Ratio(w, d));
    if q.Num? then Clip01(q.x) else 0.0
  }

  /** The derived completion of a row in terms of its cells as read: the
      clipped quotient when both are numbers and the duration is not zero,
      and zero otherwise. */
  function DerivedRate(w: Cell, d: Cell): (r: real)
    ensures 0.0 <= r <= 1.0
    ensures w.Num? && d.Num? && d.x != 0.0 ==> r == Clip01(w.x / d.x)
    ensures !(w.Num? && d.Num? && d.x != 0.0) ==> r == 0.0
  {
    RateOf(ToNumeric(w), ZeroToMissing(ToNumeric(d)))
  }

  // ---------------------------------------------------------------------
  // Columns

  /** Number of columns called `c`. */
  function Count(names: seq<string>, c: string): (n: nat)
    ensures n <= |names|
    ensures n == 0 <==> c !in names
  {
    if |names| == 0 then 0 else (if names[0] == c then 1 else 0) + Count(names[1..], c)
  }

  /** Two positions holding `c` make it occur at least twice. */
  lemma {:induction false} CountTwo(names: seq<string>, c: string, k: nat, j: nat)
    requires k < j < |names| && names[k] == c && names[j] == c
    ensures Count(names, c) >= 2
  {
    assert names[1..][j - 1] == c;
    if k > 0 {
      CountTwo(names[1..], c, k - 1, j - 1);
    }
  }

  /** A name that occurs at most once has a single position. */
  lemma CountOne(names: seq<string>, c: string, k: nat, j: nat)
    requires Count(names, c) <= 1
    requires k < |names| && j < |names| && names[k] == c && names[j] == c
    ensures k == j
  {
    if k < j {
      CountTwo(names, c, k, j);
      assert false;
    } else if j < k {
      CountTwo(names, c, j, k);
      assert false;
    }
  }

  /** Position of the first column called `c`. */
  function IndexOf(names: seq<string>, c: string): (r: Option<nat>)
    ensures r.Some? ==> r.value < |names| && names[r.value] == c
    ensures r.None? <==> c !in names
  {
    if |names| == 0 then None
    else if names[0] == c then Some(0)
    else match IndexOf(names[1..], c)
      case None => None
      case Some(i) => Some(i + 1)
  }

  /** Apply `f` to every cell of the columns whose names are in `cs`. */
  function MapColumns(t: Table, cs: seq<string>, f: Cell -> Cell): (r: Table)
    requires Rectangular(t)
    ensures r.names == t.names && |r.rows| == |t.rows| && Rectangular(r)
    ensures forall i, j :: 0 <= i < |t.rows| && 0 <= j < |t.names| ==>
              r.rows[i][j] == (if t.names[j] in cs then f(t.rows[i][j]) else t.rows[i][j])
  {
    Table(t.names, seq(|t.rows|, i requires 0 <= i < |t.rows| =>
      seq(|t.names|, j requires 0 <= j < |t.names| =>
        if t.names[j] in cs then f(t.rows[i][j]) else t.rows[i][j])))
  }

  // ---------------------------------------------------------------------
  // The dataset pipeline

  /** `completion_rate` is derived only when it is absent and both of its
      inputs are present. */
  predicate Derives(names: seq<string>) {
    CompletionCol !in names && WatchCol in names && DurationCol in names
  }

  /** The first column selected by name that occurs more than once, in the
      order the loader selects them. */
  function Ambiguous(names: seq<string>): (r: Option<string>)
    ensures r.Some? ==> r.value in SelectedColumns && Count(names, r.value) > 1
    ensures r.None? <==> forall c :: c in SelectedColumns ==> Count(names, c) <= 1
  {
    var order := [TimestampCol, GenreCol]
      + (if Derives(names) then [DurationCol, WatchCol] else [])
      + [WatchCol, CompletionCol, DurationCol];
    assert forall c :: c in order <==> c in SelectedColumns;
    FirstRepeated(order, names)
  }

  function FirstRepeated(order: seq<string>, names: seq<string>): (r: Option<string>)
    ensures r.Some? ==> r.value in order && Count(names, r.value) > 1
    ensures r.None? <==> forall c :: c in order ==> Count(names, c) <= 1
  {
    if |order| == 0 then None
    else if Count(names, order[0]) > 1 then Some(order[0])
    else FirstRepeated(order[1..], names)
  }

  /** The conversion the derivation applies to the cells of a column with
      the given name: the duration to a number with zeros as missing, the
      watch time to a number, anything else untouched. */
  function PreDerive(name: string, c: Cell): Cell {
    if name == DurationCol then ZeroToMissing(ToNumeric(c))
    else if name == WatchCol then ToNumeric(c)
    else c
  }

  /** After the metric conversion, no trace of `PreDerive` remains. */
  lemma PreDeriveCoerce(name: string, c: Cell)
    ensures Coerce(PreDerive(name, c)) == Coerce(c)
    ensures name !in MetricColumns ==> PreDerive(name, c) == c
  {
  }

  /** The derivation: convert the duration and watch-time columns and append
      `completion_rate`, whose value in each row is computed from that row's
      converted watch time and duration. */
  function Derive(t: Table, w: nat, d: nat): (r: Table)
    requires Rectangular(t) && w < |t.names| && d < |t.names|
    requires t.names[w] == WatchCol && t.names[d] == DurationCol
    ensures r.names == t.names + [CompletionCol] && |r.rows| == |t.rows| && Rectangular(r)
    ensures forall i :: 0 <= i < |t.rows| ==>
              r.rows[i][|t.names|] == Num(DerivedRate(t.rows[i][w], t.rows[i][d]))
    ensures forall i, j :: 0 <= i < |t.rows| && 0 <= j < |t.names| ==>
              r.rows[i][j] == PreDerive(t.names[j], t.rows[i][j])
  {
    var n := |t.names|;
    Table(t.names + [CompletionCol], seq(|t.rows|, i requires 0 <= i < |t.rows| =>
      seq(n + 1, j requires 0 <= j <= n =>
        if j < n then PreDerive(t.names[j], t.rows[i][j])
        else Num(RateOf(PreDerive(WatchCol, t.rows[i][w]), PreDerive(DurationCol, t.rows[i][d]))))))
  }

  /** The type enforcement of `load_data` on a frame whose headers are
      already normalised. Parsing of `timestamp` and title-casing of `genre`
      are not modelled: those cells are kept as read. */
  function Enforce(t: Table): (r: Result<Table, LoadError>)
    requires Rectangular(t)
    ensures r.Failure? ==> r.error.AmbiguousColumn? && r.error.name in SelectedColumns
                           && Count(t.names, r.error.name) > 1
    ensures r.Success? <==> forall c :: c in SelectedColumns ==> Count(t.names, c) <= 1
  {
    match Ambiguous(t.names)
    case Some(c) => Failure(AmbiguousColumn(c))
    case None => Success(MapColumns(Derived(t), MetricColumns, Coerce))
  }

  /** The frame a successful enforcement starts from before the metric
      conversion: with the derived column appended when it is derived. */
  function Derived(t: Table): (r: Table)
    requires Rectangular(t)
    ensures Rectangular(r) && |r.rows| == |t.rows|
    ensures r.names == t.names + (if Derives(t.names) then [CompletionCol] else [])
    ensures forall i, j :: 0 <= i < |t.rows| && 0 <= j < |t.names| ==>
              Coerce(r.rows[i][j]) == Coerce(t.rows[i][j])
              && (t.names[j] !in MetricColumns ==> r.rows[i][j] == t.rows[i][j])
  {
    if Derives(t.names) then
      var r := Derive(t, IndexOf(t.names, WatchCol).value, IndexOf(t.names, DurationCol).value);
      assert forall i, j :: 0 <= i < |t.rows| && 0 <= j < |t.names| ==>
        Coerce(r.rows[i][j]) == Coerce(t.rows[i][j])
        && (t.names[j] !in MetricColumns ==> r.rows[i][j] == t.rows[i][j]) by {
        forall i, j | 0 <= i < |t.rows| && 0 <= j < |t.names| {
          PreDeriveCoerce(t.names[j], t.rows[i][j]);
        }
      }
      r
    else t
  }

  /** What a successful enforcement makes of the frame: the same headers
      (plus `completion_rate` when derived), the same rows, and every metric
      cell a number. */
  lemma EnforceShape(t: Table)
    requires Rectangular(t) && Enforce(t).Success?
    ensures var r := Enforce(t).value;
            && Rectangular(r) && |r.rows| == |t.rows|
            && r.names == t.names + (if Derives(t.names) then [CompletionCol] else [])
            && (forall i, j :: 0 <= i < |r.rows| && 0 <= j < |r.names| && r.names[j] in MetricColumns ==>
                  r.rows[i][j].Num?)
  {
    var t1 := Derived(t);
    var r := MapColumns(t1, MetricColumns, Coerce);
    assert Enforce(t).value == r;
    forall i, j | 0 <= i < |r.rows| && 0 <= j < |r.names| && r.names[j] in MetricColumns
      ensures r.rows[i][j].Num?
    {
      assert r.rows[i][j] == Coerce(t1.rows[i][j]);
    }
  }

  /** ... and every cell of the original columns is converted (missing and
      non-numeric values becoming zero) if it is a metric, and kept as read
      otherwise. */
  lemma EnforceKeeps(t: Table)
    requires Rectangular(t) && Enforce(t).Success?
    ensures var r := Enforce(t).value;
            && |r.rows| == |t.rows| && |t.names| <= |r.names|
            && forall i, j :: 0 <= i < |t.rows| && 0 <= j < |t.names| ==>
                 r.rows[i][j] == (if t.names[j] in MetricColumns then Coerce(t.rows[i][j]) else t.rows[i][j])
  {
    var t1 := Derived(t);
    var r := MapColumns(t1, MetricColumns, Coerce);
    assert Enforce(t).value == r;
    forall i, j | 0 <= i < |t.rows| && 0 <= j < |t.names|
      ensures r.rows[i][j] == (if t.names[j] in MetricColumns then Coerce(t.rows[i][j]) else t.rows[i][j])
    {
      assert t1.names[j] == t.names[j];
    }
  }

  /** When the rate is derived, the appended column holds, row by row, the
      clipped quotient of the row's watch time and duration. */
  lemma EnforceDerived(t: Table, w: nat, d: nat)
    requires Rectangular(t) && Enforce(t).Success? && Derives(t.names)
    requires w < |t.names| && t.names[w] == WatchCol
    requires d < |t.names| && t.names[d] == DurationCol
    ensures forall i :: 0 <= i < |t.rows| ==>
              Enforce(t).value.rows[i][|t.names|] == Num(DerivedRate(t.rows[i][w], t.rows[i][d]))
  {
    assert WatchCol in SelectedColumns && DurationCol in SelectedColumns;
    CountOne(t.names, WatchCol, w, IndexOf(t.names, WatchCol).value);
    CountOne(t.names, DurationCol, d, IndexOf(t.names, DurationCol).value);
  }

  /** The dataset tab as `load_data` returns it: `normalize_columns`, then
      the type enforcement. */
  function PrepareDataset(raw: Table): (r: Result<Table, LoadError>)
    requires Rectangular(raw)
    ensures var names := Schema.NormalizeColumns(raw.names);
            && (r.Success? <==> forall c :: c in SelectedColumns ==> Count(names, c) <= 1)
            && (r.Failure? ==> r.error.AmbiguousColumn? && Count(names, r.error.name) > 1)
    ensures r.Success? ==> |r.value.rows| == |raw.rows|
  {
    var t := Table(Schema.NormalizeColumns(raw.names), raw.rows);
    if Enforce(t).Success? then EnforceShape(t); Enforce(t) else Enforce(t)
  }

  // ---------------------------------------------------------------------
  // The workbook

  function SheetNames(sheets: seq<Sheet>): (r: seq<string>)
    ensures |r| == |sheets| && forall i :: 0 <= i < |sheets| ==> r[i] == sheets[i].name
  {
    seq(|sheets|, i requires 0 <= i < |sheets| => sheets[i].name)
  }

  /** The dataset tab: the tab the search for `dataset` picks; only when no
      tab contains `dataset` is the search for `datos` tried. */
  function DatasetIndex(names: seq<string>): (r: Option<nat>)
    ensures r.Some? ==> r.value < |names|
    ensures r.Some? ==> Contains(Lower(names[r.value]), Lower("dataset")) || Contains(Lower(names[r.value]), Lower("datos"))
    ensures r.None? <==> forall i :: 0 <= i < |names| ==>
              !Contains(Lower(names[i]), Lower("dataset")) && !Contains(Lower(names[i]), Lower("datos"))
    // `dataset` is searched first and wins whenever some tab contains it
    ensures (exists i :: 0 <= i < |names| && Contains(Lower(names[i]), Lower("dataset"))) ==>
              r == Sheets.SheetIndex(names, "dataset")
    ensures (forall i :: 0 <= i < |names| ==> !Contains(Lower(names[i]), Lower("dataset"))) ==>
              r == Sheets.SheetIndex(names, "datos")
  {
    match Sheets.SheetIndex(names, "dataset")
    case Some(i) => Some(i)
    case None => Sheets.SheetIndex(names, "datos")
  }

  /** The instructions tab, read as is: the tab `normalize_sheet_name` picks
      for `instrucciones`, present exactly when some tab's name contains
      that word. */
  function InstructionsTab(sheets: seq<Sheet>): (r: Option<Table>)
    ensures r.None? <==> forall i :: 0 <= i < |sheets| ==> !Contains(Lower(sheets[i].name), Lower("instrucciones"))
    ensures r.Some? <==> Sheets.SheetIndex(SheetNames(sheets), "instrucciones").Some?
    ensures r.Some? ==> r.value == sheets[Sheets.SheetIndex(SheetNames(sheets), "instrucciones").value].table
    // an exact (case-insensitive) name wins; otherwise the first tab containing the word
    ensures r.Some? ==> exists i :: (
              && 0 <= i < |sheets| && r.value == sheets[i].table
              && Contains(Lower(sheets[i].name), Lower("instrucciones"))
              && ((exists k :: 0 <= k < |sheets| && Lower(sheets[k].name) == Lower("instrucciones")) ==>
                    Lower(sheets[i].name) == Lower("instrucciones")
                    && forall j :: 0 <= j < i ==> Lower(sheets[j].name) != Lower("instrucciones"))
              && ((forall k :: 0 <= k < |sheets| ==> Lower(sheets[k].name) != Lower("instrucciones")) ==>
                    forall j :: 0 <= j < i ==> !Contains(Lower(sheets[j].name), Lower("instrucciones"))))
  {
    var names := SheetNames(sheets);
    match Sheets.SheetIndex(names, "instrucciones")
    case Some(i) => Some(sheets[i].table)
    case None => None
  }

  /** `load_data(file)`; an absent file gives nothing. */
  function LoadData(file: Option<seq<Sheet>>): (r: Result<Option<Loaded>, LoadError>)
    requires file.Some? ==> WellFormed(file.value)
    ensures file.None? ==> r == Success(None)
    ensures file.Some? ==> (r == Failure(NoDatasetSheet) <==> DatasetIndex(SheetNames(file.value)).None?)
    ensures file.Some? && r.Success? ==> r.value.Some?
    // the dataset is the tab the search picks, normalised and converted
    ensures file.Some? && DatasetIndex(SheetNames(file.value)).Some? ==>
              var tab := file.value[DatasetIndex(SheetNames(file.value)).value].table;
              && (r.Success? <==> PrepareDataset(tab).Success?)
              && (r.Success? ==> r.value.value.dataset == PrepareDataset(tab).value)
              && (r.Failure? ==> r.error == PrepareDataset(tab).error)
    ensures file.Some? && r.Success? ==> r.value.value.instructions == InstructionsTab(file.value)
  {
    match file
    case None => Success(None)
    case Some(sheets) =>
      var names := SheetNames(sheets);
      var instructions := InstructionsTab(sheets);
      match DatasetIndex(names)
      case None => Failure(NoDatasetSheet)
      case Some(i) =>
        match PrepareDataset(sheets[i].table)
        case Failure(e) => Failure(e)
        case Success(t) => Success(Some(Loaded(instructions, t)))
  }
}
