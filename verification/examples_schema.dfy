/** Header rows of the repository's own sample workbooks, and what the
    normalisation makes of them. */
module SchemaExamples {
  import opened Wrappers
  import opened Text
  import opened Schema

  lemma CleanDate() ensures CleanHeader("DATE") == "date" { StripUnchanged("DATE"); }
  lemma CleanCustomerId() ensures CleanHeader("CUSTOMER_ID") == "customer_id" { StripUnchanged("CUSTOMER_ID"); }
  lemma CleanScreentime() ensures CleanHeader("SCREENTIME") == "screentime" { StripUnchanged("SCREENTIME"); }

  lemma TwoOf(r: seq<string>, a: string, b: string)
    requires |r| == 2 && r[0] == a && r[1] == b
    ensures r == [a, b]
  {
  }

  lemma ThreeOf(r: seq<string>, a: string, b: string, c: string)
    requires |r| == 3 && r[0] == a && r[1] == b && r[2] == c
    ensures r == [a, b, c]
  {
  }

  lemma FourOf(r: seq<string>, a: string, b: string, c: string, d: string)
    requires |r| == 4 && r[0] == a && r[1] == b && r[2] == c && r[3] == d
    ensures r == [a, b, c, d]
  {
  }

  /** Headers of the English sample workbook, once cleaned. */
  predicate FinalHeaders(cols: seq<string>) {
    |cols| == 3 && CleanHeader(cols[0]) == "date" && CleanHeader(cols[1]) == "customer_id"
    && CleanHeader(cols[2]) == "screentime"
  }

  lemma FinalDateRenamed(cols: seq<string>)
    requires FinalHeaders(cols)
    ensures NormalizeColumns(cols)[0] == "timestamp"
  {
    assert AliasEntry("customer_id") == Some(1);
    assert AliasEntry("screentime") == Some(5);
    SoleAliasRenamed(cols, 0, 0);
  }

  lemma FinalCustomerRenamed(cols: seq<string>)
    requires FinalHeaders(cols)
    ensures NormalizeColumns(cols)[1] == "user_id"
  {
    assert AliasEntry("date") == Some(0);
    assert AliasEntry("screentime") == Some(5);
    SoleAliasRenamed(cols, 1, 1);
  }

  lemma FinalScreentimeRenamed(cols: seq<string>)
    requires FinalHeaders(cols)
    ensures NormalizeColumns(cols)[2] == "watch_time_minutes"
  {
    assert AliasEntry("date") == Some(0);
    assert AliasEntry("customer_id") == Some(1);
    SoleAliasRenamed(cols, 2, 5);
  }

  /** The English workbook's header row `DATE`, `CUSTOMER_ID`, `SCREENTIME`
      is such a row. */
  lemma FinalWorkbookClean()
    ensures FinalHeaders(["DATE", "CUSTOMER_ID", "SCREENTIME"])
  {
    CleanDate();
    CleanCustomerId();
    CleanScreentime();
  }

  /** The English workbook: its date, customer and screen-time headers become
      `timestamp`, `user_id` and `watch_time_minutes`. */
  lemma FinalWorkbookHeaders(cols: seq<string>)
    requires FinalHeaders(cols)
    ensures NormalizeColumns(cols) == ["timestamp", "user_id", "watch_time_minutes"]
  {
    var r := NormalizeColumns(cols);
    FinalDateRenamed(cols);
    FinalCustomerRenamed(cols);
    FinalScreentimeRenamed(cols);
    ThreeOf(r, "timestamp", "user_id", "watch_time_minutes");
  }

  /** The four headers of the Spanish sample workbook that the required
      columns come from, once cleaned. The workbook has seven headers; this
      is the sub-row of those four, taken as a row of its own. */
  predicate SpanishHeaders(cols: seq<string>) {
    |cols| == 4 && CleanHeader(cols[0]) == "id_usuario" && CleanHeader(cols[1]) == "fecha"
    && CleanHeader(cols[2]) == "género" && CleanHeader(cols[3]) == "tiempo_visto"
  }

  lemma CleanIdUsuario() ensures CleanHeader("ID_Usuario") == "id_usuario" { StripUnchanged("ID_Usuario"); }
  lemma CleanFecha() ensures CleanHeader("Fecha") == "fecha" { StripUnchanged("Fecha"); }
  lemma CleanGenero() ensures CleanHeader("Género") == "género" { StripUnchanged("Género"); }
  lemma CleanTiempoVisto() ensures CleanHeader("Tiempo_Visto") == "tiempo_visto" { StripUnchanged("Tiempo_Visto"); }

  lemma SpanishWorkbookClean()
    ensures SpanishHeaders(["ID_Usuario", "Fecha", "Género", "Tiempo_Visto"])
  {
    CleanIdUsuario();
    CleanFecha();
    CleanGenero();
    CleanTiempoVisto();
  }

  lemma SpanishUserRenamed(cols: seq<string>)
    requires SpanishHeaders(cols)
    ensures NormalizeColumns(cols)[0] == "user_id"
  {
    assert AliasEntry("fecha") == Some(0);
    assert AliasEntry("género") == Some(2);
    assert AliasEntry("tiempo_visto") == Some(5);
    SoleAliasRenamed(cols, 0, 1);
  }

  lemma SpanishDateRenamed(cols: seq<string>)
    requires SpanishHeaders(cols)
    ensures NormalizeColumns(cols)[1] == "timestamp"
  {
    assert AliasEntry("id_usuario") == Some(1);
    assert AliasEntry("género") == Some(2);
    assert AliasEntry("tiempo_visto") == Some(5);
    SoleAliasRenamed(cols, 1, 0);
  }

  lemma SpanishGenreRenamed(cols: seq<string>)
    requires SpanishHeaders(cols)
    ensures NormalizeColumns(cols)[2] == "genre"
  {
    assert AliasEntry("id_usuario") == Some(1);
    assert AliasEntry("fecha") == Some(0);
    assert AliasEntry("tiempo_visto") == Some(5);
    SoleAliasRenamed(cols, 2, 2);
  }

  lemma SpanishWatchRenamed(cols: seq<string>)
    requires SpanishHeaders(cols)
    ensures NormalizeColumns(cols)[3] == "watch_time_minutes"
  {
    assert AliasEntry("id_usuario") == Some(1);
    assert AliasEntry("fecha") == Some(0);
    assert AliasEntry("género") == Some(2);
    SoleAliasRenamed(cols, 3, 5);
  }

  /** The Spanish workbook: `ID_Usuario`, `Fecha`, `Género` and `Tiempo_Visto`
      become `user_id`, `timestamp`, `genre` and `watch_time_minutes`. */
  lemma SpanishWorkbookHeaders(cols: seq<string>)
    requires SpanishHeaders(cols)
    ensures NormalizeColumns(cols) == ["user_id", "timestamp", "genre", "watch_time_minutes"]
  {
    var r := NormalizeColumns(cols);
    SpanishUserRenamed(cols);
    SpanishDateRenamed(cols);
    SpanishGenreRenamed(cols);
    SpanishWatchRenamed(cols);
    FourOf(r, "user_id", "timestamp", "genre", "watch_time_minutes");
  }

  /** ... so every required column is present and none is reported missing. */
  lemma SpanishNothingMissing(cols: seq<string>)
    requires SpanishHeaders(cols)
    ensures Missing(Required, NormalizeColumns(cols)) == []
  {
    SpanishWorkbookHeaders(cols);
    RequiredAllPresent(NormalizeColumns(cols));
  }

  lemma RequiredAllPresent(r: seq<string>)
    requires r == ["user_id", "timestamp", "genre", "watch_time_minutes"]
    ensures Missing(Required, r) == []
  {
    MissingEmpty(Required, r);
  }

  /** A row whose headers clean to `date` and `timestamp`. */
  predicate DateAndTimestamp(cols: seq<string>) {
    |cols| == 2 && CleanHeader(cols[0]) == "date" && CleanHeader(cols[1]) == "timestamp"
  }

  /** In such a row the scan for the `timestamp` entry picks `date`. */
  lemma DateChosen(cols: seq<string>)
    requires DateAndTimestamp(cols)
    ensures FirstPresent(ColumnMap[0].aliases, CleanHeaders(cols)) == Some(1)
  {
    assert CleanHeaders(cols) == ["date", "timestamp"];
  }

  lemma DateRenamed(cols: seq<string>)
    requires DateAndTimestamp(cols)
    ensures NormalizeColumns(cols)[0] == "timestamp"
  {
    DateChosen(cols);
    NormalizeColumnsAlias(cols, 0, 0);
  }

  lemma TimestampKept(cols: seq<string>)
    requires DateAndTimestamp(cols)
    ensures NormalizeColumns(cols)[1] == "timestamp"
  {
    DateChosen(cols);
    NormalizeColumnsAlias(cols, 1, 0);
  }

  /** A row carrying both `date` and `timestamp`: the earlier alias `date`
      wins the entry and is renamed, `timestamp` is kept as it is, and the
      row ends up with two columns named `timestamp`. */
  lemma DateAndTimestampCollide(cols: seq<string>)
    requires DateAndTimestamp(cols)
    ensures NormalizeColumns(cols) == ["timestamp", "timestamp"]
  {
    var r := NormalizeColumns(cols);
    DateRenamed(cols);
    TimestampKept(cols);
    TwoOf(r, "timestamp", "timestamp");
  }
}
