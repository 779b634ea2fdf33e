/** Header normalisation (`normalize_columns`): every header is stripped and
    lowercased, then, for each canonical column in table order, the first of
    its aliases present among the headers is renamed to the canonical name. */
module Schema {
  import opened Wrappers
  import opened Text

  /** One entry of the alias table: a canonical column and the header
      spellings (Spanish and English) that are renamed to it, in priority
      order. */
  datatype Alias = Alias(target: string, aliases: seq<string>)

  /** The alias table of `normalize_columns`, in its insertion order. */
  const ColumnMap: seq<Alias> := [
    Alias("timestamp",
      ["fecha", "date", "timestamp", "time", "hora", "marca_temporal", "fecha_evento"]),
    Alias("user_id",
      ["user_id", "usuario", "id_usuario", "cliente", "id_cliente", "usuario_id", "customer_id"]),
    Alias("genre",
      ["genre", "genero", "género", "categoria", "tipo_video"]),
    Alias("region",
      ["region", "región", "zona", "ubicacion", "territorio"]),
    Alias("device",
      ["device", "dispositivo", "plataforma"]),
    Alias("watch_time_minutes",
      ["watch_time", "watch_time_minutes", "tiempo_visto", "minutos_vistos", "duracion_real", "minutos_reproducidos", "tiempo_visualizacion", "screentime"]),
    Alias("completion_rate",
      ["completion", "completion_rate", "completitud", "tasa_completado", "%_visto", "porcentaje_completado"]),
    Alias("video_startup_time_sec",
      ["vst", "video_startup_time", "tiempo_inicio", "startup_time", "segundos_inicio"]),
    Alias("content_duration_minutes",
      ["duration", "duracion", "duración", "largo_total", "length"]),
    Alias("segment",
      ["segment", "segmento", "grupo"]),
    Alias("video_format",
      ["video_format", "format", "formato", "calidad", "resolution", "resolucion"]),
    Alias("audio_lang",
      ["audio_lang", "audio", "language", "idioma", "lenguaje"])
  ]

  /** Columns the analytics engine relies on; their absence is tolerated. */
  const Required: seq<string> := ["timestamp", "user_id", "genre", "watch_time_minutes"]

  function Targets(table: seq<Alias>): set<string> {
    set e | 0 <= e < |table| :: table[e].target
  }

  ghost predicate Listed(table: seq<Alias>, a: string) {
    exists e :: 0 <= e < |table| && a in table[e].aliases
  }

  /** No header spelling is claimed by two entries of the table. */
  ghost predicate AliasesDisjoint(table: seq<Alias>) {
    forall e, f, i, j ::
      (0 <= e < |table| && 0 <= f < |table| && 0 <= i < |table[e].aliases| && 0 <= j < |table[f].aliases|
       && table[e].aliases[i] == table[f].aliases[j]) ==> e == f
  }

  /** Entry `e` is the only entry of the table that lists `a`. */
  ghost predicate OwnedBy(table: seq<Alias>, a: string, e: nat) {
    forall f :: 0 <= f < |table| && a in table[f].aliases ==> f == e
  }

  /** `c.strip().lower()`. */
  function CleanHeader(h: string): string {
    Lower(Strip(h))
  }

  function CleanHeaders(cols: seq<string>): (r: seq<string>)
    ensures |r| == |cols|
    ensures forall k :: 0 <= k < |cols| ==> r[k] == CleanHeader(cols[k])
  {
    if |cols| == 0 then [] else [CleanHeader(cols[0])] + CleanHeaders(cols[1..])
  }

  /** Position of the first alias (in priority order) that occurs among the
      headers: the inner loop with its `break`. */
  function FirstPresent(aliases: seq<string>, cols: seq<string>): (r: Option<nat>)
    ensures r.Some? ==> r.value < |aliases| && aliases[r.value] in cols
    ensures r.Some? ==> forall j :: 0 <= j < r.value ==> aliases[j] !in cols
    ensures r.None? <==> forall j :: 0 <= j < |aliases| ==> aliases[j] !in cols
    decreases |aliases|
  {
    if |aliases| == 0 then None
    else if aliases[0] in cols then Some(0)
    else match FirstPresent(aliases[1..], cols)
      case None => None
      case Some(i) => Some(i + 1)
  }

  /** True when `a` is the alias of `entry` that the scan picks for `cols`. */
  predicate ChosenAlias(entry: Alias, cols: seq<string>, a: string) {
    var p := FirstPresent(entry.aliases, cols);
    p.Some? && entry.aliases[p.value] == a
  }

  /** One pass of the outer loop: record the alias the scan picks for
      `entry`, if any. */
  function AddEntry(m: map<string, string>, entry: Alias, cols: seq<string>): (r: map<string, string>)
    ensures forall a :: a in r <==> a in m || ChosenAlias(entry, cols, a)
    ensures forall a :: a in r ==> r[a] == (if ChosenAlias(entry, cols, a) then entry.target else m[a])
  {
    match FirstPresent(entry.aliases, cols)
    case Some(i) => m[entry.aliases[i] := entry.target]
    case None => m
  }

  /** `rename_dict`, built by scanning the table in order; as with a Python
      dict, a later write to the same key replaces an earlier one. */
  function RenameDict(table: seq<Alias>, cols: seq<string>): (m: map<string, string>)
    ensures forall a :: a in m ==> a in cols && m[a] in Targets(table)
    decreases |table|
  {
    if |table| == 0 then map[]
    else
      var front := table[..|table| - 1];
      var last := table[|table| - 1];
      var m := RenameDict(front, cols);
      assert Targets(front) <= Targets(table) by {
        forall t | t in Targets(front) ensures t in Targets(table) {
          var e :| 0 <= e < |front| && front[e].target == t;
          assert table[e] == front[e];
        }
      }
      assert last.target in Targets(table) by {
        assert table[|table| - 1] == last;
      }
      AddEntry(m, last, cols)
  }

  /** A header listed by no entry is never a key of the rename map. */
  lemma {:induction false} UnlistedNotRenamed(table: seq<Alias>, cols: seq<string>, h: string)
    requires !Listed(table, h)
    ensures h !in RenameDict(table, cols)
    decreases |table|
  {
    if |table| > 0 {
      var front := table[..|table| - 1];
      forall e | 0 <= e < |front| ensures h !in front[e].aliases {
        assert front[e] == table[e];
      }
      UnlistedNotRenamed(front, cols, h);
    }
  }

  /** The last entry of the table is the last pass of the outer loop. */
  lemma RenameDictUnfold(table: seq<Alias>, cols: seq<string>)
    requires |table| > 0
    ensures RenameDict(table, cols) == AddEntry(RenameDict(table[..|table| - 1], cols), table[|table| - 1], cols)
  {
  }

  /** An alias that the last entry does not list is unaffected by its pass. */
  lemma AddEntryOther(m: map<string, string>, entry: Alias, cols: seq<string>, a: string)
    requires a !in entry.aliases
    ensures a in AddEntry(m, entry, cols) <==> a in m
    ensures a in m ==> AddEntry(m, entry, cols)[a] == m[a]
  {
  }

  /** With disjoint alias lists, an alias of entry `e` is a key of the rename
      map exactly when it is the alias the scan picks for `e`, and it then maps
      to that entry's canonical name. */
  lemma {:induction false} RenameDictEntry(table: seq<Alias>, cols: seq<string>, e: nat, a: string)
    requires OwnedBy(table, a, e)
    requires e < |table| && a in table[e].aliases
    ensures a in RenameDict(table, cols) <==> ChosenAlias(table[e], cols, a)
    ensures a in RenameDict(table, cols) ==> RenameDict(table, cols)[a] == table[e].target
    decreases |table|
  {
    var n := |table|;
    var front := table[..n - 1];
    var last := table[n - 1];
    RenameDictUnfold(table, cols);
    if e == n - 1 {
      assert !Listed(front, a) by {
        forall f | 0 <= f < |front| ensures a !in front[f].aliases {
          assert front[f] == table[f];
        }
      }
      UnlistedNotRenamed(front, cols, a);
    } else {
      assert front[e] == table[e];
      assert OwnedBy(front, a, e) by {
        forall f | 0 <= f < |front| ensures front[f] == table[f] { }
      }
      RenameDictEntry(front, cols, e, a);
      AddEntryOther(RenameDict(front, cols), last, cols, a);
    }
  }

  /** `df.rename(columns=rename_dict)`: position by position. */
  function RenameColumns(hs: seq<string>, m: map<string, string>): (r: seq<string>)
    ensures |r| == |hs|
    ensures forall k :: 0 <= k < |hs| ==> r[k] == (if hs[k] in m then m[hs[k]] else hs[k])
  {
    if |hs| == 0 then [] else [if hs[0] in m then m[hs[0]] else hs[0]] + RenameColumns(hs[1..], m)
  }

  /** `normalize_columns` over an arbitrary alias table. */
  function NormalizeWith(table: seq<Alias>, cols: seq<string>): (r: seq<string>)
    ensures |r| == |cols|
    ensures forall k :: 0 <= k < |cols| ==> r[k] == CleanHeader(cols[k]) || r[k] in Targets(table)
  {
    var lowered := CleanHeaders(cols);
    var renames := RenameDict(table, lowered);
    if |renames| == 0 then lowered else RenameColumns(lowered, renames)
  }

  /** `normalize_columns`, on the header row: the column count is kept (what
      each header becomes is stated by the lemmas below). */
  function NormalizeColumns(cols: seq<string>): (r: seq<string>)
    ensures |r| == |cols|
  {
    NormalizeWith(ColumnMap, cols)
  }

  /** The per-header meaning of the normalisation, for any table whose alias
      lists are disjoint. */
  lemma NormalizeWithAlias(table: seq<Alias>, cols: seq<string>, k: nat, e: nat)
    requires k < |cols| && e < |table|
    requires OwnedBy(table, CleanHeader(cols[k]), e)
    requires CleanHeader(cols[k]) in table[e].aliases
    ensures NormalizeWith(table, cols)[k] ==
              (if ChosenAlias(table[e], CleanHeaders(cols), CleanHeader(cols[k]))
               then table[e].target else CleanHeader(cols[k]))
  {
    var lowered := CleanHeaders(cols);
    assert lowered[k] == CleanHeader(cols[k]);
    RenameDictEntry(table, lowered, e, CleanHeader(cols[k]));
  }

  /** The per-header meaning of `normalize_columns`, for a header that is an
      alias of entry `e`: it becomes the canonical name when it is the alias
      the scan picks for that entry, and is only cleaned otherwise (an alias
      that lost to an earlier alias of the same entry). */
  lemma NormalizeColumnsAlias(cols: seq<string>, k: nat, e: nat)
    requires k < |cols| && e < |ColumnMap|
    requires CleanHeader(cols[k]) in ColumnMap[e].aliases
    ensures NormalizeColumns(cols)[k] ==
              (if ChosenAlias(ColumnMap[e], CleanHeaders(cols), CleanHeader(cols[k]))
               then ColumnMap[e].target else CleanHeader(cols[k]))
  {
    ColumnMapOwned(CleanHeader(cols[k]), e);
    NormalizeWithAlias(ColumnMap, cols, k, e);
  }

  /** A header that no entry lists is only cleaned. */
  lemma NormalizeColumnsUnlisted(cols: seq<string>, k: nat)
    requires k < |cols|
    requires !Listed(ColumnMap, CleanHeader(cols[k]))
    ensures NormalizeColumns(cols)[k] == CleanHeader(cols[k])
  {
    UnlistedNotRenamed(ColumnMap, CleanHeaders(cols), CleanHeader(cols[k]));
  }

  /** The required columns absent from the headers, in the order of
      `required`; the normalisation reports them and does not raise. */
  function Missing(required: seq<string>, cols: seq<string>): (missing: seq<string>)
    ensures |missing| <= |required|
    ensures forall c :: c in missing <==> c in required && c !in cols
  {
    if |required| == 0 then []
    else (if required[0] in cols then [] else [required[0]]) + Missing(required[1..], cols)
  }

  /** Nothing is reported missing exactly when every required column is present. */
  lemma MissingEmpty(required: seq<string>, cols: seq<string>)
    ensures Missing(required, cols) == [] <==> forall c :: c in required ==> c in cols
  {
    var m := Missing(required, cols);
    if |m| > 0 {
      assert m[0] in m;
    }
  }

  // ---------------------------------------------------------------------
  // Disjointness of the concrete table. The table is inverted by hand below
  // (header spelling -> position of its entry), and each entry is checked
  // against the inversion separately, which keeps every proof small.

  function AliasEntry(a: string): Option<nat> {
    match |a|
    case 3 =>
      (match a
      case "vst" => Some(7)
      case _ => None)
    case 4 =>
      (match a
      case "date" => Some(0)
      case "time" => Some(0)
      case "hora" => Some(0)
      case "zona" => Some(3)
      case _ => None)
    case 5 =>
      (match a
      case "fecha" => Some(0)
      case "genre" => Some(2)
      case "grupo" => Some(9)
      case "audio" => Some(11)
      case _ => None)
    case 6 =>
      (match a
      case "genero" => Some(2)
      case "género" => Some(2)
      case "region" => Some(3)
      case "región" => Some(3)
      case "device" => Some(4)
      case "length" => Some(8)
      case "format" => Some(10)
      case "idioma" => Some(11)
      case _ => None)
    case 7 =>
      (match a
      case "user_id" => Some(1)
      case "usuario" => Some(1)
      case "cliente" => Some(1)
      case "%_visto" => Some(6)
      case "segment" => Some(9)
      case "formato" => Some(10)
      case "calidad" => Some(10)
      case _ => None)
    case 8 =>
      (match a
      case "duration" => Some(8)
      case "duracion" => Some(8)
      case "duración" => Some(8)
      case "segmento" => Some(9)
      case "language" => Some(11)
      case "lenguaje" => Some(11)
      case _ => None)
    case 9 =>
      (match a
      case "timestamp" => Some(0)
      case "categoria" => Some(2)
      case "ubicacion" => Some(3)
      case _ => None)
    case 10 =>
      (match a
      case "id_usuario" => Some(1)
      case "id_cliente" => Some(1)
      case "usuario_id" => Some(1)
      case "tipo_video" => Some(2)
      case "territorio" => Some(3)
      case "plataforma" => Some(4)
      case "watch_time" => Some(5)
      case "screentime" => Some(5)
      case "completion" => Some(6)
      case "resolution" => Some(10)
      case "resolucion" => Some(10)
      case "audio_lang" => Some(11)
      case _ => None)
    case 11 =>
      (match a
      case "customer_id" => Some(1)
      case "dispositivo" => Some(4)
      case "completitud" => Some(6)
      case "largo_total" => Some(8)
      case _ => None)
    case 12 =>
      (match a
      case "fecha_evento" => Some(0)
      case "tiempo_visto" => Some(5)
      case "startup_time" => Some(7)
      case "video_format" => Some(10)
      case _ => None)
    case 13 =>
      (match a
      case "duracion_real" => Some(5)
      case "tiempo_inicio" => Some(7)
      case _ => None)
    case 14 =>
      (match a
      case "marca_temporal" => Some(0)
      case "minutos_vistos" => Some(5)
      case _ => None)
    case 15 =>
      (match a
      case "completion_rate" => Some(6)
      case "tasa_completado" => Some(6)
      case "segundos_inicio" => Some(7)
      case _ => None)
    case 18 =>
      (match a
      case "watch_time_minutes" => Some(5)
      case "video_startup_time" => Some(7)
      case _ => None)
    case 20 =>
      (match a
      case "minutos_reproducidos" => Some(5)
      case "tiempo_visualizacion" => Some(5)
      case _ => None)
    case 21 =>
      (match a
      case "porcentaje_completado" => Some(6)
      case _ => None)
    case _ => None
  }

  predicate ListedOnlyBy(aliases: seq<string>, e: nat) {
    forall j :: 0 <= j < |aliases| ==> AliasEntry(aliases[j]) == Some(e)
  }

  lemma TimestampAliasesOwned() ensures ListedOnlyBy(ColumnMap[0].aliases, 0) {}
  lemma UserIdAliasesOwned() ensures ListedOnlyBy(ColumnMap[1].aliases, 1) {}
  lemma GenreAliasesOwned() ensures ListedOnlyBy(ColumnMap[2].aliases, 2) {}
  lemma RegionAliasesOwned() ensures ListedOnlyBy(ColumnMap[3].aliases, 3) {}
  lemma DeviceAliasesOwned() ensures ListedOnlyBy(ColumnMap[4].aliases, 4) {}
  lemma WatchTimeAliasesOwned() ensures ListedOnlyBy(ColumnMap[5].aliases, 5) {}
  lemma CompletionAliasesOwned() ensures ListedOnlyBy(ColumnMap[6].aliases, 6) {}
  lemma StartupTimeAliasesOwned() ensures ListedOnlyBy(ColumnMap[7].aliases, 7) {}
  lemma DurationAliasesOwned() ensures ListedOnlyBy(ColumnMap[8].aliases, 8) {}
  lemma SegmentAliasesOwned() ensures ListedOnlyBy(ColumnMap[9].aliases, 9) {}
  lemma VideoFormatAliasesOwned() ensures ListedOnlyBy(ColumnMap[10].aliases, 10) {}
  lemma AudioLangAliasesOwned() ensures ListedOnlyBy(ColumnMap[11].aliases, 11) {}

  /** `AliasEntry` inverts the table: every alias of entry `e` maps back to `e`. */
  lemma AliasesOwned(e: nat)
    requires e < |ColumnMap|
    ensures ListedOnlyBy(ColumnMap[e].aliases, e)
  {
    if e == 0 { TimestampAliasesOwned(); } else if e == 1 { UserIdAliasesOwned(); } else if e == 2 { GenreAliasesOwned(); } else if e == 3 { RegionAliasesOwned(); } else if e == 4 { DeviceAliasesOwned(); } else if e == 5 { WatchTimeAliasesOwned(); } else if e == 6 { CompletionAliasesOwned(); } else if e == 7 { StartupTimeAliasesOwned(); } else if e == 8 { DurationAliasesOwned(); } else if e == 9 { SegmentAliasesOwned(); } else if e == 10 { VideoFormatAliasesOwned(); } else { AudioLangAliasesOwned(); }
  }

  /** Each alias of the alias table of `normalize_columns` is owned by the entry that lists it. */
  lemma ColumnMapOwned(a: string, e: nat)
    requires e < |ColumnMap| && a in ColumnMap[e].aliases
    ensures OwnedBy(ColumnMap, a, e)
  {
    AliasesOwned(e);
    forall f | 0 <= f < |ColumnMap| && a in ColumnMap[f].aliases ensures f == e {
      AliasesOwned(f);
    }
  }

  /** The alias lists of the alias table of `normalize_columns` are pairwise
      disjoint. */
  lemma ColumnMapDisjoint()
    ensures AliasesDisjoint(ColumnMap)
  {
    forall e | 0 <= e < |ColumnMap|
      ensures ListedOnlyBy(ColumnMap[e].aliases, e)
    {
      AliasesOwned(e);
    }
    forall e, f, i, j |
      0 <= e < |ColumnMap| && 0 <= f < |ColumnMap| && 0 <= i < |ColumnMap[e].aliases| && 0 <= j < |ColumnMap[f].aliases|
      && ColumnMap[e].aliases[i] == ColumnMap[f].aliases[j]
      ensures e == f
    {
    }
  }

  /** A header that is an alias of entry `e`, when no other header of the row
      is an alias of the same entry, always becomes that entry's canonical
      name, whatever its priority within the entry. */
  lemma SoleAliasRenamed(cols: seq<string>, k: nat, e: nat)
    requires k < |cols| && e < |ColumnMap|
    requires CleanHeader(cols[k]) in ColumnMap[e].aliases
    requires forall j :: 0 <= j < |cols| && j != k ==> AliasEntry(CleanHeader(cols[j])) != Some(e)
    ensures NormalizeColumns(cols)[k] == ColumnMap[e].target
  {
    var h := CleanHeader(cols[k]);
    var lowered := CleanHeaders(cols);
    var aliases := ColumnMap[e].aliases;
    AliasesOwned(e);
    assert lowered[k] == h;
    var i :| 0 <= i < |aliases| && aliases[i] == h;
    var p := FirstPresent(aliases, lowered);
    assert p.Some?;
    var j :| 0 <= j < |lowered| && lowered[j] == aliases[p.value];
    assert AliasEntry(lowered[j]) == Some(e);
    assert j == k;
    NormalizeColumnsAlias(cols, k, e);
  }
}
