/** Spreadsheet tab selection (`normalize_sheet_name`): a case-insensitive
    exact match wins; failing that, the first tab whose lowercased name
    contains the lowercased target; otherwise nothing. */
module Sheets {
  import opened Wrappers
  import opened Text

  /** The two passes of the search. */
  datatype MatchKind = Exact | Partial

  predicate NameMatches(name: string, targetLower: string, kind: MatchKind) {
    match kind
    case Exact => Lower(name) == targetLower
    case Partial => Contains(Lower(name), targetLower)
  }

  /** Index of the first name that matches in the given pass. */
  function FirstMatch(names: seq<string>, targetLower: string, kind: MatchKind): (r: Option<nat>)
    ensures r.Some? ==> r.value < |names| && NameMatches(names[r.value], targetLower, kind)
    ensures r.Some? ==> forall j :: 0 <= j < r.value ==> !NameMatches(names[j], targetLower, kind)
    ensures r.None? <==> forall j :: 0 <= j < |names| ==> !NameMatches(names[j], targetLower, kind)
    decreases |names|
  {
    if |names| == 0 then None
    else if NameMatches(names[0], targetLower, kind) then Some(0)
    else match FirstMatch(names[1..], targetLower, kind)
      case None => None
      case Some(i) => Some(i + 1)
  }

  /** The index of the tab `normalize_sheet_name` returns. */
  function SheetIndex(names: seq<string>, target: string): (r: Option<nat>)
    ensures r.Some? ==> r.value < |names| && Contains(Lower(names[r.value]), Lower(target))
    // an exact match anywhere beats every partial match, and the first exact match is taken
    ensures (exists i :: 0 <= i < |names| && Lower(names[i]) == Lower(target)) ==>
              r.Some? && Lower(names[r.value]) == Lower(target)
              && forall j :: 0 <= j < r.value ==> Lower(names[j]) != Lower(target)
    // without an exact match, the first tab containing the target is taken
    ensures (forall i :: 0 <= i < |names| ==> Lower(names[i]) != Lower(target)) && r.Some? ==>
              Contains(Lower(names[r.value]), Lower(target))
              && forall j :: 0 <= j < r.value ==> !Contains(Lower(names[j]), Lower(target))
    // nothing is found exactly when no tab contains the target
    ensures r.None? <==> forall i :: 0 <= i < |names| ==> !Contains(Lower(names[i]), Lower(target))
  {
    var t := Lower(target);
    match FirstMatch(names, t, Exact)
    case Some(i) =>
      ContainsSelf(t);
      Some(i)
    case None =>
      match FirstMatch(names, t, Partial)
      case Some(i) => Some(i)
      case None =>
        assert forall i :: 0 <= i < |names| ==> !NameMatches(names[i], t, Partial);
        None
  }

  /** `normalize_sheet_name(sheet_names, target)`. */
  function NormalizeSheetName(names: seq<string>, target: string): (r: Option<string>)
    ensures r.Some? ==> r.value in names && Contains(Lower(r.value), Lower(target))
    ensures r.None? <==> forall i :: 0 <= i < |names| ==> !Contains(Lower(names[i]), Lower(target))
  {
    match SheetIndex(names, target)
    case Some(i) => Some(names[i])
    case None => None
  }

  /** An exact (case-insensitive) match is preferred even when a tab that only
      contains the target comes earlier in the workbook. */
  lemma ExactBeatsEarlierPartial(names: seq<string>, target: string, i: nat, j: nat)
    requires j < i < |names|
    requires Lower(names[i]) == Lower(target)
    requires Contains(Lower(names[j]), Lower(target)) && Lower(names[j]) != Lower(target)
    requires forall k :: 0 <= k < i ==> Lower(names[k]) != Lower(target)
    ensures NormalizeSheetName(names, target) == Some(names[i])
  {
  }
}
