/** The pure helpers of the results table: range clamping and expanding,
    header labels and cells, the sort toggle, the selection rules and the
    case-insensitive option dedupe (client/src/Components/ResultsTable.tsx). */
module ResultsTable {
  import opened Wrappers
  import opened Strings
  import opened Interfaces
  import opened TableHelpers
  import opened ResultFilters
  import opened Sequences

  function Min(a: real, b: real): (r: real)
    ensures r <= a && r <= b && (r == a || r == b)
  {
    if a <= b then a else b
  }

  function Max(a: real, b: real): (r: real)
    ensures r >= a && r >= b && (r == a || r == b)
  {
    if a >= b then a else b
  }

  predicate Within(x: real, limits: Range) { limits.min <= x <= limits.max }

  /** `clampRange`: each bound is raised to the lower limit, then capped at
      the upper limit. */
  function ClampRange(range: Range, limits: Range): (r: Range)
    ensures limits.min <= limits.max ==> Within(r.min, limits) && Within(r.max, limits)
    ensures Within(range.min, limits) ==> r.min == range.min
    ensures Within(range.max, limits) ==> r.max == range.max
    ensures range.min <= range.max ==> r.min <= r.max
  {
    Range(Min(Max(range.min, limits.min), limits.max),
          Min(Max(range.max, limits.min), limits.max))
  }

  /** Clamping twice is clamping once. */
  lemma ClampRangeIdempotent(range: Range, limits: Range)
    requires limits.min <= limits.max
    ensures ClampRange(ClampRange(range, limits), limits) == ClampRange(range, limits)
  {
  }

  /** `clampFiltersToRanges`: the four ranges are clamped to their limits;
      scenario and tags are copied and a missing version becomes `''`. */
  function ClampFiltersToRanges(values: FilterValues, ranges: FilterRanges): (r: FilterValues)
    ensures r.scenario == values.scenario && r.tags == values.tags
    ensures r.boptestVersion == Some(values.boptestVersion.GetOr(""))
    ensures r.cost == ClampRange(values.cost, ranges.costRange)
    ensures r.thermalDiscomfort == ClampRange(values.thermalDiscomfort, ranges.thermalDiscomfortRange)
    ensures r.aqDiscomfort == ClampRange(values.aqDiscomfort, ranges.aqDiscomfortRange)
    ensures r.energy == ClampRange(values.energy, ranges.energyRange)
  {
    values.(cost := ClampRange(values.cost, ranges.costRange),
            thermalDiscomfort := ClampRange(values.thermalDiscomfort, ranges.thermalDiscomfortRange),
            aqDiscomfort := ClampRange(values.aqDiscomfort, ranges.aqDiscomfortRange),
            energy := ClampRange(values.energy, ranges.energyRange),
            boptestVersion := Some(values.boptestVersion.GetOr("")))
  }

  predicate WellFormedRanges(ranges: FilterRanges) {
    ranges.costRange.min <= ranges.costRange.max &&
    ranges.thermalDiscomfortRange.min <= ranges.thermalDiscomfortRange.max &&
    ranges.aqDiscomfortRange.min <= ranges.aqDiscomfortRange.max &&
    ranges.energyRange.min <= ranges.energyRange.max
  }

  lemma ClampFiltersIdempotent(values: FilterValues, ranges: FilterRanges)
    requires WellFormedRanges(ranges)
    ensures ClampFiltersToRanges(ClampFiltersToRanges(values, ranges), ranges)
         == ClampFiltersToRanges(values, ranges)
  {
    ClampRangeIdempotent(values.cost, ranges.costRange);
    ClampRangeIdempotent(values.thermalDiscomfort, ranges.thermalDiscomfortRange);
    ClampRangeIdempotent(values.aqDiscomfort, ranges.aqDiscomfortRange);
    ClampRangeIdempotent(values.energy, ranges.energyRange);
  }

  /** The eight bounds of two filter states agree. */
  predicate RangesMatch(a: FilterValues, b: FilterValues) {
    a.cost == b.cost && a.energy == b.energy &&
    a.thermalDiscomfort == b.thermalDiscomfort && a.aqDiscomfort == b.aqDiscomfort
  }

  /** The clamp effect: the previous filters are kept, as the same object,
      when clamping leaves all eight bounds as they were. */
  function ClampEffect(prev: FilterValues, ranges: FilterRanges): (r: FilterValues)
    ensures RangesMatch(prev, ClampFiltersToRanges(prev, ranges)) ==> r == prev
    ensures !RangesMatch(prev, ClampFiltersToRanges(prev, ranges)) ==>
      r == ClampFiltersToRanges(prev, ranges)
  {
    var clamped := ClampFiltersToRanges(prev, ranges);
    if RangesMatch(prev, clamped) then prev else clamped
  }

  /** The bounds after the effect are always the clamped ones, and a second
      run of the effect changes nothing. */
  lemma ClampEffectStable(prev: FilterValues, ranges: FilterRanges)
    requires WellFormedRanges(ranges)
    ensures RangesMatch(ClampEffect(prev, ranges), ClampFiltersToRanges(prev, ranges))
    ensures ClampEffect(ClampEffect(prev, ranges), ranges) == ClampEffect(prev, ranges)
  {
    var once := ClampEffect(prev, ranges);
    ClampFiltersIdempotent(prev, ranges);
    assert RangesMatch(once, ClampFiltersToRanges(once, ranges));
  }

  /** `expandRange`: the smallest range holding both. */
  function ExpandRange(current: Range, active: Range): (r: Range)
    ensures r.min <= current.min && r.min <= active.min && (r.min == current.min || r.min == active.min)
    ensures r.max >= current.max && r.max >= active.max && (r.max == current.max || r.max == active.max)
  {
    Range(Min(current.min, active.min), Max(current.max, active.max))
  }

  function ExpandRanges(computed: FilterRanges, filters: FilterValues): (r: FilterRanges)
    ensures r.costRange == ExpandRange(computed.costRange, filters.cost)
    ensures r.thermalDiscomfortRange == ExpandRange(computed.thermalDiscomfortRange, filters.thermalDiscomfort)
    ensures r.aqDiscomfortRange == ExpandRange(computed.aqDiscomfortRange, filters.aqDiscomfort)
    ensures r.energyRange == ExpandRange(computed.energyRange, filters.energy)
  {
    FilterRanges(ExpandRange(computed.costRange, filters.cost),
                 ExpandRange(computed.thermalDiscomfortRange, filters.thermalDiscomfort),
                 ExpandRange(computed.aqDiscomfortRange, filters.aqDiscomfort),
                 ExpandRange(computed.energyRange, filters.energy))
  }

  predicate WellFormedFilters(f: FilterValues) {
    f.cost.min <= f.cost.max && f.energy.min <= f.energy.max &&
    f.thermalDiscomfort.min <= f.thermalDiscomfort.max && f.aqDiscomfort.min <= f.aqDiscomfort.max
  }

  /** Ranges expanded around the active filters never clamp them: the clamp
      effect that follows keeps the filters as they are. */
  lemma ExpandedRangesKeepFilters(computed: FilterRanges, filters: FilterValues)
    requires WellFormedFilters(filters)
    ensures ClampEffect(filters, ExpandRanges(computed, filters)) == filters
  {
    var ranges := ExpandRanges(computed, filters);
    assert RangesMatch(filters, ClampFiltersToRanges(filters, ranges));
  }

  /** The characters at which `.` in a regular expression stops. */
  predicate IsLineTerminator(c: char) {
    c == '\n' || c == '\r' || c == '\U{2028}' || c == '\U{2029}'
  }

  datatype HeaderLabel = HeaderLabel(main: string, unit: Option<string>)

  /** `.` matches every character of `s`. */
  predicate NoLineBreak(s: string) {
    forall i :: 0 <= i < |s| ==> !IsLineTerminator(s[i])
  }

  /** `(\[.*?\])$` matches `text` from position `p` to its end. */
  predicate UnitAt(text: string, p: nat) {
    p + 2 <= |text| && text[p] == '[' && text[|text| - 1] == ']' &&
    NoLineBreak(text[p + 1..|text| - 1])
  }

  /** `/^(.*?)\s*(\[.*?\])$/` can match `text` with the first group taking
      `text[..n]`, `\s*` taking `text[n..p]` and the unit group the rest. */
  predicate SplitAt(text: string, n: nat, p: nat) {
    n <= p <= |text| && NoLineBreak(text[..n]) && AllSpace(text[n..p]) && UnitAt(text, p)
  }

  /** The split the pattern reports: the lazy first group takes the
      shortest prefix that admits a split. */
  ghost predicate FirstSplit(text: string, n: nat, p: nat) {
    SplitAt(text, n, p) && forall m: nat, q: nat :: m < n ==> !SplitAt(text, m, q)
  }

  /** Where the greedy `\s*` that starts at `n` stops. */
  function SpaceEnd(text: string, n: nat): (p: nat)
    requires n <= |text|
    ensures n <= p <= |text| && AllSpace(text[n..p])
    ensures p < |text| ==> !IsSpace(text[p])
  {
    var s := text[n..];
    var r := TrimStart(s);
    var p := |text| - |r|;
    assert text[n..p] == s[..|s| - |r|];
    assert p < |text| ==> text[p] == r[0];
    p
  }

  /** A split after `text[..n]` can only put the unit where `\s*` stops. */
  lemma {:induction false} SplitPosition(text: string, n: nat, p: nat)
    ensures SplitAt(text, n, p) ==> p == SpaceEnd(text, n)
  {
    if n <= p <= |text| {
      var e := SpaceEnd(text, n);
      assert p < e ==> text[n..e][p - n] == text[p];
      assert e < p ==> text[n..p][e - n] == text[e];
    }
  }

  /** The backtracking search: `(.*?)` tries `text[..n]` for n = 0, 1, ...,
      and gives up at the end of the text or at a line break. For each n
      only the longest run of `\s*` can lead to a unit. A prefix after
      which only white space is left lets the pattern match without the
      unit group, which ends the search with no unit as well. */
  function Scan(text: string, n: nat): (r: Option<nat>)
    requires n <= |text|
    ensures r.Some? ==> n <= r.value <= |text|
    decreases |text| - n
  {
    var p := SpaceEnd(text, n);
    if UnitAt(text, p) then Some(n)
    else if p == |text| || IsLineTerminator(text[n]) then None
    else Scan(text, n + 1)
  }

  /** The search finds the first split from `n` on, and none when there is
      none. */
  lemma {:induction false} ScanFacts(text: string, n: nat)
    requires n <= |text| && NoLineBreak(text[..n])
    ensures Scan(text, n).Some? ==>
      var k := Scan(text, n).value;
      SplitAt(text, k, SpaceEnd(text, k)) &&
      forall m: nat, q: nat :: n <= m < k ==> !SplitAt(text, m, q)
    ensures Scan(text, n).None? ==> forall m: nat, q: nat :: n <= m ==> !SplitAt(text, m, q)
    decreases |text| - n
  {
    var p := SpaceEnd(text, n);
    if UnitAt(text, p) {
      assert Scan(text, n) == Some(n);
      assert SplitAt(text, n, p);
    } else if p == |text| || IsLineTerminator(text[n]) {
      assert Scan(text, n) == None;
      NoSplitAtOrAfter(text, n);
    } else {
      assert Scan(text, n) == Scan(text, n + 1);
      NoLineBreakExtends(text, n);
      ScanFacts(text, n + 1);
      NoSplitHere(text, n);
      if Scan(text, n + 1).Some? {
        NoSplitFromHereTo(text, n, Scan(text, n + 1).value);
      } else {
        NoSplitFromHere(text, n);
      }
    }
  }

  /** A prefix without line breaks stays so when a non-terminator follows. */
  lemma {:induction false} NoLineBreakExtends(text: string, n: nat)
    requires n < |text| && NoLineBreak(text[..n]) && !IsLineTerminator(text[n])
    ensures NoLineBreak(text[..n + 1])
  {
    assert text[..n + 1] == text[..n] + [text[n]];
  }

  /** Where the search gives up, no split exists from `n` on. */
  lemma {:induction false} NoSplitAtOrAfter(text: string, n: nat)
    requires n <= |text| && !UnitAt(text, SpaceEnd(text, n))
    requires SpaceEnd(text, n) == |text| || (n < |text| && IsLineTerminator(text[n]))
    ensures forall m: nat, q: nat :: n <= m ==> !SplitAt(text, m, q)
  {
    NoSplitHere(text, n);
    if SpaceEnd(text, n) == |text| {
      NoSplitAfterSpaces(text, n);
    } else {
      NoSplitAfterBreak(text, n);
    }
    NoSplitFromHere(text, n);
  }

  /** No split at `n` and none in `n + 1 .. k - 1`: none in `n .. k - 1`. */
  lemma {:induction false} NoSplitFromHereTo(text: string, n: nat, k: nat)
    requires forall q: nat :: !SplitAt(text, n, q)
    requires forall m: nat, q: nat :: n + 1 <= m < k ==> !SplitAt(text, m, q)
    ensures forall m: nat, q: nat :: n <= m < k ==> !SplitAt(text, m, q)
  {
    forall m: nat, q: nat | n <= m < k ensures !SplitAt(text, m, q) {
      assert m == n || n + 1 <= m < k;
    }
  }

  /** No split at `n` and none from `n + 1` on: none from `n` on. */
  lemma {:induction false} NoSplitFromHere(text: string, n: nat)
    requires forall q: nat :: !SplitAt(text, n, q)
    requires forall m: nat, q: nat :: n + 1 <= m ==> !SplitAt(text, m, q)
    ensures forall m: nat, q: nat :: n <= m ==> !SplitAt(text, m, q)
  {
    forall m: nat, q: nat | n <= m ensures !SplitAt(text, m, q) {
      assert m == n || n + 1 <= m;
    }
  }

  lemma {:induction false} NoSplitHere(text: string, n: nat)
    requires n <= |text| && !UnitAt(text, SpaceEnd(text, n))
    ensures forall q: nat :: !SplitAt(text, n, q)
  {
    forall q: nat ensures !SplitAt(text, n, q) {
      SplitPosition(text, n, q);
    }
  }

  /** Once only white space is left, no later split exists. */
  lemma {:induction false} NoSplitAfterSpaces(text: string, n: nat)
    requires n <= |text| && SpaceEnd(text, n) == |text|
    ensures forall m: nat, q: nat :: n < m ==> !SplitAt(text, m, q)
  {
    forall m: nat, q: nat | n < m ensures !SplitAt(text, m, q) {
      assert n <= q < |text| ==> text[n..|text|][q - n] == text[q];
    }
  }

  /** `(.*?)` cannot reach past a line break. */
  lemma {:induction false} NoSplitAfterBreak(text: string, n: nat)
    requires n < |text| && IsLineTerminator(text[n])
    ensures forall m: nat, q: nat :: n < m ==> !SplitAt(text, m, q)
  {
    forall m: nat, q: nat | n < m ensures !SplitAt(text, m, q) {
      assert m <= |text| ==> text[..m][n] == text[n];
    }
  }

  /** `parseHeaderLabel`: `/^(.*?)\s*(\[.*?\])?$/` matched against the
      label. When the unit group takes part, the main text is the first
      group trimmed and the unit is the bracketed rest; otherwise the label
      is returned whole with no unit. */
  function ParseHeaderLabel(text: string): (r: HeaderLabel)
    ensures r.unit.Some? <==> exists n: nat, p: nat :: SplitAt(text, n, p)
    ensures r.unit.None? ==> r.main == text
    ensures r.unit.Some? ==> exists n: nat, p: nat ::
      FirstSplit(text, n, p) && r.main == Trim(text[..n]) && r.unit.value == text[p..]
  {
    ScanFacts(text, 0);
    match Scan(text, 0)
    case None => HeaderLabel(text, None)
    case Some(n) =>
      var p := SpaceEnd(text, n);
      assert FirstSplit(text, n, p);
      HeaderLabel(Trim(text[..n]), Some(text[p..]))
  }

  /** A head cell of the table. */
  datatype HeadCell = HeadCell(id: Column, numeric: bool, disablePadding: bool, labelText: string)

  const BaseHeadCells: seq<HeadCell> := [
    HeadCell(BuildingTypeName, false, false, "Test Case"),
    HeadCell(DateRun, false, false, "Date Run"),
    HeadCell(TotalEnergy, true, false, "Total Energy [kWh/m^2]"),
    HeadCell(ThermalDiscomfort, true, false, "Thermal Discomfort [Kh/zone]"),
    HeadCell(AqDiscomfort, true, false, "Indoor Air Quality Discomfort [ppmh/zone]"),
    HeadCell(Cost, true, false, "Total Operations Cost [$ or Euro/m^2]"),
    HeadCell(PeakElectricity, true, false, "Peak Electrical Demand [kW/m2]"),
    HeadCell(PeakGas, true, false, "Peak Gas Demand [kW/m2]"),
    HeadCell(PeakDistrictHeating, true, false, "Peak District Heating Demand [kW/m2]"),
    HeadCell(CompTimeRatio, true, false, "Computational Time Ratio [-]")
  ]

  const ShareHeadCell := HeadCell(IsShared, false, false, "Shared")

  /** `buildHeadCells`: the ten base cells, and the share column after them
      when it is wanted. */
  function BuildHeadCells(includeShareColumn: bool): (r: seq<HeadCell>)
    ensures !includeShareColumn ==> r == BaseHeadCells && |r| == 10
    ensures includeShareColumn ==> |r| == 11 && r[..10] == BaseHeadCells && r[10].id == IsShared
    ensures forall i, j :: 0 <= i < j < |r| ==> r[i].id != r[j].id
  {
    if includeShareColumn then BaseHeadCells + [ShareHeadCell] else BaseHeadCells
  }

  /** A text without `[` or line breaks that does not end in white space,
      then white space, then a bracketed unit without line breaks, splits
      into the trimmed text and the unit: "Cost\n[$]" gives "Cost" and "[$]". */
  lemma {:induction false} ParseHeaderLabelSplits(main: string, ws: string, unit: string)
    requires '[' !in main && NoLineBreak(main) && NoLineBreak(unit)
    requires main == [] || !IsSpace(main[|main| - 1])
    requires AllSpace(ws)
    ensures ParseHeaderLabel(main + ws + "[" + unit + "]") == HeaderLabel(Trim(main), Some("[" + unit + "]"))
  {
    var u := "[" + unit + "]";
    var t := main + ws + "[" + unit + "]";
    var k, b := |main|, |main| + |ws|;
    assert t == (main + ws) + u && t[b..] == u;
    assert t[..k] == main && t[k..b] == ws && t[b] == '[' && t[|t| - 1] == ']';
    assert t[b + 1..|t| - 1] == unit;
    assert SplitAt(t, k, b);
    forall m: nat, q: nat | m < k ensures !SplitAt(t, m, q) {
      assert q < k ==> t[q] == main[q];
      assert m <= k - 1 < q <= |t| ==> t[m..q][k - 1 - m] == main[k - 1];
    }
    var r := ParseHeaderLabel(t);
    var n: nat, p: nat :| FirstSplit(t, n, p) && r.main == Trim(t[..n]) && r.unit.value == t[p..];
    assert n == k;
    SplitPosition(t, k, b);
    SplitPosition(t, n, p);
  }


  /** The sort toggle: a second click on the column sorted ascending sorts
      it descending; every other click sorts ascending. */
  function NextOrder(order: Order, orderBy: Column, property: Column): (r: Order)
    ensures r == Desc <==> orderBy == property && order == Asc
  {
    if orderBy == property && order == Asc then Desc else Asc
  }

  /** Clicking the same column again and again alternates the direction. */
  lemma NextOrderAlternates(order: Order, property: Column)
    ensures NextOrder(NextOrder(order, property, property), property, property) == order
  {
  }

  /** The selector `x => x !== id`. */
  function OtherThan(id: int): int -> bool {
    x => x != id
  }

  function Removed(s: seq<int>, id: int): (r: seq<int>)
    ensures forall x :: x in r <==> x in s && x != id
  {
    Filter(s, OtherThan(id))
  }

  /** `handleCheckboxClick`: a present id is taken out, an absent one is
      added at the end. */
  function Toggled(selected: seq<int>, id: int): (r: seq<int>)
    ensures id in selected ==> id !in r && r == Removed(selected, id)
    ensures id !in selected ==> r == selected + [id]
  {
    if id in selected then Removed(selected, id) else selected + [id]
  }

  /** A selection never holds an id twice, and clicking an id twice gives
      back a selection with the same members. */
  lemma ToggleKeepsNoDuplicates(selected: seq<int>, id: int)
    requires NoDuplicates(selected)
    ensures NoDuplicates(Toggled(selected, id))
    ensures forall x :: x in Toggled(Toggled(selected, id), id) <==> x in selected
  {
    if id in selected {
      FilterKeepsNoDuplicates(selected, OtherThan(id));
    }
  }

  /** Clicking an id that is not selected and then clicking it again
      restores the selection exactly. */
  lemma ToggleTwiceRestores(selected: seq<int>, id: int)
    requires id !in selected
    ensures Toggled(Toggled(selected, id), id) == selected
  {
    var keep := OtherThan(id);
    FilterConcat(selected, [id], keep);
    FilterAllKept(selected, keep);
    assert Filter([id], keep) == [];
  }

  function RowIds(rows: seq<Data>): (r: seq<int>)
    ensures |r| == |rows| && forall i :: 0 <= i < |rows| ==> r[i] == rows[i].id
  {
    if rows == [] then [] else [rows[0].id] + RowIds(rows[1..])
  }

  /** Selection pruning: only the ids of rows still shown are kept, in
      their order. */
  function Pruned(selected: seq<int>, filteredRows: seq<Data>): (r: seq<int>)
    ensures forall x :: x in r <==> x in selected && x in RowIds(filteredRows)
  {
    Filter(selected, x => x in RowIds(filteredRows))
  }

  /** Pruning keeps the order of the selection and every copy of a kept id. */
  lemma {:induction false} PrunedKeepsOrder(a: seq<int>, b: seq<int>, filteredRows: seq<Data>, x: int)
    ensures Pruned(a + b, filteredRows) == Pruned(a, filteredRows) + Pruned(b, filteredRows)
    ensures multiset(Pruned(a, filteredRows))[x] == if x in RowIds(filteredRows) then multiset(a)[x] else 0
  {
    var keep := x => x in RowIds(filteredRows);
    FilterConcat(a, b, keep);
    FilterMultiset(a, keep, x);
  }

  /** Pruning twice is pruning once, and a selection made of shown rows is
      left as it is. */
  lemma PrunedIdempotent(selected: seq<int>, filteredRows: seq<Data>)
    ensures Pruned(Pruned(selected, filteredRows), filteredRows) == Pruned(selected, filteredRows)
    ensures (forall i :: 0 <= i < |selected| ==> selected[i] in RowIds(filteredRows)) ==>
      Pruned(selected, filteredRows) == selected
  {
    var keep := x => x in RowIds(filteredRows);
    var once := Pruned(selected, filteredRows);
    assert forall i :: 0 <= i < |once| ==> keep(once[i]) by {
      forall i | 0 <= i < |once| ensures keep(once[i]) {
        assert once[i] in once;
      }
    }
    FilterAllKept(once, keep);
    if forall i :: 0 <= i < |selected| ==> selected[i] in RowIds(filteredRows) {
      FilterAllKept(selected, keep);
    }
  }

  /** `handleSelectAllClick` on an enabled table. */
  function SelectAll(checked: bool, filteredRows: seq<Data>): (r: seq<int>)
    ensures checked ==> r == RowIds(filteredRows)
    ensures !checked ==> r == []
  {
    if checked then RowIds(filteredRows) else []
  }

  /** Select-all picks only rows that are shown, so pruning keeps it whole. */
  lemma SelectAllSurvivesPruning(checked: bool, filteredRows: seq<Data>)
    ensures Pruned(SelectAll(checked, filteredRows), filteredRows) == SelectAll(checked, filteredRows)
  {
    var s := SelectAll(checked, filteredRows);
    assert forall i :: 0 <= i < |s| ==> s[i] in RowIds(filteredRows) by {
      forall i | 0 <= i < |s| ensures s[i] in RowIds(filteredRows) {
        assert s[i] in s;
      }
    }
    PrunedIdempotent(s, filteredRows);
  }

  /** A raw value as the dedupe sees it: trimmed, under its lower-case key;
      a blank value has an empty text. */
  function Normalize(v: string): (r: (string, string))
    ensures r.1 == Trim(v) && r.0 == Lower(r.1)
  {
    var t := Trim(v);
    (Lower(t), t)
  }

  function Normalized(values: seq<string>): (r: seq<(string, string)>)
    ensures |r| == |values| && forall i :: 0 <= i < |values| ==> r[i] == Normalize(values[i])
  {
    if values == [] then [] else [Normalize(values[0])] + Normalized(values[1..])
  }

  /** The `Map` the dedupe fills: per lower-case key, in order of first
      appearance, the first non-blank spelling; later spellings of a key
      are ignored. */
  function StoreOf(pairs: seq<(string, string)>): (r: seq<(string, string)>)
    decreases |pairs|
  {
    if pairs == [] then []
    else
      var store := StoreOf(pairs[..|pairs| - 1]);
      var p := pairs[|pairs| - 1];
      if p.1 == [] || p.0 in Keys(store) then store else store + [p]
  }

  /** `pairs[j]` is non-blank and the first non-blank value with its key. */
  predicate FirstOfKey(pairs: seq<(string, string)>, j: int)
    requires 0 <= j < |pairs|
  {
    pairs[j].1 != [] && forall k :: 0 <= k < j && pairs[k].1 != [] ==> pairs[k].0 != pairs[j].0
  }

  ghost predicate IsFirstEntry(pairs: seq<(string, string)>, e: (string, string)) {
    exists j :: 0 <= j < |pairs| && FirstOfKey(pairs, j) && e == pairs[j]
  }

  /** The store holds one entry per key. */
  lemma {:induction false} StoreDistinct(pairs: seq<(string, string)>)
    ensures DistinctKeys(StoreOf(pairs))
    decreases |pairs|
  {
    if pairs != [] {
      var init := pairs[..|pairs| - 1];
      StoreDistinct(init);
      var store := StoreOf(init);
      var p := pairs[|pairs| - 1];
      if p.1 != [] && p.0 !in Keys(store) {
        PutKeepsDistinct(store, p.0, p.1);
      }
    }
  }

  /** Every non-blank value has its key in the store. */
  lemma {:induction false} StoreCovers(pairs: seq<(string, string)>, j: nat)
    requires j < |pairs| && pairs[j].1 != []
    ensures pairs[j].0 in Keys(StoreOf(pairs))
    decreases |pairs|
  {
    var n := |pairs| - 1;
    var init := pairs[..n];
    var store := StoreOf(init);
    var p := pairs[n];
    if p.1 != [] && p.0 !in Keys(store) {
      assert StoreOf(pairs) == store + [p];
      KeysAppend(store, p);
    } else {
      assert StoreOf(pairs) == store;
    }
    if j < n {
      assert init[j] == pairs[j];
      StoreCovers(init, j);
    }
  }

  /** The entries of the store are exactly the values that are first to
      bring their key. */
  lemma {:induction false} StoreEntries(pairs: seq<(string, string)>, e: (string, string))
    ensures e in StoreOf(pairs) <==> IsFirstEntry(pairs, e)
    decreases |pairs|, 1
  {
    if pairs != [] {
      var n := |pairs| - 1;
      var init := pairs[..n];
      var store := StoreOf(init);
      var p := pairs[n];
      StoreEntries(init, e);
      if p.1 == [] || p.0 in Keys(store) {
        if p.1 != [] {
          LastNotFirst(pairs);
        }
        StoreEntriesSkip(pairs, e);
      } else {
        assert FirstOfKey(pairs, n) by {
          forall k | 0 <= k < n && pairs[k].1 != [] ensures pairs[k].0 != p.0 {
            assert pairs[k] == init[k];
            StoreCovers(init, k);
          }
        }
        StoreEntriesAdd(pairs, e);
      }
    }
  }

  /** A last value whose key is already stored is not first of its key. */
  lemma {:induction false} LastNotFirst(pairs: seq<(string, string)>)
    requires pairs != [] && pairs[|pairs| - 1].1 != []
    requires pairs[|pairs| - 1].0 in Keys(StoreOf(pairs[..|pairs| - 1]))
    ensures !FirstOfKey(pairs, |pairs| - 1)
    decreases |pairs|, 0
  {
    var n := |pairs| - 1;
    var init := pairs[..n];
    var store := StoreOf(init);
    var m :| 0 <= m < |store| && Keys(store)[m] == pairs[n].0;
    StoreEntries(init, store[m]);
    assert store[m] in store;
    var j :| 0 <= j < |init| && FirstOfKey(init, j) && store[m] == init[j];
    assert pairs[j] == init[j];
  }

  lemma StoreEntriesSkip(pairs: seq<(string, string)>, e: (string, string))
    requires pairs != []
    requires e in StoreOf(pairs[..|pairs| - 1]) <==> IsFirstEntry(pairs[..|pairs| - 1], e)
    requires StoreOf(pairs) == StoreOf(pairs[..|pairs| - 1]) && !FirstOfKey(pairs, |pairs| - 1)
    ensures e in StoreOf(pairs) <==> IsFirstEntry(pairs, e)
  {
    var n := |pairs| - 1;
    var init := pairs[..n];
    PrefixFirstOfKey(pairs);
    if IsFirstEntry(pairs, e) {
      var j :| 0 <= j < |pairs| && FirstOfKey(pairs, j) && e == pairs[j];
      assert j < n && FirstOfKey(init, j);
    }
    if IsFirstEntry(init, e) {
      var j :| 0 <= j < |init| && FirstOfKey(init, j) && e == init[j];
      assert FirstOfKey(pairs, j) && e == pairs[j];
    }
  }

  lemma StoreEntriesAdd(pairs: seq<(string, string)>, e: (string, string))
    requires pairs != []
    requires e in StoreOf(pairs[..|pairs| - 1]) <==> IsFirstEntry(pairs[..|pairs| - 1], e)
    requires StoreOf(pairs) == StoreOf(pairs[..|pairs| - 1]) + [pairs[|pairs| - 1]]
    requires FirstOfKey(pairs, |pairs| - 1)
    ensures e in StoreOf(pairs) <==> IsFirstEntry(pairs, e)
  {
    var n := |pairs| - 1;
    var init := pairs[..n];
    PrefixFirstOfKey(pairs);
    if IsFirstEntry(pairs, e) {
      var j :| 0 <= j < |pairs| && FirstOfKey(pairs, j) && e == pairs[j];
      if j < n {
        assert FirstOfKey(init, j);
      }
    }
    if IsFirstEntry(init, e) {
      var j :| 0 <= j < |init| && FirstOfKey(init, j) && e == init[j];
      assert FirstOfKey(pairs, j) && e == pairs[j];
    }
  }

  /** The first-of-key entries before the last value are those of the
      shorter sequence. */
  lemma PrefixFirstOfKey(pairs: seq<(string, string)>)
    requires pairs != []
    ensures forall j :: 0 <= j < |pairs| - 1 ==> pairs[j] == pairs[..|pairs| - 1][j]
    ensures forall j :: 0 <= j < |pairs| - 1 ==> (FirstOfKey(pairs, j) <==> FirstOfKey(pairs[..|pairs| - 1], j))
  {
  }

  function StoreValues(store: seq<(string, string)>): (r: seq<string>)
    ensures |r| == |store| && forall i :: 0 <= i < |store| ==> r[i] == store[i].1
  {
    if store == [] then [] else [store[0].1] + StoreValues(store[1..])
  }

  /** The options shown: the distinct spellings, sorted case-insensitively
      (`localeCompare` with base sensitivity). */
  function DedupedOptions(values: seq<string>): (r: seq<string>)
    ensures SortedByKey(r, Lower)
    ensures multiset(r) == multiset(StoreValues(StoreOf(Normalized(values))))
  {
    SortByKey(StoreValues(StoreOf(Normalized(values))), Lower)
  }

  /** The value `values[j]` is shown: it is not blank and no earlier value
      equals it ignoring case and surrounding white space. */
  predicate FirstSpelling(values: seq<string>, j: int)
    requires 0 <= j < |values|
  {
    FirstOfKey(Normalized(values), j)
  }

  /** An option is shown exactly when it is the first trimmed spelling of
      its key. */
  lemma DedupedOptionsMembers(values: seq<string>, x: string)
    ensures x in DedupedOptions(values) <==>
      exists j :: 0 <= j < |values| && FirstSpelling(values, j) && x == Trim(values[j])
  {
    var vs := StoreValues(StoreOf(Normalized(values)));
    var r := DedupedOptions(values);
    assert x in r <==> x in vs by {
      assert x in r <==> x in multiset(r);
      assert x in vs <==> x in multiset(vs);
    }
    if x in vs {
      var m :| 0 <= m < |vs| && vs[m] == x;
      StoredValueIsFirst(values, m);
    }
    if exists j :: 0 <= j < |values| && FirstSpelling(values, j) && x == Trim(values[j]) {
      var j :| 0 <= j < |values| && FirstSpelling(values, j) && x == Trim(values[j]);
      FirstSpellingIsStored(values, j);
    }
  }

  lemma StoredValueIsFirst(values: seq<string>, m: nat)
    requires m < |StoreOf(Normalized(values))|
    ensures exists j :: (0 <= j < |values| && FirstSpelling(values, j) &&
      StoreValues(StoreOf(Normalized(values)))[m] == Trim(values[j]))
  {
    var pairs := Normalized(values);
    var store := StoreOf(pairs);
    assert store[m] in store;
    StoreEntries(pairs, store[m]);
    var j :| 0 <= j < |pairs| && FirstOfKey(pairs, j) && store[m] == pairs[j];
    assert StoreValues(store)[m] == Trim(values[j]);
  }

  lemma FirstSpellingIsStored(values: seq<string>, j: nat)
    requires j < |values| && FirstSpelling(values, j)
    ensures Trim(values[j]) in StoreValues(StoreOf(Normalized(values)))
  {
    var pairs := Normalized(values);
    var store := StoreOf(pairs);
    StoreEntries(pairs, pairs[j]);
    var m :| 0 <= m < |store| && store[m] == pairs[j];
    assert StoreValues(store)[m] == Trim(values[j]);
  }

  /** Every entry of the store sits under the lower-case form of its value. */
  lemma StoreKeyIsLower(values: seq<string>, m: nat)
    requires m < |StoreOf(Normalized(values))|
    ensures StoreOf(Normalized(values))[m].0 == Lower(StoreOf(Normalized(values))[m].1)
  {
    var pairs := Normalized(values);
    var store := StoreOf(pairs);
    assert store[m] in store;
    StoreEntries(pairs, store[m]);
  }

  /** No two options differ only in case. */
  lemma DedupedOptionsDistinct(values: seq<string>)
    ensures var r := DedupedOptions(values);
      forall i, k :: 0 <= i < k < |r| ==> Lower(r[i]) != Lower(r[k])
  {
    var store := StoreOf(Normalized(values));
    var vs := StoreValues(store);
    assert forall a, b :: 0 <= a < b < |vs| ==> Lower(vs[a]) != Lower(vs[b]) by {
      StoreDistinct(Normalized(values));
      forall a, b | 0 <= a < b < |vs| ensures Lower(vs[a]) != Lower(vs[b]) {
        StoreKeyIsLower(values, a);
        StoreKeyIsLower(values, b);
      }
    }
    LowerDistinctPermuted(vs, DedupedOptions(values));
  }

  /** Reordering keeps texts apart ignoring case. */
  lemma LowerDistinctPermuted(vs: seq<string>, r: seq<string>)
    requires multiset(vs) == multiset(r)
    requires forall a, b :: 0 <= a < b < |vs| ==> Lower(vs[a]) != Lower(vs[b])
    ensures forall i, k :: 0 <= i < k < |r| ==> Lower(r[i]) != Lower(r[k])
  {
    assert NoDuplicates(vs) by {
      forall a, b | 0 <= a < b < |vs| ensures vs[a] != vs[b] {
        assert Lower(vs[a]) != Lower(vs[b]);
      }
    }
    PermutationKeepsNoDuplicates(vs, r);
    forall i, k | 0 <= i < k < |r| ensures Lower(r[i]) != Lower(r[k]) {
      assert r[i] in multiset(vs) && r[k] in multiset(vs);
      var a :| 0 <= a < |vs| && vs[a] == r[i];
      var b :| 0 <= b < |vs| && vs[b] == r[k];
      assert a != b;
      if a > b {
        assert Lower(vs[b]) != Lower(vs[a]);
      }
    }
  }

  /** Every value that is not blank is represented by an option equal to it
      ignoring case. */
  lemma DedupedOptionsCover(values: seq<string>, j: nat)
    requires j < |values| && Trim(values[j]) != []
    ensures exists i :: (0 <= i < |DedupedOptions(values)| &&
      Lower(DedupedOptions(values)[i]) == Lower(Trim(values[j])))
  {
    var pairs := Normalized(values);
    var store := StoreOf(pairs);
    var vs := StoreValues(store);
    var r := DedupedOptions(values);
    StoreCovers(pairs, j);
    var m :| 0 <= m < |store| && Keys(store)[m] == pairs[j].0;
    StoreKeyIsLower(values, m);
    assert vs[m] in multiset(r);
    var i :| 0 <= i < |r| && r[i] == vs[m];
  }

  /** `tagOptions`, whose dedupe loop is `DedupeTags`: the tags of the
      chosen building type's facet, or of every facet when no building
      type is chosen. */
  function TagSource(buildingTypeFilter: string, facets: seq<ResultFacet>): (r: seq<string>)
    ensures buildingTypeFilter == [] ==> r == AllTags(facets)
    ensures buildingTypeFilter != [] && FindFacet(facets, buildingTypeFilter).None? ==> r == []
    ensures buildingTypeFilter != [] && FindFacet(facets, buildingTypeFilter).Some? ==>
      r == facets[FindFacet(facets, buildingTypeFilter).value].tags
  {
    if buildingTypeFilter == [] then AllTags(facets)
    else
      var f := FindFacet(facets, buildingTypeFilter);
      if f.None? then [] else facets[f.value].tags
  }

  function AllTags(facets: seq<ResultFacet>): seq<string> {
    if facets == [] then [] else facets[0].tags + AllTags(facets[1..])
  }

  /** The tag dedupe loop, filling the normalised store tag by tag and then
      sorting its values. */
  method DedupeTags(tags: seq<string>) returns (options: seq<string>)
    ensures options == DedupedOptions(tags)
  {
    var store: seq<(string, string)> := [];
    var i := 0;
    while i < |tags|
      invariant 0 <= i <= |tags|
      invariant store == StoreOf(Normalized(tags)[..i])
    {
      DedupeStep(tags, i, store);
      store := AddSpelling(store, tags[i]);
      i := i + 1;
    }
    DedupeDone(tags);
    options := SortByKey(StoreValues(store), Lower);
  }

  /** The `forEach` body: a non-blank trimmed value is stored under its
      lower-case key unless the key is already there. */
  function AddSpelling(store: seq<(string, string)>, value: string): (r: seq<(string, string)>)
    ensures var p := Normalize(value);
      r == if p.1 == [] || p.0 in Keys(store) then store else store + [p]
  {
    var normalized := Trim(value);
    if normalized == [] then store
    else
      var key := Lower(normalized);
      if Get(store, key).None? then Put(store, key, normalized) else store
  }

  lemma DedupeStep(tags: seq<string>, i: nat, store: seq<(string, string)>)
    requires i < |tags| && store == StoreOf(Normalized(tags)[..i])
    ensures AddSpelling(store, tags[i]) == StoreOf(Normalized(tags)[..i + 1])
  {
    StoreStep(Normalized(tags), i);
  }

  lemma DedupeDone(tags: seq<string>)
    ensures StoreOf(Normalized(tags)[..|tags|]) == StoreOf(Normalized(tags))
  {
    assert Normalized(tags)[..|tags|] == Normalized(tags);
  }

  /** One more value, as the `forEach` body handles it. */
  lemma StoreStep(pairs: seq<(string, string)>, i: nat)
    requires i < |pairs|
    ensures var store := StoreOf(pairs[..i]);
      StoreOf(pairs[..i + 1]) ==
        (if pairs[i].1 == [] || pairs[i].0 in Keys(store) then store else store + [pairs[i]])
  {
    assert pairs[..i + 1][..i] == pairs[..i] && pairs[..i + 1][i] == pairs[i];
  }

  /** All values a scenario key has across the facets, in facet order. */
  function ScenarioValuesFor(facets: seq<ResultFacet>, key: string): seq<string> {
    if facets == [] then []
    else
      (if key in facets[0].scenario then facets[0].scenario[key] else []) +
      ScenarioValuesFor(facets[1..], key)
  }

  function AllScenarioKeys(facets: seq<ResultFacet>): (r: set<string>)
    ensures forall k :: k in r <==> exists i :: 0 <= i < |facets| && k in facets[i].scenario
  {
    if facets == [] then {}
    else
      var rest := AllScenarioKeys(facets[1..]);
      forall k | k in rest ensures exists i :: 0 <= i < |facets| && k in facets[i].scenario {
        var i :| 0 <= i < |facets[1..]| && k in facets[1..][i].scenario;
        assert facets[i + 1] == facets[1..][i];
      }
      forall k, i | 0 < i < |facets| && k in facets[i].scenario ensures k in rest {
        assert facets[1..][i - 1] == facets[i];
      }
      facets[0].scenario.Keys + rest
  }

  /** The scenario options the effect derives when the table reports its
      filters upward: per key of the chosen building type's facet, or per
      key seen in any facet when no building type is chosen. */
  function ScenarioOptions(reportsFilters: bool, buildingTypeFilter: string, facets: seq<ResultFacet>)
    : (r: map<string, seq<string>>)
    ensures !reportsFilters ==> r == map[]
    ensures reportsFilters && buildingTypeFilter != [] ==>
      var f := FindFacet(facets, buildingTypeFilter);
      (f.None? ==> r == map[]) &&
      (f.Some? ==> (r.Keys == facets[f.value].scenario.Keys &&
         forall k :: k in r ==> r[k] == DedupedOptions(facets[f.value].scenario[k])))
    ensures reportsFilters && buildingTypeFilter == [] ==>
      (forall k :: k in r <==> exists i :: 0 <= i < |facets| && k in facets[i].scenario) &&
      (forall k :: k in r ==> r[k] == DedupedOptions(ScenarioValuesFor(facets, k)))
  {
    if !reportsFilters then map[]
    else if buildingTypeFilter != [] then
      var f := FindFacet(facets, buildingTypeFilter);
      if f.None? then map[]
      else
        var sc := facets[f.value].scenario;
        map k | k in sc :: DedupedOptions(sc[k])
    else
      map k | k in AllScenarioKeys(facets) :: DedupedOptions(ScenarioValuesFor(facets, k))
  }
}
