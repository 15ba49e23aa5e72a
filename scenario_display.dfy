/** How the client shows a scenario: friendly key labels, value rendering,
    the sorted entry list and the "All …" option label
    (client/src/Lib/scenarioDisplay.ts). */
module ScenarioDisplay {
  import opened Wrappers
  import opened Strings

  /** One entry of `scenarioLabelMap`. */
  datatype LabelConfig = LabelConfig(labelText: string, allLabel: Option<string>)

  /** `scenarioLabelMap[key]`: the eight keys with a configured label. */
  function LabelConfigOf(key: string): (r: Option<LabelConfig>)
    ensures r.Some? ==> r.value.labelText != [] && r.value.allLabel.Some?
  {
    if key == "timePeriod" then
      Some(LabelConfig("Time Period", Some("All Time Periods")))
    else if key == "electricityPrice" then
      Some(LabelConfig("Electricity Price", Some("All Electricity Prices")))
    else if key == "seed" then
      Some(LabelConfig("Uncertainty Seed", Some("All Uncertainty Seeds")))
    else if key == "temperature_uncertainty" || key == "temperatureUncertainty" then
      Some(LabelConfig("Temperature Forecast Uncertainty", Some("All Temperature Forecast Levels")))
    else if key == "solar_uncertainty" || key == "solarUncertainty" then
      Some(LabelConfig("Solar Forecast Uncertainty", Some("All Solar Forecast Levels")))
    else if key == "weatherForecastUncertainty" then
      Some(LabelConfig("Weather Forecast Uncertainty", Some("All Weather Forecasts")))
    else None
  }

  predicate IsLowerOrDigit(c: char) { IsLower(c) || IsDigit(c) }
  predicate IsDash(c: char) { c == '-' || c == '_' }

  /** A lower-case letter or digit directly followed by an upper-case letter. */
  predicate CamelBoundary(s: string, i: int)
    requires 0 <= i < |s| - 1
  {
    IsLowerOrDigit(s[i]) && IsUpper(s[i + 1])
  }

  /** `s` without the characters that satisfy `drop`. */
  function Without(s: string, drop: char -> bool): (r: string)
    ensures |r| <= |s|
    ensures forall i :: 0 <= i < |r| ==> !drop(r[i])
  {
    if s == [] then []
    else if drop(s[0]) then Without(s[1..], drop)
    else [s[0]] + Without(s[1..], drop)
  }

  predicate IsBlank(c: char) { c == ' ' }
  predicate IsBlankOrDash(c: char) { c == ' ' || IsDash(c) }

  /** `replace(/([a-z0-9])([A-Z])/g, '$1 $2')`.  A match ends on an
      upper-case letter, which cannot start the next match, so the global
      replacement inserts one space at every boundary of the input. */
  function SpaceCamel(s: string): (r: string)
  {
    if |s| < 2 then s
    else if IsLowerOrDigit(s[0]) && IsUpper(s[1]) then [s[0], ' '] + SpaceCamel(s[1..])
    else [s[0]] + SpaceCamel(s[1..])
  }

  /** After the replacement no boundary is left ... */
  lemma {:induction false} SpaceCamelSeparates(s: string)
    ensures forall i :: 0 <= i < |SpaceCamel(s)| - 1 ==> !CamelBoundary(SpaceCamel(s), i)
  {
    if |s| >= 2 {
      SpaceCamelSeparates(s[1..]);
      var rest := SpaceCamel(s[1..]);
      SpaceCamelHead(s[1..]);
      var r := SpaceCamel(s);
      if IsLowerOrDigit(s[0]) && IsUpper(s[1]) {
        forall i | 0 <= i < |r| - 1 ensures !CamelBoundary(r, i) {
          if i >= 2 {
            assert r[i] == rest[i - 2] && r[i + 1] == rest[i - 1];
            assert !CamelBoundary(rest, i - 2);
          }
        }
      } else {
        forall i | 0 <= i < |r| - 1 ensures !CamelBoundary(r, i) {
          if i >= 1 {
            assert r[i] == rest[i - 1] && r[i + 1] == rest[i];
            assert !CamelBoundary(rest, i - 1);
          }
        }
      }
    }
  }

  lemma {:induction false} SpaceCamelHead(s: string)
    requires s != []
    ensures SpaceCamel(s) != [] && SpaceCamel(s)[0] == s[0]
  {
  }

  /** ... and it inserted nothing but spaces: dropping the spaces gives the
      same text as dropping them from the input. */
  lemma {:induction false} SpaceCamelOnlyInsertsSpaces(s: string)
    ensures Without(SpaceCamel(s), IsBlank) == Without(s, IsBlank)
  {
    if |s| >= 2 {
      SpaceCamelOnlyInsertsSpaces(s[1..]);
      var rest := SpaceCamel(s[1..]);
      if IsLowerOrDigit(s[0]) && IsUpper(s[1]) {
        var r := [s[0], ' '] + rest;
        assert r[1..] == [' '] + rest && ([' '] + rest)[1..] == rest;
      } else {
        assert ([s[0]] + rest)[1..] == rest;
      }
    }
  }

  /** The leading run of `-` and `_` removed. */
  function DropDashes(s: string): (r: string)
    ensures |r| <= |s| && r == s[|s| - |r|..]
    ensures r != [] ==> !IsDash(r[0])
  {
    if s != [] && IsDash(s[0]) then DropDashes(s[1..]) else s
  }

  /** `replace(/[\-_]+/g, ' ')`: every maximal run of `-` and `_` becomes
      one space. */
  function Dashes(s: string): (r: string)
    ensures forall i :: 0 <= i < |r| ==> !IsDash(r[i])
    ensures |r| <= |s|
    decreases |s|
  {
    if s == [] then []
    else if IsDash(s[0]) then [' '] + Dashes(DropDashes(s[1..]))
    else [s[0]] + Dashes(s[1..])
  }

  /** Apart from spaces, `Dashes` keeps exactly the characters that are
      not dashes, in order. */
  lemma {:induction false} DashesKeepsOthers(s: string)
    ensures Without(Dashes(s), IsBlank) == Without(s, IsBlankOrDash)
    decreases |s|
  {
    if s != [] {
      if IsDash(s[0]) {
        var t := DropDashes(s[1..]);
        DashesKeepsOthers(t);
        DropDashesWithout(s[1..]);
        assert ([' '] + Dashes(t))[1..] == Dashes(t);
      } else {
        DashesKeepsOthers(s[1..]);
        assert ([s[0]] + Dashes(s[1..]))[1..] == Dashes(s[1..]);
      }
    }
  }

  lemma {:induction false} DropDashesWithout(s: string)
    ensures Without(DropDashes(s), IsBlankOrDash) == Without(s, IsBlankOrDash)
  {
    if s != [] && IsDash(s[0]) { DropDashesWithout(s[1..]); }
  }

  /** `filter(Boolean)` on strings: the non-empty ones, in order. */
  function NonEmpty(parts: seq<string>): (r: seq<string>)
    ensures |r| <= |parts|
    ensures forall i :: 0 <= i < |r| ==> r[i] != []
    ensures forall x :: x in r <==> x in parts && x != []
  {
    if parts == [] then []
    else
      var rest := NonEmpty(parts[1..]);
      assert forall x :: x in parts <==> x == parts[0] || x in parts[1..];
      if parts[0] == [] then rest else [parts[0]] + rest
  }

  /** `segment.charAt(0).toUpperCase() + segment.slice(1)`. */
  function Capitalize(w: string): (r: string)
    ensures |r| == |w|
    ensures r != [] ==> r[0] == UpperChar(w[0]) && !IsLower(r[0])
    ensures forall i :: 0 < i < |r| ==> r[i] == w[i]
  {
    if w == [] then [] else [UpperChar(w[0])] + w[1..]
  }

  function CapitalizeAll(ws: seq<string>): (r: seq<string>)
    ensures |r| == |ws|
    ensures forall i :: 0 <= i < |r| ==> r[i] == Capitalize(ws[i])
  {
    if ws == [] then [] else [Capitalize(ws[0])] + CapitalizeAll(ws[1..])
  }

  /** `humanizeKey`. */
  function HumanizeKey(key: string): (r: string)
    ensures key == [] ==> r == []
    ensures key != [] && LabelConfigOf(key).Some? ==> r == LabelConfigOf(key).value.labelText
  {
    if key == [] then []
    else if LabelConfigOf(key).Some? then LabelConfigOf(key).value.labelText
    else
      var spaced := Trim(Dashes(SpaceCamel(key)));
      Join(CapitalizeAll(NonEmpty(Split(spaced, ' '))), " ")
  }

  /** A word of a humanised label. */
  predicate IsLabelWord(w: string) {
    w != [] && !IsLower(w[0]) && ' ' !in w && '-' !in w && '_' !in w
  }

  predicate IsSpaceOrDash(c: char) { IsSpace(c) || IsDash(c) }

  /** An unmapped key becomes space-separated words, each capitalised and
      free of `-` and `_`; apart from white space and case, the label spells
      the key without its `-` and `_`. */
  lemma HumanizedWords(key: string)
    requires key != [] && LabelConfigOf(key).None?
    ensures var r := HumanizeKey(key);
      r == [] || forall i :: 0 <= i < |Split(r, ' ')| ==> IsLabelWord(Split(r, ' ')[i])
    ensures Lower(Without(HumanizeKey(key), IsSpace)) == Lower(Without(key, IsSpaceOrDash))
  {
    var d := Dashes(SpaceCamel(key));
    var spaced := Trim(d);
    TrimHasNoDash(d);
    var pieces := Split(spaced, ' ');
    var words := NonEmpty(pieces);
    var caps := CapitalizeAll(words);
    CapitalizedWords(spaced);
    if caps != [] {
      JoinSplit(caps, ' ');
    }
    calc {
      Lower(Without(HumanizeKey(key), IsSpace));
      { SquashedJoin(caps); }
      Lower(Squashed(caps));
      { SquashedCapitalized(words); }
      Lower(Squashed(words));
      { SquashedNonEmpty(pieces); }
      Lower(Squashed(pieces));
      { SquashedJoin(pieces); SplitJoin(spaced, ' '); }
      Lower(Without(spaced, IsSpace));
      { TrimKeepsNonSpace(d); }
      Lower(Without(d, IsSpace));
      { DashesKeepsNonSpace(SpaceCamel(key)); }
      Lower(Without(SpaceCamel(key), IsSpaceOrDash));
      { SpaceCamelKeepsNonSpace(key); }
      Lower(Without(key, IsSpaceOrDash));
    }
  }

  lemma {:induction false} WithoutConcat(a: string, b: string, drop: char -> bool)
    ensures Without(a + b, drop) == Without(a, drop) + Without(b, drop)
  {
    if a != [] {
      WithoutConcat(a[1..], b, drop);
      assert (a + b)[1..] == a[1..] + b;
    } else {
      assert a + b == b;
    }
  }

  lemma {:induction false} WithoutAllDropped(s: string, drop: char -> bool)
    requires forall i :: 0 <= i < |s| ==> drop(s[i])
    ensures Without(s, drop) == []
  {
    if s != [] { WithoutAllDropped(s[1..], drop); }
  }

  lemma {:induction false} SpaceCamelKeepsNonSpace(s: string)
    ensures Without(SpaceCamel(s), IsSpaceOrDash) == Without(s, IsSpaceOrDash)
  {
    if |s| >= 2 {
      SpaceCamelKeepsNonSpace(s[1..]);
      var rest := SpaceCamel(s[1..]);
      if IsLowerOrDigit(s[0]) && IsUpper(s[1]) {
        var r := [s[0], ' '] + rest;
        assert r[1..] == [' '] + rest && ([' '] + rest)[1..] == rest;
      } else {
        assert ([s[0]] + rest)[1..] == rest;
      }
    }
  }

  lemma {:induction false} DropDashesKeepsNonSpace(s: string)
    ensures Without(DropDashes(s), IsSpaceOrDash) == Without(s, IsSpaceOrDash)
  {
    if s != [] && IsDash(s[0]) { DropDashesKeepsNonSpace(s[1..]); }
  }

  lemma {:induction false} DashesKeepsNonSpace(s: string)
    ensures Without(Dashes(s), IsSpace) == Without(s, IsSpaceOrDash)
    decreases |s|
  {
    if s != [] {
      if IsDash(s[0]) {
        var t := DropDashes(s[1..]);
        DashesKeepsNonSpace(t);
        DropDashesKeepsNonSpace(s[1..]);
        assert ([' '] + Dashes(t))[1..] == Dashes(t);
      } else {
        DashesKeepsNonSpace(s[1..]);
        assert ([s[0]] + Dashes(s[1..]))[1..] == Dashes(s[1..]);
      }
    }
  }

  /** `trim` removes only white space. */
  lemma {:induction false} TrimKeepsNonSpace(d: string)
    ensures Without(Trim(d), IsSpace) == Without(d, IsSpace)
  {
    var t := TrimStart(d);
    assert Trim(d) == TrimEnd(t);
    TrimStartKeepsNonSpace(d);
    TrimEndKeepsNonSpace(t);
  }

  lemma {:induction false} TrimStartKeepsNonSpace(d: string)
    ensures Without(TrimStart(d), IsSpace) == Without(d, IsSpace)
  {
    if d != [] && IsSpace(d[0]) { TrimStartKeepsNonSpace(d[1..]); }
  }

  lemma {:induction false} TrimEndKeepsNonSpace(t: string)
    ensures Without(TrimEnd(t), IsSpace) == Without(t, IsSpace)
  {
    var r := TrimEnd(t);
    assert t == [] + r + t[|r|..];
    DroppedAround([], r, t[|r|..], IsSpace);
  }

  /** Dropped characters around `mid` do not show in the result. */
  lemma {:induction false} DroppedAround(pre: string, mid: string, suf: string, drop: char -> bool)
    requires forall i :: 0 <= i < |pre| ==> drop(pre[i])
    requires forall i :: 0 <= i < |suf| ==> drop(suf[i])
    ensures Without(pre + mid + suf, drop) == Without(mid, drop)
  {
    WithoutConcat(pre + mid, suf, drop);
    WithoutConcat(pre, mid, drop);
    WithoutAllDropped(pre, drop);
    WithoutAllDropped(suf, drop);
  }

  /** The words with their white space removed, run together. */
  function Squashed(ws: seq<string>): string {
    if ws == [] then [] else Without(ws[0], IsSpace) + Squashed(ws[1..])
  }

  lemma {:induction false} SquashedJoin(ws: seq<string>)
    ensures Without(Join(ws, " "), IsSpace) == Squashed(ws)
  {
    if |ws| == 1 {
      assert Squashed(ws[1..]) == [];
    } else if |ws| > 1 {
      SquashedJoin(ws[1..]);
      var rest := Join(ws[1..], " ");
      assert Join(ws, " ") == ws[0] + (" " + rest);
      WithoutConcat(ws[0], " " + rest, IsSpace);
      WithoutConcat(" ", rest, IsSpace);
      assert Without(" ", IsSpace) == [] by { WithoutAllDropped(" ", IsSpace); }
    }
  }

  lemma {:induction false} SquashedNonEmpty(ps: seq<string>)
    ensures Squashed(NonEmpty(ps)) == Squashed(ps)
  {
    if ps != [] {
      SquashedNonEmpty(ps[1..]);
      if ps[0] != [] {
        assert ([ps[0]] + NonEmpty(ps[1..]))[1..] == NonEmpty(ps[1..]);
      }
    }
  }

  /** Capitalising a word changes its squashed form only in case. */
  lemma {:induction false} CapitalizeSquashed(w: string)
    ensures Lower(Without(Capitalize(w), IsSpace)) == Lower(Without(w, IsSpace))
  {
    if w != [] {
      var c := UpperChar(w[0]);
      assert Capitalize(w) == [c] + w[1..];
      assert w == [w[0]] + w[1..];
      WithoutConcat([c], w[1..], IsSpace);
      WithoutConcat([w[0]], w[1..], IsSpace);
      if IsLower(w[0]) {
        assert !IsSpace(c) && !IsSpace(w[0]);
        assert LowerChar(c) == w[0];
        assert Lower([c]) == Lower([w[0]]);
        LowerConcat([c], Without(w[1..], IsSpace));
        LowerConcat([w[0]], Without(w[1..], IsSpace));
      } else {
        assert c == w[0];
      }
    }
  }

  lemma {:induction false} SquashedCapitalized(ws: seq<string>)
    ensures Lower(Squashed(CapitalizeAll(ws))) == Lower(Squashed(ws))
  {
    if ws != [] {
      SquashedCapitalized(ws[1..]);
      var caps := CapitalizeAll(ws);
      assert caps[0] == Capitalize(ws[0]) && caps[1..] == CapitalizeAll(ws[1..]);
      CapitalizeSquashed(ws[0]);
      LowerConcat(Without(caps[0], IsSpace), Squashed(caps[1..]));
      LowerConcat(Without(ws[0], IsSpace), Squashed(ws[1..]));
    }
  }

  lemma TrimHasNoDash(d: string)
    requires forall j :: 0 <= j < |d| ==> !IsDash(d[j])
    ensures forall j :: 0 <= j < |Trim(d)| ==> !IsDash(Trim(d)[j])
  {
    var t := Trim(d);
    var k :| FactorAt(d, k, t);
    forall j | 0 <= j < |t| ensures !IsDash(t[j]) {
      assert t[j] == d[k + j];
    }
  }

  lemma CapitalizedWords(t: string)
    requires forall j :: 0 <= j < |t| ==> !IsDash(t[j])
    ensures forall i :: 0 <= i < |CapitalizeAll(NonEmpty(Split(t, ' ')))| ==>
      IsLabelWord(CapitalizeAll(NonEmpty(Split(t, ' ')))[i])
  {
    var pieces := Split(t, ' ');
    SplitChars(t, ' ');
    var words := NonEmpty(pieces);
    var caps := CapitalizeAll(words);
    forall i | 0 <= i < |caps| ensures IsLabelWord(caps[i]) {
      var w := words[i];
      assert w in pieces;
      var m :| 0 <= m < |pieces| && pieces[m] == w;
      forall j | 0 <= j < |caps[i]| ensures caps[i][j] != ' ' && !IsDash(caps[i][j]) {
        assert w[j] in pieces[m];
        assert w[j] in t;
      }
    }
  }

  /** A value of unknown type, as `formatValue` receives it. */
  datatype Value =
    | Undefined
    | Null
    | Bool(b: bool)
    | Num(n: real)
    | Str(s: string)
    | Arr(items: seq<Value>)
    | Date(time: int)
    | Obj(entries: seq<(string, Value)>)

  /** The JavaScript renderings that are left uninterpreted: `String` of a
      number, `toLocaleString` of a date and `JSON.stringify` of an object. */
  datatype Renderers = Renderers(
    number: real -> string,
    date: int -> string,
    stringify: Value -> string)

  /** `formatValue`. */
  function FormatValue(v: Value, rs: Renderers): (r: string)
    ensures v.Undefined? || v.Null? ==> r == []
    ensures v.Str? ==> r == v.s
    decreases v, 1
  {
    match v
    case Undefined => []
    case Null => []
    case Arr(items) => Join(NonEmpty(FormatItems(items, rs)), ", ")
    case Date(t) => rs.date(t)
    case Obj(_) => rs.stringify(v)
    case Bool(b) => if b then "true" else "false"
    case Num(n) => rs.number(n)
    case Str(s) => s
  }

  function FormatItems(items: seq<Value>, rs: Renderers): (r: seq<string>)
    ensures |r| == |items|
    ensures forall i :: 0 <= i < |items| ==> r[i] == FormatValue(items[i], rs)
    decreases items, 0
  {
    if items == [] then []
    else [FormatValue(items[0], rs)] + FormatItems(items[1..], rs)
  }

  lemma {:induction false} JoinEmptyIff(parts: seq<string>, sep: string)
    requires forall i :: 0 <= i < |parts| ==> parts[i] != []
    ensures Join(parts, sep) == [] <==> parts == []
  {
    if |parts| > 1 {
      assert |Join(parts, sep)| >= |parts[0]|;
    }
  }

  /** An array renders empty exactly when each of its items does; a
      non-empty rendering is the non-empty item renderings joined by
      `", "`. */
  lemma ArrayRendering(items: seq<Value>, rs: Renderers)
    ensures FormatValue(Arr(items), rs) == [] <==>
      forall i :: 0 <= i < |items| ==> FormatValue(items[i], rs) == []
  {
    var parts := NonEmpty(FormatItems(items, rs));
    JoinEmptyIff(parts, ", ");
    if parts == [] {
      forall i | 0 <= i < |items| ensures FormatValue(items[i], rs) == [] {
        assert FormatItems(items, rs)[i] in FormatItems(items, rs);
      }
    } else {
      assert parts[0] in FormatItems(items, rs);
    }
  }

  datatype ScenarioEntry = ScenarioEntry(key: string, labelText: string, value: string)

  /** JavaScript truthiness of a value. */
  predicate Truthy(v: Value) {
    match v
    case Undefined => false
    case Null => false
    case Bool(b) => b
    case Num(n) => n != 0.0
    case Str(s) => s != []
    case _ => true
  }

  /** `Object.entries`: the own properties of an object, the indices of an
      array, none for a date. */
  function OwnEntries(v: Value): (r: seq<(string, Value)>)
    ensures v.Obj? ==> r == v.entries
    ensures v.Arr? ==> |r| == |v.items|
    ensures v.Arr? ==> forall i :: 0 <= i < |r| ==> r[i] == (NatToString(i), v.items[i])
  {
    match v
    case Obj(entries) => entries
    case Arr(items) => seq(|items|, i requires 0 <= i < |items| => (NatToString(i), items[i]))
    case _ => []
  }

  function ToEntries(entries: seq<(string, Value)>, rs: Renderers): (r: seq<ScenarioEntry>)
    ensures |r| == |entries|
    ensures forall i :: 0 <= i < |r| ==>
      r[i] == ScenarioEntry(entries[i].0, HumanizeKey(entries[i].0), FormatValue(entries[i].1, rs))
  {
    if entries == [] then []
    else
      var (k, v) := entries[0];
      [ScenarioEntry(k, HumanizeKey(k), FormatValue(v, rs))] + ToEntries(entries[1..], rs)
  }

  /** `filter(entry => Boolean(entry.value))`. */
  function WithValue(es: seq<ScenarioEntry>): (r: seq<ScenarioEntry>)
    ensures forall e :: e in r <==> e in es && e.value != []
    ensures multiset(r) <= multiset(es)
  {
    if es == [] then []
    else
      var rest := WithValue(es[1..]);
      assert es == [es[0]] + es[1..];
      if es[0].value == [] then rest else [es[0]] + rest
  }

  /** The sort key: `localeCompare` with base sensitivity ignores case. */
  function LabelKey(e: ScenarioEntry): string { Lower(e.labelText) }

  /** `buildScenarioEntries`. */
  function BuildScenarioEntries(scenario: Value, rs: Renderers): (r: seq<ScenarioEntry>)
    ensures !Truthy(scenario) ==> r == []
    ensures !(scenario.Obj? || scenario.Arr? || scenario.Date?) ==> r == []
    ensures forall i :: 0 <= i < |r| ==> r[i].value != []
    ensures SortedByKey(r, LabelKey)
    ensures multiset(r) == multiset(WithValue(ToEntries(OwnEntries(scenario), rs)))
  {
    if !Truthy(scenario) || !(scenario.Obj? || scenario.Arr? || scenario.Date?) then []
    else
      var kept := WithValue(ToEntries(OwnEntries(scenario), rs));
      var r := SortByKey(kept, LabelKey);
      SameMultisetValues(kept, r);
      r
  }

  lemma SameMultisetValues(kept: seq<ScenarioEntry>, r: seq<ScenarioEntry>)
    requires forall e :: e in kept ==> e.value != []
    requires multiset(r) == multiset(kept)
    ensures forall i :: 0 <= i < |r| ==> r[i].value != []
  {
    forall i | 0 <= i < |r| ensures r[i].value != [] {
      assert r[i] in multiset(r);
    }
  }

  /** An entry is listed exactly when a property of the scenario object
      renders to a non-empty value under its humanised label. */
  lemma ScenarioEntryListed(entries: seq<(string, Value)>, rs: Renderers, e: ScenarioEntry)
    ensures e in BuildScenarioEntries(Obj(entries), rs) <==>
      e.value != [] &&
      exists i :: 0 <= i < |entries| && e.key == entries[i].0 &&
        e.labelText == HumanizeKey(entries[i].0) && e.value == FormatValue(entries[i].1, rs)
  {
    var es := ToEntries(entries, rs);
    var r := BuildScenarioEntries(Obj(entries), rs);
    assert e in r <==> e in multiset(WithValue(es));
    if e in es {
      var i :| 0 <= i < |es| && es[i] == e;
      assert e.key == entries[i].0;
    }
    if exists i :: 0 <= i < |entries| && e.key == entries[i].0 &&
        e.labelText == HumanizeKey(entries[i].0) && e.value == FormatValue(entries[i].1, rs) {
      var i :| 0 <= i < |entries| && e.key == entries[i].0 &&
        e.labelText == HumanizeKey(entries[i].0) && e.value == FormatValue(entries[i].1, rs);
      assert es[i] == e;
    }
  }

  /** `getScenarioLabel`. */
  function GetScenarioLabel(key: string): (r: string)
    ensures r == HumanizeKey(key)
  {
    HumanizeKey(key)
  }

  predicate EndsWith(s: string, c: char) { s != [] && s[|s| - 1] == c }

  /** `getScenarioAllLabel`. */
  function GetScenarioAllLabel(key: string): (r: string)
    ensures LabelConfigOf(key).Some? ==> r == LabelConfigOf(key).value.allLabel.value
    ensures LabelConfigOf(key).None? && HumanizeKey(key) == [] ==> r == "All"
    ensures LabelConfigOf(key).None? && HumanizeKey(key) != [] ==>
      r == "All " + HumanizeKey(key) + (if EndsWith(HumanizeKey(key), 's') then "" else "s")
  {
    var config := LabelConfigOf(key);
    if config.Some? && config.value.allLabel.Some? && config.value.allLabel.value != [] then
      config.value.allLabel.value
    else
      var base := HumanizeKey(key);
      if base == [] then "All"
      else "All " + base + (if EndsWith(base, 's') then "" else "s")
  }

  /** A label of the form "All …s". */
  predicate PluralAllLabel(r: string) {
    |r| > 4 && r[..4] == "All " && EndsWith(r, 's')
  }

  /** Every "All" label is either the bare word or a plural that starts with
      "All ". */
  lemma AllLabelIsPlural(key: string)
    ensures var r := GetScenarioAllLabel(key);
      r == "All" || PluralAllLabel(r)
  {
    if LabelConfigOf(key).Some? {
      ConfiguredAllLabelIsPlural(key);
    } else if HumanizeKey(key) != [] {
      DerivedAllLabelIsPlural(HumanizeKey(key));
    }
  }

  lemma ConfiguredAllLabelIsPlural(key: string)
    requires LabelConfigOf(key).Some?
    ensures PluralAllLabel(LabelConfigOf(key).value.allLabel.value)
  {
    var r := LabelConfigOf(key).value.allLabel.value;
    assert r in {"All Time Periods", "All Electricity Prices", "All Uncertainty Seeds",
                 "All Temperature Forecast Levels", "All Solar Forecast Levels", "All Weather Forecasts"};
  }

  lemma DerivedAllLabelIsPlural(base: string)
    requires base != []
    ensures PluralAllLabel("All " + base + (if EndsWith(base, 's') then "" else "s"))
  {
    var tail := if EndsWith(base, 's') then "" else "s";
    var r := "All " + base + tail;
    assert r[..4] == "All ";
    assert r[|r| - 1] == 's' by {
      if tail == "" {
        assert r[|r| - 1] == base[|base| - 1];
      }
    }
  }
}
