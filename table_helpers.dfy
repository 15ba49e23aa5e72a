/** Rows of the results tables, their comparators and the stable sort
    (client/src/Lib/TableHelpers.ts). */
module TableHelpers {
  import opened Wrappers
  import opened Strings
  import opened Interfaces

  /** One table row.  The fields that `createDataFromResult` reads from
      properties a result does not carry are `None` (JavaScript `undefined`). */
  datatype Data = Data(
    id: int,
    uid: string,
    accountUsername: Option<string>,
    accountEmail: Option<string>,
    buildingTypeName: string,
    dateRun: int,
    totalEnergy: real,
    thermalDiscomfort: real,
    aqDiscomfort: real,
    energy: real,
    cost: real,
    timeRatio: real,
    emissions: real,
    compTimeRatio: real,
    controllerProperties: Option<Json>,
    testTimePeriod: Option<string>,
    controlStep: string,
    priceScenario: Option<string>,
    weatherForecastUncertainty: string)

  /** The keys a table can be ordered by: the fields of `Data`, and the
      head-cell ids of the results table that are not fields of `Data`. */
  datatype Column =
    | Id | Uid | AccountUsername | AccountEmail | BuildingTypeName | DateRun
    | TotalEnergy | ThermalDiscomfort | AqDiscomfort | Energy | Cost | TimeRatio
    | Emissions | CompTimeRatio | ControllerProperties | TestTimePeriod
    | ControlStep | PriceScenario | WeatherForecastUncertainty
    | PeakElectricity | PeakGas | PeakDistrictHeating | IsShared

  /** A cell as JavaScript's `<` sees it: a number (dates compare by their
      time value), a string, or something no other value is below
      (`undefined`, an object). */
  datatype Cell = CNone | CNum(n: real) | CText(t: string)

  function OptText(o: Option<string>): Cell {
    match o
    case None => CNone
    case Some(t) => CText(t)
  }

  /** `row[orderBy]`. */
  function CellOf(d: Data, c: Column): Cell {
    match c
    case Id => CNum(d.id as real)
    case Uid => CText(d.uid)
    case AccountUsername => OptText(d.accountUsername)
    case AccountEmail => OptText(d.accountEmail)
    case BuildingTypeName => CText(d.buildingTypeName)
    case DateRun => CNum(d.dateRun as real)
    case TotalEnergy => CNum(d.totalEnergy)
    case ThermalDiscomfort => CNum(d.thermalDiscomfort)
    case AqDiscomfort => CNum(d.aqDiscomfort)
    case Energy => CNum(d.energy)
    case Cost => CNum(d.cost)
    case TimeRatio => CNum(d.timeRatio)
    case Emissions => CNum(d.emissions)
    case CompTimeRatio => CNum(d.compTimeRatio)
    case ControllerProperties => CNone
    case TestTimePeriod => OptText(d.testTimePeriod)
    case ControlStep => CText(d.controlStep)
    case PriceScenario => OptText(d.priceScenario)
    case WeatherForecastUncertainty => CText(d.weatherForecastUncertainty)
    case PeakElectricity => CNone
    case PeakGas => CNone
    case PeakDistrictHeating => CNone
    case IsShared => CNone
  }

  /** JavaScript `x < y` on two cells of the same kind; cells of different
      kinds are never below one another here. */
  predicate CellLess(x: Cell, y: Cell) {
    match (x, y)
    case (CNum(a), CNum(b)) => a < b
    case (CText(a), CText(b)) => Lt(a, b)
    case _ => false
  }

  predicate SameKind(x: Cell, y: Cell) {
    (x.CNone? && y.CNone?) || (x.CNum? && y.CNum?) || (x.CText? && y.CText?)
  }

  lemma CellLessAsymmetric(x: Cell, y: Cell)
    ensures !(CellLess(x, y) && CellLess(y, x))
  {
    if x.CText? && y.CText? && Lt(x.t, y.t) && Lt(y.t, x.t) {
      LeAntisymmetric(x.t, y.t);
    }
  }

  /** Two same-kind cells are ordered, or equal. */
  lemma CellLessTotal(x: Cell, y: Cell)
    requires SameKind(x, y)
    ensures CellLess(x, y) || CellLess(y, x) || x == y
  {
    if x.CText? {
      LeTotal(x.t, y.t);
      if Le(x.t, y.t) && Le(y.t, x.t) {
        LeAntisymmetric(x.t, y.t);
      }
    }
  }

  lemma CellLessTransitive(x: Cell, y: Cell, z: Cell)
    requires CellLess(x, y) && CellLess(y, z)
    ensures CellLess(x, z)
  {
    if x.CText? {
      LeTransitive(x.t, y.t, z.t);
      if x.t == z.t {
        LeAntisymmetric(x.t, y.t);
      }
    }
  }

  /** `descendingComparator`: -1 when b's cell is below a's, 1 when it is
      above, 0 otherwise. */
  function DescendingComparator(a: Cell, b: Cell): (r: int)
    ensures r == -1 <==> CellLess(b, a)
    ensures r == 1 <==> CellLess(a, b)
    ensures r == 0 <==> !CellLess(a, b) && !CellLess(b, a)
  {
    CellLessAsymmetric(a, b);
    if CellLess(b, a) then -1 else if CellLess(a, b) then 1 else 0
  }

  datatype Order = Asc | Desc

  /** `getComparator(order, orderBy)` applied to two rows. */
  function Compare(order: Order, orderBy: Column, a: Data, b: Data): (r: int)
    ensures order == Desc ==> r == DescendingComparator(CellOf(a, orderBy), CellOf(b, orderBy))
    ensures order == Asc ==> r == -DescendingComparator(CellOf(a, orderBy), CellOf(b, orderBy))
  {
    var d := DescendingComparator(CellOf(a, orderBy), CellOf(b, orderBy));
    if order == Desc then d else -d
  }

  function Sign(x: int): int {
    if x < 0 then -1 else if x > 0 then 1 else 0
  }

  /** What `Array.prototype.sort` requires of a comparator on the elements
      it sorts: swapping the arguments flips the sign, and "not after" is
      transitive.  Without it the order is implementation-defined. */
  ghost predicate Consistent<T>(s: seq<T>, cmp: (T, T) -> int) {
    (forall a, b | a in s && b in s :: Sign(cmp(a, b)) == -Sign(cmp(b, a))) &&
    (forall a, b, c | a in s && b in s && c in s ::
       cmp(a, b) <= 0 && cmp(b, c) <= 0 ==> cmp(a, c) <= 0)
  }

  /** All rows have the same kind of cell in the sorted column. */
  ghost predicate UniformColumn(rows: seq<Data>, orderBy: Column) {
    forall a, b | a in rows && b in rows :: SameKind(CellOf(a, orderBy), CellOf(b, orderBy))
  }

  /** The comparators that `getComparator` builds are consistent on any rows
      whose sorted column holds one kind of value. */
  lemma {:induction false} CompareConsistent(rows: seq<Data>, order: Order, orderBy: Column)
    requires UniformColumn(rows, orderBy)
    ensures Consistent(rows, (a, b) => Compare(order, orderBy, a, b))
  {
    var cmp := (a, b) => Compare(order, orderBy, a, b);
    forall a, b | a in rows && b in rows
      ensures Sign(cmp(a, b)) == -Sign(cmp(b, a))
    {
      CellLessAsymmetric(CellOf(a, orderBy), CellOf(b, orderBy));
    }
    forall a, b, c | a in rows && b in rows && c in rows && cmp(a, b) <= 0 && cmp(b, c) <= 0
      ensures cmp(a, c) <= 0
    {
      var x, y, z := CellOf(a, orderBy), CellOf(b, orderBy), CellOf(c, orderBy);
      if order == Desc {
        NotLessTransitive(x, y, z);
      } else {
        NotLessTransitive(z, y, x);
      }
    }
  }

  lemma NotLessTransitive(x: Cell, y: Cell, z: Cell)
    requires SameKind(x, y) && SameKind(y, z)
    requires !CellLess(x, y) && !CellLess(y, z)
    ensures !CellLess(x, z)
  {
    CellLessTotal(x, y);
    CellLessTotal(y, z);
    CellLessAsymmetric(x, z);
    if CellLess(y, x) && CellLess(z, y) {
      CellLessTransitive(z, y, x);
    }
  }

  /** `createDataFromResult`: the total energy and energy columns both show
      the result's energy use, the air-quality column its indoor air quality
      discomfort and the time-ratio columns its computational time ratio. */
  function CreateDataFromResult<A>(result: Result<A>): (d: Data)
    ensures d.id == result.id && d.uid == result.uid && d.dateRun == result.dateRun
    ensures d.totalEnergy == d.energy == result.energyUse
    ensures d.compTimeRatio == d.timeRatio == result.timeRatio
    ensures d.aqDiscomfort == result.iaq
    ensures d.thermalDiscomfort == result.thermalDiscomfort && d.cost == result.cost
    ensures d.emissions == result.emissions && d.controlStep == result.controlStep
    ensures d.weatherForecastUncertainty == result.weatherForecastUncertainty
    ensures d.buildingTypeName == result.buildingType.name
    ensures d.accountUsername.None? && d.accountEmail.None? && d.controllerProperties.None?
    ensures d.testTimePeriod.None? && d.priceScenario.None?
  {
    Data(result.id, result.uid, None, None, result.buildingType.name, result.dateRun,
         result.energyUse, result.thermalDiscomfort, result.iaq, result.energyUse,
         result.cost, result.timeRatio, result.emissions, result.timeRatio,
         None, None, result.controlStep, None, result.weatherForecastUncertainty)
  }

  /** Rows built from results hold one kind of cell per column, so every
      column can be sorted. */
  lemma {:induction false} CreatedRowsUniform<A>(results: seq<Result<A>>, rows: seq<Data>, orderBy: Column)
    requires |rows| == |results|
    requires forall i :: 0 <= i < |rows| ==> rows[i] == CreateDataFromResult(results[i])
    ensures UniformColumn(rows, orderBy)
  {
    forall a, b | a in rows && b in rows
      ensures SameKind(CellOf(a, orderBy), CellOf(b, orderBy))
    {
      var i :| 0 <= i < |rows| && rows[i] == a;
      var j :| 0 <= j < |rows| && rows[j] == b;
      CreatedCellsSameKind(results[i], results[j], orderBy);
    }
  }

  lemma CreatedCellsSameKind<A>(x: Result<A>, y: Result<A>, c: Column)
    ensures SameKind(CellOf(CreateDataFromResult(x), c), CellOf(CreateDataFromResult(y), c))
  {
  }

  /** `createRows`: no rows for a missing (null, undefined or non-array)
      input; otherwise one row per result, in order. */
  method CreateRows<A>(results: Option<seq<Result<A>>>) returns (rows: seq<Data>)
    ensures results.None? ==> rows == []
    ensures results.Some? ==> |rows| == |results.value|
    ensures results.Some? ==> forall i :: 0 <= i < |rows| ==> rows[i] == CreateDataFromResult(results.value[i])
  {
    rows := [];
    if results.None? || |results.value| == 0 {
      return;
    }
    var rs := results.value;
    var i := 0;
    while i < |rs|
      invariant 0 <= i <= |rs|
      invariant |rows| == i
      invariant forall k :: 0 <= k < i ==> rows[k] == CreateDataFromResult(rs[k])
    {
      rows := rows + [CreateDataFromResult(rs[i])];
      i := i + 1;
    }
  }

  function Fst<T>(x: seq<(T, nat)>): (r: seq<T>)
    ensures |r| == |x| && forall k :: 0 <= k < |x| ==> r[k] == x[k].0
  {
    seq(|x|, k requires 0 <= k < |x| => x[k].0)
  }

  function Snd<T>(x: seq<(T, nat)>): (r: seq<nat>)
    ensures |r| == |x| && forall k :: 0 <= k < |x| ==> r[k] == x[k].1
  {
    seq(|x|, k requires 0 <= k < |x| => x[k].1)
  }

  /** The order `stableSort` gives its comparator on (element, index)
      pairs: the comparator decides, ties fall back to the index. */
  predicate Before<T>(cmp: (T, T) -> int, p: (T, nat), q: (T, nat)) {
    cmp(p.0, q.0) < 0 || (cmp(p.0, q.0) == 0 && p.1 < q.1)
  }

  lemma BeforeTransitive<T>(s: seq<T>, cmp: (T, T) -> int, p: (T, nat), q: (T, nat), r: (T, nat))
    requires Consistent(s, cmp)
    requires p.0 in s && q.0 in s && r.0 in s
    requires Before(cmp, p, q) && Before(cmp, q, r)
    ensures Before(cmp, p, r)
  {
    var a, b, c := p.0, q.0, r.0;
    assert Sign(cmp(a, b)) == -Sign(cmp(b, a));
    assert Sign(cmp(b, c)) == -Sign(cmp(c, b));
    assert Sign(cmp(a, c)) == -Sign(cmp(c, a));
    assert cmp(a, c) <= 0;
  }

  lemma BeforeTotal<T>(s: seq<T>, cmp: (T, T) -> int, p: (T, nat), q: (T, nat))
    requires Consistent(s, cmp)
    requires p.0 in s && q.0 in s && p.1 != q.1
    ensures Before(cmp, p, q) || Before(cmp, q, p)
  {
    assert Sign(cmp(p.0, q.0)) == -Sign(cmp(q.0, p.0));
  }

  /** Every pair holds an input element and its index. */
  ghost predicate Tagged<T>(x: seq<(T, nat)>, s: seq<T>) {
    forall k :: 0 <= k < |x| ==> x[k].1 < |s| && x[k].0 == s[x[k].1]
  }

  ghost predicate DistinctTags<T>(x: seq<(T, nat)>) {
    forall p, q :: 0 <= p < q < |x| ==> x[p].1 != x[q].1
  }

  ghost function Swap<T>(x: seq<T>, i: nat, j: nat): seq<T>
    requires i < |x| && j < |x|
  {
    x[i := x[j]][j := x[i]]
  }

  lemma SwapKeeps<T>(x: seq<(T, nat)>, s: seq<T>, i: nat, j: nat)
    requires i < |x| && j < |x|
    requires Tagged(x, s) && DistinctTags(x)
    ensures Tagged(Swap(x, i, j), s) && DistinctTags(Swap(x, i, j))
    ensures multiset(Fst(Swap(x, i, j))) == multiset(Fst(x))
  {
    var y := Swap(x, i, j);
    assert Fst(y) == Fst(x)[i := x[j].0][j := x[i].0];
    forall p, q | 0 <= p < q < |y| ensures y[p].1 != y[q].1 {
      var p' := if p == i then j else if p == j then i else p;
      var q' := if q == i then j else if q == j then i else q;
      assert y[p] == x[p'] && y[q] == x[q'];
    }
  }

  /** `x[..i + 1]` is ordered, except possibly around position `j`. */
  ghost predicate SortedExcept<T>(cmp: (T, T) -> int, x: seq<(T, nat)>, i: nat, j: nat)
    requires i < |x|
  {
    forall p, q :: 0 <= p < q <= i && p != j && q != j ==> Before(cmp, x[p], x[q])
  }

  /** The pair at `j` comes before every pair after it, up to `i`. */
  ghost predicate FirstUpTo<T>(cmp: (T, T) -> int, x: seq<(T, nat)>, i: nat, j: nat)
    requires j <= i < |x|
  {
    forall q :: j < q <= i ==> Before(cmp, x[j], x[q])
  }

  lemma SinkStep<T>(cmp: (T, T) -> int, x: seq<(T, nat)>, i: nat, j: nat)
    requires 0 < j <= i < |x|
    requires SortedExcept(cmp, x, i, j) && FirstUpTo(cmp, x, i, j)
    requires Before(cmp, x[j], x[j - 1])
    ensures SortedExcept(cmp, Swap(x, j - 1, j), i, j - 1)
    ensures FirstUpTo(cmp, Swap(x, j - 1, j), i, j - 1)
  {
    var y := Swap(x, j - 1, j);
    forall p, q | 0 <= p < q <= i && p != j - 1 && q != j - 1
      ensures Before(cmp, y[p], y[q])
    {
      if q == j {
        assert y[q] == x[j - 1] && y[p] == x[p];
      } else if p == j {
        assert y[p] == x[j - 1] && y[q] == x[q];
      } else {
        assert y[p] == x[p] && y[q] == x[q];
      }
    }
    forall q | j - 1 < q <= i
      ensures Before(cmp, y[j - 1], y[q])
    {
      assert y[j - 1] == x[j];
      if q == j {
        assert y[q] == x[j - 1];
      } else {
        assert y[q] == x[q];
      }
    }
  }

  /** One swap of the inner loop keeps its invariant, with `j` one lower. */
  lemma SinkMove<T>(s: seq<T>, cmp: (T, T) -> int, x: seq<(T, nat)>, y: seq<(T, nat)>, i: nat, j: nat)
    requires 0 < j <= i < |x|
    requires Tagged(x, s) && DistinctTags(x)
    requires SortedExcept(cmp, x, i, j) && FirstUpTo(cmp, x, i, j)
    requires Before(cmp, x[j], x[j - 1])
    requires y == x[j - 1 := x[j]][j := x[j - 1]]
    ensures Tagged(y, s) && DistinctTags(y)
    ensures multiset(Fst(y)) == multiset(Fst(x))
    ensures SortedExcept(cmp, y, i, j - 1) && FirstUpTo(cmp, y, i, j - 1)
  {
    SwapKeeps(x, s, j - 1, j);
    SinkStep(cmp, x, i, j);
  }

  lemma SinkDone<T>(s: seq<T>, cmp: (T, T) -> int, x: seq<(T, nat)>, i: nat, j: nat)
    requires Consistent(s, cmp)
    requires j <= i < |x|
    requires Tagged(x, s) && DistinctTags(x)
    requires SortedExcept(cmp, x, i, j) && FirstUpTo(cmp, x, i, j)
    requires j == 0 || !Before(cmp, x[j], x[j - 1])
    ensures forall p, q :: 0 <= p < q <= i ==> Before(cmp, x[p], x[q])
  {
    if j > 0 {
      assert x[j - 1].0 == s[x[j - 1].1] && x[j].0 == s[x[j].1];
      BeforeTotal(s, cmp, x[j - 1], x[j]);
      forall p | 0 <= p < j - 1
        ensures Before(cmp, x[p], x[j])
      {
        assert x[p].0 == s[x[p].1];
        BeforeTransitive(s, cmp, x[p], x[j - 1], x[j]);
      }
    }
  }

  /** The inner loop of the insertion sort: the pair at `i` moves down past
      every pair it comes before, so that `a[..i + 1]` is ordered. */
  method Sink<T>(a: array<(T, nat)>, ghost s: seq<T>, cmp: (T, T) -> int, i: nat)
    requires Consistent(s, cmp)
    requires i < a.Length
    requires Tagged(a[..], s) && DistinctTags(a[..])
    requires forall p, q :: 0 <= p < q < i ==> Before(cmp, a[p], a[q])
    modifies a
    ensures Tagged(a[..], s) && DistinctTags(a[..])
    ensures multiset(Fst(a[..])) == multiset(Fst(old(a[..])))
    ensures forall p, q :: 0 <= p < q <= i ==> Before(cmp, a[p], a[q])
  {
    var j := i;
    while j > 0 && Before(cmp, a[j], a[j - 1])
      invariant 0 <= j <= i
      invariant Tagged(a[..], s) && DistinctTags(a[..])
      invariant multiset(Fst(a[..])) == multiset(Fst(old(a[..])))
      invariant SortedExcept(cmp, a[..], i, j) && FirstUpTo(cmp, a[..], i, j)
    {
      ghost var x := a[..];
      a[j - 1], a[j] := a[j], a[j - 1];
      SinkMove(s, cmp, x, a[..], i, j);
      j := j - 1;
    }
    SinkDone(s, cmp, a[..], i, j);
  }

  /** `stableSort`: the input paired with the indices, sorted in place by
      the comparator with the index as tie-break, then projected back.
      The result is the input permuted by `perm`, ordered by the comparator,
      and elements that compare equal keep their original relative order. */
  method StableSort<T>(s: seq<T>, cmp: (T, T) -> int) returns (r: seq<T>, ghost perm: seq<nat>)
    requires Consistent(s, cmp)
    ensures |r| == |s| && multiset(r) == multiset(s)
    ensures |perm| == |s|
    ensures forall k :: 0 <= k < |s| ==> perm[k] < |s| && r[k] == s[perm[k]]
    ensures forall i, j :: 0 <= i < j < |s| ==> perm[i] != perm[j]
    ensures forall i, j :: 0 <= i < j < |r| ==> cmp(r[i], r[j]) <= 0
    ensures forall i, j :: 0 <= i < j < |r| && cmp(r[i], r[j]) == 0 ==> perm[i] < perm[j]
  {
    var n := |s|;
    var a := new (T, nat)[n](k requires 0 <= k < n => (s[k], k));
    assert Fst(a[..]) == s;
    var i := 0;
    while i < n
      invariant 0 <= i <= n
      invariant Tagged(a[..], s) && DistinctTags(a[..])
      invariant multiset(Fst(a[..])) == multiset(s)
      invariant forall p, q :: 0 <= p < q < i ==> Before(cmp, a[p], a[q])
    {
      Sink(a, s, cmp, i);
      i := i + 1;
    }
    r := Fst(a[..]);
    perm := Snd(a[..]);
    SortedPairsProject(s, cmp, a[..]);
  }

  /** Projecting the sorted (element, index) pairs gives the sorted input
      and the permutation that was applied to it. */
  lemma SortedPairsProject<T>(s: seq<T>, cmp: (T, T) -> int, x: seq<(T, nat)>)
    requires |x| == |s| && Tagged(x, s) && DistinctTags(x)
    requires forall p, q :: 0 <= p < q < |x| ==> Before(cmp, x[p], x[q])
    ensures forall k :: 0 <= k < |s| ==> Snd(x)[k] < |s| && Fst(x)[k] == s[Snd(x)[k]]
    ensures forall i, j :: 0 <= i < j < |s| ==> Snd(x)[i] != Snd(x)[j]
    ensures forall i, j :: 0 <= i < j < |x| ==> cmp(Fst(x)[i], Fst(x)[j]) <= 0
    ensures forall i, j :: 0 <= i < j < |x| && cmp(Fst(x)[i], Fst(x)[j]) == 0 ==> Snd(x)[i] < Snd(x)[j]
  {
    var r, perm := Fst(x), Snd(x);
    forall i, j | 0 <= i < j < |r| ensures cmp(r[i], r[j]) <= 0 {
      assert Before(cmp, x[i], x[j]);
    }
  }
}
