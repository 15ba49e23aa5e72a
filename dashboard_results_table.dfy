/** The dashboard's own results table: index-based checkbox toggling and
    the flattening of a row into CSV keys and values
    (client/src/Components/DashboardResultsTable.tsx). */
module DashboardResultsTable {
  import opened Wrappers
  import opened Strings
  import opened ResultsTable
  import opened Sequences
  import opened ScenarioDisplay

  /** `indexOf`: the first position of `x`, or `None` for -1. */
  function IndexOfId(s: seq<int>, x: int): (r: Option<nat>)
    ensures r.None? <==> x !in s
    ensures r.Some? ==> r.value < |s| && s[r.value] == x && x !in s[..r.value]
  {
    if s == [] then None
    else if s[0] == x then Some(0)
    else
      var r := IndexOfId(s[1..], x);
      if r.None? then None
      else
        assert s[..r.value + 1] == [s[0]] + s[1..][..r.value];
        Some(r.value + 1)
  }

  /** `handleCheckboxClick`: an absent id is appended; otherwise the
      element at its first position is cut out, by whichever of the four
      slicing branches applies. */
  function CheckboxClick(selected: seq<int>, id: int): (r: seq<int>)
    ensures id !in selected ==> r == selected + [id]
    ensures id in selected ==>
      var i := IndexOfId(selected, id).value;
      r == selected[..i] + selected[i + 1..]
    ensures |r| == if id in selected then |selected| - 1 else |selected| + 1
  {
    var index := IndexOfId(selected, id);
    if index.None? then selected + [id]
    else if index.value == 0 then selected[1..]
    else if index.value == |selected| - 1 then selected[..|selected| - 1]
    else selected[..index.value] + selected[index.value + 1..]
  }

  /** On a selection without duplicates the index-based removal agrees with
      the value-based one of the results table, so the two tables toggle
      alike. */
  lemma CheckboxClickAgreesWithToggle(selected: seq<int>, id: int)
    requires NoDuplicates(selected)
    ensures CheckboxClick(selected, id) == Toggled(selected, id)
  {
    if id in selected {
      RemovedAt(selected, IndexOfId(selected, id).value);
    }
  }

  /** Without duplicates, removing the value at `i` cuts out position `i`. */
  lemma RemovedAt(selected: seq<int>, i: nat)
    requires NoDuplicates(selected) && i < |selected|
    ensures Removed(selected, selected[i]) == selected[..i] + selected[i + 1..]
  {
    var id := selected[i];
    var head, tail := selected[..i], selected[i + 1..];
    assert id !in head by {
      forall k | 0 <= k < |head| ensures head[k] != id {
        assert head[k] == selected[k];
      }
    }
    assert id !in tail by {
      forall k | 0 <= k < |tail| ensures tail[k] != id {
        assert tail[k] == selected[i + 1 + k];
      }
    }
    assert selected == head + [id] + tail;
    KeepsOthers(head, id);
    KeepsOthers(tail, id);
    DropOne(head, id, tail);
  }

  /** Filtering out a value the sequence does not hold changes nothing. */
  lemma KeepsOthers(s: seq<int>, id: int)
    requires id !in s
    ensures Filter(s, OtherThan(id)) == s
  {
    forall k | 0 <= k < |s| ensures OtherThan(id)(s[k]) {
      assert s[k] in s;
    }
    FilterAllKept(s, OtherThan(id));
  }

  lemma DropOne(head: seq<int>, id: int, tail: seq<int>)
    requires Filter(head, OtherThan(id)) == head && Filter(tail, OtherThan(id)) == tail
    ensures Filter(head + [id] + tail, OtherThan(id)) == head + tail
  {
    var keep := OtherThan(id);
    assert Filter([id], keep) == [] by {
      assert !keep(id) && [id][1..] == [];
    }
    FilterConcat(head, [id], keep);
    assert Filter(head + [id], keep) == head;
    FilterConcat(head + [id], tail, keep);
  }

  /** With a duplicate only the first copy goes: the id stays selected,
      and the later copy keeps its place one position earlier. */
  lemma DuplicateSurvivesClick(selected: seq<int>, id: int, i: nat, j: nat)
    requires i < j < |selected| && selected[i] == id && selected[j] == id
    ensures id in CheckboxClick(selected, id)
    ensures CheckboxClick(selected, id)[j - 1] == id
  {
    FirstIndexAtMost(selected, id, i);
    var k := IndexOfId(selected, id).value;
    var r := CheckboxClick(selected, id);
    assert r[j - 1] == selected[k + 1..][j - 1 - k];
  }

  /** The first position of a value is at or before any position holding it. */
  lemma {:induction false} FirstIndexAtMost(s: seq<int>, x: int, i: nat)
    requires i < |s| && s[i] == x
    ensures IndexOfId(s, x).Some? && IndexOfId(s, x).value <= i
  {
    if s[0] != x {
      FirstIndexAtMost(s[1..], x, i - 1);
    }
  }

  /** `typeof val === 'object'` and not `null`: the values the flattening
      descends into.  A date has no own entries. */
  predicate Descends(v: Value) {
    v.Obj? || v.Arr? || v.Date?
  }

  function ChildCount(v: Value): nat {
    match v
    case Obj(entries) => |entries|
    case Arr(items) => |items|
    case _ => 0
  }

  /** The leaves under the first `i` own entries of `node`, depth first and
      in entry order; array elements are keyed by their index. */
  function Flat(node: Value, i: nat): seq<(string, Value)>
    requires i <= ChildCount(node)
    decreases node, i
  {
    if i == 0 then []
    else
      match node
      case Obj(entries) =>
        var (key, child) := entries[i - 1];
        Flat(node, i - 1) + (if Descends(child) then Flat(child, ChildCount(child)) else [(key, child)])
      case Arr(items) =>
        var child := items[i - 1];
        Flat(node, i - 1) + (if Descends(child) then Flat(child, ChildCount(child)) else [(NatToString(i - 1), child)])
  }

  /** The `i`-th own entry: a property, or an array element under its
      index. */
  function Entry(node: Value, i: nat): (string, Value)
    requires i < ChildCount(node)
  {
    if node.Obj? then node.entries[i] else (NatToString(i), node.items[i])
  }

  /** One more entry adds its leaves, or itself when it is a leaf. */
  lemma FlatStep(node: Value, i: nat)
    requires i < ChildCount(node)
    ensures Flat(node, i + 1) ==
      Flat(node, i) + (if Descends(Entry(node, i).1) then Leaves(Entry(node, i).1) else [Entry(node, i)])
  {
  }

  /** All leaves of `node`. */
  function Leaves(node: Value): seq<(string, Value)>
  {
    Flat(node, ChildCount(node))
  }

  /** Only leaves come out: nothing the flattening would descend into. */
  lemma {:induction false} FlatLeavesOnly(node: Value, i: nat)
    requires i <= ChildCount(node)
    ensures forall k :: 0 <= k < |Flat(node, i)| ==> !Descends(Flat(node, i)[k].1)
    decreases node, i
  {
    if i > 0 {
      FlatLeavesOnly(node, i - 1);
      var e := Entry(node, i - 1);
      FlatStep(node, i - 1);
      if Descends(e.1) {
        if node.Obj? {
          FlatLeavesOnly(node.entries[i - 1].1, ChildCount(e.1));
        } else {
          FlatLeavesOnly(node.items[i - 1], ChildCount(e.1));
        }
      }
    }
  }

  predicate IsLeafEntry(e: (string, Value)) { !Descends(e.1) }

  /** An object whose entries are all leaves flattens to itself. */
  lemma {:induction false} FlatOfLeaves(entries: seq<(string, Value)>, i: nat)
    requires i <= |entries|
    requires forall k :: 0 <= k < |entries| ==> IsLeafEntry(entries[k])
    ensures Flat(Obj(entries), i) == entries[..i]
  {
    if i > 0 {
      FlatOfLeaves(entries, i - 1);
      assert entries[..i] == entries[..i - 1] + [entries[i - 1]];
    }
  }

  /** Flattening follows the entry order: the leaves of two runs of
      entries are the leaves of the first run followed by those of the
      second. */
  lemma {:induction false} FlatConcat(a: seq<(string, Value)>, b: seq<(string, Value)>, i: nat)
    requires i <= |b|
    ensures Flat(Obj(a + b), |a| + i) == Flat(Obj(a), |a|) + Flat(Obj(b), i)
  {
    if i == 0 {
      FlatPrefix(a, b, |a|);
    } else {
      FlatConcat(a, b, i - 1);
      assert (a + b)[|a| + i - 1] == b[i - 1];
    }
  }

  lemma {:induction false} FlatPrefix(a: seq<(string, Value)>, b: seq<(string, Value)>, i: nat)
    requires i <= |a|
    ensures Flat(Obj(a + b), i) == Flat(Obj(a), i)
  {
    if i > 0 {
      FlatPrefix(a, b, i - 1);
      assert (a + b)[i - 1] == a[i - 1];
    }
  }

  function KeysOf(entries: seq<(string, Value)>): (r: seq<string>)
    ensures |r| == |entries|
  {
    if entries == [] then [] else [entries[0].0] + KeysOf(entries[1..])
  }

  function ValuesOf(entries: seq<(string, Value)>): (r: seq<Value>)
    ensures |r| == |entries|
  {
    if entries == [] then [] else [entries[0].1] + ValuesOf(entries[1..])
  }

  /** The collector of `getFlatKeyValPairFromObj`: `traverse` pushes onto
      its two lists. */
  class Flattener {
    var keys: seq<string>
    var values: seq<Value>

    constructor()
      ensures keys == [] && values == []
    {
      keys := [];
      values := [];
    }

    /** `traverse(node)`. */
    method Traverse(node: Value)
      modifies this
      ensures keys == old(keys) + KeysOf(Leaves(node))
      ensures values == old(values) + ValuesOf(Leaves(node))
      decreases node, 1
    {
      ghost var keys0, values0 := keys, values;
      var n := ChildCount(node);
      var i := 0;
      assert Flat(node, 0) == [];
      while i < n
        invariant 0 <= i <= n
        invariant keys == keys0 + KeysOf(Flat(node, i))
        invariant values == values0 + ValuesOf(Flat(node, i))
      {
        Visit(node, i, keys0, values0);
        i := i + 1;
      }
    }

    /** The `forEach` body for the entry at `i`: a value to descend into is
        traversed, any other value is pushed with its key. */
    method Visit(node: Value, i: nat, ghost keys0: seq<string>, ghost values0: seq<Value>)
      requires i < ChildCount(node)
      requires keys == keys0 + KeysOf(Flat(node, i)) && values == values0 + ValuesOf(Flat(node, i))
      modifies this
      ensures keys == old(keys) + AddedKeys(Entry(node, i))
      ensures values == old(values) + AddedValues(Entry(node, i))
      ensures keys == keys0 + KeysOf(Flat(node, i + 1)) && values == values0 + ValuesOf(Flat(node, i + 1))
      decreases node, 0
    {
      ghost var keys1, values1 := keys, values;
      var key: string;
      var child: Value;
      if node.Obj? {
        key, child := node.entries[i].0, node.entries[i].1;
      } else {
        key, child := NatToString(i), node.items[i];
      }
      if Descends(child) {
        Traverse(child);
      } else {
        keys := keys + [key];
        values := values + [child];
      }
      TraverseStep(keys0, values0, node, i, keys1, values1, keys, values);
    }
  }

  /** What one entry adds to the keys and to the values. */
  function AddedKeys(e: (string, Value)): seq<string> {
    if Descends(e.1) then KeysOf(Leaves(e.1)) else [e.0]
  }

  function AddedValues(e: (string, Value)): seq<Value> {
    if Descends(e.1) then ValuesOf(Leaves(e.1)) else [e.1]
  }

  lemma ConcatAssoc<T>(a: seq<T>, b: seq<T>, c: seq<T>)
    ensures a + b + c == a + (b + c)
  {
  }

  /** What one more entry adds to the two lists. */
  /** The loop invariant of `Traverse` after one more entry. */
  lemma TraverseStep(keys0: seq<string>, values0: seq<Value>, node: Value, i: nat,
                      keys1: seq<string>, values1: seq<Value>, keys2: seq<string>, values2: seq<Value>)
    requires i < ChildCount(node)
    requires keys1 == keys0 + KeysOf(Flat(node, i)) && values1 == values0 + ValuesOf(Flat(node, i))
    requires keys2 == keys1 + AddedKeys(Entry(node, i)) && values2 == values1 + AddedValues(Entry(node, i))
    ensures keys2 == keys0 + KeysOf(Flat(node, i + 1))
    ensures values2 == values0 + ValuesOf(Flat(node, i + 1))
  {
    CollectStep(node, i);
    ConcatAssoc(keys0, KeysOf(Flat(node, i)), AddedKeys(Entry(node, i)));
    ConcatAssoc(values0, ValuesOf(Flat(node, i)), AddedValues(Entry(node, i)));
  }

  lemma CollectStep(node: Value, i: nat)
    requires i < ChildCount(node)
    ensures KeysOf(Flat(node, i + 1)) == KeysOf(Flat(node, i)) + AddedKeys(Entry(node, i))
    ensures ValuesOf(Flat(node, i + 1)) == ValuesOf(Flat(node, i)) + AddedValues(Entry(node, i))
  {
    FlatStep(node, i);
    var child := Entry(node, i).1;
    if Descends(child) {
      KeysValuesAppend(Flat(node, i), Leaves(child));
    } else {
      KeysValuesAppend(Flat(node, i), [Entry(node, i)]);
    }
  }

  lemma {:induction false} ValuesOfAt(entries: seq<(string, Value)>, k: nat)
    requires k < |entries|
    ensures ValuesOf(entries)[k] == entries[k].1
  {
    if k > 0 {
      ValuesOfAt(entries[1..], k - 1);
    }
  }

  lemma {:induction false} KeysValuesAppend(a: seq<(string, Value)>, b: seq<(string, Value)>)
    ensures KeysOf(a + b) == KeysOf(a) + KeysOf(b)
    ensures ValuesOf(a + b) == ValuesOf(a) + ValuesOf(b)
  {
    if a != [] {
      KeysValuesAppend(a[1..], b);
      assert (a + b)[1..] == a[1..] + b;
    } else {
      assert a + b == b;
    }
  }

  /** `getFlatKeyValPairFromObj`: the keys and the values of the leaves, as
      two lists of the same length holding no object. */
  method GetFlatKeyValPairFromObj(obj: Value) returns (keys: seq<string>, values: seq<Value>)
    ensures keys == KeysOf(Leaves(obj)) && values == ValuesOf(Leaves(obj))
    ensures |keys| == |values|
    ensures forall k :: 0 <= k < |values| ==> !Descends(values[k])
  {
    var collector := new Flattener();
    collector.Traverse(obj);
    keys, values := collector.keys, collector.values;
    FlatLeavesOnly(obj, ChildCount(obj));
    forall k | 0 <= k < |values| ensures !Descends(values[k]) {
      ValuesOfAt(Leaves(obj), k);
    }
  }

  /** The flattening as written: `typeof null` is `'object'`, so a `null`
      value is descended into and `Object.entries(null)` throws.  It fails
      exactly when a `null` lies below the first `i` entries. */
  function FlatAsWritten(node: Value, i: nat): (r: Outcome<seq<(string, Value)>>)
    requires node.Null? || i <= ChildCount(node)
    ensures node.Null? ==> r.Failure?
    ensures !node.Null? ==> (r.Success? <==> NullFree(node, i))
    decreases node, i
  {
    if node.Null? then Failure("Cannot convert undefined or null to object")
    else if i == 0 then Success([])
    else
      match node
      case Obj(entries) =>
        var (key, child) := entries[i - 1];
        var head := FlatAsWritten(node, i - 1);
        var tail := if Descends(child) || child.Null? then FlatAsWritten(child, ChildCount(child))
                    else Success([(key, child)]);
        if head.Failure? then head else if tail.Failure? then tail
        else Success(head.value + tail.value)
      case Arr(items) =>
        var child := items[i - 1];
        var head := FlatAsWritten(node, i - 1);
        var tail := if Descends(child) || child.Null? then FlatAsWritten(child, ChildCount(child))
                    else Success([(NatToString(i - 1), child)]);
        if head.Failure? then head else if tail.Failure? then tail
        else Success(head.value + tail.value)
  }

  /** A row with a `null` field makes the download throw, where treating
      `null` as a leaf gives its key and value. */
  lemma NullFieldThrows(key: string)
    ensures FlatAsWritten(Obj([(key, Null)]), 1).Failure?
    ensures Leaves(Obj([(key, Null)])) == [(key, Null)]
  {
    assert Flat(Obj([(key, Null)]), 0) == [];
  }

  /** Nothing `null` below the first `i` entries. */
  predicate NullFree(node: Value, i: nat)
    requires i <= ChildCount(node)
    decreases node, i
  {
    !node.Null? &&
    (i == 0 ||
     match node
     case Obj(entries) =>
       var child := entries[i - 1].1;
       NullFree(node, i - 1) && !child.Null? && (Descends(child) ==> NullFree(child, ChildCount(child)))
     case Arr(items) =>
       var child := items[i - 1];
       NullFree(node, i - 1) && !child.Null? && (Descends(child) ==> NullFree(child, ChildCount(child))))
  }

  /** Without `null` values the code as written and the corrected
      flattening agree. */
  lemma {:induction false} AsWrittenAgreesWithoutNull(node: Value, i: nat)
    requires i <= ChildCount(node) && NullFree(node, i)
    ensures FlatAsWritten(node, i) == Success(Flat(node, i))
    decreases node, i
  {
    if i > 0 {
      AsWrittenAgreesWithoutNull(node, i - 1);
      match node
      case Obj(entries) =>
        var child := entries[i - 1].1;
        if Descends(child) { AsWrittenAgreesWithoutNull(child, ChildCount(child)); }
      case Arr(items) =>
        var child := items[i - 1];
        if Descends(child) { AsWrittenAgreesWithoutNull(child, ChildCount(child)); }
    }
  }
}
