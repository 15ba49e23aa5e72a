/** The state of the results table component and the handlers that update
    it: sort order, selection and filters
    (client/src/Components/ResultsTable.tsx). */
module ResultsTableState {
  import opened Interfaces
  import opened TableHelpers
  import opened ResultsTable
  import opened Sequences

  class TableState {
    /** Whether rows can be selected; fixed for the component. */
    const enableSelection: bool
    var order: Order
    var orderBy: Column
    var selectedIds: seq<int>
    var filters: FilterValues

    /** A selection holds each id at most once. */
    predicate Valid()
      reads this
    {
      NoDuplicates(selectedIds)
    }

    /** The initial state: newest results first, nothing selected. */
    constructor(enableSelection: bool, filters: FilterValues)
      ensures this.enableSelection == enableSelection
      ensures order == Desc && orderBy == DateRun && selectedIds == []
      ensures this.filters == filters
      ensures Valid()
    {
      this.enableSelection := enableSelection;
      order := Desc;
      orderBy := DateRun;
      selectedIds := [];
      this.filters := filters;
    }

    /** `handleRequestSort`. */
    method RequestSort(property: Column)
      modifies this
      ensures order == NextOrder(old(order), old(orderBy), property)
      ensures orderBy == property
      ensures selectedIds == old(selectedIds) && filters == old(filters)
    {
      var isAsc := orderBy == property && order == Asc;
      order := if isAsc then Desc else Asc;
      orderBy := property;
    }

    /** `handleSelectAllClick`: nothing happens when selection is disabled. */
    method SelectAllClick(checked: bool, filteredRows: seq<Data>)
      modifies this
      ensures !enableSelection ==> selectedIds == old(selectedIds)
      ensures enableSelection ==> selectedIds == SelectAll(checked, filteredRows)
      ensures order == old(order) && orderBy == old(orderBy) && filters == old(filters)
      ensures old(Valid()) && NoDuplicates(RowIds(filteredRows)) ==> Valid()
    {
      if !enableSelection {
        return;
      }
      if checked {
        selectedIds := RowIds(filteredRows);
        return;
      }
      selectedIds := [];
    }

    /** `handleCheckboxClick`: nothing happens when selection is disabled. */
    method CheckboxClick(id: int)
      requires Valid()
      modifies this
      ensures !enableSelection ==> selectedIds == old(selectedIds)
      ensures enableSelection ==> selectedIds == Toggled(old(selectedIds), id)
      ensures order == old(order) && orderBy == old(orderBy) && filters == old(filters)
      ensures Valid()
    {
      if !enableSelection {
        return;
      }
      ToggleKeepsNoDuplicates(selectedIds, id);
      if id in selectedIds {
        selectedIds := Removed(selectedIds, id);
      } else {
        selectedIds := selectedIds + [id];
      }
    }

    /** The pruning effect run when the shown rows change. */
    method PruneSelection(filteredRows: seq<Data>)
      requires Valid()
      modifies this
      ensures selectedIds == Pruned(old(selectedIds), filteredRows)
      ensures order == old(order) && orderBy == old(orderBy) && filters == old(filters)
      ensures Valid()
    {
      FilterKeepsNoDuplicates(selectedIds, x => x in RowIds(filteredRows));
      selectedIds := Pruned(selectedIds, filteredRows);
    }

    /** The clamp effect run when the filter ranges change. */
    method ApplyFilterRanges(ranges: FilterRanges)
      modifies this
      ensures filters == ClampEffect(old(filters), ranges)
      ensures order == old(order) && orderBy == old(orderBy) && selectedIds == old(selectedIds)
    {
      filters := ClampEffect(filters, ranges);
    }

    /** The rows as the table shows them: the shown rows stably sorted by
        the current order. `perm` says where each shown row came from: rows
        that compare equal keep their order in `filteredRows`. */
    method TableRows(filteredRows: seq<Data>) returns (rows: seq<Data>, ghost perm: seq<nat>)
      requires UniformColumn(filteredRows, orderBy)
      ensures |rows| == |filteredRows| && multiset(rows) == multiset(filteredRows)
      ensures |perm| == |rows|
      ensures forall k :: 0 <= k < |rows| ==> perm[k] < |filteredRows| && rows[k] == filteredRows[perm[k]]
      ensures forall i, j :: 0 <= i < j < |rows| ==> perm[i] != perm[j]
      ensures forall i, j :: 0 <= i < j < |rows| ==> Compare(order, orderBy, rows[i], rows[j]) <= 0
      ensures forall i, j :: 0 <= i < j < |rows| && Compare(order, orderBy, rows[i], rows[j]) == 0 ==>
        perm[i] < perm[j]
    {
      var ord, col := order, orderBy;
      CompareConsistent(filteredRows, ord, col);
      rows, perm := StableSort(filteredRows, (a, b) => Compare(ord, col, a, b));
    }
  }
}
