/**
 * Label-aware keyboard navigation over the flat sidebar list
 * (`selectNext`, `selectPrev`) and the search for the Archive row
 * (`selectArchive`).
 */
module Navigation {
  import opened SidebarModel

  /** A section header with no project behind it. */
  predicate IsBareLabel(item: SidebarItem) {
    item.kind == Label && item.project.None?
  }

  /** The row `selectNext` selects from `selectedRow` (-1 when nothing is selected), or `None` to keep the selection. */
  function NextTarget(items: seq<SidebarItem>, selectedRow: int): (r: Option<nat>)
    ensures r.Some? ==> r.value < |items| && !IsBareLabel(items[r.value])
  {
    var i := selectedRow + 1;
    if !(0 <= i < |items|) then None
    else if IsBareLabel(items[i]) then
      var j := i + 1;
      if j < |items| && items[j].kind != Label then Some(j) else None
    else Some(i)
  }

  /** The row `selectPrev` selects from `selectedRow`, or `None` to keep the selection. */
  function PrevTarget(items: seq<SidebarItem>, selectedRow: int): (r: Option<nat>)
    ensures r.Some? ==> r.value < |items| && !IsBareLabel(items[r.value])
  {
    var i := selectedRow - 1;
    if !(0 <= i < |items|) then None
    else if IsBareLabel(items[i]) then
      var j := i - 1;
      if 0 <= j && items[j].kind != Label then Some(j) else None
    else Some(i)
  }

  /** Next moves one row down, or two when it steps over a bare label. */
  lemma NextMovesOneOrTwo(items: seq<SidebarItem>, row: int)
    ensures NextTarget(items, row).Some? ==>
              NextTarget(items, row).value == row + 1 || NextTarget(items, row).value == row + 2
    ensures 0 <= row + 1 < |items| && !IsBareLabel(items[row + 1]) ==> NextTarget(items, row) == Some(row + 1)
  {
  }

  /**
   * A bare label below is skipped by exactly one extra step; when the row
   * beyond is past the end or is itself a label, the selection stays.
   */
  lemma NextSkipsOneBareLabel(items: seq<SidebarItem>, row: int)
    requires 0 <= row + 1 < |items| && IsBareLabel(items[row + 1])
    ensures NextTarget(items, row).Some? <==> row + 2 < |items| && items[row + 2].kind != Label
    ensures NextTarget(items, row).Some? ==> NextTarget(items, row).value == row + 2
  {
  }

  /** Prev moves one row up, or two when it steps over a bare label. */
  lemma PrevMovesOneOrTwo(items: seq<SidebarItem>, row: int)
    ensures PrevTarget(items, row).Some? ==>
              PrevTarget(items, row).value == row - 1 || PrevTarget(items, row).value == row - 2
    ensures 0 <= row - 1 < |items| && !IsBareLabel(items[row - 1]) ==> PrevTarget(items, row) == Some(row - 1)
  {
  }

  /** A bare label above is skipped by exactly one extra step, or the selection stays. */
  lemma PrevSkipsOneBareLabel(items: seq<SidebarItem>, row: int)
    requires 0 <= row - 1 < |items| && IsBareLabel(items[row - 1])
    ensures PrevTarget(items, row).Some? <==> row - 2 >= 0 && items[row - 2].kind != Label
    ensures PrevTarget(items, row).Some? ==> PrevTarget(items, row).value == row - 2
  {
  }

  /** Nothing selected: Next starts at the top, Prev does nothing. */
  lemma FromNoSelection(items: seq<SidebarItem>)
    requires |items| > 0 && !IsBareLabel(items[0])
    ensures NextTarget(items, -1) == Some(0)
    ensures PrevTarget(items, -1) == None
  {
  }

  /** `firstIndex(where:)` for a row type: the first row of that type, if any. */
  function FirstOfKind(items: seq<SidebarItem>, kind: ItemType): (r: Option<nat>)
    ensures r.Some? ==> r.value < |items| && items[r.value].kind == kind
    ensures r.Some? ==> forall k :: 0 <= k < r.value ==> items[k].kind != kind
    ensures r.None? ==> forall k :: 0 <= k < |items| ==> items[k].kind != kind
  {
    if items == [] then None
    else if items[0].kind == kind then Some(0)
    else match FirstOfKind(items[1..], kind)
      case None => None
      case Some(i) => Some(i + 1)
  }
}
