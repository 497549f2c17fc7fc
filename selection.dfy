/**
 * Selection bookkeeping: the snapshot of selected projects that
 * `isChangedSelectedProjectsState` diffs against, and the
 * (type, project URL, name) gate of `outlineViewSelectionDidChange`.
 */
module Selection {
  import opened SidebarModel

  /** The project bound to a row, as a list of zero or one projects. */
  function BoundAt(items: seq<SidebarItem>, row: int): seq<Project> {
    match ItemAt(items, row)
    case None => []
    case Some(item) =>
      match item.project
      case None => []
      case Some(p) => [p]
  }

  /** The projects bound to the selected rows, in row order; rows without an item or a project add nothing. */
  function ProjectsOf(items: seq<SidebarItem>, rows: seq<nat>): (r: seq<Project>)
    ensures |r| <= |rows|
  {
    if rows == [] then []
    else ProjectsOf(items, rows[..|rows| - 1]) + BoundAt(items, rows[|rows| - 1])
  }

  /** Extending the scanned prefix of the selection by one row appends that row's project, if any. */
  lemma ProjectsOfStep(items: seq<SidebarItem>, rows: seq<nat>, i: nat)
    requires i < |rows|
    ensures ProjectsOf(items, rows[..i + 1]) == ProjectsOf(items, rows[..i]) + BoundAt(items, rows[i])
  {
    assert rows[..i + 1][..i] == rows[..i];
  }

  /** A project is in the snapshot exactly when some selected row is bound to it. */
  lemma {:induction false} ProjectsOfMembers(items: seq<SidebarItem>, rows: seq<nat>, p: Project)
    ensures p in ProjectsOf(items, rows) <==> exists k :: 0 <= k < |rows| && BoundAt(items, rows[k]) == [p]
  {
    if rows != [] {
      var init := rows[..|rows| - 1];
      ProjectsOfMembers(items, init, p);
      if p in ProjectsOf(items, rows) {
        if p in ProjectsOf(items, init) {
          var k :| 0 <= k < |init| && BoundAt(items, init[k]) == [p];
          assert rows[k] == init[k];
        } else {
          assert BoundAt(items, rows[|rows| - 1]) == [p];
        }
      }
      if exists k :: 0 <= k < |rows| && BoundAt(items, rows[k]) == [p] {
        var k :| 0 <= k < |rows| && BoundAt(items, rows[k]) == [p];
        if k < |rows| - 1 {
          assert init[k] == rows[k];
        }
      }
    }
  }

  /** Some project of `after` has a URL no project of `before` has. */
  predicate SomeNew(before: seq<Project>, after: seq<Project>) {
    after != [] && (SomeNew(before, after[..|after| - 1]) || !HasUrl(before, after[|after| - 1].url))
  }

  /** Appending one project: the flag is raised if it was raised or the project is new. */
  lemma SomeNewStep(before: seq<Project>, after: seq<Project>, p: Project)
    ensures SomeNew(before, after + [p]) == (SomeNew(before, after) || !HasUrl(before, p.url))
  {
    assert (after + [p])[..|after|] == after;
  }

  lemma {:induction false} SomeNewMeans(before: seq<Project>, after: seq<Project>)
    ensures SomeNew(before, after) <==> exists k :: 0 <= k < |after| && !HasUrl(before, after[k].url)
  {
    if after != [] {
      var init := after[..|after| - 1];
      SomeNewMeans(before, init);
      if SomeNew(before, init) {
        var k :| 0 <= k < |init| && !HasUrl(before, init[k].url);
        assert after[k] == init[k];
      }
      if exists k :: 0 <= k < |after| && !HasUrl(before, after[k].url) {
        var k :| 0 <= k < |after| && !HasUrl(before, after[k].url);
        if k < |after| - 1 {
          assert init[k] == after[k];
        }
      }
    }
  }

  /**
   * What `isChangedSelectedProjectsState` reports, from the retained
   * snapshot and the projects of the current selection: from an empty
   * snapshot, whether any project is now selected; otherwise whether some
   * selected project is new or nothing is selected any more.
   */
  predicate SnapshotChanged(before: seq<Project>, after: seq<Project>) {
    if before == [] then after != []
    else after == [] || SomeNew(before, after)
  }

  /** Asking twice about the same selection: the second answer is "unchanged". */
  lemma RepeatedQueryIsUnchanged(s: seq<Project>)
    ensures !SnapshotChanged(s, s)
  {
    if s != [] {
      SomeNewMeans(s, s);
      forall k | 0 <= k < |s|
        ensures HasUrl(s, s[k].url)
      {
      }
    }
  }

  /** A non-empty snapshot reports a change exactly when a new project appears or the selection empties. */
  lemma ChangedIff(before: seq<Project>, after: seq<Project>)
    requires before != []
    ensures SnapshotChanged(before, after) <==>
              after == [] || exists k :: 0 <= k < |after| && !HasUrl(before, after[k].url)
  {
    SomeNewMeans(before, after);
  }

  /**
   * Deselecting some (not all) of the selected folders is not a change:
   * every project still selected was already in the snapshot.
   */
  lemma PartialDeselectionIsNotAChange(before: seq<Project>, after: seq<Project>)
    requires before != [] && after != []
    requires forall k :: 0 <= k < |after| ==> HasUrl(before, after[k].url)
    ensures !SnapshotChanged(before, after)
  {
    SomeNewMeans(before, after);
  }

  /** Concretely: with folders p and q selected, dropping q from the selection goes unreported. */
  lemma DroppingOneOfTwoGoesUnreported(p: Project, q: Project)
    requires p.url != q.url
    ensures !SnapshotChanged([p, q], [p])
    ensures !HasUrl([p], q.url)
  {
    assert [p, q][0].url == p.url;
    PartialDeselectionIsNotAChange([p, q], [p]);
  }

  /**
   * The same folders selected again, at any rows and in any order (after a
   * rebuild, say), are no change: only the URLs of the projects matter.
   */
  lemma ShiftedRowsAreNoChange(items: seq<SidebarItem>, shifted: seq<SidebarItem>, rows: seq<nat>, rows': seq<nat>)
    requires forall k :: 0 <= k < |ProjectsOf(items, rows)| ==>
               HasUrl(ProjectsOf(shifted, rows'), ProjectsOf(items, rows)[k].url)
    requires forall k :: 0 <= k < |ProjectsOf(shifted, rows')| ==>
               HasUrl(ProjectsOf(items, rows), ProjectsOf(shifted, rows')[k].url)
    ensures !SnapshotChanged(ProjectsOf(items, rows), ProjectsOf(shifted, rows'))
  {
    var before, after := ProjectsOf(items, rows), ProjectsOf(shifted, rows');
    if before != [] {
      assert HasUrl(after, before[0].url);
      PartialDeselectionIsNotAChange(before, after);
    } else {
      assert after != [] ==> HasUrl(before, after[0].url);
    }
  }

  /** Concretely: folders p and q selected in the opposite order are no change. */
  lemma SwappedOrderIsNoChange(p: Project, q: Project)
    ensures !SnapshotChanged([p, q], [q, p])
  {
    assert [p, q][0] == p && [p, q][1] == q;
    assert forall k :: 0 <= k < 2 ==> HasUrl([p, q], [q, p][k].url);
    PartialDeselectionIsNotAChange([p, q], [q, p]);
  }

  // ---------------------------------------------------------------------------
  // The selection gate

  /** The last selected node as the user-data store records it: type, project URL and name. */
  datatype Recorded = Recorded(lastType: Option<ItemType>, lastProject: Option<Url>, lastName: Option<string>)

  /** The recorded triple matches the item (an absent project matches a recorded absent URL). */
  predicate SameNode(rec: Recorded, item: SidebarItem) {
    rec.lastType == Some(item.kind) && rec.lastProject == ProjectUrl(item) && rec.lastName == Some(item.name)
  }

  /** The triple recorded for a newly selected item. */
  function RecordOf(item: SidebarItem): (rec: Recorded)
    ensures SameNode(rec, item)
    ensures forall other: SidebarItem :: SameNode(rec, other) <==>
              other.kind == item.kind && other.name == item.name && ProjectUrl(other) == ProjectUrl(item)
  {
    Recorded(Some(item.kind), ProjectUrl(item), Some(item.name))
  }

  /** How a selection change ends. */
  datatype GateOutcome =
    | Suppressed      // the same node again: nothing is cleared or reloaded
    | ClearedOnly     // editor cleared, reload skipped once
    | Reloaded        // editor cleared and the note list reloaded

  function Gate(rec: Recorded, selected: Option<SidebarItem>, skip: bool): (g: GateOutcome)
    ensures g == Suppressed <==> selected.Some? && SameNode(rec, selected.value)
    ensures g == ClearedOnly ==> skip
    ensures g == Reloaded ==> !skip
  {
    if selected.Some? && SameNode(rec, selected.value) then Suppressed
    else if skip then ClearedOnly
    else Reloaded
  }

  /** Re-selecting the node just recorded, or an equal-but-distinct copy of it, is suppressed. */
  lemma ReselectionIsSuppressed(item: SidebarItem, copy: SidebarItem, skip: bool)
    requires copy.kind == item.kind && copy.name == item.name && ProjectUrl(copy) == ProjectUrl(item)
    ensures Gate(RecordOf(item), Some(copy), skip) == Suppressed
  {
  }

  /**
   * A set skip flag costs exactly one reload: the change that consumes it
   * only clears, and the next change to a different node (the flag now
   * reset) reloads.
   */
  lemma SkipSuppressesExactlyOne(rec: Recorded, first: SidebarItem, second: SidebarItem)
    requires !SameNode(rec, first)
    requires !SameNode(RecordOf(first), second)
    ensures Gate(rec, Some(first), true) == ClearedOnly
    ensures Gate(RecordOf(first), Some(second), false) == Reloaded
  {
  }
}
