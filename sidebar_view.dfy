/**
 * The sidebar outline view itself: its row list and selection, the
 * retained selection snapshot, and the actions that change them or ask
 * the storage, the editor and the host window to act. Each method is
 * stated against the pure rules of the other modules.
 */
module SidebarView {
  import opened SidebarModel
  import opened MenuValidation
  import opened DropRules
  import opened Selection
  import opened Navigation
  import opened Lifecycle

  /** The selection after `reloadSidebar` re-selects the row that was selected (-1: none). */
  function Reselect(selection: seq<nat>, row: int): seq<nat> {
    if row >= 0 then [row] else selection
  }

  /** `removeByNotes`: the note list without the given notes, in its order. */
  function Without(list: seq<Note>, notes: seq<Note>): (r: seq<Note>)
    ensures forall n :: n in r <==> n in list && n !in notes
    ensures |r| <= |list|
  {
    if list == [] then []
    else
      var last := list[|list| - 1];
      assert forall n :: n in list <==> n in list[..|list| - 1] || n == last;
      Without(list[..|list| - 1], notes) + (if last in notes then [] else [last])
  }

  /** The notes at the given rows of the note list, in row order. */
  function NotesAt(list: seq<Note>, rows: seq<nat>): seq<Note>
    requires forall k :: 0 <= k < |rows| ==> rows[k] < |list|
  {
    seq(|rows|, k requires 0 <= k < |rows| => list[rows[k]])
  }

  /** The note rows of a note drop all index the note list (the source indexes it unchecked). */
  predicate RowsFit(route: DropRoute, n: nat) {
    (route.MoveToProject? || route.RemoveToTrash? || route.NotesIgnored?) ==>
      forall k :: 0 <= k < |route.rows| ==> route.rows[k] < n
  }

  /** Appending in two steps is appending the two parts at once. */
  lemma AppendTwice<T>(a: seq<T>, b: seq<T>, c: seq<T>)
    ensures a + b + c == a + (b + c)
  {
  }

  /** One `loadLabel` request per registered project, in order. */
  function LoadLabels(projects: seq<Project>): seq<Effect> {
    seq(|projects|, k requires 0 <= k < |projects| => LoadLabel(projects[k]))
  }

  /** The loop over the selected rows that gathers their projects in row order. */
  method CollectProjects(items: seq<SidebarItem>, rows: seq<nat>) returns (found: seq<Project>)
    ensures found == ProjectsOf(items, rows)
  {
    found := [];
    var i := 0;
    while i < |rows|
      invariant 0 <= i <= |rows|
      invariant found == ProjectsOf(items, rows[..i])
    {
      ProjectsOfStep(items, rows, i);
      var bound := BoundAt(items, rows[i]);
      if bound != [] {
        found := found + [bound[0]];
      }
      i := i + 1;
    }
    assert rows[..|rows|] == rows;
  }

  /**
   * The same loop against a non-empty snapshot: it also raises a flag
   * when a gathered project's URL is not in the snapshot.
   */
  method CollectAndCompare(items: seq<SidebarItem>, rows: seq<nat>, snapshot: seq<Project>)
    returns (current: seq<Project>, changed: bool)
    ensures current == ProjectsOf(items, rows)
    ensures changed == SomeNew(snapshot, current)
  {
    current := [];
    changed := false;
    var i := 0;
    while i < |rows|
      invariant 0 <= i <= |rows|
      invariant current == ProjectsOf(items, rows[..i])
      invariant changed == SomeNew(snapshot, current)
    {
      ProjectsOfStep(items, rows, i);
      var bound := BoundAt(items, rows[i]);
      if bound != [] {
        var project := bound[0];
        SomeNewStep(snapshot, current, project);
        current := current + [project];
        if !HasUrl(snapshot, project.url) {
          changed := true;
        }
      }
      i := i + 1;
    }
    assert rows[..|rows|] == rows;
  }

  /** The user-data singleton: the recorded last selection and two one-shot flags. */
  class UserDataService {
    var recorded: Recorded
    var skipSidebarSelection: bool
    var isNotesTableEscape: bool

    constructor ()
      ensures recorded == Recorded(None, None, None)
      ensures !skipSidebarSelection && !isNotesTableEscape
    {
      recorded := Recorded(None, None, None);
      skipSidebarSelection := false;
      isNotesTableEscape := false;
    }
  }

  class SidebarProjectView {
    var sidebarItems: Option<seq<SidebarItem>>
    var selection: seq<nat>               // selectedRowIndexes
    var selectedProjects: seq<Project>    // the retained snapshot
    var lastSelectedRow: Option<int>
    var isFirstLaunch: bool
    // State of the collaborators this view drives.
    var projects: seq<Project>            // the storage's registered folders
    var bookmarks: set<Url>               // sandbox bookmarks
    var noteList: seq<Note>               // the note list's rows
    var lastProjectRow: Option<int>       // the persisted last selected sidebar row
    var log: seq<Effect>                  // requests made of collaborators, in order
    const user: UserDataService
    const buildSidebar: seq<Project> -> seq<SidebarItem>  // `Sidebar().getList()` over the storage

    /** The rows; no list yet reads as no rows. */
    function Items(): seq<SidebarItem>
      reads this`sidebarItems
    {
      match sidebarItems
      case Some(s) => s
      case None => []
    }

    /** `selectedRow`: the last selected row, -1 when nothing is selected. */
    function SelectedRow(): int
      reads this`selection
    {
      if selection == [] then -1 else selection[|selection| - 1]
    }

    /** `getSidebarItem()`: the item at the selected row, if that row exists. */
    function SelectedItem(): Option<SidebarItem>
      reads this`sidebarItems, this`selection
    {
      ItemAt(Items(), SelectedRow())
    }

    constructor (user: UserDataService, buildSidebar: seq<Project> -> seq<SidebarItem>,
                 projects: seq<Project>, bookmarks: set<Url>, noteList: seq<Note>)
      ensures this.user == user && this.buildSidebar == buildSidebar
      ensures this.projects == projects && this.bookmarks == bookmarks && this.noteList == noteList
      ensures sidebarItems.None? && selection == [] && selectedProjects == []
      ensures lastSelectedRow.None? && lastProjectRow.None? && isFirstLaunch && log == []
    {
      this.user := user;
      this.buildSidebar := buildSidebar;
      this.projects := projects;
      this.bookmarks := bookmarks;
      this.noteList := noteList;
      sidebarItems := None;
      selection := [];
      selectedProjects := [];
      lastSelectedRow := None;
      lastProjectRow := None;
      isFirstLaunch := true;
      log := [];
    }

    // -------------------------------------------------------------------------
    // Selection and navigation

    /**
     * The `selectRowIndexes` override: an empty index set is ignored;
     * otherwise the rows replace the selection, or join it when extending.
     */
    method SelectRowIndexes(indexes: seq<nat>, extend: bool)
      modifies this`selection
      ensures indexes == [] ==> selection == old(selection)
      ensures indexes != [] ==> selection == (if extend then old(selection) + indexes else indexes)
      ensures indexes != [] ==> SelectedRow() == indexes[|indexes| - 1]
    {
      if indexes == [] {
        return;
      }
      selection := if extend then selection + indexes else indexes;
    }

    method SelectNext()
      modifies this`selection
      ensures selection == match NextTarget(Items(), old(SelectedRow()))
                           case Some(j) => [j]
                           case None => old(selection)
    {
      var i := SelectedRow() + 1;
      if sidebarItems.None? || !(0 <= i < |sidebarItems.value|) {
        return;
      }
      var si := sidebarItems.value;
      if si[i].kind == Label && si[i].project.None? {
        var j := i + 1;
        if !(j < |si|) {
          return;
        }
        if si[j].kind != Label {
          SelectRowIndexes([j], false);
          return;
        }
        return;
      }
      SelectRowIndexes([i], false);
    }

    method SelectPrev()
      modifies this`selection
      ensures selection == match PrevTarget(Items(), old(SelectedRow()))
                           case Some(j) => [j]
                           case None => old(selection)
    {
      var i := SelectedRow() - 1;
      if sidebarItems.None? || !(0 <= i < |sidebarItems.value|) {
        return;
      }
      var si := sidebarItems.value;
      if si[i].kind == Label && si[i].project.None? {
        var j := i - 1;
        if !(0 <= j) {
          return;
        }
        if si[j].kind != Label {
          SelectRowIndexes([j], false);
          return;
        }
        return;
      }
      SelectRowIndexes([i], false);
    }

    method SelectArchive()
      modifies this`selection
      ensures selection == match FirstOfKind(Items(), Archive)
                           case Some(i) => [i]
                           case None => old(selection)
    {
      var found := FirstOfKind(Items(), Archive);
      if found.Some? {
        SelectRowIndexes([found.value], false);
      }
    }

    /**
     * `isChangedSelectedProjectsState`: compares the retained snapshot with
     * the projects of the selected rows, and retains the latter.
     */
    method IsChangedSelectedProjectsState() returns (changed: bool)
      modifies this`selectedProjects
      ensures selectedProjects == ProjectsOf(Items(), selection)
      ensures changed == SnapshotChanged(old(selectedProjects), selectedProjects)
    {
      if |selectedProjects| == 0 {
        selectedProjects := CollectProjects(Items(), selection);
        changed := |selectedProjects| > 0;
      } else {
        var current;
        current, changed := CollectAndCompare(Items(), selection, selectedProjects);
        selectedProjects := current;
        if |current| == 0 {
          changed := true;
        }
      }
    }

    /** `getSidebarProjects`: the projects of the selected rows, or else the root storage, or else nothing. */
    method GetSidebarProjects() returns (r: Option<seq<Project>>)
      ensures r.Some? ==> |r.value| > 0
      ensures ProjectsOf(Items(), selection) != [] ==> r == Some(ProjectsOf(Items(), selection))
      ensures ProjectsOf(Items(), selection) == [] ==>
                r == match RootProject(projects)
                     case Some(root) => Some([root])
                     case None => None
    {
      var found := CollectProjects(Items(), selection);
      if |found| > 0 {
        return Some(found);
      }
      var root := RootProject(projects);
      if root.Some? {
        return Some([root.value]);
      }
      return None;
    }

    /**
     * `outlineViewSelectionDidChange`: records the newly selected node and
     * clears the editor unless the node equals the recorded one; reloads the
     * note list unless the one-shot skip flag is set, which it resets.
     */
    method SelectionDidChange()
      modifies this`lastSelectedRow, this`lastProjectRow, this`log, this`isFirstLaunch, user
      ensures !user.isNotesTableEscape
      ensures sidebarItems.None? ==>
                && lastSelectedRow == old(lastSelectedRow) && lastProjectRow == old(lastProjectRow)
                && log == old(log) && isFirstLaunch == old(isFirstLaunch)
                && user.recorded == old(user.recorded)
                && user.skipSidebarSelection == old(user.skipSidebarSelection)
      ensures sidebarItems.Some? ==> lastSelectedRow == Some(old(SelectedRow()))
      ensures sidebarItems.Some? &&
              Gate(old(user.recorded), old(SelectedItem()), old(user.skipSidebarSelection)) == Suppressed ==>
                && lastProjectRow == old(lastProjectRow) && log == old(log)
                && isFirstLaunch == old(isFirstLaunch)
                && user.recorded == old(user.recorded)
                && user.skipSidebarSelection == old(user.skipSidebarSelection)
      ensures sidebarItems.Some? &&
              Gate(old(user.recorded), old(SelectedItem()), old(user.skipSidebarSelection)) != Suppressed ==>
                var g := Gate(old(user.recorded), old(SelectedItem()), old(user.skipSidebarSelection));
                && user.recorded == (if old(SelectedItem()).Some? then RecordOf(old(SelectedItem()).value) else old(user.recorded))
                && lastProjectRow == (if old(SelectedItem()).Some? then Some(old(SelectedRow())) else old(lastProjectRow))
                && !user.skipSidebarSelection
                && log == old(log) + [ClearEditor] + (if old(isFirstLaunch) then [] else [ClearSearch])
                          + (if g == Reloaded then [UpdateTable] else [])
                && isFirstLaunch == (old(isFirstLaunch) && g != Reloaded)
    {
      ghost var selected := SelectedItem();
      ghost var g := Gate(user.recorded, selected, user.skipSidebarSelection);
      if user.isNotesTableEscape {
        user.isNotesTableEscape := false;
      }
      if sidebarItems.None? {
        return;
      }
      var sidebar := sidebarItems.value;
      var i := SelectedRow();
      lastSelectedRow := Some(i);
      if 0 <= i < |sidebar| {
        var item := sidebar[i];
        assert selected == Some(item);
        if user.recorded.lastType == Some(item.kind) && user.recorded.lastProject == ProjectUrl(item)
           && user.recorded.lastName == Some(item.name) {
          assert g == Suppressed;
          return;
        }
        lastProjectRow := Some(i);
        user.recorded := Recorded(Some(item.kind), ProjectUrl(item), Some(item.name));
      }
      assert g != Suppressed;
      log := log + [ClearEditor];
      if !isFirstLaunch {
        log := log + [ClearSearch];
      }
      if user.skipSidebarSelection {
        user.skipSidebarSelection := false;
        return;
      }
      log := log + [UpdateTable];
      // the update's completion ends the first launch
      isFirstLaunch := false;
    }

    /** `reloadSidebar`: rebuilds the rows from the storage and re-selects the selected row. */
    method ReloadSidebar()
      modifies this`log, this`sidebarItems, this`selection
      ensures log == old(log) + [RestartWatcher, LoadMoveMenu]
      ensures sidebarItems == Some(buildSidebar(projects))
      ensures selection == Reselect(old(selection), old(SelectedRow()))
      ensures SelectedRow() == old(SelectedRow())
    {
      log := log + [RestartWatcher, LoadMoveMenu];
      var selected := SelectedRow();
      sidebarItems := Some(buildSidebar(projects));
      if selected >= 0 {
        SelectRowIndexes([selected], false);
      }
    }

    // -------------------------------------------------------------------------
    // Contextual menu

    /** `validateMenuItem`: the enabled answer, with the relabelling and hiding it does on the way. */
    method ValidateMenuItem(menuItem: MenuItem) returns (enabled: bool)
      modifies menuItem
      ensures enabled == MenuEnabled(old(menuItem.title), SelectedItem())
      ensures menuItem.title == RelabeledTitle(old(menuItem.title), SelectedItem())
      ensures menuItem.isHidden == HiddenAfterValidation(old(menuItem.title), SelectedItem(), old(menuItem.isHidden))
    {
      if menuItem.title == AttachStorage {
        return true;
      }
      var selected := SelectedItem();
      if selected.None? {
        return false;
      }
      var item := selected.value;
      if menuItem.title == BackUpStorage {
        return true;
      }
      if menuItem.title == ShowInFinder {
        return item.project.Some? || item.isTrash;
      }
      if menuItem.title == RenameFolder {
        if item.isTrash {
          return false;
        }
        if item.project.Some? {
          menuItem.isHidden := item.project.value.isRoot;
        }
        if item.project.Some? && !item.project.value.isDefault && !item.project.value.isArchive {
          return true;
        }
      }
      if menuItem.title == DeleteFolder || menuItem.title == DetachStorage {
        if item.isTrash {
          return false;
        }
        if item.project.Some? {
          menuItem.title := if item.project.value.isRoot then DetachStorage else DeleteFolder;
        }
        if item.project.Some? && !item.project.value.isDefault && !item.project.value.isArchive {
          return true;
        }
      }
      if menuItem.title == ShowViewOptions {
        if item.isTrash {
          return false;
        }
        return item.project.Some?;
      }
      if menuItem.title == NewFolder {
        if item.isTrash {
          return false;
        }
        if item.project.Some? && !item.project.value.isArchive {
          return true;
        }
      }
      return false;
    }

    /**
     * `willOpenMenu`: selects the clicked row, then validates every item
     * and sets its `isHidden` to the negation of the answer.
     */
    method WillOpenMenu(menu: seq<MenuItem>, clickedRow: int)
      requires forall a, b :: 0 <= a < b < |menu| ==> menu[a] != menu[b]
      modifies this`selection, set m | m in menu
      ensures clickedRow < 0 ==> selection == old(selection)
      ensures clickedRow < 0 ==> forall k :: 0 <= k < |menu| ==>
                menu[k].title == old(menu[k].title) && menu[k].isHidden == old(menu[k].isHidden)
      ensures clickedRow >= 0 ==> selection == [clickedRow]
      ensures clickedRow >= 0 ==> forall k :: 0 <= k < |menu| ==>
                && menu[k].title == RelabeledTitle(old(menu[k].title), ItemAt(Items(), clickedRow))
                && menu[k].isHidden == !MenuEnabled(old(menu[k].title), ItemAt(Items(), clickedRow))
    {
      if clickedRow > -1 {
        SelectRowIndexes([clickedRow], false);
        var i := 0;
        while i < |menu|
          invariant 0 <= i <= |menu|
          invariant selection == [clickedRow]
          invariant forall k :: 0 <= k < i ==>
                      && menu[k].title == RelabeledTitle(old(menu[k].title), ItemAt(Items(), clickedRow))
                      && menu[k].isHidden == !MenuEnabled(old(menu[k].title), ItemAt(Items(), clickedRow))
          invariant forall k :: i <= k < |menu| ==>
                      menu[k].title == old(menu[k].title) && menu[k].isHidden == old(menu[k].isHidden)
        {
          var enabled := ValidateMenuItem(menu[i]);
          menu[i].isHidden := !enabled;
          i := i + 1;
        }
      }
    }

    // -------------------------------------------------------------------------
    // Drag and drop

    /** `acceptDrop`: performs the route `RouteDrop` chooses; the answer is whether the drop was taken. */
    method AcceptDrop(target: Option<SidebarItem>, board: Pasteboard, fs: FileSystem) returns (accepted: bool)
      requires RowsFit(RouteDrop(target, board), |noteList|)
      modifies this`log, this`projects, this`sidebarItems, this`selection, this`noteList
      ensures accepted <==> !RouteDrop(target, board).Rejected?
      ensures RouteDrop(target, board).Rejected? || RouteDrop(target, board).NotesIgnored? ==>
                && log == old(log) && projects == old(projects) && noteList == old(noteList)
                && sidebarItems == old(sidebarItems) && selection == old(selection)
      ensures RouteDrop(target, board).MoveToProject? ==>
                var route := RouteDrop(target, board);
                && log == old(log) + [MoveNotes(NotesAt(old(noteList), route.rows), route.target)]
                && projects == old(projects) && noteList == old(noteList)
                && sidebarItems == old(sidebarItems) && selection == old(selection)
      ensures RouteDrop(target, board).RemoveToTrash? ==>
                var notes := NotesAt(old(noteList), RouteDrop(target, board).rows);
                && log == old(log) + [ClearEditor, RemoveNotes(notes), RestartWatcher, LoadMoveMenu]
                && noteList == Without(old(noteList), notes)
                && projects == old(projects)
                && sidebarItems == Some(buildSidebar(projects))
                && selection == Reselect(old(selection), old(SelectedRow()))
      ensures RouteDrop(target, board).ImportUrls? ==>
                var route := RouteDrop(target, board);
                var added := ImportedProjects(route.target, route.urls, fs);
                && projects == old(projects) + added
                && log == old(log) + ImportEffects(route.target, route.urls, fs)
                && noteList == old(noteList)
                && (added == [] ==> sidebarItems == old(sidebarItems) && selection == old(selection))
                && (added != [] ==> sidebarItems == Some(buildSidebar(projects))
                                    && selection == Reselect(old(selection), old(SelectedRow())))
    {
      if target.None? {
        return false;
      }
      var item := target.value;
      if !(item.kind == Label || item.kind == Category || item.kind == Trash || item.kind == Archive || item.kind == Inbox) {
        return false;
      }
      if board.notes.Some? && board.notes.value.rows.Some? {
        DropNotes(item, board.notes.value.rows.value);
        return true;
      }
      if board.urls.None? || item.project.None? {
        return false;
      }
      ImportDroppedUrls(item.project.value, board.urls.value, fs);
      return true;
    }

    /** The note branch of `acceptDrop`: the notes at the dragged rows go to the row's folder, or to the trash. */
    method DropNotes(item: SidebarItem, rows: seq<nat>)
      requires forall k :: 0 <= k < |rows| ==> rows[k] < |noteList|
      modifies this`log, this`sidebarItems, this`selection, this`noteList
      ensures item.project.Some? ==>
                && log == old(log) + [MoveNotes(NotesAt(old(noteList), rows), item.project.value)]
                && noteList == old(noteList) && sidebarItems == old(sidebarItems) && selection == old(selection)
      ensures item.project.None? && item.isTrash ==>
                var notes := NotesAt(old(noteList), rows);
                && log == old(log) + [ClearEditor, RemoveNotes(notes), RestartWatcher, LoadMoveMenu]
                && noteList == Without(old(noteList), notes)
                && sidebarItems == Some(buildSidebar(projects))
                && selection == Reselect(old(selection), old(SelectedRow()))
      ensures item.project.None? && !item.isTrash ==>
                && log == old(log) && noteList == old(noteList)
                && sidebarItems == old(sidebarItems) && selection == old(selection)
    {
      var notes: seq<Note> := [];
      var k := 0;
      while k < |rows|
        modifies {}
        invariant 0 <= k <= |rows|
        invariant |notes| == k && forall m :: 0 <= m < k ==> notes[m] == noteList[rows[m]]
      {
        notes := notes + [noteList[rows[k]]];
        k := k + 1;
      }
      assert notes == NotesAt(noteList, rows);
      if item.project.Some? {
        log := log + [MoveNotes(notes, item.project.value)];
      } else if item.isTrash {
        log := log + [ClearEditor, RemoveNotes(notes)];
        // the removal's completion, run at once
        ReloadSidebar();
        noteList := Without(noteList, notes);
      }
    }

    /** The URL branch of `acceptDrop`: every dropped URL is imported into the project, in order. */
    method ImportDroppedUrls(project: Project, urls: seq<Url>, fs: FileSystem)
      modifies this`log, this`projects, this`sidebarItems, this`selection
      ensures projects == old(projects) + ImportedProjects(project, urls, fs)
      ensures log == old(log) + ImportEffects(project, urls, fs)
      ensures ImportedProjects(project, urls, fs) == [] ==>
                sidebarItems == old(sidebarItems) && selection == old(selection)
      ensures ImportedProjects(project, urls, fs) != [] ==>
                sidebarItems == Some(buildSidebar(projects)) && selection == Reselect(old(selection), old(SelectedRow()))
    {
      ghost var row := SelectedRow();
      ghost var added: seq<Project> := [];
      var i := 0;
      while i < |urls|
        invariant 0 <= i <= |urls|
        invariant SelectedRow() == row
        invariant added == ImportedProjects(project, urls[..i], fs)
        invariant projects == old(projects) + added
        invariant log == old(log) + ImportEffects(project, urls[..i], fs)
        invariant sidebarItems == if added == [] then old(sidebarItems) else Some(buildSidebar(projects))
        invariant row < 0 || added == [] ==> selection == old(selection)
        invariant row >= 0 && added != [] ==> selection == [row]
      {
        ImportStep(project, urls, fs, i);
        ghost var effects := ImportEffects(project, urls[..i], fs);
        var created := ImportUrl(project, urls[i], fs);
        AppendTwice(old(log), effects, UrlEffects(project, urls[i], fs));
        if created {
          AppendTwice(old(projects), added, [ChildFor(project, urls[i])]);
          added := added + [ChildFor(project, urls[i])];
        }
        i := i + 1;
      }
      assert urls[..|urls|] == urls;
    }

    /**
     * One dropped URL: a directory that is not a text bundle becomes a new
     * folder under the project; anything else is copied into the project
     * as a file.
     */
    method ImportUrl(project: Project, url: Url, fs: FileSystem) returns (created: bool)
      modifies this`log, this`projects, this`sidebarItems, this`selection
      ensures created == IsFolderDrop(fs, url)
      ensures SelectedRow() == old(SelectedRow())
      ensures projects == old(projects) + (if created then [ChildFor(project, url)] else [])
      ensures log == old(log) + UrlEffects(project, url, fs)
      ensures created ==>
                sidebarItems == Some(buildSidebar(projects)) && selection == Reselect(old(selection), old(SelectedRow()))
      ensures !created ==> sidebarItems == old(sidebarItems) && selection == old(selection)
    {
      created := url in fs.directories && !ContainsText(url.Path(), ".textbundle");
      if created {
        ImportFolder(project, url, fs);
      } else {
        log := log + [CopyFile(project, url)];
      }
    }

    /** A dropped directory: its folder is created and registered, the rows rebuilt, and its files copied in. */
    method ImportFolder(project: Project, url: Url, fs: FileSystem)
      modifies this`log, this`projects, this`sidebarItems, this`selection
      ensures SelectedRow() == old(SelectedRow())
      ensures projects == old(projects) + [ChildFor(project, url)]
      ensures log == old(log) + ([CreateDirectory(ChildFor(project, url).url), RestartWatcher, LoadMoveMenu]
                                 + CopyAll(ChildFor(project, url), ReadDirectory(fs, url)))
      ensures sidebarItems == Some(buildSidebar(projects))
      ensures selection == Reselect(old(selection), old(SelectedRow()))
    {
      var child := ChildFor(project, url);
      log := log + [CreateDirectory(child.url)];
      projects := projects + [child];
      ReloadSidebar();
      var files := ReadDirectory(fs, url);
      CopyFiles(child, files);
      AppendTwice(old(log), [CreateDirectory(child.url), RestartWatcher, LoadMoveMenu], CopyAll(child, files));
    }

    /** The copy loop over a dropped directory's files: one copy request per file, in order. */
    method CopyFiles(child: Project, files: seq<Url>)
      modifies this`log
      ensures log == old(log) + CopyAll(child, files)
    {
      var f := 0;
      while f < |files|
        invariant 0 <= f <= |files|
        invariant log == old(log) + CopyAll(child, files[..f])
      {
        assert files[..f + 1][..f] == files[..f];
        AppendTwice(old(log), CopyAll(child, files[..f]), [CopyFile(child, files[f])]);
        log := log + [CopyFile(child, files[f])];
        f := f + 1;
      }
      assert files[..|files|] == files;
    }

    // -------------------------------------------------------------------------
    // Project lifecycle

    /** `removeProject`: forgets the folder, restarts the watcher, clears search and editor, rebuilds the rows. */
    method RemoveProject(project: Project)
      modifies this`projects, this`log, this`sidebarItems
      ensures projects == RemoveByUrl(old(projects), project.url)
      ensures log == old(log) + [RestartWatcher, CleanSearchAndEditArea]
      ensures sidebarItems == Some(buildSidebar(projects))
    {
      projects := RemoveByUrl(projects, project.url);
      log := log + [RestartWatcher, CleanSearchAndEditArea];
      sidebarItems := Some(buildSidebar(projects));
    }

    /**
     * `deleteMenu` on the selected row. The window's presence, the user's
     * answer to the confirmation, the trash URL the storage offers and the
     * outcome of the move are inputs.
     */
    method DeleteMenu(hasWindow: bool, confirmed: bool, trashDestination: Option<Url>, moved: bool)
      modifies this`projects, this`bookmarks, this`log, this`sidebarItems
      ensures match PlanDelete(old(SelectedItem()))
              case NotEligible =>
                && projects == old(projects) && bookmarks == old(bookmarks)
                && log == old(log) && sidebarItems == old(sidebarItems)
              case ConfirmAndTrash(p) =>
                && bookmarks == old(bookmarks)
                && (if hasWindow && confirmed && trashDestination.Some? && moved
                    then && projects == RemoveByUrl(old(projects), p.url)
                         && log == old(log) + [MoveToTrash(p.url, trashDestination.value), RestartWatcher, CleanSearchAndEditArea]
                         && sidebarItems == Some(buildSidebar(projects))
                    else projects == old(projects) && log == old(log) && sidebarItems == old(sidebarItems))
              case Detach(p) =>
                && bookmarks == old(bookmarks) - {p.url}
                && projects == RemoveByUrl(old(projects), p.url)
                && log == old(log) + [RestartWatcher, CleanSearchAndEditArea]
                && sidebarItems == Some(buildSidebar(projects))
    {
      var selected := SelectedRow();
      var si := Items();
      if !(0 <= selected < |si|) {
        return;
      }
      var item := si[selected];
      if item.project.None? {
        return;
      }
      var project := item.project.value;
      if !(!project.isDefault && item.kind != All && item.kind != Trash) {
        return;
      }
      if !project.isRoot && item.kind == Category {
        if !hasWindow {
          return;
        }
        if confirmed {
          if trashDestination.None? {
            return;
          }
          if moved {
            log := log + [MoveToTrash(project.url, trashDestination.value)];
            RemoveProject(project);
          }
        }
        return;
      }
      bookmarks := bookmarks - {project.url};
      RemoveProject(project);
    }

    /** `addChild`: an empty name does nothing; otherwise the subdirectory is created and, if that worked, registered. */
    method AddChild(project: Project, name: string, outcome: CreateOutcome)
      modifies this`projects, this`log, this`sidebarItems, this`selection
      ensures |name| == 0 ==>
                projects == old(projects) && log == old(log) && sidebarItems == old(sidebarItems) && selection == old(selection)
      ensures |name| > 0 && outcome.Created? ==>
                && projects == old(projects) + [NewChildProject(project, name)]
                && log == old(log) + [CreateDirectory(project.url.AppendingPathComponent(name)), RestartWatcher, LoadMoveMenu]
                && sidebarItems == Some(buildSidebar(projects))
                && selection == Reselect(old(selection), old(SelectedRow()))
      ensures |name| > 0 && outcome.Failed? ==>
                && projects == old(projects)
                && log == old(log) + [CreateDirectory(project.url.AppendingPathComponent(name)), ShowError(outcome.message)]
                && sidebarItems == old(sidebarItems) && selection == old(selection)
    {
      if |name| == 0 {
        return;
      }
      var projectUrl := project.url.AppendingPathComponent(name);
      log := log + [CreateDirectory(projectUrl)];
      match outcome {
        case Created =>
          projects := projects + [NewChildProject(project, name)];
          ReloadSidebar();
        case Failed(message) =>
          log := log + [ShowError(message)];
      }
    }

    /**
     * `addRoot`, from the directory the open panel returned (if any): an
     * already registered URL is refused; otherwise it is bookmarked,
     * registered as a root with the folders found under it, their labels
     * loaded, and the rows rebuilt.
     */
    method AddRoot(chosen: Option<Url>, discovered: seq<Project>)
      modifies this`projects, this`bookmarks, this`log, this`sidebarItems, this`selection
      ensures chosen.None? || !MayAttach(old(projects), chosen.value) ==>
                && projects == old(projects) && bookmarks == old(bookmarks) && log == old(log)
                && sidebarItems == old(sidebarItems) && selection == old(selection)
      ensures chosen.Some? && MayAttach(old(projects), chosen.value) ==>
                && bookmarks == old(bookmarks) + {chosen.value}
                && projects == old(projects) + [Project(chosen.value, true, false, false, None)] + discovered
                && log == old(log) + LoadLabels(discovered) + [RestartWatcher, LoadMoveMenu]
                && sidebarItems == Some(buildSidebar(projects))
                && selection == Reselect(old(selection), old(SelectedRow()))
    {
      if chosen.None? {
        return;
      }
      var url := chosen.value;
      if HasUrl(projects, url) {
        return;
      }
      bookmarks := bookmarks + {url};
      projects := projects + [Project(url, true, false, false, None)] + discovered;
      var k := 0;
      while k < |discovered|
        modifies this`log
        invariant 0 <= k <= |discovered|
        invariant log == old(log) + LoadLabels(discovered[..k])
      {
        assert LoadLabels(discovered[..k + 1]) == LoadLabels(discovered[..k]) + [LoadLabel(discovered[k])];
        log := log + [LoadLabel(discovered[k])];
        k := k + 1;
      }
      assert discovered[..|discovered|] == discovered;
      ReloadSidebar();
    }
  }
}
