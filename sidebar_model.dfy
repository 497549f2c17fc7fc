/**
 * Plain-data stand-ins for the Cocoa and storage types the sidebar works on:
 * file URLs, storage folders ("projects"), sidebar rows, notes, and the
 * ordered record of requests the sidebar makes of its collaborators.
 */
module SidebarModel {

  datatype Option<+T> = None | Some(value: T)

  /** A file URL, kept as its path components. */
  datatype Url = Url(parts: seq<string>) {

    /** `URL.lastPathComponent` (empty for the root path). */
    function LastPathComponent(): string {
      if parts == [] then "" else parts[|parts| - 1]
    }

    /** `URL.appendingPathComponent(_:)`: the URL keeps its components and gains one more. */
    function AppendingPathComponent(name: string): (r: Url)
      ensures r.LastPathComponent() == name
      ensures |r.parts| == |parts| + 1 && r.parts[..|parts|] == parts
    {
      Url(parts + [name])
    }

    /** `URL.path`: the components, each preceded by "/". */
    function Path(): string {
      JoinPath(parts)
    }
  }

  function JoinPath(parts: seq<string>): string {
    if parts == [] then "" else JoinPath(parts[..|parts| - 1]) + "/" + parts[|parts| - 1]
  }

  /** `String.contains(_:)` for a substring, scanning from the left. */
  predicate ContainsText(s: string, t: string)
    decreases |s|
  {
    if |s| < |t| then false
    else s[..|t|] == t || ContainsText(s[1..], t)
  }

  /** `t` occurs in `s` starting at index `i`. */
  predicate OccursAt(s: string, t: string, i: int) {
    0 <= i && i + |t| <= |s| && s[i..i + |t|] == t
  }

  /** The scan agrees with the plain definition of "t occurs somewhere in s". */
  lemma {:induction false} ContainsTextMeans(s: string, t: string)
    ensures ContainsText(s, t) <==> exists i :: OccursAt(s, t, i)
    decreases |s|
  {
    if |s| >= |t| && s[..|t|] != t {
      ContainsTextMeans(s[1..], t);
      if ContainsText(s[1..], t) {
        var i :| OccursAt(s[1..], t, i);
        assert s[i + 1..i + 1 + |t|] == s[1..][i..i + |t|];
        assert OccursAt(s, t, i + 1);
      }
      if exists i :: OccursAt(s, t, i) {
        var i :| OccursAt(s, t, i);
        assert i != 0;
        assert s[1..][i - 1..i - 1 + |t|] == s[i..i + |t|];
        assert OccursAt(s[1..], t, i - 1);
      }
    } else if |s| >= |t| {
      assert OccursAt(s, t, 0);
    }
  }

  /**
   * A storage folder. Two projects denote the same folder when their URLs
   * are equal; `parent` is the folder a nested project was created under.
   */
  datatype Project = Project(url: Url, isRoot: bool, isDefault: bool, isArchive: bool, parent: Option<Project>)

  /**
   * `Project.getParent()`: the root storage a folder belongs to. A root is
   * its own; a nested folder defers to its parent; a folder without a
   * parent answers itself.
   */
  function GetParent(p: Project): (r: Project)
    ensures r.isRoot || r.parent.None?
    ensures p.isRoot || p.parent.None? ==> r == p
    decreases p
  {
    if p.isRoot then p
    else match p.parent
      case None => p
      case Some(q) => GetParent(q)
  }

  /** The type tag of a sidebar row. */
  datatype ItemType = All | Category | Label | Trash | Archive | Todo | Inbox

  /**
   * One sidebar row. `isSelectable` and `isTrash` are the answers of
   * `SidebarItem.isSelectable()` and `SidebarItem.isTrash()`.
   */
  datatype SidebarItem = SidebarItem(kind: ItemType, name: string, project: Option<Project>, isSelectable: bool, isTrash: bool)

  /** A note of the note list, known by its file URL. */
  datatype Note = Note(url: Url)

  /** A request the sidebar makes of a collaborator (editor, storage, file system, host window). */
  datatype Effect =
    | MoveNotes(notes: seq<Note>, target: Project)      // vc.move(notes:project:)
    | ClearEditor                                        // editArea.clear()
    | RemoveNotes(notes: seq<Note>)                      // storage.removeNotes(notes:)
    | CreateDirectory(url: Url)                          // a directory creation is attempted
    | CopyFile(target: Project, source: Url)             // vc.copy(project:url:)
    | RestartWatcher                                     // fsManager.restart()
    | LoadMoveMenu                                       // loadMoveMenu()
    | CleanSearchAndEditArea                             // cleanSearchAndEditArea()
    | MoveToTrash(source: Url, destination: Url)         // FileManager.moveItem into the trash
    | ClearSearch                                        // search.stringValue = ""
    | UpdateTable                                        // updateTable() — the note-list reload
    | ShowError(message: string)                         // an alert with the error text
    | LoadLabel(project: Project)                        // storage.loadLabel(_:)

  /** `item(atRow:)`: the row's item, or nothing when the row is out of range. */
  function ItemAt(items: seq<SidebarItem>, row: int): Option<SidebarItem> {
    if 0 <= row < |items| then Some(items[row]) else None
  }

  /** `item.project?.url`. */
  function ProjectUrl(item: SidebarItem): Option<Url> {
    match item.project
    case None => None
    case Some(p) => Some(p.url)
  }

  /** Some project of the list has this URL (`contains` under URL equality). */
  predicate HasUrl(projects: seq<Project>, u: Url) {
    exists k :: 0 <= k < |projects| && projects[k].url == u
  }

  /** `Storage.getRootProject()`: the first root storage in registration order. */
  function RootProject(projects: seq<Project>): (r: Option<Project>)
    ensures r.Some? ==> r.value.isRoot && exists k :: 0 <= k < |projects| && projects[k] == r.value && forall j :: 0 <= j < k ==> !projects[j].isRoot
    ensures r.None? ==> forall k :: 0 <= k < |projects| ==> !projects[k].isRoot
  {
    if projects == [] then None
    else if projects[0].isRoot then Some(projects[0])
    else
      var r := RootProject(projects[1..]);
      assert r.Some? ==> exists k :: 0 <= k < |projects[1..]| && projects[1..][k] == r.value && forall j :: 0 <= j < k ==> !projects[1..][j].isRoot;
      if r.Some? then
        var k :| 0 <= k < |projects[1..]| && projects[1..][k] == r.value && forall j :: 0 <= j < k ==> !projects[1..][j].isRoot;
        assert projects[k + 1] == r.value;
        assert forall j :: 0 <= j < k + 1 ==> !projects[j].isRoot by {
          forall j | 0 <= j < k + 1 ensures !projects[j].isRoot {
            if j > 0 { assert projects[j] == projects[1..][j - 1]; }
          }
        }
        r
      else r
  }

  /** `Storage.removeBy(project:)`: every registration of that folder is dropped, the rest keep their order. */
  function RemoveByUrl(projects: seq<Project>, u: Url): (r: seq<Project>)
    ensures forall p :: p in r ==> p in projects && p.url != u
    ensures forall p :: p in projects && p.url != u ==> p in r
    ensures |r| <= |projects|
  {
    if projects == [] then []
    else
      var rest := RemoveByUrl(projects[..|projects| - 1], u);
      var last := projects[|projects| - 1];
      assert forall p :: p in projects ==> p in projects[..|projects| - 1] || p == last;
      if last.url == u then rest else rest + [last]
  }
}
