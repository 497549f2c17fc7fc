/**
 * Drag and drop onto the sidebar: which drag operation a target offers
 * (`validateDrop`), which path an accepted drop takes (`acceptDrop`), and
 * what importing a list of dropped file URLs asks of the collaborators.
 */
module DropRules {
  import opened SidebarModel

  /** `NSDragOperation` as the sidebar uses it: none, `.move` or `.copy`. */
  datatype DragOperation = NoOperation | Move | Copy

  /**
   * The "notesTable" pasteboard entry: how many bytes it holds and the note
   * rows it unarchives to, or `None` when it does not unarchive to an index set.
   */
  datatype NotesData = NotesData(byteCount: nat, rows: Option<seq<nat>>)

  /** A drag pasteboard. The note entry and the URL list are read independently. */
  datatype Pasteboard = Pasteboard(notes: Option<NotesData>, urls: Option<seq<Url>>)

  /** The note entry is present and not empty. */
  predicate HasNoteData(board: Pasteboard) {
    board.notes.Some? && board.notes.value.byteCount > 0
  }

  /** The pasteboard reads as a non-empty list of URLs. */
  predicate HasUrls(board: Pasteboard) {
    board.urls.Some? && |board.urls.value| > 0
  }

  /** The row types that take notes and files: Category, Label, Archive and Inbox. */
  predicate TakesDrops(kind: ItemType) {
    kind == Category || kind == Label || kind == Archive || kind == Inbox
  }

  /** `validateDrop`: the operation offered for a pasteboard over a proposed row (`None`: not a sidebar item). */
  function ValidateDrop(target: Option<SidebarItem>, board: Pasteboard): (op: DragOperation)
    ensures op == Move ==> HasNoteData(board)
    ensures op == Copy ==> HasNoteData(board) || HasUrls(board)
    ensures op != NoOperation ==>
              target.Some? && (target.value.kind == Trash || (TakesDrops(target.value.kind) && target.value.isSelectable))
  {
    match target
    case None => NoOperation
    case Some(item) =>
      if item.kind == Trash then
        if HasNoteData(board) then Copy else NoOperation
      else if TakesDrops(item.kind) && item.isSelectable then
        if HasNoteData(board) then Move
        else if HasUrls(board) then Copy
        else NoOperation
      else NoOperation
  }

  /** The trash offers `.copy` exactly for a non-empty note entry, never `.move`, and rejects URLs. */
  lemma TrashDropRule(item: SidebarItem, board: Pasteboard)
    requires item.kind == Trash
    ensures ValidateDrop(Some(item), board) == Copy <==> HasNoteData(board)
    ensures ValidateDrop(Some(item), board) != Move
    ensures !HasNoteData(board) && HasUrls(board) ==> ValidateDrop(Some(item), board) == NoOperation
  {
  }

  /**
   * Category, Label, Archive and Inbox offer nothing unless selectable; then
   * a non-empty note entry means `.move` (whatever URLs come with it), and
   * otherwise a non-empty URL list means `.copy`.
   */
  lemma WritableTargetRule(item: SidebarItem, board: Pasteboard)
    requires TakesDrops(item.kind)
    ensures !item.isSelectable ==> ValidateDrop(Some(item), board) == NoOperation
    ensures item.isSelectable ==> (ValidateDrop(Some(item), board) == Move <==> HasNoteData(board))
    ensures item.isSelectable ==>
              (ValidateDrop(Some(item), board) == Copy <==> !HasNoteData(board) && HasUrls(board))
  {
  }

  /** All, Todo and anything that is not a sidebar item take no drop. */
  lemma AggregateTargetsRejectDrops(target: Option<SidebarItem>, board: Pasteboard)
    requires target.None? || target.value.kind == All || target.value.kind == Todo
    ensures ValidateDrop(target, board) == NoOperation
  {
  }

  /** The path `acceptDrop` takes. Note rows travel with every note path. */
  datatype DropRoute =
    | Rejected                                   // returns false
    | MoveToProject(rows: seq<nat>, target: Project)
    | RemoveToTrash(rows: seq<nat>)
    | NotesIgnored(rows: seq<nat>)               // returns true and does nothing else
    | ImportUrls(target: Project, urls: seq<Url>)

  /** The row types `acceptDrop` handles at all (Trash included). */
  predicate AcceptsDrops(kind: ItemType) {
    TakesDrops(kind) || kind == Trash
  }

  /** The note rows the pasteboard unarchives to, if it does. */
  function DecodedRows(board: Pasteboard): Option<seq<nat>> {
    match board.notes
    case None => None
    case Some(d) => d.rows
  }

  /** `acceptDrop`'s routing: the note entry is tried first, the URL list second. */
  function RouteDrop(target: Option<SidebarItem>, board: Pasteboard): (route: DropRoute)
    ensures route.MoveToProject? ==> target.Some? && target.value.project == Some(route.target)
    ensures route.RemoveToTrash? ==> target.Some? && target.value.isTrash && target.value.project.None?
    ensures route.ImportUrls? ==> target.Some? && target.value.project == Some(route.target)
    ensures !route.Rejected? ==> target.Some? && AcceptsDrops(target.value.kind)
  {
    match target
    case None => Rejected
    case Some(item) =>
      if !AcceptsDrops(item.kind) then Rejected
      else match DecodedRows(board)
        case Some(rows) =>
          if item.project.Some? then MoveToProject(rows, item.project.value)
          else if item.isTrash then RemoveToTrash(rows)
          else NotesIgnored(rows)
        case None =>
          if board.urls.None? || item.project.None? then Rejected
          else ImportUrls(item.project.value, board.urls.value)
  }

  /** A note payload onto a row with a bound project is moved there and never removed. */
  lemma BoundNotesAreMoved(item: SidebarItem, board: Pasteboard)
    requires AcceptsDrops(item.kind) && DecodedRows(board).Some? && item.project.Some?
    ensures RouteDrop(Some(item), board) == MoveToProject(DecodedRows(board).value, item.project.value)
    ensures !RouteDrop(Some(item), board).RemoveToTrash?
  {
  }

  /** A note payload onto the project-less trash goes to removal, never to a folder move. */
  lemma TrashNotesAreRemoved(item: SidebarItem, board: Pasteboard)
    requires item.kind == Trash && item.isTrash && item.project.None? && DecodedRows(board).Some?
    ensures RouteDrop(Some(item), board) == RemoveToTrash(DecodedRows(board).value)
  {
  }

  /** A URL payload without a bound project is refused. */
  lemma UnboundUrlsAreRejected(item: SidebarItem, board: Pasteboard)
    requires DecodedRows(board).None? && item.project.None?
    ensures RouteDrop(Some(item), board) == Rejected
  {
  }

  /** A drop `validateDrop` offered `.move` for, with rows that unarchive, is accepted. */
  lemma OfferedMoveIsAccepted(target: Option<SidebarItem>, board: Pasteboard)
    requires ValidateDrop(target, board) == Move && DecodedRows(board).Some?
    ensures !RouteDrop(target, board).Rejected?
    ensures target.value.project.Some? ==> RouteDrop(target, board).MoveToProject?
  {
  }

  /** A drop `validateDrop` offered `.copy` for on a writable row with a bound project imports the URLs. */
  lemma OfferedCopyImports(item: SidebarItem, board: Pasteboard)
    requires ValidateDrop(Some(item), board) == Copy && item.kind != Trash
    requires item.project.Some? && DecodedRows(board).None?
    ensures RouteDrop(Some(item), board) == ImportUrls(item.project.value, board.urls.value)
  {
  }

  // ---------------------------------------------------------------------------
  // Importing dropped URLs

  /**
   * The part of the file system a drop reads: which URLs are existing
   * directories, and what `Storage.readDirectory` lists for a directory.
   */
  datatype FileSystem = FileSystem(directories: set<Url>, listing: map<Url, seq<Url>>)

  /** A dropped URL that becomes a new folder: an existing directory whose path does not contain ".textbundle". */
  predicate IsFolderDrop(fs: FileSystem, u: Url) {
    u in fs.directories && !ContainsText(u.Path(), ".textbundle")
  }

  /** `Storage.readDirectory`: the files found in a directory. */
  function ReadDirectory(fs: FileSystem, u: Url): seq<Url> {
    if u in fs.listing then fs.listing[u] else []
  }

  /** The folder created for a dropped directory: named after it, under the target, with the target as parent. */
  function ChildFor(target: Project, u: Url): (child: Project)
    ensures child.url.LastPathComponent() == u.LastPathComponent()
    ensures child.url == target.url.AppendingPathComponent(u.LastPathComponent())
    ensures child.parent == Some(target)
    ensures !child.isRoot && !child.isDefault && !child.isArchive
  {
    Project(target.url.AppendingPathComponent(u.LastPathComponent()), false, false, false, Some(target))
  }

  /** One copy request per file, in order. */
  function CopyAll(target: Project, files: seq<Url>): (r: seq<Effect>)
    ensures |r| == |files|
  {
    if files == [] then []
    else CopyAll(target, files[..|files| - 1]) + [CopyFile(target, files[|files| - 1])]
  }

  /** The k-th copy request copies the k-th file. */
  lemma {:induction false} CopyAllElements(target: Project, files: seq<Url>, k: nat)
    requires k < |files|
    ensures CopyAll(target, files)[k] == CopyFile(target, files[k])
  {
    if k < |files| - 1 {
      CopyAllElements(target, files[..|files| - 1], k);
    }
  }

  /** The requests made for one dropped URL. */
  function UrlEffects(target: Project, u: Url, fs: FileSystem): seq<Effect> {
    if IsFolderDrop(fs, u) then
      var child := ChildFor(target, u);
      [CreateDirectory(child.url), RestartWatcher, LoadMoveMenu] + CopyAll(child, ReadDirectory(fs, u))
    else [CopyFile(target, u)]
  }

  /** The requests made for a list of dropped URLs, URL by URL. */
  function ImportEffects(target: Project, urls: seq<Url>, fs: FileSystem): seq<Effect> {
    if urls == [] then []
    else ImportEffects(target, urls[..|urls| - 1], fs) + UrlEffects(target, urls[|urls| - 1], fs)
  }

  /** The folders registered with the storage while importing a list of dropped URLs. */
  function ImportedProjects(target: Project, urls: seq<Url>, fs: FileSystem): (r: seq<Project>)
    ensures |r| <= |urls|
  {
    if urls == [] then []
    else
      var u := urls[|urls| - 1];
      ImportedProjects(target, urls[..|urls| - 1], fs) + (if IsFolderDrop(fs, u) then [ChildFor(target, u)] else [])
  }

  /** Importing one more URL appends its folder (if any) and its requests. */
  lemma ImportStep(target: Project, urls: seq<Url>, fs: FileSystem, i: nat)
    requires i < |urls|
    ensures ImportedProjects(target, urls[..i + 1], fs) ==
              ImportedProjects(target, urls[..i], fs) + (if IsFolderDrop(fs, urls[i]) then [ChildFor(target, urls[i])] else [])
    ensures ImportEffects(target, urls[..i + 1], fs) == ImportEffects(target, urls[..i], fs) + UrlEffects(target, urls[i], fs)
  {
    assert urls[..i + 1][..i] == urls[..i];
  }

  /** Exactly the folder drops yield new folders: one per directory, each a child of the target named after it. */
  lemma {:induction false} ImportedProjectsAreFolderDrops(target: Project, urls: seq<Url>, fs: FileSystem, c: Project)
    ensures c in ImportedProjects(target, urls, fs) <==>
              exists k :: 0 <= k < |urls| && IsFolderDrop(fs, urls[k]) && c == ChildFor(target, urls[k])
  {
    if urls != [] {
      var init := urls[..|urls| - 1];
      var u := urls[|urls| - 1];
      ImportedProjectsAreFolderDrops(target, init, fs, c);
      if c in ImportedProjects(target, urls, fs) {
        if c in ImportedProjects(target, init, fs) {
          var k :| 0 <= k < |init| && IsFolderDrop(fs, init[k]) && c == ChildFor(target, init[k]);
          assert urls[k] == init[k];
        } else {
          assert IsFolderDrop(fs, urls[|urls| - 1]) && c == ChildFor(target, urls[|urls| - 1]);
        }
      }
      if exists k :: 0 <= k < |urls| && IsFolderDrop(fs, urls[k]) && c == ChildFor(target, urls[k]) {
        var k :| 0 <= k < |urls| && IsFolderDrop(fs, urls[k]) && c == ChildFor(target, urls[k]);
        if k < |urls| - 1 {
          assert init[k] == urls[k];
        }
      }
    }
  }

  /** A URL list with no folder drop registers no folder. */
  lemma {:induction false} NoFolderNoProject(target: Project, urls: seq<Url>, fs: FileSystem)
    requires forall k :: 0 <= k < |urls| ==> !IsFolderDrop(fs, urls[k])
    ensures ImportedProjects(target, urls, fs) == []
  {
    if urls != [] {
      NoFolderNoProject(target, urls[..|urls| - 1], fs);
    }
  }

  /** The requests for a prefix of the URL list come first in the requests for the whole list. */
  lemma {:induction false} ImportEffectsPrefix(target: Project, urls: seq<Url>, fs: FileSystem, n: nat)
    requires n <= |urls|
    ensures |ImportEffects(target, urls[..n], fs)| <= |ImportEffects(target, urls, fs)|
    ensures ImportEffects(target, urls, fs)[..|ImportEffects(target, urls[..n], fs)|] == ImportEffects(target, urls[..n], fs)
    decreases |urls| - n
  {
    if n < |urls| {
      var init := urls[..|urls| - 1];
      ImportEffectsPrefix(target, init, fs, n);
      assert init[..n] == urls[..n];
    } else {
      assert urls[..n] == urls;
    }
  }

  /** Whatever a prefix of a sequence ends with occurs in the sequence. */
  lemma PrefixPartsOccur<T>(whole: seq<T>, before: seq<T>, mine: seq<T>)
    requires |before| + |mine| <= |whole| && whole[..|before| + |mine|] == before + mine
    ensures forall e :: e in mine ==> e in whole
  {
    forall e | e in mine
      ensures e in whole
    {
      var i :| 0 <= i < |mine| && mine[i] == e;
      assert (before + mine)[|before| + i] == e;
      assert whole[|before| + i] == e;
    }
  }

  /** The requests for one URL all appear in the requests for the whole list. */
  lemma UrlEffectsAreIssued(target: Project, urls: seq<Url>, fs: FileSystem, k: nat)
    requires k < |urls|
    ensures forall e :: e in UrlEffects(target, urls[k], fs) ==> e in ImportEffects(target, urls, fs)
  {
    ImportStep(target, urls, fs, k);
    ImportEffectsPrefix(target, urls, fs, k + 1);
    PrefixPartsOccur(ImportEffects(target, urls, fs), ImportEffects(target, urls[..k], fs), UrlEffects(target, urls[k], fs));
  }

  /** A folder drop asks for the folder's directory and one copy per listed file; any other URL for one copy. */
  lemma FolderDropRequests(target: Project, u: Url, fs: FileSystem)
    ensures IsFolderDrop(fs, u) ==>
              CreateDirectory(ChildFor(target, u).url) in UrlEffects(target, u, fs)
              && forall f :: f in ReadDirectory(fs, u) ==> CopyFile(ChildFor(target, u), f) in UrlEffects(target, u, fs)
    ensures !IsFolderDrop(fs, u) ==> UrlEffects(target, u, fs) == [CopyFile(target, u)]
  {
    if IsFolderDrop(fs, u) {
      var child := ChildFor(target, u);
      var files := ReadDirectory(fs, u);
      var mine := UrlEffects(target, u, fs);
      assert mine[0] == CreateDirectory(child.url);
      forall f | f in files
        ensures CopyFile(child, f) in mine
      {
        var j :| 0 <= j < |files| && files[j] == f;
        CopyAllElements(child, files, j);
        assert mine[3 + j] == CopyFile(child, f);
      }
    }
  }

  /**
   * Every dropped URL is handled: a folder drop asks for the new folder's
   * directory and a copy of each listed file into it; any other URL is
   * copied straight into the target.
   */
  lemma EveryUrlIsHandled(target: Project, urls: seq<Url>, fs: FileSystem, k: nat)
    requires k < |urls|
    ensures IsFolderDrop(fs, urls[k]) ==>
              CreateDirectory(ChildFor(target, urls[k]).url) in ImportEffects(target, urls, fs)
              && forall f :: f in ReadDirectory(fs, urls[k]) ==>
                   CopyFile(ChildFor(target, urls[k]), f) in ImportEffects(target, urls, fs)
    ensures !IsFolderDrop(fs, urls[k]) ==> CopyFile(target, urls[k]) in ImportEffects(target, urls, fs)
  {
    UrlEffectsAreIssued(target, urls, fs, k);
    FolderDropRequests(target, urls[k], fs);
    if !IsFolderDrop(fs, urls[k]) {
      assert CopyFile(target, urls[k]) in UrlEffects(target, urls[k], fs);
    }
  }

  /** A ".textbundle" directory is a note bundle, copied as one file rather than recreated as a folder. */
  lemma TextBundleIsCopiedWhole(target: Project, u: Url, fs: FileSystem)
    requires u in fs.directories && ContainsText(u.Path(), ".textbundle")
    ensures UrlEffects(target, u, fs) == [CopyFile(target, u)]
    ensures ImportedProjects(target, [u], fs) == []
  {
    assert [u][..0] == [];
  }
}
