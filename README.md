# MiaoYan sidebar: a Dafny model of the project outline's decision logic

MiaoYan is a macOS Markdown note editor. Its left-hand sidebar (`SidebarProjectView`,
an `NSOutlineView` subclass) lists the storage folders ("projects") and a few
fixed rows (All, Trash, Archive, Todo, Inbox, section labels). This project
models what the sidebar decides:

- which contextual-menu commands are enabled for the selected row, and how
  validation relabels the Delete/Detach item and hides Rename (`validateMenuItem`,
  `willOpenMenu`);
- what a drag onto a row offers (`validateDrop`) and what a drop then does
  (`acceptDrop`): move notes to a folder, remove them to the trash, create a
  folder for a dropped directory and copy its files in, or copy a file;
- whether the selected projects changed since last asked
  (`isChangedSelectedProjectsState`, with its retained snapshot), and when a
  selection change clears the editor and reloads the note list
  (`outlineViewSelectionDidChange`, with the recorded type/project/name triple
  and the one-shot `skipSidebarSelection` flag);
- keyboard navigation that steps over section labels (`selectNext`,
  `selectPrev`), `selectArchive`, and the `selectRowIndexes` override that
  ignores an empty index set;
- the guards and paths of the lifecycle actions: `deleteMenu` (confirm and
  trash versus detach), `addProject` (root versus child target), `addChild`,
  `addRoot`, `removeProject`, `reloadSidebar`, `getSidebarProjects` (falling
  back to the root storage) and the `keyDown` chord dispatch.

The pure rules live in modules `MenuValidation`, `DropRules`, `Selection`,
`Navigation` and `Lifecycle` over the plain data of `SidebarModel`. Module
`SidebarView` holds the view itself as class `SidebarProjectView` (its rows,
selection, snapshot and last selected row, plus the state of the collaborators
it drives: the storage's projects, the sandbox bookmarks, the note list and the
persisted last row) and the user-data singleton as class `UserDataService`.
Every request the view makes of a collaborator (clear the editor, move notes,
remove notes, create a directory, copy a file, restart the file watcher, reload
the move menu, show an error ...) is appended to the ordered field `log`, so the
contracts of the methods state which requests are made and in what order. The
view's methods are proved against the pure rules, and the rules carry the
lemmas.

Where the code differs from what its design suggests, the model follows the code:

- a note drag onto Trash is offered as a copy, not a move;
- dropping some, but not all, of the selected folders from the selection is not
  reported as a change of the selected projects (`Selection.PartialDeselectionIsNotAChange`);
- `deleteMenu` does not look at `isArchive`, so the archive row reached by its
  keyboard chord is detached even though the menu disables Delete for it
  (`Lifecycle.ArchiveIsNotRejected`);
- `willOpenMenu` overwrites the `isHidden` flag that validation set for Rename
  with the negation of the enabled answer, so Rename on an editable root storage
  is shown (`MenuValidation.RootRenameShownWhenMenuOpens`).

## Model

| member | source | states |
|---|---|---|
| MenuValidation.MenuEnabled | MiaoYan/View/SidebarProjectView.swift:34-103 | "Attach storage..." is always enabled; with no selected row every other title is disabled; an unknown title is disabled; on the trash exactly Attach, Back up and Show in Finder are enabled; any other enabled title needs a bound project |
| MenuValidation.RelabelTouchesOnlyDeleteSlot | MiaoYan/View/SidebarProjectView.swift:67-80 | validation relabels only the Delete/Detach item, and only between its two labels |
| MenuValidation.DetachLabelIffRoot | MiaoYan/View/SidebarProjectView.swift:67-80 | with a bound project outside the trash, the item reads "Detach storage" if and only if the project is a root, "Delete folder" otherwise |
| MenuValidation.LabelKeptWithoutProject | MiaoYan/View/SidebarProjectView.swift:67-80 | on the trash or without a bound project the item keeps its label |
| MenuValidation.RenameAndDeleteEnabledIff | MiaoYan/View/SidebarProjectView.swift:52-80 | outside the trash, Rename and Delete/Detach are enabled if and only if a project is bound that is neither default nor archive |
| MenuValidation.NewFolderEnabledIff | MiaoYan/View/SidebarProjectView.swift:92-100 | outside the trash, New folder is enabled if and only if a project is bound that is not the archive |
| MenuValidation.ViewOptionsEnabledIff | MiaoYan/View/SidebarProjectView.swift:84-90 | outside the trash, Show view options is enabled if and only if a project is bound |
| MenuValidation.ShowInFinderEnabledIff | MiaoYan/View/SidebarProjectView.swift:46-50 | Show in Finder is enabled if and only if a project is bound or the row is the trash |
| MenuValidation.RenameHiddenIffRoot | MiaoYan/View/SidebarProjectView.swift:52-61 | validating Rename on a bound project outside the trash sets `isHidden` to whether the project is a root |
| MenuValidation.RootRenameShownWhenMenuOpens | MiaoYan/View/SidebarProjectView.swift:430-438 | on an editable root storage validation hides Rename but reports it enabled, so opening the menu shows it |
| MenuValidation.DefaultProjectScenario | MiaoYan/View/SidebarProjectView.swift:52-98 | for the default folder Rename and Delete/Detach are disabled and New folder is enabled |
| MenuValidation.ArchiveProjectScenario | MiaoYan/View/SidebarProjectView.swift:52-98 | for the archive Rename, Delete and New folder are disabled while Show view options and Show in Finder are enabled |
| SidebarView.SidebarProjectView.ValidateMenuItem | MiaoYan/View/SidebarProjectView.swift:34-103 | returns `MenuEnabled` for the item's title and the selected row, and leaves the item with the relabelled title and the hidden flag the rules give |
| SidebarView.SidebarProjectView.WillOpenMenu | MiaoYan/View/SidebarProjectView.swift:430-438 | for a clicked row: selects it, and every item ends with the relabelled title and `isHidden` equal to the negated enabled answer for that row; for no clicked row nothing changes |
| DropRules.ValidateDrop | MiaoYan/View/SidebarProjectView.swift:206-232 | no operation off a sidebar item or onto All/Todo; copy onto Trash only for a non-empty note payload; move or copy onto a selectable writable row, only when the payload is present |
| DropRules.TrashDropRule | MiaoYan/View/SidebarProjectView.swift:210-214 | onto Trash: copy if and only if the note payload is non-empty; URLs alone are refused |
| DropRules.WritableTargetRule | MiaoYan/View/SidebarProjectView.swift:215-226 | onto Category/Label/Archive/Inbox: nothing unless selectable; a non-empty note payload gives move even when URLs are present; otherwise a non-empty URL list gives copy |
| DropRules.AggregateTargetsRejectDrops | MiaoYan/View/SidebarProjectView.swift:206-231 | All, Todo and a missing target always give no operation |
| DropRules.RouteDrop | MiaoYan/View/SidebarProjectView.swift:144-204 | which path a drop takes: a bound note drop moves, a trash note drop removes, a URL drop needs a bound project, and every accepted target is one of the five droppable types |
| DropRules.BoundNotesAreMoved | MiaoYan/View/SidebarProjectView.swift:152-161 | a note payload onto a row with a bound project is moved to it and never removed |
| DropRules.TrashNotesAreRemoved | MiaoYan/View/SidebarProjectView.swift:162-170 | a note payload onto the project-less trash goes to removal |
| DropRules.UnboundUrlsAreRejected | MiaoYan/View/SidebarProjectView.swift:176-177 | a URL payload onto a row without a project is refused |
| DropRules.OfferedMoveIsAccepted | MiaoYan/View/SidebarProjectView.swift:144-232 | a drop offered as a move is accepted, and moves the notes when the row has a project |
| DropRules.OfferedCopyImports | MiaoYan/View/SidebarProjectView.swift:144-232 | a URL drop offered as a copy onto a writable row with a project imports those URLs |
| DropRules.ChildFor | MiaoYan/View/SidebarProjectView.swift:182-184 | the folder made for a dropped directory is the target's URL plus the directory's last path component, with the target as parent |
| DropRules.CopyAllElements | MiaoYan/View/SidebarProjectView.swift:189-192 | the k-th copy request for a dropped directory copies its k-th file into the new folder |
| DropRules.ImportedProjectsAreFolderDrops | MiaoYan/View/SidebarProjectView.swift:179-198 | a folder is registered if and only if it is the child made for some dropped directory whose path has no ".textbundle" |
| DropRules.NoFolderNoProject | MiaoYan/View/SidebarProjectView.swift:179-198 | a drop with no such directory registers no folder |
| DropRules.ImportEffectsPrefix | MiaoYan/View/SidebarProjectView.swift:179-198 | URLs are handled in order: the requests for the first n URLs come first |
| DropRules.FolderDropRequests | MiaoYan/View/SidebarProjectView.swift:181-195 | one dropped directory asks for its folder and one copy per listed file; any other URL for exactly one copy into the target |
| DropRules.UrlEffectsAreIssued | MiaoYan/View/SidebarProjectView.swift:179-198 | every request for one dropped URL is among the requests for the whole drop |
| DropRules.EveryUrlIsHandled | MiaoYan/View/SidebarProjectView.swift:179-198 | every dropped directory gets its folder and every listed file copied into it; every other URL is copied into the target |
| DropRules.TextBundleIsCopiedWhole | MiaoYan/View/SidebarProjectView.swift:180 | a ".textbundle" directory is copied as one file and creates no folder |
| SidebarView.SidebarProjectView.AcceptDrop | MiaoYan/View/SidebarProjectView.swift:144-204 | answers true exactly for routes other than a refusal; moves the notes at the dragged rows, or clears the editor then removes them, rebuilds the rows and drops them from the note list; or imports each URL, registering its folders; refused and ignored drops change nothing |
| SidebarView.SidebarProjectView.DropNotes | MiaoYan/View/SidebarProjectView.swift:152-173 | the notes at the dragged rows are moved to the bound project, or on the trash removed after clearing the editor and taken out of the note list |
| SidebarView.SidebarProjectView.ImportDroppedUrls | MiaoYan/View/SidebarProjectView.swift:179-198 | the projects gain exactly the folders made for the dropped directories; the log gains the requests for each URL in order; the rows are rebuilt iff a folder was made |
| SidebarView.SidebarProjectView.ImportUrl | MiaoYan/View/SidebarProjectView.swift:180-197 | one URL: a non-bundle directory becomes a registered folder with the rows rebuilt, anything else one copy request |
| SidebarView.SidebarProjectView.ImportFolder | MiaoYan/View/SidebarProjectView.swift:182-192 | creates and registers the child folder, rebuilds the rows, then copies the directory's files into it |
| SidebarView.SidebarProjectView.CopyFiles | MiaoYan/View/SidebarProjectView.swift:189-192 | one copy request per file, in order |
| SidebarView.Without | MiaoYan/View/SidebarProjectView.swift:167 | the note list after removal keeps exactly the notes that were not removed |
| Selection.ProjectsOfMembers | MiaoYan/View/SidebarProjectView.swift:340-367 | a project is in the snapshot exactly when some selected row is bound to it |
| Selection.SomeNewMeans | MiaoYan/View/SidebarProjectView.swift:350-358 | the change flag of the non-empty branch is raised exactly when some newly selected project's URL was not in the snapshot |
| Selection.RepeatedQueryIsUnchanged | MiaoYan/View/SidebarProjectView.swift:340-367 | asking again with the same selection reports no change |
| Selection.ChangedIff | MiaoYan/View/SidebarProjectView.swift:350-363 | a non-empty snapshot reports a change if and only if a new project appears or the selection has no projects |
| Selection.PartialDeselectionIsNotAChange | MiaoYan/View/SidebarProjectView.swift:350-363 | removing some of the selected projects (while others stay selected) is not reported |
| Selection.DroppingOneOfTwoGoesUnreported | MiaoYan/View/SidebarProjectView.swift:350-363 | concretely, going from folders p and q to p alone reports no change |
| Selection.ShiftedRowsAreNoChange | MiaoYan/View/SidebarProjectView.swift:340-367 | two selections whose projects have the same URLs, at any rows and in any order, report no change |
| Selection.SwappedOrderIsNoChange | MiaoYan/View/SidebarProjectView.swift:350-363 | concretely, folders p and q selected in the opposite order report no change |
| SidebarView.CollectProjects | MiaoYan/View/SidebarProjectView.swift:343-348 | the loop gathers the projects of the selected rows in row order |
| SidebarView.CollectAndCompare | MiaoYan/View/SidebarProjectView.swift:350-358 | the loop gathers the same projects and raises the flag exactly when one of them is new to the snapshot |
| SidebarView.SidebarProjectView.IsChangedSelectedProjectsState | MiaoYan/View/SidebarProjectView.swift:340-367 | afterwards the snapshot is the projects of the selected rows, and the answer is the snapshot rule applied to the old snapshot and the new one |
| Selection.RecordOf | MiaoYan/View/SidebarProjectView.swift:388-392 | the recorded triple matches an item exactly when type, name and project URL agree |
| Selection.Gate | MiaoYan/View/SidebarProjectView.swift:381-408 | a selection change is suppressed exactly when the selected item matches the recorded triple; otherwise it only clears when the skip flag is set, and reloads when it is not |
| Selection.ReselectionIsSuppressed | MiaoYan/View/SidebarProjectView.swift:386-390 | re-selecting the recorded node, or an equal copy of it, is suppressed whatever the skip flag |
| Selection.SkipSuppressesExactlyOne | MiaoYan/View/SidebarProjectView.swift:405-408 | a set skip flag turns one change into clear-only, and the next change to another node reloads |
| SidebarView.SidebarProjectView.SelectionDidChange | MiaoYan/View/SidebarProjectView.swift:369-428 | resets the escape flag; with rows, records the selected row; a suppressed change changes nothing else; otherwise it records the triple and row, clears the editor, clears the search unless first launch, then either consumes the skip flag or reloads the notes and ends the first launch |
| Navigation.NextTarget | MiaoYan/View/SidebarProjectView.swift:640-660 | `selectNext` only selects a row inside the list that is not a bare section label |
| Navigation.PrevTarget | MiaoYan/View/SidebarProjectView.swift:662-683 | `selectPrev` only selects a row inside the list that is not a bare section label |
| Navigation.NextMovesOneOrTwo | MiaoYan/View/SidebarProjectView.swift:640-660 | Next moves one row down, or two over a bare label; one when the next row is not a bare label |
| Navigation.NextSkipsOneBareLabel | MiaoYan/View/SidebarProjectView.swift:646-656 | below a bare label Next lands two rows down if and only if that row exists and is not a label; otherwise the selection stays |
| Navigation.PrevMovesOneOrTwo | MiaoYan/View/SidebarProjectView.swift:662-683 | Prev moves one row up, or two over a bare label |
| Navigation.PrevSkipsOneBareLabel | MiaoYan/View/SidebarProjectView.swift:668-678 | above a bare label Prev lands two rows up if and only if that row exists and is not a label |
| Navigation.FromNoSelection | MiaoYan/View/SidebarProjectView.swift:640-683 | with nothing selected Next selects the first row and Prev does nothing |
| Navigation.FirstOfKind | MiaoYan/View/SidebarProjectView.swift:708-712 | the Archive row found is the first row of that type; none is found only when there is none |
| SidebarView.SidebarProjectView.SelectRowIndexes | MiaoYan/View/SidebarProjectView.swift:332-338 | an empty index set leaves the selection alone; otherwise the rows replace the selection, or are added to it when extending, and the last of them becomes the selected row |
| SidebarView.SidebarProjectView.SelectNext | MiaoYan/View/SidebarProjectView.swift:640-660 | the selection becomes the row `NextTarget` gives, or stays |
| SidebarView.SidebarProjectView.SelectPrev | MiaoYan/View/SidebarProjectView.swift:662-683 | the selection becomes the row `PrevTarget` gives, or stays |
| SidebarView.SidebarProjectView.SelectArchive | MiaoYan/View/SidebarProjectView.swift:708-712 | the selection becomes the first Archive row, or stays when there is none |
| SidebarView.SidebarProjectView.ReloadSidebar | MiaoYan/View/SidebarProjectView.swift:696-706 | restarts the watcher, reloads the move menu, rebuilds the rows from the storage and re-selects the selected row |
| SidebarView.SidebarProjectView.GetSidebarProjects | MiaoYan/View/SidebarProjectView.swift:619-638 | the projects of the selected rows when there are any, else the root storage alone, else nothing; never an empty list |
| SidebarModel.RootProject | MiaoYan/View/SidebarProjectView.swift:632-634 | the root storage returned is the first root project; none only when no project is a root |
| Lifecycle.PlanDelete | MiaoYan/View/SidebarProjectView.swift:463-503 | any removal path concerns the selected row's bound project, never the default folder |
| Lifecycle.NeverRemoved | MiaoYan/View/SidebarProjectView.swift:466-470 | no row, a row without project, the default folder, All and Trash are never removed |
| Lifecycle.ConfirmOnlyForNestedCategory | MiaoYan/View/SidebarProjectView.swift:472-499 | an eligible row is confirmed and trashed if and only if it is a non-root Category, and detached otherwise |
| Lifecycle.ArchiveIsNotRejected | MiaoYan/View/SidebarProjectView.swift:470 | the archive row is detached by `deleteMenu` although the menu disables Delete for it |
| Lifecycle.EnabledDeleteIsCarriedOut | MiaoYan/View/SidebarProjectView.swift:67-80 | when the menu enables Delete/Detach on a Category, `deleteMenu` acts, detaching exactly when the item reads "Detach storage" |
| SidebarView.SidebarProjectView.RemoveProject | MiaoYan/View/SidebarProjectView.swift:559-567 | the project's URL leaves the storage, the watcher restarts, search and editor are cleared, the rows are rebuilt |
| SidebarView.SidebarProjectView.DeleteMenu | MiaoYan/View/SidebarProjectView.swift:463-503 | ineligible rows change nothing; a nested Category is moved to the trash URL and removed only with a window, a confirmation, a trash URL and a successful move; any other eligible project loses its bookmark and is removed |
| Lifecycle.PlanAdd | MiaoYan/View/SidebarProjectView.swift:505-533 | "Attach storage..." always attaches a root; a clicked cell adds under its project or attaches a root when it has none; a child target is the cell's or the selected row's project |
| Lifecycle.KeyChordAddsUnderSelection | MiaoYan/View/SidebarProjectView.swift:505-533 | from a key chord the selected row's project, if any, is the target, else a root is attached |
| Lifecycle.NewChildProject | MiaoYan/View/SidebarProjectView.swift:569-585 | the new folder is named by the entered text, is not a root, default or archive, and hangs from a root or a parentless project |
| Lifecycle.ChildOfNestedFolderHangsFromRoot | MiaoYan/View/SidebarProjectView.swift:577 | a folder added under a nested folder is registered under that folder's root, while a folder made from a directory dropped on the nested folder is registered under the nested folder |
| SidebarView.SidebarProjectView.AddChild | MiaoYan/View/SidebarProjectView.swift:569-585 | an empty name does nothing; otherwise the directory is requested, and the new folder is registered and the rows rebuilt, or the error is shown |
| SidebarView.SidebarProjectView.AddRoot | MiaoYan/View/SidebarProjectView.swift:587-617 | no chosen directory or one already registered changes nothing; otherwise it is bookmarked, registered as a root with the folders found under it, their labels loaded in order, and the rows rebuilt |
| Lifecycle.KeyCommand | MiaoYan/View/SidebarProjectView.swift:115-142 | the four chords need Option and Shift; reveal also needs Command and R; Tab always focuses the search and nothing else does |
| Lifecycle.RevealBeforeRename | MiaoYan/View/SidebarProjectView.swift:121-129 | Command-Option-Shift-R reveals; Option-Shift-R without Command renames |
| Lifecycle.AddAndDeleteChords | MiaoYan/View/SidebarProjectView.swift:116-134 | Option-Shift-N adds and Option-Shift-Delete deletes whatever else is held |
| Lifecycle.OtherKeysFallThrough | MiaoYan/View/SidebarProjectView.swift:136-141 | without Option and Shift every key but Tab goes to the default handling |
| SidebarModel.ContainsTextMeans | MiaoYan/View/SidebarProjectView.swift:180 | the substring test used for ".textbundle" holds exactly when the text occurs at some position |
| SidebarModel.GetParent | MiaoYan/View/SidebarProjectView.swift:577 | `getParent()` yields a root or a parentless project, and a root or parentless project is its own |
| SidebarModel.Url.AppendingPathComponent | MiaoYan/View/SidebarProjectView.swift:574 | the new URL ends with the given name and extends the original path by that one component |
| SidebarModel.RemoveByUrl | MiaoYan/View/SidebarProjectView.swift:560 | removing a project keeps exactly the projects with another URL |

## Left out

- Cell rendering, icons, row heights and row views (`viewFor`, `heightOfRowByItem`, `rowViewForItem`, `draw`, `isGroupItem`, `shouldSelectItem`, the data-source child methods): presentation only.
- `NSAlert` sheets, `NSOpenPanel` and `NSWorkspace` reveal (`revealInFinder`, `renameMenu`, `openSettings`): UI collaborators. A confirmation, the chosen directory, the window's presence and the entered name are inputs of the methods.
- File-system and foreign calls (`FileManager` create/move/exists, `Storage.trashItem`, `Storage.readDirectory`, `vc.copy`, `vc.move`, `SandboxBookmark` persistence, `storage.removeNotes`): their outcomes are inputs (`FileSystem`, `CreateOutcome`, the trash URL, whether the move succeeded, the folders `storage.add` discovers) and the requests are entries of `log`. `Storage.swift`, `Project.swift`, `SidebarItem.swift` and `Sidebar.swift` are not part of this model: `isTrash` and `isSelectable` are fields of a row, `getParent()` follows the root convention stated by `GetParent`, projects are identified by URL, `getRootProject()` is taken to be the first root project, and `Sidebar().getList()` is the function-valued field `buildSidebar`.
- Asynchrony: the completion of the trash removal (line 165) and of `updateTable` run at once, and `scrollRowToVisible` is not modelled.
- Pasteboard decoding: the payload is a note-row list (with its byte count) and/or a URL list.
- The first-launch note restoration inside the `updateTable` completion (lines 410-426): it depends on the note list and on preferences; only the end of the first launch is modelled.
- Localisation: menu titles are an enumeration.
- The `ViewController.shared()`, `viewDelegate` and `storageOutlineView` nil guards, the `notification.object as? NSOutlineView` cast in `outlineViewSelectionDidChange` (line 381) and the `MainWindowController.shared()` guard in `addProject` (line 534) are taken to succeed.
- `reloadData` and AppKit's handling of a selection index past the rebuilt list: `reloadSidebar` re-selects the previously selected row when there was one and otherwise keeps the selection.
- `keyDown`: `KeyCommand` decides which action a key event triggers; the actions themselves are the separate methods (`AddChild`/`AddRoot` via `PlanAdd`, `DeleteMenu`), and reveal and rename are UI.
- `addProject`: the dialog sequencing is modelled as `PlanAdd` followed by `AddChild` or `AddRoot`.
- `AcceptDrop` and `DropNotes` require the dragged note rows to index the note list (`RowsFit`): the source indexes the list without a bounds check.
- `AddRoot`: `Storage.add` is not part of this model; the folders it registers under the new root are the input `discovered`, appended after the root.
- SelectRowIndexes: an extending call appends the rows to the selection list; AppKit keeps an index set, so duplicate rows and its ordering of the selected row are not modelled. Every call inside the view passes `false`.
- The selection is a list of rows whose last entry is the selected row; `IndexSet` ordering is not enforced.
