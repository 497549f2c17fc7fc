/**
 * The guards of the project lifecycle actions: which path `deleteMenu`
 * takes, which target `addProject` chooses, the folder `addChild`
 * registers, and how `keyDown` dispatches modifier chords.
 */
module Lifecycle {
  import opened SidebarModel
  import opened MenuValidation
  import opened DropRules

  // ---------------------------------------------------------------------------
  // Delete / detach

  /** The path `deleteMenu` takes for the selected row. */
  datatype DeletePlan =
    | NotEligible                        // returns at once
    | ConfirmAndTrash(project: Project)  // asks, moves the directory to the trash, then forgets the project
    | Detach(project: Project)           // drops the bookmark and forgets the project; the directory stays

  function PlanDelete(selected: Option<SidebarItem>): (plan: DeletePlan)
    ensures !plan.NotEligible? ==>
              selected.Some? && selected.value.project == Some(plan.project) && !plan.project.isDefault
  {
    match selected
    case None => NotEligible
    case Some(item) =>
      match item.project
      case None => NotEligible
      case Some(p) =>
        if p.isDefault || item.kind == All || item.kind == Trash then NotEligible
        else if !p.isRoot && item.kind == Category then ConfirmAndTrash(p)
        else Detach(p)
  }

  /** No row, no project, the default folder, All and Trash are never removed. */
  lemma NeverRemoved(selected: Option<SidebarItem>)
    requires || selected.None?
             || selected.value.project.None?
             || selected.value.project.value.isDefault
             || selected.value.kind == All
             || selected.value.kind == Trash
    ensures PlanDelete(selected) == NotEligible
  {
  }

  /** Only a non-root Category is confirmed and trashed; every other eligible row is detached. */
  lemma ConfirmOnlyForNestedCategory(item: SidebarItem)
    requires item.project.Some? && !item.project.value.isDefault && item.kind != All && item.kind != Trash
    ensures PlanDelete(Some(item)).ConfirmAndTrash? <==> !item.project.value.isRoot && item.kind == Category
    ensures PlanDelete(Some(item)).Detach? <==> item.project.value.isRoot || item.kind != Category
  {
  }

  /**
   * The guard does not look at `isArchive`: the archive row, reached by
   * its keyboard chord although the menu disables Delete for it, is
   * detached like any other storage.
   */
  lemma ArchiveIsNotRejected(item: SidebarItem)
    requires item.kind == Archive && !item.isTrash
    requires item.project.Some? && item.project.value.isArchive && !item.project.value.isDefault
    ensures PlanDelete(Some(item)) == Detach(item.project.value)
    ensures !MenuEnabled(DeleteFolder, Some(item))
  {
  }

  /** Whenever the menu enables Delete/Detach on a Category, the action behind it goes ahead. */
  lemma EnabledDeleteIsCarriedOut(title: MenuTitle, item: SidebarItem)
    requires title == DeleteFolder || title == DetachStorage
    requires item.kind == Category && MenuEnabled(title, Some(item))
    ensures !PlanDelete(Some(item)).NotEligible?
    ensures PlanDelete(Some(item)).Detach? <==> RelabeledTitle(title, Some(item)) == DetachStorage
  {
  }

  // ---------------------------------------------------------------------------
  // Add project / add child

  /** What triggered `addProject`: a menu item, a sidebar cell (its object value, if a sidebar item), or anything else (a key chord). */
  datatype Sender = MenuSender(title: MenuTitle) | CellSender(item: Option<SidebarItem>) | OtherSender

  datatype AddTarget = AddRootTarget | AddChildTarget(project: Project)

  /** `addProject`'s choice between attaching a root storage and creating a folder under a project. */
  function PlanAdd(selected: Option<SidebarItem>, sender: Sender): (t: AddTarget)
    ensures sender == MenuSender(AttachStorage) ==> t == AddRootTarget
    ensures sender.CellSender? && sender.item.Some? ==>
              (t == AddRootTarget <==> sender.item.value.project.None?)
    ensures t.AddChildTarget? ==>
              (sender.CellSender? && sender.item.Some? && sender.item.value.project == Some(t.project))
              || (selected.Some? && selected.value.project == Some(t.project))
  {
    var fromSelection := if selected.Some? then selected.value.project else None;
    var chosen := if sender == MenuSender(AttachStorage) then None else fromSelection;
    if sender.CellSender? && sender.item.Some? then
      match sender.item.value.project
      case Some(p) => AddChildTarget(p)
      case None => AddRootTarget
    else
      match chosen
      case None => AddRootTarget
      case Some(p) => AddChildTarget(p)
  }

  /** From a key chord or any non-cell sender other than "Attach storage...", the selected row's project decides. */
  lemma KeyChordAddsUnderSelection(selected: Option<SidebarItem>)
    ensures PlanAdd(selected, OtherSender) ==
              if selected.Some? && selected.value.project.Some?
              then AddChildTarget(selected.value.project.value) else AddRootTarget
  {
  }

  /** What creating the new folder's directory on disk came to. */
  datatype CreateOutcome = Created | Failed(message: string)

  /** Whether the root directory the panel returned may be attached: only when no project has that URL. */
  predicate MayAttach(projects: seq<Project>, u: Url) {
    !HasUrl(projects, u)
  }

  /** The project `addChild` registers: the named subdirectory of the target, owned by the target's root. */
  function NewChildProject(project: Project, name: string): (child: Project)
    ensures child.url.LastPathComponent() == name
    ensures child.parent.Some? && (child.parent.value.isRoot || child.parent.value.parent.None?)
    ensures !child.isRoot && !child.isDefault && !child.isArchive
  {
    Project(project.url.AppendingPathComponent(name), false, false, false, Some(GetParent(project)))
  }

  /**
   * A folder added under a nested folder is registered with that folder's
   * root as its parent, while a folder created from a directory dropped on
   * the nested folder gets the nested folder itself.
   */
  lemma ChildOfNestedFolderHangsFromRoot(root: Project, nested: Project, name: string, u: Url)
    requires root.isRoot && !nested.isRoot && nested.parent == Some(root)
    ensures NewChildProject(nested, name).parent == Some(root)
    ensures NewChildProject(root, name).parent == Some(root)
    ensures ChildFor(nested, u).parent == Some(nested)
  {
  }

  // ---------------------------------------------------------------------------
  // Keyboard chords

  datatype Modifier = CommandKey | OptionKey | ShiftKey | ControlKey

  const KeyCodeN: int := 45       // kVK_ANSI_N
  const KeyCodeR: int := 15       // kVK_ANSI_R
  const KeyCodeDelete: int := 51  // kVK_Delete
  const KeyCodeTab: int := 48

  datatype KeyAction = AddProjectChord | RevealChord | RenameChord | DeleteChord | FocusSearch | DefaultKeyHandling

  /** `keyDown`: the first matching rule wins. */
  function KeyCommand(flags: set<Modifier>, keyCode: int): (a: KeyAction)
    ensures a == AddProjectChord || a == RevealChord || a == RenameChord || a == DeleteChord ==>
              OptionKey in flags && ShiftKey in flags
    ensures a == RevealChord ==> CommandKey in flags && keyCode == KeyCodeR
    ensures a == FocusSearch ==> keyCode == KeyCodeTab
    ensures keyCode == KeyCodeTab ==> a == FocusSearch
    ensures a == DefaultKeyHandling ==> keyCode != KeyCodeTab
  {
    var optShift := OptionKey in flags && ShiftKey in flags;
    if optShift && keyCode == KeyCodeN then AddProjectChord
    else if optShift && CommandKey in flags && keyCode == KeyCodeR then RevealChord
    else if optShift && keyCode == KeyCodeR then RenameChord
    else if optShift && keyCode == KeyCodeDelete then DeleteChord
    else if keyCode == KeyCodeTab then FocusSearch
    else DefaultKeyHandling
  }

  /** Command-Option-Shift-R reaches reveal before rename; without Command the same keys rename. */
  lemma RevealBeforeRename(flags: set<Modifier>)
    requires OptionKey in flags && ShiftKey in flags
    ensures CommandKey in flags ==> KeyCommand(flags, KeyCodeR) == RevealChord
    ensures CommandKey !in flags ==> KeyCommand(flags, KeyCodeR) == RenameChord
  {
  }

  /** Option-Shift-N and Option-Shift-Delete trigger their actions whatever else is held. */
  lemma AddAndDeleteChords(flags: set<Modifier>)
    requires OptionKey in flags && ShiftKey in flags
    ensures KeyCommand(flags, KeyCodeN) == AddProjectChord
    ensures KeyCommand(flags, KeyCodeDelete) == DeleteChord
  {
  }

  /** Without both Option and Shift only Tab is intercepted; every other key falls through to row navigation. */
  lemma OtherKeysFallThrough(flags: set<Modifier>, keyCode: int)
    requires !(OptionKey in flags && ShiftKey in flags) && keyCode != KeyCodeTab
    ensures KeyCommand(flags, keyCode) == DefaultKeyHandling
  {
  }
}
