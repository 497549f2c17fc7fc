/**
 * The contextual-menu rule table of the sidebar (`validateMenuItem`): which
 * action is enabled for the selected row, how the Delete/Detach item is
 * relabelled and when the Rename item is hidden.
 */
module MenuValidation {
  import opened SidebarModel

  /** The menu titles the rule table recognises; any other title is `OtherTitle`. */
  datatype MenuTitle =
    | AttachStorage
    | BackUpStorage
    | ShowInFinder
    | RenameFolder
    | DeleteFolder
    | DetachStorage
    | ShowViewOptions
    | NewFolder
    | OtherTitle(text: string)

  /** A menu entry whose title and visibility the validation may change. */
  class MenuItem {
    var title: MenuTitle
    var isHidden: bool

    constructor (title: MenuTitle)
      ensures this.title == title && !isHidden
    {
      this.title := title;
      isHidden := false;
    }
  }

  /** A project that may be renamed or removed: neither the default folder nor the archive. */
  predicate Editable(p: Project) {
    !p.isDefault && !p.isArchive
  }

  /** The Boolean `validateMenuItem` returns for a title and the selected row (if any). */
  function MenuEnabled(title: MenuTitle, selected: Option<SidebarItem>): (enabled: bool)
    ensures title == AttachStorage ==> enabled
    ensures selected.None? && title != AttachStorage ==> !enabled
    ensures title.OtherTitle? ==> !enabled
    ensures selected.Some? && selected.value.isTrash ==>
              (enabled <==> title in {AttachStorage, BackUpStorage, ShowInFinder})
    ensures enabled && title != AttachStorage && title != BackUpStorage && title != ShowInFinder ==>
              selected.Some? && selected.value.project.Some?
  {
    if title == AttachStorage then true
    else match selected
      case None => false
      case Some(item) =>
        match title
        case BackUpStorage => true
        case ShowInFinder => item.project.Some? || item.isTrash
        case RenameFolder => !item.isTrash && item.project.Some? && Editable(item.project.value)
        case DeleteFolder => !item.isTrash && item.project.Some? && Editable(item.project.value)
        case DetachStorage => !item.isTrash && item.project.Some? && Editable(item.project.value)
        case ShowViewOptions => !item.isTrash && item.project.Some?
        case NewFolder => !item.isTrash && item.project.Some? && !item.project.value.isArchive
        case _ => false
  }

  /** The title the Delete/Detach item carries after validation. */
  function RelabeledTitle(title: MenuTitle, selected: Option<SidebarItem>): MenuTitle {
    if (title == DeleteFolder || title == DetachStorage)
       && selected.Some? && !selected.value.isTrash && selected.value.project.Some?
    then (if selected.value.project.value.isRoot then DetachStorage else DeleteFolder)
    else title
  }

  /** The `isHidden` flag an item carries after validation, given the flag it had before. */
  function HiddenAfterValidation(title: MenuTitle, selected: Option<SidebarItem>, hidden: bool): bool {
    if title == RenameFolder && selected.Some? && !selected.value.isTrash && selected.value.project.Some?
    then selected.value.project.value.isRoot
    else hidden
  }

  /** Only the Delete/Detach slot is ever relabelled, and only between its two labels. */
  lemma RelabelTouchesOnlyDeleteSlot(title: MenuTitle, selected: Option<SidebarItem>)
    ensures title != DeleteFolder && title != DetachStorage ==> RelabeledTitle(title, selected) == title
    ensures title == DeleteFolder || title == DetachStorage ==>
              RelabeledTitle(title, selected) == DeleteFolder || RelabeledTitle(title, selected) == DetachStorage
  {
  }

  /** With a bound project, the Delete/Detach item reads "Detach storage" exactly when the project is a root. */
  lemma DetachLabelIffRoot(title: MenuTitle, item: SidebarItem)
    requires title == DeleteFolder || title == DetachStorage
    requires !item.isTrash && item.project.Some?
    ensures RelabeledTitle(title, Some(item)) == DetachStorage <==> item.project.value.isRoot
    ensures RelabeledTitle(title, Some(item)) == DeleteFolder <==> !item.project.value.isRoot
  {
  }

  /** Without a bound project (or on the trash) the slot keeps whichever label it had. */
  lemma LabelKeptWithoutProject(title: MenuTitle, item: SidebarItem)
    requires item.isTrash || item.project.None?
    ensures RelabeledTitle(title, Some(item)) == title
  {
  }

  /** Outside the trash: Rename and Delete/Detach are enabled iff a project is bound that is neither default nor archive. */
  lemma RenameAndDeleteEnabledIff(title: MenuTitle, item: SidebarItem)
    requires title == RenameFolder || title == DeleteFolder || title == DetachStorage
    requires !item.isTrash
    ensures MenuEnabled(title, Some(item)) <==>
              item.project.Some? && !item.project.value.isDefault && !item.project.value.isArchive
  {
  }

  /** Outside the trash: New folder is enabled iff a project is bound that is not the archive. */
  lemma NewFolderEnabledIff(item: SidebarItem)
    requires !item.isTrash
    ensures MenuEnabled(NewFolder, Some(item)) <==> item.project.Some? && !item.project.value.isArchive
  {
  }

  /** Outside the trash: Show view options is enabled iff a project is bound. */
  lemma ViewOptionsEnabledIff(item: SidebarItem)
    requires !item.isTrash
    ensures MenuEnabled(ShowViewOptions, Some(item)) <==> item.project.Some?
  {
  }

  /** Show in Finder is enabled iff a project is bound or the row is the trash. */
  lemma ShowInFinderEnabledIff(item: SidebarItem)
    ensures MenuEnabled(ShowInFinder, Some(item)) <==> item.project.Some? || item.isTrash
  {
  }

  /** Validation hides Rename exactly for a bound root project and leaves the flag alone otherwise. */
  lemma RenameHiddenIffRoot(item: SidebarItem, hidden: bool)
    requires !item.isTrash && item.project.Some?
    ensures HiddenAfterValidation(RenameFolder, Some(item), hidden) == item.project.value.isRoot
  {
  }

  /**
   * `willOpenMenu` sets every item's `isHidden` to the negation of what
   * validation returned, overwriting the flag validation set for Rename.
   * So Rename on an editable root storage ends up visible.
   */
  lemma RootRenameShownWhenMenuOpens(item: SidebarItem, hidden: bool)
    requires !item.isTrash && item.project.Some? && item.project.value.isRoot
    requires Editable(item.project.value)
    ensures HiddenAfterValidation(RenameFolder, Some(item), hidden)
    ensures MenuEnabled(RenameFolder, Some(item))  // so the menu sets isHidden to false
  {
  }

  /** The selected default folder: Rename and Delete disabled, New folder enabled. */
  lemma DefaultProjectScenario(item: SidebarItem)
    requires !item.isTrash && item.project.Some?
    requires item.project.value.isDefault && !item.project.value.isArchive
    ensures !MenuEnabled(RenameFolder, Some(item))
    ensures !MenuEnabled(DeleteFolder, Some(item)) && !MenuEnabled(DetachStorage, Some(item))
    ensures MenuEnabled(NewFolder, Some(item))
  {
  }

  /** The selected archive: everything structural disabled except what needs only a bound project. */
  lemma ArchiveProjectScenario(item: SidebarItem)
    requires !item.isTrash && item.project.Some? && item.project.value.isArchive
    ensures !MenuEnabled(RenameFolder, Some(item)) && !MenuEnabled(DeleteFolder, Some(item))
    ensures !MenuEnabled(NewFolder, Some(item))
    ensures MenuEnabled(ShowViewOptions, Some(item)) && MenuEnabled(ShowInFinder, Some(item))
  {
  }
}
