/**
  * The sidebar: which folders are expanded, the folder selection, and the
  * add-folder action. The name typed at the prompt and whether the window
  * is narrow are parameters; closing the phone sidebar is reported as a
  * result, since the layout supplies that callback.
  */
module Sidebar {
  import opened Optional
  import opened NoteTypes
  import opened NotesContext

  /** The expansion map the sidebar starts with. */
  function InitialExpanded(): (m: map<string, bool>)
    ensures m.Keys == {"folder1", "folder2"}
  {
    map["folder1" := true, "folder2" := true]
  }

  /** `expandedFolders[id]` as a condition: a missing entry is collapsed. */
  predicate IsExpanded(m: map<string, bool>, id: string) {
    id in m && m[id]
  }

  /** Only `folder1` and `folder2` start expanded. */
  lemma InitiallyExpanded(id: string)
    ensures IsExpanded(InitialExpanded(), id) <==> id == "folder1" || id == "folder2"
  {
  }

  /** `{...prev, [id]: !prev[id]}`. */
  function Toggled(m: map<string, bool>, id: string): (r: map<string, bool>)
    ensures r.Keys == m.Keys + {id}
    ensures IsExpanded(r, id) <==> !IsExpanded(m, id)
    ensures forall k :: k in m && k != id ==> r[k] == m[k]
  {
    m[id := !IsExpanded(m, id)]
  }

  /** Toggling twice restores whether every folder is expanded (the map
      keeps an entry for the folder, which may be new). */
  lemma ToggleTwice(m: map<string, bool>, id: string, k: string)
    ensures IsExpanded(Toggled(Toggled(m, id), id), k) == IsExpanded(m, k)
  {
  }

  /** The child folders listed under a folder: all of them while it is
      expanded, none while it is collapsed. */
  function VisibleChildren(folder: Folder, m: map<string, bool>): (r: seq<Folder>)
    ensures IsExpanded(m, folder.id) ==> r == folder.children.GetOr([])
    ensures !IsExpanded(m, folder.id) ==> r == []
  {
    if folder.children.Some? && IsExpanded(m, folder.id) then folder.children.value else []
  }

  /** The sidebar's own state, next to the store. */
  class SidebarView {
    const store: NotesStore
    var expandedFolders: map<string, bool>

    constructor (store: NotesStore)
      ensures this.store == store && expandedFolders == InitialExpanded()
    {
      this.store := store;
      expandedFolders := InitialExpanded();
    }

    /** `toggleFolder(id)`. */
    method ToggleFolder(id: string)
      modifies this
      ensures expandedFolders == Toggled(old(expandedFolders), id)
    {
      expandedFolders := expandedFolders[id := !IsExpanded(expandedFolders, id)];
    }

    /** `handleFolderClick(id)`: selects the folder, and closes the phone
        sidebar on a narrow window. */
    method HandleFolderClick(id: string, narrow: bool) returns (closeSidebar: bool)
      modifies store
      ensures store.selectedFolderId == Some(id) && closeSidebar == narrow
      ensures store.notes == old(store.notes) && store.folders == old(store.folders)
      ensures store.selectedNoteId == old(store.selectedNoteId)
    {
      store.SetSelectedFolderId(Some(id));
      closeSidebar := narrow;
    }

    /** `handleAllNotesClick`: clears the folder selection. */
    method HandleAllNotesClick(narrow: bool) returns (closeSidebar: bool)
      modifies store
      ensures store.selectedFolderId.None? && closeSidebar == narrow
      ensures store.notes == old(store.notes) && store.folders == old(store.folders)
      ensures store.selectedNoteId == old(store.selectedNoteId)
    {
      store.SetSelectedFolderId(None);
      closeSidebar := narrow;
    }

    /** `handleAddFolder`, with the prompt's answer (`None` when cancelled):
        a top-level folder is created only for a non-empty name. */
    method HandleAddFolder(answer: Option<string>, now: nat)
      modifies store
      ensures Truthy(answer) ==> store.folders == FoldersAfterCreate(old(store.folders), FolderDraft(answer, None), now)
      ensures Truthy(answer) ==> store.folders == old(store.folders) + [NewFolder(FolderDraft(answer, None), now)]
      ensures !Truthy(answer) ==> store.folders == old(store.folders)
      ensures store.notes == old(store.notes) && store.selectedNoteId == old(store.selectedNoteId)
      ensures store.selectedFolderId == old(store.selectedFolderId)
    {
      if Truthy(answer) {
        store.CreateFolder(FolderDraft(answer, None), now);
      }
    }
  }
}
