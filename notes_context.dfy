/**
  * The application's in-memory store of notes and folders, with the note
  * and folder selection. Each operation computes the new lists from the old
  * ones; the `NotesStore` class holds the state and replaces its fields as
  * the React state setters do. Timestamps (`new Date()`) and the number in
  * fresh ids (`Date.now()`) are the `now` parameter.
  */
module NotesContext {
  import opened Optional
  import opened JsText
  import opened Seqs
  import opened NoteTypes

  /** `notes.find(note => note.id === id)`. */
  function FindNote(notes: seq<Note>, id: string): (r: Option<Note>)
    ensures r.None? <==> forall i :: 0 <= i < |notes| ==> notes[i].id != id
    ensures r.Some? ==> r.value.id == id
    ensures r.Some? ==> exists i :: 0 <= i < |notes| && notes[i] == r.value
                          && forall j :: 0 <= j < i ==> notes[j].id != id
  {
    FindFirst(notes, (n: Note) => n.id == id)
  }

  /** `notes.filter(note => note.folderId === folderId)`. */
  function NotesInFolder(notes: seq<Note>, folderId: string): (r: seq<Note>)
    ensures forall i :: 0 <= i < |r| ==> r[i].folderId == folderId
    ensures forall n :: multiset(r)[n] == (if n.folderId == folderId then multiset(notes)[n] else 0)
  {
    var r := Filter(notes, (n: Note) => n.folderId == folderId);
    FilterCount(notes, (n: Note) => n.folderId == folderId);
    r
  }

  /** Listing a folder keeps the order of the notes: the notes of a list made
      of two parts are those of the first part, then those of the second. */
  lemma NotesInFolderAppend(a: seq<Note>, b: seq<Note>, folderId: string)
    ensures NotesInFolder(a + b, folderId) == NotesInFolder(a, folderId) + NotesInFolder(b, folderId)
  {
    FilterAppend(a, b, (n: Note) => n.folderId == folderId);
  }

  /** The fields `createNote` reads from its argument; absent ones are `None`. */
  datatype NoteDraft = NoteDraft(
    title: Option<string>,
    content: Option<string>,
    tags: Option<seq<Tag>>,
    folderId: Option<string>)

  /** The note `createNote` builds: id `note` and the time, both dates the
      time, and each field given or its default. */
  function NewNote(draft: NoteDraft, now: nat): (n: Note)
    ensures n.id == "note" + Decimal(now) && n.createdAt == now && n.updatedAt == now
    ensures n.title != "" && n.folderId != ""
    ensures Truthy(draft.title) ==> n.title == draft.title.value
    ensures !Truthy(draft.title) ==> n.title == "Untitled"
    ensures draft.content.None? ==> n.content == ""
    ensures draft.content.Some? ==> n.content == draft.content.value
    ensures n.tags == draft.tags.GetOr([])
    ensures Truthy(draft.folderId) ==> n.folderId == draft.folderId.value
    ensures !Truthy(draft.folderId) ==> n.folderId == "folder1"
  {
    Note("note" + Decimal(now), OrElse(draft.title, "Untitled"), OrElse(draft.content, ""), now, now,
         draft.tags.GetOr([]), OrElse(draft.folderId, "folder1"))
  }

  /** The fields an update may carry; `None` for those it does not. */
  datatype NoteUpdate = NoteUpdate(
    id: Option<string>,
    title: Option<string>,
    content: Option<string>,
    createdAt: Option<nat>,
    tags: Option<seq<Tag>>,
    folderId: Option<string>)

  /** `{ ...note, ...updates, updatedAt: new Date() }`. */
  function Merge(note: Note, u: NoteUpdate, now: nat): (r: Note)
    ensures r.updatedAt == now
    ensures r.id == u.id.GetOr(note.id) && r.title == u.title.GetOr(note.title)
    ensures r.content == u.content.GetOr(note.content) && r.createdAt == u.createdAt.GetOr(note.createdAt)
    ensures r.tags == u.tags.GetOr(note.tags) && r.folderId == u.folderId.GetOr(note.folderId)
    ensures u == NoteUpdate(None, None, None, None, None, None) ==> r == note.(updatedAt := now)
  {
    Note(u.id.GetOr(note.id), u.title.GetOr(note.title), u.content.GetOr(note.content),
         u.createdAt.GetOr(note.createdAt), now, u.tags.GetOr(note.tags), u.folderId.GetOr(note.folderId))
  }

  /** The notes after `updateNote(id, u)`: every note with that id merged
      with the update, every other one as it was, in the same places. */
  function UpdatedNotes(notes: seq<Note>, id: string, u: NoteUpdate, now: nat): (r: seq<Note>)
    ensures |r| == |notes|
    ensures forall i :: 0 <= i < |notes| ==> r[i] == if notes[i].id == id then Merge(notes[i], u, now) else notes[i]
    ensures (forall i :: 0 <= i < |notes| ==> notes[i].id != id) ==> r == notes
  {
    seq(|notes|, i requires 0 <= i < |notes| => if notes[i].id == id then Merge(notes[i], u, now) else notes[i])
  }

  /** The notes after `deleteNote(id)`. */
  function NotesAfterDelete(notes: seq<Note>, id: string): (r: seq<Note>)
    ensures forall i :: 0 <= i < |r| ==> r[i].id != id
    ensures forall n :: multiset(r)[n] == (if n.id != id then multiset(notes)[n] else 0)
  {
    FilterCount(notes, (n: Note) => n.id != id);
    Filter(notes, (n: Note) => n.id != id)
  }

  /** The notes left by a deletion keep their order. */
  lemma NotesAfterDeleteAppend(a: seq<Note>, b: seq<Note>, id: string)
    ensures NotesAfterDelete(a + b, id) == NotesAfterDelete(a, id) + NotesAfterDelete(b, id)
  {
    FilterAppend(a, b, (n: Note) => n.id != id);
  }

  /** The selection after `deleteNote(id)`: unchanged unless the deleted id
      was selected; then the id of the first other note of the list before
      the deletion, or nothing (an empty id counts as nothing, by `|| null`). */
  function SelectionAfterDelete(notes: seq<Note>, selected: Option<string>, id: string): (r: Option<string>)
    ensures selected != Some(id) ==> r == selected
    ensures selected == Some(id) && r.Some? ==> r.value != id && r.value != ""
    ensures selected == Some(id) && r.Some? ==>
              exists k :: 0 <= k < |notes| && notes[k].id == r.value && forall j :: 0 <= j < k ==> notes[j].id == id
    ensures selected == Some(id) ==>
              (exists k :: 0 <= k < |notes| && notes[k].id != id && notes[k].id != ""
                           && forall j :: 0 <= j < k ==> notes[j].id == id) ==> r.Some?
  {
    if selected == Some(id) then
      match FindFirst(notes, (n: Note) => n.id != id)
      case Some(n) => if n.id != "" then Some(n.id) else None
      case None => None
    else selected
  }

  /** The note selected after deleting the selected one is one that remains:
      the first of the remaining notes, or nothing when no note remains or the
      first one has an empty id. */
  lemma SelectionAfterDeleteRemains(notes: seq<Note>, id: string)
    ensures var r := SelectionAfterDelete(notes, Some(id), id);
            r.Some? ==> exists i :: 0 <= i < |NotesAfterDelete(notes, id)| && NotesAfterDelete(notes, id)[i].id == r.value
    ensures var r := SelectionAfterDelete(notes, Some(id), id);
            var left := NotesAfterDelete(notes, id);
            r == if |left| > 0 && left[0].id != "" then Some(left[0].id) else None
  {
    FirstRemaining(notes, id);
    var r := SelectionAfterDelete(notes, Some(id), id);
    if r.Some? {
      var f := FindFirst(notes, (n: Note) => n.id != id);
      var k :| 0 <= k < |notes| && notes[k] == f.value && notes[k].id != id;
      var left := NotesAfterDelete(notes, id);
      assert notes[k] in multiset(left) by {
        assert multiset(left)[notes[k]] == multiset(notes)[notes[k]];
        assert notes[k] in multiset(notes);
      }
      var i :| 0 <= i < |left| && left[i] == notes[k];
    }
  }

  /** The first note other than `id` is the first note a deletion of `id` leaves. */
  lemma {:induction false} FirstRemaining(notes: seq<Note>, id: string)
    ensures var f := FindFirst(notes, (n: Note) => n.id != id);
            var left := NotesAfterDelete(notes, id);
            (f.None? <==> left == []) && (f.Some? ==> left[0] == f.value)
    decreases |notes|
  {
    var p := (n: Note) => n.id != id;
    if notes != [] {
      assert notes == [notes[0]] + notes[1..];
      FilterAppend([notes[0]], notes[1..], p);
      if !p(notes[0]) {
        assert forall i :: 1 <= i < |notes| ==> notes[i] == notes[1..][i - 1];
        FirstRemaining(notes[1..], id);
      }
    }
  }

  /** The notes after `addNoteToFolder(noteId, folderId)`. */
  function NotesAfterMove(notes: seq<Note>, noteId: string, folderId: string, now: nat): (r: seq<Note>)
    ensures |r| == |notes|
    ensures forall i :: 0 <= i < |notes| && notes[i].id != noteId ==> r[i] == notes[i]
    ensures forall i :: 0 <= i < |notes| && notes[i].id == noteId ==>
              r[i] == notes[i].(folderId := folderId, updatedAt := now)
  {
    seq(|notes|, i requires 0 <= i < |notes| =>
      if notes[i].id == noteId then notes[i].(folderId := folderId, updatedAt := now) else notes[i])
  }

  /** Moving a note is the update that carries only the folder. */
  lemma MoveIsUpdate(notes: seq<Note>, noteId: string, folderId: string, now: nat)
    ensures NotesAfterMove(notes, noteId, folderId, now)
         == UpdatedNotes(notes, noteId, NoteUpdate(None, None, None, None, None, Some(folderId)), now)
  {
  }

  /** The fields `createFolder` reads from its argument. */
  datatype FolderDraft = FolderDraft(name: Option<string>, parentId: Option<string>)

  /** The folder `createFolder` builds: id `folder` and the time, the name or
      its default, and the parent id as given; no icon and no children. */
  function NewFolder(draft: FolderDraft, now: nat): (f: Folder)
    ensures f.id == "folder" + Decimal(now) && f.parentId == draft.parentId
    ensures f.icon.None? && f.children.None?
    ensures f.name == OrElse(draft.name, "Untitled Folder")
  {
    Folder("folder" + Decimal(now), OrElse(draft.name, "Untitled Folder"), None, draft.parentId, None)
  }

  /** The parent's children with the new folder appended (a missing list
      counts as empty). */
  function WithChild(parent: Folder, child: Folder): (r: Folder)
    ensures r.children.Some? && |r.children.value| >= 1
    ensures r.children.value == parent.children.GetOr([]) + [child]
    ensures r.(children := parent.children) == parent
  {
    parent.(children := Some(parent.children.GetOr([]) + [child]))
  }

  /** The folders after `createFolder(draft)`: with a parent id, the new
      folder joins the children of each top-level folder with that id (and
      nowhere if there is none); without one it is appended at the top level. */
  function FoldersAfterCreate(folders: seq<Folder>, draft: FolderDraft, now: nat): (r: seq<Folder>)
    ensures !Truthy(draft.parentId) ==> r == folders + [NewFolder(draft, now)]
    ensures Truthy(draft.parentId) ==> |r| == |folders|
    ensures Truthy(draft.parentId) ==> forall i :: 0 <= i < |folders| ==>
              r[i] == if folders[i].id == draft.parentId.value then WithChild(folders[i], NewFolder(draft, now)) else folders[i]
  {
    var nf := NewFolder(draft, now);
    if Truthy(draft.parentId) then
      seq(|folders|, i requires 0 <= i < |folders| =>
        if folders[i].id == draft.parentId.value then WithChild(folders[i], nf) else folders[i])
    else folders + [nf]
  }

  /** A parent id that names no top-level folder leaves the folders as they
      are: the new folder is lost. */
  lemma CreateFolderUnknownParent(folders: seq<Folder>, draft: FolderDraft, now: nat)
    requires Truthy(draft.parentId)
    requires forall i :: 0 <= i < |folders| ==> folders[i].id != draft.parentId.value
    ensures FoldersAfterCreate(folders, draft, now) == folders
  {
  }

  /** The selection the store starts with: the first seed note's id, with an
      empty id counting as none. */
  function InitialSelection(seed: seq<Note>): (r: Option<string>)
    ensures r.Some? <==> |seed| > 0 && seed[0].id != ""
    ensures r.Some? ==> r.value == seed[0].id
  {
    if |seed| > 0 && seed[0].id != "" then Some(seed[0].id) else None
  }

  /** The store: the notes, the folders and the tags, and what is selected. */
  class NotesStore {
    var notes: seq<Note>
    var folders: seq<Folder>
    const tags: seq<Tag>
    var selectedNoteId: Option<string>
    var selectedFolderId: Option<string>

    /** The store starts from seed data, with its first note selected and no folder. */
    constructor (seedNotes: seq<Note>, seedFolders: seq<Folder>, seedTags: seq<Tag>)
      ensures notes == seedNotes && folders == seedFolders && tags == seedTags
      ensures selectedNoteId == InitialSelection(seedNotes) && selectedFolderId.None?
    {
      notes := seedNotes;
      folders := seedFolders;
      tags := seedTags;
      selectedNoteId := InitialSelection(seedNotes);
      selectedFolderId := None;
    }

    method SetSelectedNoteId(id: Option<string>)
      modifies this
      ensures selectedNoteId == id
      ensures notes == old(notes) && folders == old(folders) && selectedFolderId == old(selectedFolderId)
    {
      selectedNoteId := id;
    }

    method SetSelectedFolderId(id: Option<string>)
      modifies this
      ensures selectedFolderId == id
      ensures notes == old(notes) && folders == old(folders) && selectedNoteId == old(selectedNoteId)
    {
      selectedFolderId := id;
    }

    /** `getNote(id)`. */
    method GetNote(id: string) returns (r: Option<Note>)
      ensures r == FindNote(notes, id)
    {
      r := FindNote(notes, id);
    }

    /** `getNotesInFolder(folderId)`. */
    method GetNotesInFolder(folderId: string) returns (r: seq<Note>)
      ensures r == NotesInFolder(notes, folderId)
    {
      r := NotesInFolder(notes, folderId);
    }

    /** `createNote(draft)`: the new note goes in front and becomes the selected one. */
    method CreateNote(draft: NoteDraft, now: nat)
      modifies this
      ensures notes == [NewNote(draft, now)] + old(notes)
      ensures selectedNoteId == Some(NewNote(draft, now).id)
      ensures folders == old(folders) && selectedFolderId == old(selectedFolderId)
    {
      var newNote := NewNote(draft, now);
      notes := [newNote] + notes;
      selectedNoteId := Some(newNote.id);
    }

    /** `updateNote(id, u)`. */
    method UpdateNote(id: string, u: NoteUpdate, now: nat)
      modifies this
      ensures notes == UpdatedNotes(old(notes), id, u, now)
      ensures folders == old(folders) && selectedNoteId == old(selectedNoteId)
      ensures selectedFolderId == old(selectedFolderId)
    {
      notes := UpdatedNotes(notes, id, u, now);
    }

    /** `deleteNote(id)`: the selection is computed from the list as it was
      before the deletion. */
    method DeleteNote(id: string)
      modifies this
      ensures notes == NotesAfterDelete(old(notes), id)
      ensures selectedNoteId == SelectionAfterDelete(old(notes), old(selectedNoteId), id)
      ensures folders == old(folders) && selectedFolderId == old(selectedFolderId)
    {
      var before := notes;
      notes := NotesAfterDelete(notes, id);
      if selectedNoteId == Some(id) {
        selectedNoteId := SelectionAfterDelete(before, selectedNoteId, id);
      }
    }

    /** `addNoteToFolder(noteId, folderId)`. */
    method AddNoteToFolder(noteId: string, folderId: string, now: nat)
      modifies this
      ensures notes == NotesAfterMove(old(notes), noteId, folderId, now)
      ensures folders == old(folders) && selectedNoteId == old(selectedNoteId)
      ensures selectedFolderId == old(selectedFolderId)
    {
      notes := NotesAfterMove(notes, noteId, folderId, now);
    }

    /** `createFolder(draft)`. */
    method CreateFolder(draft: FolderDraft, now: nat)
      modifies this
      ensures folders == FoldersAfterCreate(old(folders), draft, now)
      ensures notes == old(notes) && selectedNoteId == old(selectedNoteId)
      ensures selectedFolderId == old(selectedFolderId)
    {
      folders := FoldersAfterCreate(folders, draft, now);
    }
  }
}
