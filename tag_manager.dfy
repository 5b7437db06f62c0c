/**
  * The tag editor under a note: adding a tag by name, which reuses a tag of
  * the store whose name matches ignoring case and otherwise creates one, and
  * removing a tag. The store's tag constructor is not part of the store's
  * interface, so the created tag is built from a fresh id given as a
  * parameter, the name and the chosen colour.
  */
module TagManager {
  import opened Optional
  import opened JsText
  import opened Seqs
  import opened NoteTypes
  import opened NotesContext

  /** `tag.name.toLowerCase() === name.toLowerCase()`. */
  predicate SameName(t: Tag, name: string)
    ensures t.name == name ==> SameName(t, name)
    ensures SameName(t, name) ==> |t.name| == |name|
  {
    ToLower(t.name) == ToLower(name)
  }

  /** Two names are the same when they agree letter by letter up to the
      case of ASCII letters. */
  lemma SameNameLetterByLetter(t: Tag, name: string)
    ensures SameName(t, name) <==>
              |t.name| == |name| && forall i :: 0 <= i < |name| ==> LowerChar(t.name[i]) == LowerChar(name[i])
  {
    assert forall i :: 0 <= i < |name| ==> ToLower(name)[i] == LowerChar(name[i]);
    assert forall i :: 0 <= i < |t.name| ==> ToLower(t.name)[i] == LowerChar(t.name[i]);
  }

  /** `allTags.find(…)`: the first tag with the name, ignoring case. */
  function FindTagByName(all: seq<Tag>, name: string): (r: Option<Tag>)
    ensures r.None? <==> forall i :: 0 <= i < |all| ==> !SameName(all[i], name)
    ensures r.Some? ==> exists i :: 0 <= i < |all| && all[i] == r.value && SameName(all[i], name)
                                    && forall j :: 0 <= j < i ==> !SameName(all[j], name)
  {
    FindFirst(all, (t: Tag) => SameName(t, name))
  }

  /** The tag an add appends: the existing one, or the one created. */
  function TagToAdd(allTags: seq<Tag>, name: string, color: string, freshId: string): (t: Tag)
    ensures SameName(t, name)
    ensures t in allTags || t == Tag(freshId, name, color)
    ensures (forall i :: 0 <= i < |allTags| ==> !SameName(allTags[i], name)) ==> t == Tag(freshId, name, color)
    ensures FindTagByName(allTags, name).Some? ==> t == FindTagByName(allTags, name).value
    ensures (exists i :: 0 <= i < |allTags| && SameName(allTags[i], name)) ==>
              exists i :: 0 <= i < |allTags| && allTags[i] == t && forall j :: 0 <= j < i ==> !SameName(allTags[j], name)
  {
    match FindTagByName(allTags, name)
    case Some(existing) => existing
    case None => Tag(freshId, name, color)
  }

  /** The note's tags after `handleAddTag`, or `None` when the name is blank
      and nothing happens. The tag is appended even when the note has it. */
  function TagsAfterAdd(noteTags: seq<Tag>, allTags: seq<Tag>, name: string, color: string, freshId: string)
    : (r: Option<seq<Tag>>)
    ensures r.None? <==> AllWhitespace(name)
    ensures r.Some? ==> |r.value| == |noteTags| + 1 && r.value[..|noteTags|] == noteTags
    ensures r.Some? ==> var added := r.value[|noteTags|];
                        SameName(added, name) && (added in allTags || added == Tag(freshId, name, color))
    ensures r.Some? ==> r.value == noteTags + [TagToAdd(allTags, name, color, freshId)]
  {
    TrimEmptyIffAllWhitespace(name);
    if Trim(name) != "" then
      var r := noteTags + [TagToAdd(allTags, name, color, freshId)];
      assert r[..|noteTags|] == noteTags;
      Some(r)
    else None
  }

  /** Adding does not deduplicate: a tag the note has gains one more copy. */
  lemma AddTagTwice(noteTags: seq<Tag>, allTags: seq<Tag>, name: string, color: string, freshId: string)
    requires !AllWhitespace(name)
    requires TagToAdd(allTags, name, color, freshId) in noteTags
    ensures var t := TagToAdd(allTags, name, color, freshId);
            multiset(TagsAfterAdd(noteTags, allTags, name, color, freshId).value)[t] == multiset(noteTags)[t] + 1
            && multiset(TagsAfterAdd(noteTags, allTags, name, color, freshId).value)[t] >= 2
  {
    var t := TagToAdd(allTags, name, color, freshId);
    var r := TagsAfterAdd(noteTags, allTags, name, color, freshId).value;
    assert r == noteTags + [t] by {
      assert r == r[..|noteTags|] + [r[|noteTags|]];
    }
  }

  /** `tags.filter(tag => tag.id !== tagId)`. */
  function TagsAfterRemove(noteTags: seq<Tag>, tagId: string): (r: seq<Tag>)
    ensures forall i :: 0 <= i < |r| ==> r[i].id != tagId
    ensures forall t :: multiset(r)[t] == if t.id != tagId then multiset(noteTags)[t] else 0
  {
    FilterCount(noteTags, (t: Tag) => t.id != tagId);
    Filter(noteTags, (t: Tag) => t.id != tagId)
  }

  /** Removing a tag keeps the other tags in their order: the tags left of a
      list made of two parts are those left of the first part, then those
      left of the second. */
  lemma TagsAfterRemoveAppend(a: seq<Tag>, b: seq<Tag>, tagId: string)
    ensures TagsAfterRemove(a + b, tagId) == TagsAfterRemove(a, tagId) + TagsAfterRemove(b, tagId)
  {
    FilterAppend(a, b, (t: Tag) => t.id != tagId);
  }

  /** Removing a tag just created takes the note's tags back to what they were. */
  lemma RemoveUndoesCreate(noteTags: seq<Tag>, allTags: seq<Tag>, name: string, color: string, freshId: string)
    requires !AllWhitespace(name)
    requires forall i :: 0 <= i < |allTags| ==> !SameName(allTags[i], name)
    requires forall i :: 0 <= i < |noteTags| ==> noteTags[i].id != freshId
    ensures TagsAfterRemove(TagsAfterAdd(noteTags, allTags, name, color, freshId).value, freshId) == noteTags
  {
    var added := TagsAfterAdd(noteTags, allTags, name, color, freshId).value;
    var p := (t: Tag) => t.id != freshId;
    assert added == noteTags + [Tag(freshId, name, color)] by {
      assert added == added[..|noteTags|] + [added[|noteTags|]];
    }
    FilterAppend(noteTags, [Tag(freshId, name, color)], p);
    FilterAll(noteTags, p);
    assert Filter([Tag(freshId, name, color)], p) == [];
  }

  /** The update that replaces a note's tags. */
  function TagsUpdate(tags: seq<Tag>): (u: NoteUpdate)
    ensures u.tags == Some(tags)
    ensures u.id.None? && u.title.None? && u.content.None? && u.createdAt.None? && u.folderId.None?
  {
    NoteUpdate(None, None, None, None, Some(tags), None)
  }

  /** The tag form of one note, over the store. */
  class TagForm {
    const store: NotesStore
    const noteId: string
    var isAddingTag: bool
    var newTagName: string
    var newTagColor: string

    constructor (store: NotesStore, noteId: string)
      ensures this.store == store && this.noteId == noteId
      ensures !isAddingTag && newTagName == "" && newTagColor == "#8B5CF6"
    {
      this.store := store;
      this.noteId := noteId;
      isAddingTag := false;
      newTagName := "";
      newTagColor := "#8B5CF6";
    }

    method SetAdding(adding: bool)
      modifies this
      ensures isAddingTag == adding && newTagName == old(newTagName) && newTagColor == old(newTagColor)
    {
      isAddingTag := adding;
    }

    method SetName(name: string)
      modifies this
      ensures newTagName == name && isAddingTag == old(isAddingTag) && newTagColor == old(newTagColor)
    {
      newTagName := name;
    }

    method SetColor(color: string)
      modifies this
      ensures newTagColor == color && isAddingTag == old(isAddingTag) && newTagName == old(newTagName)
    {
      newTagColor := color;
    }

    /** `handleAddTag`, with the note's current tags: a blank name changes
        nothing; otherwise the note gets the tag and the form is reset. */
    method HandleAddTag(noteTags: seq<Tag>, freshId: string, now: nat)
      modifies this, store
      ensures var r := TagsAfterAdd(noteTags, store.tags, old(newTagName), old(newTagColor), freshId);
              && (r.Some? ==> store.notes == UpdatedNotes(old(store.notes), noteId, TagsUpdate(r.value), now)
                              && newTagName == "" && !isAddingTag)
              && (r.None? ==> store.notes == old(store.notes) && newTagName == old(newTagName)
                              && isAddingTag == old(isAddingTag))
      ensures newTagColor == old(newTagColor)
      ensures store.folders == old(store.folders) && store.selectedNoteId == old(store.selectedNoteId)
      ensures store.selectedFolderId == old(store.selectedFolderId)
    {
      var r := TagsAfterAdd(noteTags, store.tags, newTagName, newTagColor, freshId);
      if r.Some? {
        store.UpdateNote(noteId, TagsUpdate(r.value), now);
        newTagName := "";
        isAddingTag := false;
      }
    }

    /** `handleRemoveTag`. */
    method HandleRemoveTag(noteTags: seq<Tag>, tagId: string, now: nat)
      modifies store
      ensures store.notes == UpdatedNotes(old(store.notes), noteId, TagsUpdate(TagsAfterRemove(noteTags, tagId)), now)
      ensures store.folders == old(store.folders) && store.selectedNoteId == old(store.selectedNoteId)
      ensures store.selectedFolderId == old(store.selectedFolderId)
    {
      store.UpdateNote(noteId, TagsUpdate(TagsAfterRemove(noteTags, tagId)), now);
    }
  }
}
