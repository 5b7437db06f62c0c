/**
  * The note editor: its word count, and the save logic around the store.
  * Edits to the title or content arm a one-second save timer that replaces
  * any armed one; the timer commits the title and content it was armed with
  * to the note that was selected then. The timer is the `pending` field and
  * its expiry is the `TimerFires` method; the clock is the `now` parameter.
  */
module Editor {
  import opened Optional
  import opened JsText
  import opened Seqs
  import opened NoteTypes
  import opened NotesContext
  import opened MarkdownFormat

  /** `s.split(/\s+/)`: the pieces between the maximal runs of white space,
      with an empty piece before a leading run and after a trailing one. */
  function SplitOnWhitespace(s: string): (r: seq<string>)
    ensures |r| >= 1
    ensures r[0] == "" <==> s == "" || IsWhitespace(s[0])
    decreases |s|
  {
    if s == "" then [""]
    else if IsWhitespace(s[0]) then [""] + SplitOnWhitespace(TrimStart(s))
    else
      var rest := SplitOnWhitespace(s[1..]);
      [[s[0]] + rest[0]] + rest[1..]
  }

  predicate NonEmpty(piece: string) {
    piece != ""
  }

  /** `text.trim().split(/\s+/).filter(Boolean).length`.
      `CountWordsIsRuns` and `CountWordsZeroIffBlank` say what it counts. */
  function CountWords(text: string): nat {
    |Filter(SplitOnWhitespace(Trim(text)), NonEmpty)|
  }

  /** The word count is the number of maximal runs of non-white-space characters. */
  lemma CountWordsIsRuns(text: string)
    ensures CountWords(text) == Runs(text, false)
  {
    SplitCountsRuns(Trim(text));
    RunsTrimStart(text);
    RunsTrimEnd(TrimStart(text));
  }

  /** An empty or all-white-space text has no words; any other has one at least. */
  lemma CountWordsZeroIffBlank(text: string)
    ensures CountWords(text) == 0 <==> AllWhitespace(text)
  {
    CountWordsIsRuns(text);
  }

  /** The number of maximal runs of characters that are not white space,
      counted by a scan that remembers whether it is inside such a run;
      outside a run it counts none exactly in an all-white-space text. */
  function Runs(s: string, inWord: bool): (r: nat)
    ensures r <= |s|
    ensures !inWord ==> (r == 0 <==> AllWhitespace(s))
    decreases |s|
  {
    if s == "" then 0
    else if IsWhitespace(s[0]) then
      assert AllWhitespace(s) <==> AllWhitespace(s[1..]) by {
        assert forall i :: 0 < i < |s| ==> s[i] == s[1..][i - 1];
      }
      Runs(s[1..], false)
    else (if inWord then 0 else 1) + Runs(s[1..], true)
  }

  /** Inside a run, the run under way is not counted again. */
  lemma {:induction false} RunsInWord(s: string)
    ensures Runs(s, true) == Runs(s, false) - (if s != "" && !IsWhitespace(s[0]) then 1 else 0)
    decreases |s|
  {
  }

  /** Counting the non-empty pieces of the split counts the runs. */
  lemma {:induction false} SplitCountsRuns(t: string)
    ensures |Filter(SplitOnWhitespace(t), NonEmpty)| == Runs(t, false)
    decreases |t|
  {
    var parts := SplitOnWhitespace(t);
    if t == "" {
    } else if IsWhitespace(t[0]) {
      var rest := SplitOnWhitespace(TrimStart(t));
      SplitCountsRuns(TrimStart(t));
      FilterAppend([""], rest, NonEmpty);
      RunsTrimStart(t);
    } else {
      var u := t[1..];
      var rest := SplitOnWhitespace(u);
      SplitCountsRuns(u);
      RunsInWord(u);
      assert rest == [rest[0]] + rest[1..];
      FilterAppend([rest[0]], rest[1..], NonEmpty);
      FilterAppend([[t[0]] + rest[0]], rest[1..], NonEmpty);
    }
  }

  /** Leading white space holds no run. */
  lemma {:induction false} RunsTrimStart(s: string)
    ensures Runs(TrimStart(s), false) == Runs(s, false)
    decreases |s|
  {
    if s != "" && IsWhitespace(s[0]) {
      RunsTrimStart(s[1..]);
    }
  }

  /** Trailing white space holds no run. */
  lemma {:induction false} RunsTrimEnd(s: string)
    ensures Runs(TrimEnd(s), false) == Runs(s, false)
    decreases |s|
  {
    if s != "" && IsWhitespace(s[|s| - 1]) {
      var p := s[..|s| - 1];
      RunsTrimEnd(p);
      assert s == p + [s[|s| - 1]];
      RunsAppendWhitespace(p, s[|s| - 1], false);
    }
  }

  lemma {:induction false} RunsAppendWhitespace(u: string, c: char, inWord: bool)
    requires IsWhitespace(c)
    ensures Runs(u + [c], inWord) == Runs(u, inWord)
    decreases |u|
  {
    if u != "" {
      assert (u + [c])[1..] == u[1..] + [c];
      RunsAppendWhitespace(u[1..], c, false);
      RunsAppendWhitespace(u[1..], c, true);
    }
  }

  /** A save armed by `scheduleSave`: what it will write, and the note that
      was selected when it was armed. */
  datatype PendingSave = PendingSave(title: string, content: string, noteId: Option<string>)

  /** The update a save sends: the title and the content. */
  function SaveUpdate(title: string, content: string): (u: NoteUpdate)
    ensures u.title == Some(title) && u.content == Some(content)
    ensures u.id.None? && u.createdAt.None? && u.tags.None? && u.folderId.None?
  {
    NoteUpdate(None, Some(title), Some(content), None, None, None)
  }

  /** The editor's state, next to the store it reads and writes. */
  class EditorSession {
    const store: NotesStore
    var title: string
    var content: string
    var wordCount: nat
    var isSaving: bool
    var lastSaved: Option<nat>
    var pending: Option<PendingSave>

    /** A freshly mounted editor, before its loading effect has run. */
    constructor (store: NotesStore)
      ensures this.store == store
      ensures title == "" && content == "" && wordCount == 0 && !isSaving
      ensures lastSaved.None? && pending.None?
    {
      this.store := store;
      title := "";
      content := "";
      wordCount := 0;
      isSaving := false;
      lastSaved := None;
      pending := None;
    }

    /** The loading effect: it runs when the selection changes, and also after
        every change to the store, since `getNote` is rebuilt each time. */
    method LoadSelectedNote()
      modifies this
      ensures !Truthy(store.selectedNoteId) ==>
                title == "" && content == "" && wordCount == 0 && lastSaved.None?
      ensures Truthy(store.selectedNoteId) && FindNote(store.notes, store.selectedNoteId.value).Some? ==>
                var note := FindNote(store.notes, store.selectedNoteId.value).value;
                title == note.title && content == note.content
                && wordCount == CountWords(content) && lastSaved == Some(note.updatedAt)
      ensures Truthy(store.selectedNoteId) && FindNote(store.notes, store.selectedNoteId.value).None? ==>
                title == old(title) && content == old(content) && wordCount == old(wordCount)
                && lastSaved == old(lastSaved)
      ensures isSaving == old(isSaving) && pending == old(pending)
    {
      var selected := store.selectedNoteId;
      if Truthy(selected) {
        var found := FindNote(store.notes, selected.value);
        if found.Some? {
          var note := found.value;
          var words := CountWords(note.content);
          title := note.title;
          content := note.content;
          wordCount := words;
          lastSaved := Some(note.updatedAt);
        }
      } else {
        title := "";
        content := "";
        wordCount := 0;
        lastSaved := None;
      }
    }

    /** `scheduleSave`: any armed save is dropped and this one armed instead. */
    method ScheduleSave(newTitle: string, newContent: string)
      modifies this
      ensures pending == Some(PendingSave(newTitle, newContent, store.selectedNoteId))
      ensures isSaving
      ensures title == old(title) && content == old(content) && wordCount == old(wordCount)
      ensures lastSaved == old(lastSaved)
    {
      isSaving := true;
      pending := Some(PendingSave(newTitle, newContent, store.selectedNoteId));
    }

    /** The armed timer expires: when a note was selected at arming time, the
        save is written to that note and the editor shows it saved; otherwise
        nothing is written and the editor keeps showing "saving". */
    method TimerFires(now: nat)
      modifies this, store
      ensures pending.None?
      ensures old(pending).Some? && Truthy(old(pending).value.noteId) ==>
                var p := old(pending).value;
                && store.notes == UpdatedNotes(old(store.notes), p.noteId.value, SaveUpdate(p.title, p.content), now)
                && !isSaving && lastSaved == Some(now)
      ensures !(old(pending).Some? && Truthy(old(pending).value.noteId)) ==>
                store.notes == old(store.notes) && isSaving == old(isSaving) && lastSaved == old(lastSaved)
      ensures store.folders == old(store.folders) && store.selectedNoteId == old(store.selectedNoteId)
      ensures store.selectedFolderId == old(store.selectedFolderId)
      ensures title == old(title) && content == old(content) && wordCount == old(wordCount)
    {
      if pending.Some? {
        var p := pending.value;
        pending := None;
        if Truthy(p.noteId) {
          store.UpdateNote(p.noteId.value, SaveUpdate(p.title, p.content), now);
          isSaving := false;
          lastSaved := Some(now);
        }
      }
    }

    /** `handleTitleChange`. */
    method HandleTitleChange(value: string)
      modifies this
      ensures title == value && content == old(content) && wordCount == old(wordCount)
      ensures pending == Some(PendingSave(value, old(content), store.selectedNoteId)) && isSaving
      ensures lastSaved == old(lastSaved)
    {
      title := value;
      ScheduleSave(value, content);
    }

    /** `handleContentChange`: the word count follows the content. */
    method HandleContentChange(value: string)
      modifies this
      ensures content == value && wordCount == CountWords(value) && title == old(title)
      ensures pending == Some(PendingSave(old(title), value, store.selectedNoteId)) && isSaving
      ensures lastSaved == old(lastSaved)
    {
      content := value;
      wordCount := CountWords(value);
      ScheduleSave(title, value);
    }

    /** `handleFormat`: when the editor's text area exists, the content is
        formatted and a save is armed; the word count is left as it was. The
        cursor the formatting moves to is returned. */
    method HandleFormat(hasTextarea: bool, focusIsTextarea: bool, start: int, end: int, typeName: string)
      returns (cursor: Option<int>)
      modifies this
      ensures var r := FormatMarkdown(old(content), focusIsTextarea, start, end, ParseFormatType(typeName));
              hasTextarea ==> && content == r.content && cursor == r.cursor
                              && pending == Some(PendingSave(old(title), r.content, store.selectedNoteId))
                              && isSaving
      ensures !hasTextarea ==> content == old(content) && pending == old(pending) && isSaving == old(isSaving)
                               && cursor.None?
      ensures title == old(title) && wordCount == old(wordCount) && lastSaved == old(lastSaved)
    {
      cursor := None;
      if hasTextarea {
        var r := FormatMarkdown(content, focusIsTextarea, start, end, ParseFormatType(typeName));
        content := r.content;
        ScheduleSave(title, r.content);
        cursor := r.cursor;
      }
    }

    /** `handleSave`: writes the title and content at once when a note is
        selected; an armed save stays armed. */
    method HandleSave(now: nat)
      modifies this, store
      ensures Truthy(store.selectedNoteId) ==>
                && store.notes == UpdatedNotes(old(store.notes), store.selectedNoteId.value, SaveUpdate(title, content), now)
                && !isSaving && lastSaved == Some(now)
      ensures !Truthy(store.selectedNoteId) ==>
                store.notes == old(store.notes) && isSaving == old(isSaving) && lastSaved == old(lastSaved)
      ensures pending == old(pending) && title == old(title) && content == old(content)
      ensures wordCount == old(wordCount)
      ensures store.folders == old(store.folders) && store.selectedNoteId == old(store.selectedNoteId)
      ensures store.selectedFolderId == old(store.selectedFolderId)
    {
      if Truthy(store.selectedNoteId) {
        store.UpdateNote(store.selectedNoteId.value, SaveUpdate(title, content), now);
        isSaving := false;
        lastSaved := Some(now);
      }
    }

    /** `handleDelete`: deletes the selected note once the user confirms. */
    method HandleDelete(confirmed: bool)
      modifies store
      ensures Truthy(old(store.selectedNoteId)) && confirmed ==>
                && store.notes == NotesAfterDelete(old(store.notes), old(store.selectedNoteId).value)
                && store.selectedNoteId == SelectionAfterDelete(old(store.notes), old(store.selectedNoteId), old(store.selectedNoteId).value)
      ensures !(Truthy(old(store.selectedNoteId)) && confirmed) ==>
                store.notes == old(store.notes) && store.selectedNoteId == old(store.selectedNoteId)
      ensures store.folders == old(store.folders) && store.selectedFolderId == old(store.selectedFolderId)
    {
      if Truthy(store.selectedNoteId) && confirmed {
        store.DeleteNote(store.selectedNoteId.value);
      }
    }

    /** `handleTabKey`: Tab puts two spaces in place of the selection and the
        cursor after them; nothing is saved and the word count is not updated. */
    method HandleTabKey(key: string, start: int, end: int) returns (cursor: Option<int>)
      modifies this
      ensures key == "Tab" ==> content == InsertTab(old(content), start, end) && cursor == Some(start + 2)
      ensures key != "Tab" ==> content == old(content) && cursor.None?
      ensures pending == old(pending) && isSaving == old(isSaving) && wordCount == old(wordCount)
      ensures title == old(title) && lastSaved == old(lastSaved)
    {
      cursor := None;
      if key == "Tab" {
        content := InsertTab(content, start, end);
        cursor := Some(start + 2);
      }
    }

    /** The cleanup on unmount drops the armed save. */
    method Unmount()
      modifies this
      ensures pending.None?
      ensures title == old(title) && content == old(content) && isSaving == old(isSaving)
      ensures wordCount == old(wordCount) && lastSaved == old(lastSaved)
    {
      pending := None;
    }
  }

  /** Two quick edits of the content and then the timer: only the second
      content is written, with the title the editor had. */
  method BurstCommitsLast(editor: EditorSession, first: string, second: string, now: nat)
    requires Truthy(editor.store.selectedNoteId)
    modifies editor, editor.store
    ensures editor.store.notes
         == UpdatedNotes(old(editor.store.notes), old(editor.store.selectedNoteId).value,
                         SaveUpdate(old(editor.title), second), now)
    ensures editor.content == second && editor.pending.None? && !editor.isSaving
  {
    editor.HandleContentChange(first);
    editor.HandleContentChange(second);
    editor.TimerFires(now);
  }
}
