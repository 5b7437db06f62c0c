/**
  * The note list panel: which notes it shows and in what order, the cycle
  * of its sort orders, the one-line preview of a note, and the note its
  * "new" button asks the store for. Lowercasing is the ASCII `ToLower`;
  * the locale comparison of titles is a parameter that must be a total
  * preorder.
  */
module NotesList {
  import opened Optional
  import opened JsText
  import opened Seqs
  import opened RegexPasses
  import opened NoteTypes
  import opened NotesContext

  datatype SortOrder = Newest | Oldest | Alphabetical

  /** `toggleSortOrder`: newest, then oldest, then alphabetical, then newest again. */
  function NextSortOrder(o: SortOrder): (r: SortOrder)
    ensures r != o
  {
    match o
    case Newest => Oldest
    case Oldest => Alphabetical
    case Alphabetical => Newest
  }

  /** Three toggles bring back the order one started with, and fewer do not. */
  lemma ThreeTogglesReturn(o: SortOrder)
    ensures NextSortOrder(NextSortOrder(NextSortOrder(o))) == o
    ensures NextSortOrder(NextSortOrder(o)) != o
  {
  }

  /** The search test: an empty term matches everything; otherwise the
      lowercased title or content must contain the lowercased term. */
  predicate MatchesSearch(note: Note, searchTerm: string)
    ensures searchTerm == "" ==> MatchesSearch(note, searchTerm)
    ensures Includes(note.title, searchTerm) || Includes(note.content, searchTerm) ==> MatchesSearch(note, searchTerm)
    ensures MatchesSearch(note, searchTerm) ==> |searchTerm| <= |note.title| || |searchTerm| <= |note.content|
  {
    LowerKeepsMatch(note.title, searchTerm);
    LowerKeepsMatch(note.content, searchTerm);
    searchTerm == ""
    || Includes(ToLower(note.title), ToLower(searchTerm))
    || Includes(ToLower(note.content), ToLower(searchTerm))
  }

  /** A term found as written is also found once both are lowercased. */
  lemma LowerKeepsMatch(s: string, t: string)
    ensures Includes(s, t) ==> Includes(ToLower(s), ToLower(t))
  {
    if Includes(s, t) {
      var i :| 0 <= i <= |s| - |t| && StartsAt(s, i, t);
      assert ToLower(s)[i..i + |t|] == ToLower(t) by {
        forall k | 0 <= k < |t| ensures ToLower(s)[i..i + |t|][k] == ToLower(t)[k] {
          assert s[i + k] == t[k];
        }
      }
      assert StartsAt(ToLower(s), i, ToLower(t));
    }
  }

  /** The filter of the list: the note is in the selected folder (when one
      is selected) and matches the search. A missing or empty folder id
      selects every folder. */
  predicate Keep(note: Note, selectedFolderId: Option<string>, searchTerm: string)
    ensures Keep(note, selectedFolderId, searchTerm) ==> MatchesSearch(note, searchTerm)
    ensures !Truthy(selectedFolderId) ==> (Keep(note, selectedFolderId, searchTerm) <==> MatchesSearch(note, searchTerm))
    ensures Truthy(selectedFolderId) && note.folderId != selectedFolderId.value ==> !Keep(note, selectedFolderId, searchTerm)
  {
    (Truthy(selectedFolderId) ==> note.folderId == selectedFolderId.value)
    && MatchesSearch(note, searchTerm)
  }

  /** The comparator of each order, as "may come first": newest first, oldest
      first, or by title under the locale order `titleLe`. Each is a total
      preorder when the title order is. */
  function OrderLe(order: SortOrder, titleLe: (string, string) -> bool): (le: (Note, Note) -> bool)
    ensures TotalPreorder(titleLe) ==> TotalPreorder(le)
    ensures order == Newest ==> forall a: Note, b: Note :: le(a, b) <==> a.updatedAt >= b.updatedAt
    ensures order == Oldest ==> forall a: Note, b: Note :: le(a, b) <==> a.updatedAt <= b.updatedAt
    ensures order == Alphabetical ==> forall a: Note, b: Note :: le(a, b) <==> titleLe(a.title, b.title)
  {
    match order
    case Newest => (a: Note, b: Note) => a.updatedAt >= b.updatedAt
    case Oldest => (a: Note, b: Note) => a.updatedAt <= b.updatedAt
    case Alphabetical =>
      var le := (a: Note, b: Note) => titleLe(a.title, b.title);
      ByTitleTotal(titleLe, le);
      le
  }

  /** Comparing notes by their titles inherits the title order's totality
      and transitivity. */
  lemma ByTitleTotal(titleLe: (string, string) -> bool, le: (Note, Note) -> bool)
    requires forall a: Note, b: Note :: le(a, b) == titleLe(a.title, b.title)
    ensures TotalPreorder(titleLe) ==> TotalPreorder(le)
  {
    if TotalPreorder(titleLe) {
      forall a: Note, b: Note, c: Note | le(a, b) && le(b, c) ensures le(a, c) {
        assert titleLe(a.title, b.title) && titleLe(b.title, c.title);
      }
      forall a: Note, b: Note ensures le(a, b) || le(b, a) {
        assert titleLe(a.title, b.title) || titleLe(b.title, a.title);
      }
    }
  }

  /** `filteredNotes`: the kept notes, sorted by the current order. */
  function FilteredNotes(notes: seq<Note>, selectedFolderId: Option<string>, searchTerm: string,
                         order: SortOrder, titleLe: (string, string) -> bool): (r: seq<Note>)
    requires TotalPreorder(titleLe)
    ensures forall i :: 0 <= i < |r| ==> Keep(r[i], selectedFolderId, searchTerm)
    ensures forall n :: multiset(r)[n] == (if Keep(n, selectedFolderId, searchTerm) then multiset(notes)[n] else 0)
    ensures SortedBy(r, OrderLe(order, titleLe))
  {
    var keep := (n: Note) => Keep(n, selectedFolderId, searchTerm);
    var kept := Filter(notes, keep);
    FilterCount(notes, keep);
    var r := SortBy(kept, OrderLe(order, titleLe));
    assert forall i :: 0 <= i < |r| ==> r[i] in multiset(kept);
    r
  }

  /** Newest first: the update times never increase along the list. */
  lemma NewestFirst(notes: seq<Note>, selectedFolderId: Option<string>, searchTerm: string,
                    titleLe: (string, string) -> bool)
    requires TotalPreorder(titleLe)
    ensures var r := FilteredNotes(notes, selectedFolderId, searchTerm, Newest, titleLe);
            forall i, j :: 0 <= i < j < |r| ==> r[i].updatedAt >= r[j].updatedAt
  {
    var r := FilteredNotes(notes, selectedFolderId, searchTerm, Newest, titleLe);
    forall i, j | 0 <= i < j < |r| ensures r[i].updatedAt >= r[j].updatedAt {
      assert OrderLe(Newest, titleLe)(r[i], r[j]);
    }
  }

  /** With no folder selected and no search term, every note is listed. */
  lemma NoFilterListsAll(notes: seq<Note>, order: SortOrder, titleLe: (string, string) -> bool)
    requires TotalPreorder(titleLe)
    ensures multiset(FilteredNotes(notes, None, "", order, titleLe)) == multiset(notes)
  {
    var r := FilteredNotes(notes, None, "", order, titleLe);
    forall n ensures multiset(r)[n] == multiset(notes)[n] {
      assert Keep(n, None, "");
    }
  }

  /** The preview before truncation: heading marks dropped, bold and italic
      markers and link addresses removed, newlines turned into spaces. */
  function PreviewText(content: string): (r: string)
    ensures '\n' !in r
  {
    var noHeadings := StripHeadingMarks(content);
    var noBold := LazyPass(noHeadings, "**", "**", 0, NotLineTerminator, "", "");
    var noItalic := LazyPass(noBold, "*", "*", 0, NotLineTerminator, "", "");
    var noLinks := LinkPass(noItalic, (text, url) => text);
    ReplaceChar(noLinks, '\n', " ")
  }

  /** `renderPreview`: the first 80 characters of the preview text, and
      `...` when the content itself is longer than 80 characters. */
  function RenderPreview(content: string): (r: string)
    ensures |content| <= 80 ==> |r| <= 80 && '\n' !in r
    ensures |content| > 80 ==> |r| >= 3 && r[|r| - 3..] == "..." && |r| <= 83 && '\n' !in r[..|r| - 3]
    ensures |content| <= 80 ==> r == Slice(PreviewText(content), 0, 80)
    ensures |content| > 80 ==> r[..|r| - 3] == Slice(PreviewText(content), 0, 80)
  {
    var body := Slice(PreviewText(content), 0, 80);
    assert '\n' !in body by {
      var t := PreviewText(content);
      assert forall i :: 0 <= i < |body| ==> body[i] in t;
    }
    body + (if |content| > 80 then "..." else "")
  }

  /** A note without markup characters and newlines previews as its first
      80 characters, with `...` when it is longer. */
  lemma PreviewOfPlainText(content: string)
    requires '#' !in content && '*' !in content && '[' !in content && '\n' !in content
    ensures RenderPreview(content) == Slice(content, 0, 80) + (if |content| > 80 then "..." else "")
  {
    assert forall j :: 0 <= j < |content| ==> content[j] != '#' by {
      forall j | 0 <= j < |content| ensures content[j] != '#' { assert content[j] in content; }
    }
    AbsentNowhere(content, "**");
    AbsentNowhere(content, "*");
    assert forall j :: 0 <= j < |content| ==> content[j] != '[' by {
      forall j | 0 <= j < |content| ensures content[j] != '[' { assert content[j] in content; }
    }
  }

  /** The draft `handleCreateNote` sends: an "Untitled Note" with no content,
      in the selected folder if one is selected. */
  function NewNoteDraft(selectedFolderId: Option<string>): (d: NoteDraft)
    ensures d.title == Some("Untitled Note") && d.content == Some("") && d.tags.None?
    ensures d.folderId == (if Truthy(selectedFolderId) then selectedFolderId else None)
  {
    NoteDraft(Some("Untitled Note"), Some(""), None, if Truthy(selectedFolderId) then selectedFolderId else None)
  }

  /** The note created from the list's draft: titled "Untitled Note", empty,
      without tags, in the selected folder or else in `folder1`. */
  lemma CreatedFromList(selectedFolderId: Option<string>, now: nat)
    ensures var n := NewNote(NewNoteDraft(selectedFolderId), now);
            && n.title == "Untitled Note" && n.content == "" && n.tags == []
            && n.folderId == (if Truthy(selectedFolderId) then selectedFolderId.value else "folder1")
  {
  }

  /** The list panel's own state: the search term and the sort order. */
  class NotesListView {
    var searchTerm: string
    var sortOrder: SortOrder

    constructor ()
      ensures searchTerm == "" && sortOrder == Newest
    {
      searchTerm := "";
      sortOrder := Newest;
    }

    method SetSearchTerm(term: string)
      modifies this
      ensures searchTerm == term && sortOrder == old(sortOrder)
    {
      searchTerm := term;
    }

    /** `toggleSortOrder`. */
    method ToggleSortOrder()
      modifies this
      ensures sortOrder == NextSortOrder(old(sortOrder)) && searchTerm == old(searchTerm)
    {
      if sortOrder == Newest {
        sortOrder := Oldest;
      } else if sortOrder == Oldest {
        sortOrder := Alphabetical;
      } else {
        sortOrder := Newest;
      }
    }

    /** The notes the panel shows for the store's state. */
    method Shown(store: NotesStore, titleLe: (string, string) -> bool) returns (r: seq<Note>)
      requires TotalPreorder(titleLe)
      ensures r == FilteredNotes(store.notes, store.selectedFolderId, searchTerm, sortOrder, titleLe)
    {
      r := FilteredNotes(store.notes, store.selectedFolderId, searchTerm, sortOrder, titleLe);
    }

    /** `handleCreateNote`. */
    method HandleCreateNote(store: NotesStore, now: nat)
      modifies store
      ensures store.notes == [NewNote(NewNoteDraft(old(store.selectedFolderId)), now)] + old(store.notes)
      ensures store.selectedNoteId == Some(NewNote(NewNoteDraft(old(store.selectedFolderId)), now).id)
      ensures store.folders == old(store.folders) && store.selectedFolderId == old(store.selectedFolderId)
    {
      store.CreateNote(NewNoteDraft(store.selectedFolderId), now);
    }
  }
}
