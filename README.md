# Notes app core, modelled in Dafny

This project models the logic beneath the React interface of a client-side
notes application. It covers:

- the markdown toolbar's text splicing (`formatMarkdown`, `insertTab`);
- the ad-hoc markdown-to-HTML renderer, which the application holds in three
  copies (export, editor preview, editor utilities hook). `Render` takes the
  copies' differing opening tags as a parameter;
- the export file (name, media type, content);
- the in-memory store of notes and folders (`NotesContext`);
- the notes list's filter, sort order and preview;
- the editor's pending-save state machine and word count;
- the tag editor;
- the code editor's Tab and auto-close handlers;
- the code-preview document;
- the phone layout's two panels;
- the sidebar's folder-expansion map and handlers.

JavaScript semantics the code relies on are spelled out in `JsText`:

- `slice` and `substring`, each with its own index clamping;
- `\s` as the ECMAScript white-space and line-terminator set;
- `split` and `join` on one character;
- `trim`;
- the `||` fallback on strings: `Truthy` and `OrElse`.

The regular-expression replacements are written as left-to-right scanners in
`RegexPasses`, one per pattern shape the code uses. The clock (`new Date()`,
`Date.now()`) is a `now: nat` parameter. The focused element and the
selection are parameters. Timers are explicit pending state.
`localeCompare` is an abstract comparator `titleLe`, required to be a total
preorder.

Stateful parts are classes whose methods change their fields, as the React
setters do:

- `NotesStore`
- `NotesListView`
- `EditorSession`
- `TagForm`
- `CodeTextArea`
- `PreviewFrame`
- `MobileNavState`
- `SidebarView`

## Model

| member | source | states |
|---|---|---|
| RegexPasses.LineEnd | src/utils/markdown.ts:168 | `(.*$)` in multiline mode stops at the first line terminator or at the end |
| RegexPasses.LinePass | src/utils/markdown.ts:168-173 | a `^P(.*$)` pass changes nothing when no line starts with the prefix |
| RegexPasses.LinePassFrom | src/utils/markdown.ts:168-173 | a `^P(.*$)` pass leaves a text unchanged when no line starts with the prefix |
| RegexPasses.LinePassOneLine | src/utils/markdown.ts:168 | on one line, the pass wraps the rest of the line when the line starts with the prefix, and changes nothing otherwise |
| RegexPasses.FindClose | src/utils/markdown.ts:175-176 | the lazy group ends at the first offset where the closing delimiter follows enough allowed characters; no earlier offset qualifies |
| RegexPasses.LazyPassFrom | src/utils/markdown.ts:175-182 | when the wrapper is no longer than the two delimiters, the pass never lengthens the rest of the text it scans |
| RegexPasses.LazyPass | src/utils/markdown.ts:175-182 | a text in which the opening delimiter never occurs comes back unchanged |
| RegexPasses.NoOpenCopied | src/utils/markdown.ts:175-182 | the scan copies a text without the opening delimiter verbatim |
| RegexPasses.LazyPassSkip | src/utils/markdown.ts:175-182 | a stretch without the opening delimiter is copied verbatim and the scan resumes after it |
| RegexPasses.FindLink | src/utils/markdown.ts:178 | a link match has `](` after its text and `)` after its address; the text holds no line terminator |
| RegexPasses.FindLinkCloses | src/utils/markdown.ts:178 | the address of a link match ends at the first `)` after its `](` on the same line |
| RegexPasses.FindLinkFirst | src/utils/markdown.ts:178 | the lazy text of a link stops at the first `](` whose address closes on the line: no earlier `](` does |
| RegexPasses.LinkPass | src/utils/markdown.ts:178 | a text without `[` comes back unchanged |
| RegexPasses.LinkPassFrom | src/utils/markdown.ts:178 | the link pass leaves a text without `[` unchanged |
| RegexPasses.HeadingMarkAt | src/components/NotesList.tsx:77 | a `#{1,6}\s` match ends right after a white-space character |
| RegexPasses.HashRun | src/components/NotesList.tsx:77 | `#{1,6}` takes the longest run of `#` up to six: every character it adds is `#`, and unless it took six the next character is not `#` |
| RegexPasses.StripHeadingMarksFrom | src/components/NotesList.tsx:77 | stripping heading marks never lengthens the text and changes nothing when it holds no `#` |
| RegexPasses.StripHeadingMarks | src/components/NotesList.tsx:77 | stripping the heading marks never lengthens the text, and a text without `#` comes back unchanged |
| MarkdownRender.Render | src/utils/markdown.ts:167-232 | the rendered HTML holds no `\n` |
| MarkdownRender.RenderMarkdown | src/components/Editor.tsx:141-218 | running the passes one after another, with the flag-driven list loops, yields `Render`, whose output holds no `\n` |
| MarkdownRender.Headings | src/utils/markdown.ts:168-173 | the six heading passes change nothing in a text without `#` |
| MarkdownRender.Inline | src/utils/markdown.ts:175-182 | the bold, italic, link, code-block and code passes change nothing in a text without `*`, `[` and `` ` `` |
| MarkdownRender.BlockQuotes | src/utils/markdown.ts:184 | the quote pass changes nothing in a text without `>` |
| MarkdownRender.ListItem | src/utils/markdown.ts:189-190 | an item's text is the end of its line after at least two marker characters and holds no line terminator; a line is a bullet item exactly when it starts with `- ` and holds no line terminator after it; a numbered item starts with a digit (exactly, in `ListItemNumbered`) |
| MarkdownRender.ListItemNumbered | src/utils/markdown.ts:211-212 | a line is a numbered item exactly when one or more leading digits are followed by `. ` and no line terminator comes after; the item's text is what follows the `. ` |
| MarkdownRender.GroupFrom | src/utils/markdown.ts:187-205 | the list pass gives one line per line of the text, plus at most the one closing line |
| MarkdownRender.GroupLists | src/utils/markdown.ts:186-206 | a text none of whose lines is a list item comes back unchanged |
| MarkdownRender.GroupListLines | src/hooks/useEditorUtils.tsx:20-58 | the list loop, with its `isInUl`/`isInOl` flag and the closing line pushed at the end, computes the list grouping `GroupFrom` |
| MarkdownRender.GroupFromLine | src/utils/markdown.ts:188-201 | line `k` of the list pass depends only on line `k` and on whether line `k-1` was an item |
| MarkdownRender.GroupFromTail | src/utils/markdown.ts:203-205 | one extra line, the closing tag, is pushed exactly when the last line is an item |
| MarkdownRender.GroupFromShape | src/utils/markdown.ts:186-228 | each run of items gets the opening tag on its first item only; the first non-item after a run gets the closing tag in front; a run reaching the end gets one extra line holding only the closing tag; there are no other changes |
| MarkdownRender.GroupFromNoItems | src/utils/markdown.ts:188-201 | lines of which none is an item pass through the list pass unchanged |
| MarkdownRender.DigitRun | src/utils/markdown.ts:211 | the `\d+` run stays inside the line |
| MarkdownRender.DigitRunDigits | src/utils/markdown.ts:211 | the `\d+` run is made of digits only and ends at the first character that is not a digit |
| MarkdownRender.RenderEmpty | src/utils/markdown.ts:167-232 | the empty text renders as the empty string |
| MarkdownRender.RenderPlain | src/utils/markdown.ts:230 | a text with no markdown characters only has its newlines turned into `<br />` |
| MarkdownRender.BlockPassesNoMarks | src/utils/markdown.ts:168-184 | the heading, inline and quote passes change nothing in a text without `#`, `*`, `[`, `` ` `` and `>` |
| MarkdownRender.RenderBulletPair | src/utils/markdown.ts:186-206 | two bullet lines render as the opening tag, two items, and then `</ul>` standing after a `<br />`, because the closer is pushed as a separate line |
| MarkdownRender.RenderHeading | src/utils/markdown.ts:168 | `# s` on one plain line renders as `<h1>s</h1>` |
| MarkdownFormat.ParseFormatType | src/utils/markdown.ts:19-97 | a type name selects a command exactly when it is one of the eleven names of the `switch` |
| MarkdownFormat.PrefixLines | src/utils/markdown.ts:61-64 | each line gets the prefix, and the line count is kept |
| MarkdownFormat.NumberLines | src/utils/markdown.ts:85-88 | line `k` becomes `k+1`, a dot, a space and the line |
| MarkdownFormat.PrefixEachLine | src/utils/markdown.ts:58-82 | when the prefix holds no line break, the lines of the result are exactly the lines of the text, each behind the prefix, in both the one-line and the several-line branch |
| MarkdownFormat.NumberEachLine | src/utils/markdown.ts:83-94 | the lines of the result are exactly the lines of the text, numbered from 1, in both branches |
| MarkdownFormat.NumberSingle | src/utils/markdown.ts:90 | a single line is numbered `1. ` |
| MarkdownFormat.Formatted | src/utils/markdown.ts:19-97 | the text (selection or placeholder) stands at the command's placeholder offset in the formatted text, whenever a link wraps it and a line command gets one line |
| MarkdownFormat.PlaceholderOffset | src/utils/markdown.ts:20-94 | the per-command cursor offsets are at most 4, and 0 only for an unknown type |
| MarkdownFormat.CursorPosition | src/utils/markdown.ts:13-94 | with a selection the cursor is its end, three further for a link; with nothing selected it is the start plus the command's placeholder offset |
| MarkdownFormat.FormatMarkdown | src/utils/markdown.ts:4-5 | when the focused element is not a text area, the content comes back unchanged and no cursor is set |
| MarkdownFormat.FormatKeepsOutside | src/utils/markdown.ts:99 | the result is the text before the selection, then the formatted selection or placeholder, then the text after it |
| MarkdownFormat.FormatEmptySelectionCursor | src/utils/markdown.ts:16-94 | with nothing selected, every command inserts `text` and puts the cursor on its first character |
| MarkdownFormat.LinkAddressAt | src/utils/markdown.ts:44 | in `[s](url)`, the address starts three characters after `s` |
| MarkdownFormat.FormatLinkWithSelection | src/utils/markdown.ts:40-49 | a link around selection `s` inserts `[s](url)`; the computed cursor `end+3` is the first character of `url`, and it is not applied |
| MarkdownFormat.FormatUnknown | src/utils/markdown.ts:95-99 | an unknown type leaves a non-empty selection as it is, and inserts bare `text` for an empty one |
| MarkdownFormat.PrefixOneLine | src/utils/markdown.ts:58-70 | the one-line branch of quote and bullet formatting agrees with the several-line branch |
| MarkdownFormat.NumberOneLine | src/utils/markdown.ts:83-94 | the one-line branch of numbering agrees with the several-line branch (`1. `) |
| MarkdownFormat.InsertTab | src/utils/markdown.ts:112-114 | for a valid selection, the selection is replaced by two spaces |
| MarkdownFormat.InsertTabLength | src/utils/markdown.ts:112-114 | the result length is `|content| - (end - start) + 2`, and two spaces stand at `start` |
| MarkdownExport.UnderscoreWhitespace | src/utils/markdown.ts:155 | the file-name stem holds no white space and is never longer than the title |
| MarkdownExport.UnderscoreNoWhitespace | src/utils/markdown.ts:155 | a title without white space is kept as it is |
| MarkdownExport.UnderscoreBetweenWords | src/utils/markdown.ts:155 | a whole run of white space between two words becomes a single `_` |
| MarkdownExport.UnderscoreCons | src/utils/markdown.ts:155 | a character that is not white space is copied to the file name as it is |
| MarkdownExport.UnderscoreAfterWord | src/utils/markdown.ts:155 | a leading word is copied and the rest is treated independently |
| MarkdownExport.TrimStartRun | src/utils/markdown.ts:155 | a leading run of white space becomes one `_` |
| MarkdownExport.Extension | src/utils/markdown.ts:121-148 | the extension is `md` or `html` for those formats, and `txt` for every other format |
| MarkdownExport.DownloadNote | src/utils/markdown.ts:116-155 | the file name is the underscored title, a dot and the extension; the type is `text/` plus the extension; txt and md carry the raw content, and html holds the title element and the export renderer's output at their places in the page |
| MarkdownExport.HtmlDocument | src/utils/markdown.ts:128-143 | the page holds `<title>title</title>` right after the fixed prologue, and the body right after the fixed style sheet |
| JsText.Slice | src/components/CodeEditor.tsx:50 | within bounds, `slice(b, e)` is the characters from `b` up to `e` |
| JsText.Substring | src/utils/markdown.ts:9 | within bounds, `substring(a, b)` is the characters from `a` up to `b`, and it is never longer than the text |
| JsText.Split | src/utils/markdown.ts:62 | `split` on one character gives at least one piece, and no piece holds the separator |
| JsText.JoinSplit | src/utils/markdown.ts:62-64 | joining the pieces of a split with the same separator gives the text back |
| JsText.SplitJoin | src/components/Editor.tsx:170-189 | splitting a join of separator-free pieces gives the pieces back |
| JsText.TrimEmptyIffAllWhitespace | src/components/TagManager.tsx:20 | `trim()` is empty exactly when the text is all white space |
| JsText.TrimKeepsInnerText | src/components/TagManager.tsx:20 | `trim()` keeps a piece of the text that, when not empty, starts and ends with a character that is not white space |
| JsText.TrimStart | src/components/Editor.tsx:70 | `trimStart()` keeps a suffix of the text, and drops a leading white-space character |
| JsText.TrimEndPrefix | src/components/Editor.tsx:70 | `trimEnd()` keeps a prefix of the text that, when not empty, ends in a character that is not white space |
| JsText.ToLowerLeavesNoCapital | src/components/NotesList.tsx:34-35 | `toLowerCase()` keeps the length, leaves no ASCII capital, changes no other character, and is idempotent (also at TagManager.tsx:23) |
| JsText.IncludesIffInfix | src/components/NotesList.tsx:34-35 | `includes` holds exactly when the text is some text, then the term, then some more text |
| JsText.Decimal | src/context/NotesContext.tsx:48 | the decimal rendering of an id's timestamp is one or more digits, with no leading zero unless the number is 0 (also at line 93) |
| JsText.DecimalRoundTrip | src/context/NotesContext.tsx:48 | reading the decimal rendering back gives the number, so different numbers render differently |
| Seqs.Filter | src/context/NotesContext.tsx:74 | `filter` keeps exactly the elements that pass, and never adds one (also at NotesContext.tsx:40, NotesList.tsx:31, TagManager.tsx:44) |
| Seqs.FilterAppend | src/context/NotesContext.tsx:74 | filtering distributes over concatenation, so the kept elements keep their order |
| Seqs.FilterCount | src/context/NotesContext.tsx:74 | each element that passes is kept as often as it occurs, and no other is kept |
| Seqs.FindFirst | src/context/NotesContext.tsx:35 | `find` gives nothing exactly when no element passes, and otherwise the first element that passes (also at TagManager.tsx:22) |
| Seqs.SortBy | src/components/NotesList.tsx:39 | under a total preorder, `sort` gives a sorted permutation of the list |
| JsText.ReplaceChar | src/components/NotesList.tsx:81 | replacing a character by a text without it removes it, and a text without it is unchanged |
| NoteTypes.OrElse | src/context/NotesContext.tsx:49-54 | `v \|\| fallback` is the value when it is a non-empty string, and the fallback otherwise |
| NotesContext.FindNote | src/context/NotesContext.tsx:34-36 | the first note with the id, or nothing exactly when no note has it |
| NotesContext.NotesInFolder | src/context/NotesContext.tsx:38-40 | exactly the notes of the folder, each as many times as in the list |
| NotesContext.NotesInFolderAppend | src/context/NotesContext.tsx:38-40 | the filter keeps the order of the notes |
| NotesContext.NewNote | src/context/NotesContext.tsx:47-55 | the id is `note` plus the time; both dates are now; a falsy title becomes `Untitled`, a missing content `""`, missing tags `[]`, a falsy folder `folder1`; given values are kept otherwise |
| NotesContext.Merge | src/context/NotesContext.tsx:66 | the fields present in the update replace the note's, the others stay, and `updatedAt` is now |
| NotesContext.UpdatedNotes | src/context/NotesContext.tsx:62-69 | the length is kept; exactly the notes with the id are merged; an unknown id leaves every note unchanged |
| NotesContext.NotesAfterDelete | src/context/NotesContext.tsx:74 | every note with the id is removed, and every other note is kept as many times as before |
| NotesContext.NotesAfterDeleteAppend | src/context/NotesContext.tsx:74 | deletion keeps the order of the remaining notes |
| NotesContext.SelectionAfterDelete | src/context/NotesContext.tsx:75-77 | the selection changes only when the deleted note was selected; then it becomes the id of the first note of the previous list whose id differs from the deleted one, and it is null only when there is no such note or its id is empty |
| NotesContext.SelectionAfterDeleteRemains | src/context/NotesContext.tsx:74-77 | the new selection is a note still in the list: exactly the first note the deletion leaves, or null when none is left or its id is empty |
| NotesContext.FirstRemaining | src/context/NotesContext.tsx:74-77 | the first note other than the deleted one is the first note of the list after the deletion, and there is none exactly when the deletion leaves nothing |
| NotesContext.NotesAfterMove | src/context/NotesContext.tsx:81-89 | only the matching notes change, and only in `folderId` and `updatedAt` |
| NotesContext.MoveIsUpdate | src/context/NotesContext.tsx:81-89 | a move is an update that carries only the folder id |
| NotesContext.NewFolder | src/context/NotesContext.tsx:92-96 | the id is `folder` plus the time; the name defaults to `Untitled Folder`; the parent is as given; there are no children |
| NotesContext.WithChild | src/context/NotesContext.tsx:104 | the new folder is appended to the children, a missing list counting as empty; no other field changes |
| NotesContext.FoldersAfterCreate | src/context/NotesContext.tsx:98-111 | without a parent the folder is appended at the top level; with one, it is added to each top-level folder with that id, and nothing else changes |
| NotesContext.CreateFolderUnknownParent | src/context/NotesContext.tsx:98-108 | a parent id naming no top-level folder leaves the folders unchanged, so the new folder is lost |
| NotesContext.InitialSelection | src/context/NotesContext.tsx:31 | the first seed note's id is selected, or nothing when there is no such id or it is empty |
| NotesContext.NotesStore.constructor | src/context/NotesContext.tsx:28-32 | the store starts from the seeds, with the first note selected and no folder |
| NotesContext.NotesStore.SetSelectedNoteId | src/context/NotesContext.tsx:31 | sets the selected note only |
| NotesContext.NotesStore.SetSelectedFolderId | src/context/NotesContext.tsx:32 | sets the selected folder only |
| NotesContext.NotesStore.GetNote | src/context/NotesContext.tsx:34-36 | returns `FindNote` over the current notes |
| NotesContext.NotesStore.GetNotesInFolder | src/context/NotesContext.tsx:38-40 | returns `NotesInFolder` over the current notes |
| NotesContext.NotesStore.CreateNote | src/context/NotesContext.tsx:46-60 | prepends the new note, leaves the others in order behind it, and selects it |
| NotesContext.NotesStore.UpdateNote | src/context/NotesContext.tsx:62-71 | the notes become `UpdatedNotes`; nothing else changes |
| NotesContext.NotesStore.DeleteNote | src/context/NotesContext.tsx:73-79 | the notes become `NotesAfterDelete`; the selection is computed from the list before the deletion |
| NotesContext.NotesStore.AddNoteToFolder | src/context/NotesContext.tsx:81-89 | the notes become `NotesAfterMove`; nothing else changes |
| NotesContext.NotesStore.CreateFolder | src/context/NotesContext.tsx:91-113 | the folders become `FoldersAfterCreate`; nothing else changes |
| NotesList.NextSortOrder | src/components/NotesList.tsx:64-72 | a toggle always changes the order |
| NotesList.ThreeTogglesReturn | src/components/NotesList.tsx:64-72 | newest, oldest, alphabetical is a cycle of three: three toggles return, two do not |
| NotesList.MatchesSearch | src/components/NotesList.tsx:33-37 | an empty term matches every note; a term found as written in the title or the content still matches after lowercasing; a matching term is no longer than the title or the content |
| NotesList.LowerKeepsMatch | src/components/NotesList.tsx:34-35 | a term found in a text is still found once both are lowercased |
| NotesList.Keep | src/components/NotesList.tsx:30-38 | a kept note matches the search; with no folder (or an empty id) selected, keeping is matching; a note of another folder is never kept |
| NotesList.OrderLe | src/components/NotesList.tsx:39-47 | newest and oldest compare update times, alphabetical compares titles by `titleLe`, and each comparator is a total preorder when the title order is |
| NotesList.ByTitleTotal | src/components/NotesList.tsx:45 | comparing notes by title is a total preorder when the title order is |
| NotesList.FilteredNotes | src/components/NotesList.tsx:30-47 | exactly the notes in the selected folder (if any) whose lowercased title or content includes the lowercased term (if any), each as often as in the store, sorted by the chosen order |
| NotesList.NewestFirst | src/components/NotesList.tsx:40-41 | under `newest`, `updatedAt` never increases along the list |
| NotesList.NoFilterListsAll | src/components/NotesList.tsx:30-38 | with no folder and no search term, every note is listed |
| NotesList.PreviewText | src/components/NotesList.tsx:76-81 | the stripped preview text holds no `\n` |
| NotesList.RenderPreview | src/components/NotesList.tsx:74-83 | the body is exactly the first 80 characters of `PreviewText` of the content, without `\n`; `...` follows it exactly when the content is longer than 80 characters |
| NotesList.PreviewOfPlainText | src/components/NotesList.tsx:74-83 | on one line without markdown characters, the preview is the first 80 characters, plus `...` when the content is longer |
| NotesList.NewNoteDraft | src/components/NotesList.tsx:57-61 | the draft is titled `Untitled Note` with empty content, in the selected folder or in none |
| NotesList.CreatedFromList | src/components/NotesList.tsx:56-62 | the created note goes to the selected folder, or to `folder1` when none is selected |
| NotesList.NotesListView.constructor | src/components/NotesList.tsx:27-28 | the list starts with no search term, newest first |
| NotesList.NotesListView.SetSearchTerm | src/components/NotesList.tsx:27 | sets the term and keeps the order |
| NotesList.NotesListView.ToggleSortOrder | src/components/NotesList.tsx:64-72 | the order steps by `NextSortOrder` |
| NotesList.NotesListView.Shown | src/components/NotesList.tsx:30-47 | the shown list is `FilteredNotes` of the store's notes |
| NotesList.NotesListView.HandleCreateNote | src/components/NotesList.tsx:56-62 | the store gains, in front, the note made from the list's draft, and selects it |
| Editor.SplitOnWhitespace | src/components/Editor.tsx:70 | the first piece is empty exactly when the text is empty or starts with white space |
| Editor.CountWordsIsRuns | src/components/Editor.tsx:69-71 | the word count is the number of maximal runs of non-white-space characters |
| Editor.CountWordsZeroIffBlank | src/components/Editor.tsx:69-71 | the count is 0 exactly when the text is empty or all white space |
| Editor.Runs | src/components/Editor.tsx:69-71 | the number of runs never exceeds the length, and outside a run it is 0 exactly for an all-white-space text |
| Editor.SplitCountsRuns | src/components/Editor.tsx:70 | the non-empty pieces of the split are the runs |
| Editor.RunsTrimStart | src/components/Editor.tsx:70 | trimming the start removes no word |
| Editor.RunsTrimEnd | src/components/Editor.tsx:70 | trimming the end removes no word |
| Editor.SaveUpdate | src/components/Editor.tsx:93 | a save sends the title and the content and no other field |
| Editor.EditorSession.constructor | src/components/Editor.tsx:35-42 | a fresh editor is empty, not saving, never saved, with no save armed |
| Editor.EditorSession.LoadSelectedNote | src/components/Editor.tsx:44-59 | with no selected note everything is cleared; with a found note its title, content, word count and date are loaded; a note that is not found changes nothing |
| Editor.EditorSession.ScheduleSave | src/components/Editor.tsx:85-98 | the armed save is replaced by one holding the new pair and the current selection, and the editor shows saving |
| Editor.EditorSession.TimerFires | src/components/Editor.tsx:91-97 | with a note captured at arming time, that note gets the saved pair and the editor shows it saved now; otherwise nothing is written and saving stays shown; no save is armed afterwards |
| Editor.EditorSession.HandleTitleChange | src/components/Editor.tsx:73-76 | the title is set and a save of the new title with the current content is armed |
| Editor.EditorSession.HandleContentChange | src/components/Editor.tsx:78-83 | the content and its word count are set, and a save is armed |
| Editor.EditorSession.HandleFormat | src/components/Editor.tsx:100-106 | with a text area, the content becomes the formatted content and a save is armed; the word count is not updated |
| Editor.EditorSession.HandleSave | src/components/Editor.tsx:108-115 | with a selected note, the pair is written at once and the editor shows it saved; an armed save stays armed |
| Editor.EditorSession.HandleDelete | src/components/Editor.tsx:117-121 | the selected note is deleted only after confirmation |
| Editor.EditorSession.HandleTabKey | src/components/Editor.tsx:123-138 | Tab puts two spaces in place of the selection and the cursor at `start+2`; no save is armed and the word count is kept |
| Editor.EditorSession.Unmount | src/components/Editor.tsx:61-67 | unmounting drops the armed save |
| Editor.BurstCommitsLast | src/components/Editor.tsx:85-98 | after two quick edits and the timer, only the second content is written |
| TagManager.SameName | src/components/TagManager.tsx:22-24 | a name matches itself, and matching names have the same length |
| TagManager.SameNameLetterByLetter | src/components/TagManager.tsx:22-24 | two names match exactly when they have the same length and agree letter by letter up to the case of ASCII letters |
| TagManager.FindTagByName | src/components/TagManager.tsx:22-24 | the first tag whose name matches ignoring case, or none exactly when no tag matches |
| TagManager.TagToAdd | src/components/TagManager.tsx:26-35 | the appended tag matches the name; when some tag of the store matches, it is the first such tag and no tag is created; when none matches, it is a new tag with the fresh id, the name and the colour |
| TagManager.TagsAfterAdd | src/components/TagManager.tsx:19-41 | a blank name adds nothing; otherwise the note's tags followed by exactly the tag `TagToAdd` chooses |
| TagManager.AddTagTwice | src/components/TagManager.tsx:26-29 | adding does not deduplicate: a tag the note already has is appended once more |
| TagManager.TagsAfterRemove | src/components/TagManager.tsx:43-46 | every tag with the id is removed, and each other tag is kept as many times as before |
| TagManager.TagsAfterRemoveAppend | src/components/TagManager.tsx:43-46 | removal keeps the other tags in their order: removing from two parts in turn is removing from their concatenation |
| TagManager.RemoveUndoesCreate | src/components/TagManager.tsx:30-46 | removing a freshly created tag restores the note's tags |
| TagManager.TagsUpdate | src/components/TagManager.tsx:29 | the update carries the tags and nothing else |
| TagManager.TagForm.constructor | src/components/TagManager.tsx:15-17 | the form starts closed, with an empty name and purple selected |
| TagManager.TagForm.SetAdding | src/components/TagManager.tsx:94 | opens or closes the form and keeps the name and the colour |
| TagManager.TagForm.SetName | src/components/TagManager.tsx:106 | sets the name only |
| TagManager.TagForm.SetColor | src/components/TagManager.tsx:122 | sets the colour only |
| TagManager.TagForm.HandleAddTag | src/components/TagManager.tsx:19-41 | a non-blank name updates the note's tags to `TagsAfterAdd`, clears the name and closes the form; a blank name changes nothing |
| TagManager.TagForm.HandleRemoveTag | src/components/TagManager.tsx:43-46 | the note's tags become `TagsAfterRemove` |
| CodeEditor.KeyDown | src/components/CodeEditor.tsx:19-37 | only Tab yields an edit, and it puts two spaces in place of the selection with the caret at `start+2` |
| CodeEditor.NameRunEnd | src/components/CodeEditor.tsx:52 | the tag-name group takes the whole run of ASCII letters and digits |
| CodeEditor.IndexFromFirst | src/components/CodeEditor.tsx:52 | `[^>]*` and `[^<]*` stop at the first `>` or `<`: no offset before the one found holds that character |
| CodeEditor.OpenTagAt | src/components/CodeEditor.tsx:52 | a tag match starts with `<` and a non-empty name, and runs up to the next `<` or the end |
| CodeEditor.LastTagFrom | src/components/CodeEditor.tsx:52-54 | the scan only ever keeps positions where a tag match starts |
| CodeEditor.LastTagName | src/components/CodeEditor.tsx:52-55 | the name taken from the last match is a non-empty run of letters and digits |
| CodeEditor.LastTagIsLast | src/components/CodeEditor.tsx:52-54 | after the kept match, no further match starts before the end |
| CodeEditor.LastTagKept | src/components/CodeEditor.tsx:52 | once a match is found, the scan never ends empty-handed |
| CodeEditor.LastTagNoneAhead | src/components/CodeEditor.tsx:52 | with no match ahead, the scan ends with the match it already has |
| CodeEditor.LastTagAhead | src/components/CodeEditor.tsx:52 | a match ahead is always found |
| CodeEditor.LastTagFound | src/components/CodeEditor.tsx:52-53 | the scan finds nothing exactly when no tag match starts anywhere |
| CodeEditor.LastTagNameSpec | src/components/CodeEditor.tsx:52-55 | there is a name exactly when some opening tag occurs; it is the name of some match after which no other match starts (`LastTagIsLast` pins the one the scan keeps) |
| CodeEditor.ClosingTag | src/components/CodeEditor.tsx:50-59 | the HTML rule applies only in HTML mode, after `<` and before `/`, and then inserts `/name>` for the last opening tag |
| CodeEditor.BracketCloser | src/components/CodeEditor.tsx:74-83 | at most one closing character is chosen |
| CodeEditor.BracketCloserOf | src/components/CodeEditor.tsx:74-83 | the closer is the partner of `{`, `(`, `[`, `"` or `'` before the caret, and nothing after an escaped quote or any other character |
| CodeEditor.Input | src/components/CodeEditor.tsx:44-96 | an edit happens only after a character; it lengthens the text, keeps everything before and after the caret, and puts the caret within the inserted part |
| CodeEditor.InputClosesBracket | src/components/CodeEditor.tsx:74-95 | after `{`, `(`, `[` or an unescaped quote, the closer is inserted at the caret and the caret stays; after an escaped quote or any other character except `<`, nothing happens |
| CodeEditor.InputAtStart | src/components/CodeEditor.tsx:74-85 | at the start of the text nothing is inserted |
| CodeEditor.InputClosesTag | src/components/CodeEditor.tsx:50-70 | in HTML, `/name>` is inserted at the caret for the last opening tag, and the caret moves past it |
| CodeEditor.CodeTextArea.constructor | src/components/CodeEditor.tsx:10-16 | the text area holds the given text in the given language, with the caret at its end |
| CodeEditor.CodeTextArea.Apply | src/components/CodeEditor.tsx:89-94 | an edit replaces the text and collapses the selection at its caret; no edit changes nothing |
| CodeEditor.CodeTextArea.HandleKeyDown | src/components/CodeEditor.tsx:19-36 | Tab replaces the selection with two spaces and puts the caret after them; any other key changes nothing |
| CodeEditor.CodeTextArea.HandleInput | src/components/CodeEditor.tsx:44-96 | the text and caret become those of the input rule's edit, or stay unchanged when no rule applies |
| EditorUtils.Frame | src/hooks/useEditorUtils.tsx:72-127 | the text around the code is empty exactly for HTML |
| EditorUtils.PreviewDocument | src/hooks/useEditorUtils.tsx:74-75 | HTML is previewed as it is |
| EditorUtils.PreviewPlacesContent | src/hooks/useEditorUtils.tsx:72-127 | the code stands between the fixed head and tail of its language's page; for HTML, head and tail are empty |
| EditorUtils.CssFrameMarkers | src/hooks/useEditorUtils.tsx:77-89 | the CSS head ends with `<style>` and its tail starts with `</style>` |
| EditorUtils.JsFrameMarkers | src/hooks/useEditorUtils.tsx:90-126 | the JavaScript head ends with `try {` and its tail starts with the handler that logs `Error: ` and the message |
| EditorUtils.PreviewFixedParts | src/hooks/useEditorUtils.tsx:72-127 | two previews in one language differ only where the code stands |
| EditorUtils.PreviewFrame.constructor | src/hooks/useEditorUtils.tsx:5 | the frame reference starts empty and nothing is written |
| EditorUtils.PreviewFrame.UpdateCodePreview | src/hooks/useEditorUtils.tsx:64-132 | without a frame or its document nothing is written; otherwise the document becomes the preview |
| EditorUtils.PreviewFrame.SetPreviewRef | src/hooks/useEditorUtils.tsx:134-136 | attaches or detaches the frame and keeps what was written |
| MobileNav.Step | src/context/MobileNavContext.tsx:18-31 | after any operation at most one panel is open; the sidebar is open exactly after `openSidebar`, and the list exactly after `openNotesList` |
| MobileNav.RunExclusive | src/context/MobileNavContext.tsx:15-31 | from a state with at most one panel open, no series of operations opens both, and the last operation decides the state |
| MobileNav.StepIdempotent | src/context/MobileNavContext.tsx:18-31 | repeating an operation changes nothing |
| MobileNav.MobileNavState.constructor | src/context/MobileNavContext.tsx:15-16 | both panels start closed |
| MobileNav.MobileNavState.OpenSidebar | src/context/MobileNavContext.tsx:18-21 | the sidebar is open and the notes list closed |
| MobileNav.MobileNavState.OpenNotesList | src/context/MobileNavContext.tsx:23-26 | the notes list is open and the sidebar closed |
| MobileNav.MobileNavState.ClosePanels | src/context/MobileNavContext.tsx:28-31 | both panels are closed |
| Sidebar.InitialExpanded | src/components/Sidebar.tsx:38-41 | the map starts with entries for `folder1` and `folder2` only |
| Sidebar.InitiallyExpanded | src/components/Sidebar.tsx:38-41 | exactly `folder1` and `folder2` start expanded |
| Sidebar.Toggled | src/components/Sidebar.tsx:43-48 | only the toggled entry changes, it is negated, and a missing entry counts as collapsed |
| Sidebar.ToggleTwice | src/components/Sidebar.tsx:43-48 | toggling a folder twice restores whether every folder is expanded |
| Sidebar.VisibleChildren | src/components/Sidebar.tsx:161 | a folder's children are listed while it is expanded, and none while it is collapsed |
| Sidebar.SidebarView.constructor | src/components/Sidebar.tsx:38-41 | the map starts as `InitialExpanded` |
| Sidebar.SidebarView.ToggleFolder | src/components/Sidebar.tsx:43-48 | the map becomes `Toggled` of the old map |
| Sidebar.SidebarView.HandleFolderClick | src/components/Sidebar.tsx:50-55 | the folder is selected, and the phone sidebar closes exactly on a narrow window |
| Sidebar.SidebarView.HandleAllNotesClick | src/components/Sidebar.tsx:57-62 | the folder selection is cleared, and the phone sidebar closes exactly on a narrow window |
| Sidebar.SidebarView.HandleAddFolder | src/components/Sidebar.tsx:64-69 | a non-empty answer appends a top-level folder of that name; a cancelled or empty answer changes nothing |

## Left out

- Browser I/O is not modelled: the Blob, the object URL and the anchor click of the download; the iframe's `open`/`write`/`close` (reduced to replacing the frame's document); toasts; `confirm` and `prompt` (their answers are parameters); `window.innerWidth` (a `narrow` flag); focus.
- Lengths and offsets count characters (Unicode scalar values), not the UTF-16 code units JavaScript's `length`, `slice`, `substring` and `selectionStart`/`selectionEnd` count. For text with characters outside the Basic Multilingual Plane (emoji, say) the model's 80-character preview cut and `...` test, the formatting and Tab splices and the code editor's caret offsets differ from the application's: 41 emoji have `length` 82 there and 41 here.
- Timers are not real: each `setTimeout` is either an armed save that `TimerFires` completes, or a caret position returned with the edit.
- `document.activeElement` and the text areas' selections are parameters. The code editor's handlers are modelled on the text and caret they are given, not on the possibly stale `value` a React render captured.
- `toLowerCase` is modelled for the ASCII letters only. Unicode case mapping is not modelled, and neither is `localeCompare`, which is an abstract total preorder on titles.
- Seqs.SortBy: the result is proved sorted and a permutation of the input, but not stable; `Array.prototype.sort` keeps equal elements in their original order.
- NotesList.FilteredNotes: the list is proved sorted and to hold the right notes with their multiplicities, but not to keep the store order between equal keys (`Array.prototype.sort` stability).
- `Date` values are whole milliseconds (`nat`). The ids' number is the decimal form of that time, so two notes created in the same millisecond share an id, as they do in the application.
- The store's `addTag` is not part of the store's interface. A tag created by the tag editor is built from a fresh id, the name and the colour, and the store's tag list is not extended.
- The link command's cursor (`end+3`) is computed but never applied, since the source moves the cursor only when nothing was selected. `CursorPosition` models the computation; the outcome carries no cursor in that case.
- Seed data (`sampleNotes`, `sampleFolders`, `sampleTags`) are constructor parameters. The quote widget, full-screen mode, theme toggle, layouts and other presentation components are not modelled.
- The regular-expression engine in general is not modelled. Only the pattern shapes the code uses are written out as scanners, and the fenced-code and inline-code passes use the same lazy scanner as bold and italics.
- The editor's loading effect also runs after every change to the store, because `getNote` is rebuilt on each render. `LoadSelectedNote` models one run, and the model does not say when it runs.
- Editor.EditorSession.HandleFormat does not update the word count, matching the source.
