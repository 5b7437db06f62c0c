/**
  * The toolbar's formatting action and the Tab insertion: both splice a
  * string into the content in place of the selection `[start, end)` of the
  * focused text area. The focused element and its selection, which the
  * application reads from the document, are parameters here; the cursor the
  * application moves to after a timer is an output.
  */
module MarkdownFormat {
  import opened Optional
  import opened JsText

  /** The formatting commands the toolbar sends; any other name is `Unknown`. */
  datatype FormatType =
    | Bold | Italic | Heading1 | Heading2 | Heading3 | Link | Code | CodeBlock
    | Quote | UnorderedList | OrderedList | Unknown

  /** The command a type name selects in the `switch`. */
  function ParseFormatType(name: string): (t: FormatType)
    ensures t == Unknown <==> name !in {"bold", "italic", "heading1", "heading2", "heading3", "link",
                                        "code", "codeblock", "quote", "unorderedList", "orderedList"}
  {
    if name == "bold" then Bold
    else if name == "italic" then Italic
    else if name == "heading1" then Heading1
    else if name == "heading2" then Heading2
    else if name == "heading3" then Heading3
    else if name == "link" then Link
    else if name == "code" then Code
    else if name == "codeblock" then CodeBlock
    else if name == "quote" then Quote
    else if name == "unorderedList" then UnorderedList
    else if name == "orderedList" then OrderedList
    else Unknown
  }

  /** The placeholder formatted when nothing is selected. */
  const Placeholder := "text"

  /** `lines.map(line => prefix + line)`. */
  function PrefixLines(lines: seq<string>, prefix: string): (r: seq<string>)
    ensures |r| == |lines|
    ensures forall k :: 0 <= k < |r| ==> r[k] == prefix + lines[k]
  {
    seq(|lines|, k requires 0 <= k < |lines| => prefix + lines[k])
  }

  /** `lines.map((line, index) => `${index + 1}. ${line}`)`. */
  function NumberLines(lines: seq<string>): (r: seq<string>)
    ensures |r| == |lines|
    ensures forall k :: 0 <= k < |r| ==> r[k] == Decimal(k + 1) + ". " + lines[k]
  {
    seq(|lines|, k requires 0 <= k < |lines| => Decimal(k + 1) + ". " + lines[k])
  }

  /** The line prefixing of the quote and bullet commands: every line of a
      text of several lines, or the single line. Either way, line `k` of the
      result is the prefix and line `k` of the text, and there are as many
      lines as in the text. */
  function PrefixEachLine(t: string, prefix: string): (r: string)
    ensures '\n' !in prefix ==> Split(r, '\n') == PrefixLines(Split(t, '\n'), prefix)
  {
    var pieces := Split(t, '\n');
    var lines := PrefixLines(pieces, prefix);
    PrefixedLinesRejoin(pieces, prefix);
    if '\n' in t then Join(lines, '\n')
    else
      SplitNoSeparator(t, '\n');
      assert lines == [prefix + t];
      prefix + t
  }

  /** The prefixed lines are separator-free, so splitting their join gives them back. */
  lemma PrefixedLinesRejoin(pieces: seq<string>, prefix: string)
    requires |pieces| >= 1 && forall k :: 0 <= k < |pieces| ==> '\n' !in pieces[k]
    ensures '\n' !in prefix ==> Split(Join(PrefixLines(pieces, prefix), '\n'), '\n') == PrefixLines(pieces, prefix)
  {
    var lines := PrefixLines(pieces, prefix);
    if '\n' !in prefix {
      forall k | 0 <= k < |lines| ensures '\n' !in lines[k] {
        assert lines[k] == prefix + pieces[k];
      }
      SplitJoin(lines, '\n');
    }
  }

  /** The numbering of the numbered-list command: line `k` of the result is
      `k + 1`, a dot, a space and line `k` of the text, and there are as many
      lines as in the text. */
  function NumberEachLine(t: string): (r: string)
    ensures Split(r, '\n') == NumberLines(Split(t, '\n'))
  {
    var pieces := Split(t, '\n');
    var lines := NumberLines(pieces);
    NumberedLinesRejoin(pieces);
    if '\n' in t then Join(lines, '\n')
    else
      SplitNoSeparator(t, '\n');
      NumberSingle(t);
      "1. " + t
  }

  lemma NumberedLinesRejoin(pieces: seq<string>)
    requires |pieces| >= 1 && forall k :: 0 <= k < |pieces| ==> '\n' !in pieces[k]
    ensures Split(Join(NumberLines(pieces), '\n'), '\n') == NumberLines(pieces)
  {
    var lines := NumberLines(pieces);
    forall k | 0 <= k < |lines| ensures '\n' !in lines[k] {
      var d := Decimal(k + 1);
      assert forall i :: 0 <= i < |d| ==> d[i] != '\n';
      assert lines[k] == d + ". " + pieces[k];
    }
    SplitJoin(lines, '\n');
  }

  /** The text put in place of the selection, `t` being the selection or
      the placeholder. Unless the command is a link with nothing selected
      (which inserts its own placeholder) or a line command over several
      lines, `t` stands in the result at the command's placeholder offset. */
  function Formatted(kind: FormatType, t: string, hasSelection: bool): (r: string)
    ensures (kind != Link || hasSelection || t == Placeholder)
            && (kind in {Quote, UnorderedList, OrderedList} ==> '\n' !in t)
            ==> StartsAt(r, PlaceholderOffset(kind), t)
  {
    match kind
    case Bold => "**" + t + "**"
    case Italic => "*" + t + "*"
    case Heading1 => "# " + t
    case Heading2 => "## " + t
    case Heading3 => "### " + t
    case Link => if hasSelection then "[" + t + "](url)" else "[text](url)"
    case Code => "`" + t + "`"
    case CodeBlock => "```\n" + t + "\n```"
    case Quote => PrefixEachLine(t, "> ")
    case UnorderedList => PrefixEachLine(t, "- ")
    case OrderedList => NumberEachLine(t)
    case Unknown => t
  }

  /** Where the placeholder starts inside the formatted text, for the commands
      that move the cursor when nothing is selected; only an unknown command
      leaves it at the start. */
  function PlaceholderOffset(kind: FormatType): (n: nat)
    ensures n == 0 <==> kind == Unknown
    ensures n <= 4
  {
    match kind
    case Bold => 2
    case Italic => 1
    case Heading1 => 2
    case Heading2 => 3
    case Heading3 => 4
    case Link => 1
    case Code => 1
    case CodeBlock => 4
    case Quote => 2
    case UnorderedList => 2
    case OrderedList => 3
    case Unknown => 0
  }

  /** The cursor position the command computes: the selection's end, unless
      nothing is selected (then the start of the placeholder) or the command
      is a link around a selection (then the start of its `url`). */
  function CursorPosition(kind: FormatType, start: int, end: int, hasSelection: bool): (c: int)
    ensures hasSelection ==> c == end + (if kind == Link then 3 else 0)
    ensures !hasSelection && start == end ==> c == start + PlaceholderOffset(kind)
  {
    if kind == Link && hasSelection then end + 3
    else if !hasSelection && kind != Unknown then start + PlaceholderOffset(kind)
    else end
  }

  /** What the formatting action gives back: the new content, and the cursor
      position it moves to after a timer, which it does only when nothing was
      selected. */
  datatype FormatOutcome = FormatOutcome(content: string, cursor: Option<int>)

  /** `formatMarkdown`, with the focus test and the selection as parameters. */
  function FormatMarkdown(content: string, isTextarea: bool, start: int, end: int, kind: FormatType): (r: FormatOutcome)
    ensures !isTextarea ==> r == FormatOutcome(content, None)
  {
    if !isTextarea then FormatOutcome(content, None)
    else
      var selected := Substring(content, start, end);
      var hasSelection := |selected| > 0;
      var t := if hasSelection then selected else Placeholder;
      var newContent := Substring(content, 0, start) + Formatted(kind, t, hasSelection) + SubstringFrom(content, end);
      FormatOutcome(newContent, if hasSelection then None else Some(CursorPosition(kind, start, end, hasSelection)))
  }

  /** A text area's selection: `start <= end <= |content|`. */
  predicate ValidSelection(content: string, start: int, end: int) {
    0 <= start <= end <= |content|
  }

  /** Everything before and after the selection is kept; the selection is
      replaced by its formatted form. */
  lemma FormatKeepsOutside(content: string, start: int, end: int, kind: FormatType)
    requires ValidSelection(content, start, end)
    ensures var r := FormatMarkdown(content, true, start, end, kind);
            var t := if start < end then content[start..end] else Placeholder;
            r.content == content[..start] + Formatted(kind, t, start < end) + content[end..]
  {
  }

  /** With nothing selected every command inserts its placeholder and puts
      the cursor on that placeholder's first character. */
  lemma FormatEmptySelectionCursor(content: string, start: int, kind: FormatType)
    requires ValidSelection(content, start, start)
    ensures var r := FormatMarkdown(content, true, start, start, kind);
            r.cursor.Some? && StartsAt(r.content, r.cursor.value, Placeholder)
  {
    var r := FormatMarkdown(content, true, start, start, kind);
    var f := Formatted(kind, Placeholder, false);
    assert r.content == content[..start] + f + content[start..];
    StartsAtShift(content[..start], f, content[start..], PlaceholderOffset(kind), Placeholder);
  }

  /** In `[s](url)`, the address starts three characters after `s`. */
  lemma LinkAddressAt(sel: string)
    ensures StartsAt("[" + sel + "](url)", |sel| + 3, "url")
  {
    var f := "[" + sel + "](url)";
    assert f[|sel| + 3..|sel| + 6] == "url";
  }

  /** A link around a selection becomes `[selection](url)`; the cursor it
      computes is the first character of `url`, and it is never applied. */
  lemma FormatLinkWithSelection(content: string, start: int, end: int)
    requires ValidSelection(content, start, end) && start < end
    ensures var r := FormatMarkdown(content, true, start, end, Link);
            && r.content == content[..start] + ("[" + content[start..end] + "](url)") + content[end..]
            && r.cursor.None?
            && StartsAt(r.content, CursorPosition(Link, start, end, true), "url")
  {
    FormatKeepsOutside(content, start, end, Link);
    var sel := content[start..end];
    LinkAddressAt(sel);
    StartsAtShift(content[..start], "[" + sel + "](url)", content[end..], |sel| + 3, "url");
  }

  /** An unknown command leaves a selection as it is, and puts the bare
      placeholder in place of an empty one. */
  lemma FormatUnknown(content: string, start: int, end: int)
    requires ValidSelection(content, start, end)
    ensures var r := FormatMarkdown(content, true, start, end, Unknown);
            && (start < end ==> r.content == content && r.cursor.None?)
            && (start == end ==> r.content == content[..start] + Placeholder + content[start..]
                                 && r.cursor == Some(start))
  {
    if start < end {
      assert content[..start] + content[start..end] + content[end..] == content;
    }
  }

  /** Prefixing the lines of a one-line text is prefixing the text, so the
      one-line branch of the quote and bullet commands agrees with the
      several-line one. */
  lemma PrefixOneLine(t: string, prefix: string)
    requires '\n' !in t
    ensures Join(PrefixLines(Split(t, '\n'), prefix), '\n') == PrefixEachLine(t, prefix)
  {
    SplitNoSeparator(t, '\n');
  }

  /** The same agreement for numbering: a single line is numbered 1. */
  lemma NumberOneLine(t: string)
    requires '\n' !in t
    ensures Join(NumberLines(Split(t, '\n')), '\n') == NumberEachLine(t)
  {
    SplitNoSeparator(t, '\n');
    NumberSingle(t);
  }

  lemma NumberSingle(t: string)
    ensures Join(NumberLines([t]), '\n') == "1. " + t
  {
    var lines := NumberLines([t]);
    assert Decimal(1) == "1";
    assert Decimal(1) + ". " == "1. ";
    assert lines[0] == Decimal(1) + ". " + t;
    assert lines == ["1. " + t];
  }

  /** `content.substring(0, start) + "  " + content.substring(end)`. */
  function InsertTab(content: string, start: int, end: int): (r: string)
    ensures ValidSelection(content, start, end) ==> r == content[..start] + "  " + content[end..]
  {
    Substring(content, 0, start) + "  " + SubstringFrom(content, end)
  }

  /** The Tab insertion replaces the selection with two spaces, no more and no less. */
  lemma InsertTabLength(content: string, start: int, end: int)
    requires ValidSelection(content, start, end)
    ensures |InsertTab(content, start, end)| == |content| - (end - start) + 2
    ensures StartsAt(InsertTab(content, start, end), start, "  ")
  {
    var r := InsertTab(content, start, end);
    assert r[start..start + 2] == "  ";
  }
}
