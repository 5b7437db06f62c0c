/**
  * The ad-hoc markdown-to-HTML renderer. The source holds three copies of it
  * (`renderMarkdownToHTML` for export, and the `renderMarkdown` of the editor
  * and of the editor utilities hook) that differ only in the attributes of
  * some opening tags; `Render` takes those tags as a parameter.
  *
  * The passes run in a fixed order: headings, bold, italic, links, fenced
  * code, inline code, block quotes, bullet lists, numbered lists, and last
  * every newline becomes `<br />`. The two list passes split the text into
  * lines and keep a flag for whether a list is open.
  */
module MarkdownRender {
  import opened Optional
  import opened JsText
  import opened RegexPasses

  /** The opening tags (and link attributes) in which the copies differ. */
  datatype RenderTags = RenderTags(
    linkAttributes: string,
    codeOpen: string,
    quoteOpen: string,
    bulletOpen: string,
    numberedOpen: string)

  /** The tags of `renderMarkdownToHTML`, used for HTML export. */
  const ExportTags := RenderTags("", "<code>", "<blockquote>", "<ul>", "<ol>")

  /** The tags of the editor's preview renderer; the editor utilities hook
      uses the very same strings. */
  const StyledTags := RenderTags(
    " class=\"text-primary underline\"",
    "<code class=\"bg-secondary px-1 rounded\">",
    "<blockquote class=\"border-l-4 border-muted pl-4 italic\">",
    "<ul class=\"list-disc pl-5 my-2\">",
    "<ol class=\"list-decimal pl-5 my-2\">")

  /** The six heading passes, `# ` first and `###### ` last; a text without
      `#` is left as it is. */
  function Headings(text: string): (r: string)
    ensures '#' !in text ==> r == text
  {
    MarkAbsent(text, "# ");
    MarkAbsent(text, "## ");
    MarkAbsent(text, "### ");
    MarkAbsent(text, "#### ");
    MarkAbsent(text, "##### ");
    MarkAbsent(text, "###### ");
    var h1 := LinePass(text, "# ", "<h1>", "</h1>");
    var h2 := LinePass(h1, "## ", "<h2>", "</h2>");
    var h3 := LinePass(h2, "### ", "<h3>", "</h3>");
    var h4 := LinePass(h3, "#### ", "<h4>", "</h4>");
    var h5 := LinePass(h4, "##### ", "<h5>", "</h5>");
    LinePass(h5, "###### ", "<h6>", "</h6>")
  }

  function Anchor(tags: RenderTags, text: string, url: string): string {
    "<a href=\"" + url + "\" target=\"_blank\" rel=\"noopener noreferrer\"" + tags.linkAttributes + ">" + text + "</a>"
  }

  predicate AnyChar(c: char) {
    true
  }

  predicate NotBackquote(c: char) {
    c != '`'
  }

  /** Bold, italic, links, fenced code and inline code, in that order; a
      text without `*`, `[` and backquotes is left as it is. */
  function Inline(tags: RenderTags, s: string): (r: string)
    ensures '*' !in s && '[' !in s && '`' !in s ==> r == s
  {
    MarkAbsent(s, "**");
    MarkAbsent(s, "*");
    MarkAbsent(s, "```");
    MarkAbsent(s, "`");
    CharAbsent(s, '[');
    var bold := LazyPass(s, "**", "**", 0, NotLineTerminator, "<strong>", "</strong>");
    var italic := LazyPass(bold, "*", "*", 0, NotLineTerminator, "<em>", "</em>");
    var linked := LinkPass(italic, (text, url) => Anchor(tags, text, url));
    var fenced := LazyPass(linked, "```", "```", 0, AnyChar, "<pre><code>", "</code></pre>");
    LazyPass(fenced, "`", "`", 1, NotBackquote, tags.codeOpen, "</code>")
  }

  /** The quote pass; a text without `>` is left as it is. */
  function BlockQuotes(tags: RenderTags, s: string): (r: string)
    ensures '>' !in s ==> r == s
  {
    MarkAbsent(s, "> ");
    LinePass(s, "> ", tags.quoteOpen, "</blockquote>")
  }

  datatype ListKind = Bullet | Numbered

  function Closer(kind: ListKind): string {
    match kind
    case Bullet => "</ul>"
    case Numbered => "</ol>"
  }

  /** How many ASCII digits (`\d`) stand at offset `k` and after. */
  function DigitRun(line: string, k: nat): (n: nat)
    requires k <= |line|
    ensures k + n <= |line|
    decreases |line| - k
  {
    if k < |line| && '0' <= line[k] <= '9' then 1 + DigitRun(line, k + 1) else 0
  }

  /** The run is made of digits and stops at the first character that is not one. */
  lemma {:induction false} DigitRunDigits(line: string, k: nat)
    requires k <= |line|
    ensures forall j :: k <= j < k + DigitRun(line, k) ==> '0' <= line[j] <= '9'
    ensures k + DigitRun(line, k) < |line| ==> !('0' <= line[k + DigitRun(line, k)] <= '9')
    decreases |line| - k
  {
    if k < |line| && '0' <= line[k] <= '9' {
      DigitRunDigits(line, k + 1);
    }
  }

  predicate NoLineTerminatorFrom(line: string, k: nat) {
    forall j :: k <= j < |line| ==> !IsLineTerminator(line[j])
  }

  /** The text of a list item if `line` matches `/^- (.*$)/` (bullets) or
      `/^\d+\. (.*$)/` (numbers). Without the `m` flag `$` is the end of the
      line, so the item text may hold no line terminator. */
  function ListItem(line: string, kind: ListKind): (r: Option<string>)
    ensures r.Some? ==> |r.value| + 2 <= |line| && line[|line| - |r.value|..] == r.value
    ensures r.Some? ==> forall j :: 0 <= j < |r.value| ==> !IsLineTerminator(r.value[j])
    ensures kind == Bullet ==> (r.Some? <==> StartsAt(line, 0, "- ") && NoLineTerminatorFrom(line, 2))
    ensures kind == Numbered && r.Some? ==> '0' <= line[0] <= '9'
  {
    match kind
    case Bullet =>
      if StartsAt(line, 0, "- ") && NoLineTerminatorFrom(line, 2) then Some(line[2..])
      else None
    case Numbered =>
      var d := DigitRun(line, 0);
      if d >= 1 && StartsAt(line, d, ". ") && NoLineTerminatorFrom(line, d + 2) then Some(line[d + 2..])
      else None
  }

  /** A line is a numbered item exactly when its leading digits, at least
      one, are followed by `. ` and no line terminator comes after; the
      item's text is what follows the `. `. */
  lemma ListItemNumbered(line: string)
    ensures var d := DigitRun(line, 0);
            && (ListItem(line, Numbered).Some? <==>
                  d >= 1 && StartsAt(line, d, ". ") && NoLineTerminatorFrom(line, d + 2))
            && (ListItem(line, Numbered).Some? ==> ListItem(line, Numbered).value == line[d + 2..])
  {
  }

  function ItemLine(item: string): string {
    "<li>" + item + "</li>"
  }

  /** The list pass over `lines` when a list is (`inList`) or is not open:
      an item opens the list if none is open, and the first line that is not
      an item closes it; a list still open at the end gets a line of its own
      holding only the closing tag. */
  function GroupFrom(lines: seq<string>, inList: bool, kind: ListKind, open: string): (r: seq<string>)
    ensures |lines| <= |r| <= |lines| + 1
    decreases |lines|
  {
    if lines == [] then (if inList then [Closer(kind)] else [])
    else match ListItem(lines[0], kind)
      case Some(item) =>
        [(if inList then "" else open) + ItemLine(item)] + GroupFrom(lines[1..], true, kind, open)
      case None =>
        [(if inList then Closer(kind) else "") + lines[0]] + GroupFrom(lines[1..], false, kind, open)
  }

  /** The line the list pass makes of `line`. */
  function GroupHead(line: string, inList: bool, kind: ListKind, open: string): string {
    match ListItem(line, kind)
    case Some(item) => (if inList then "" else open) + ItemLine(item)
    case None => (if inList then Closer(kind) else "") + line
  }

  lemma GroupFromCons(lines: seq<string>, i: nat, inList: bool, kind: ListKind, open: string)
    requires i < |lines|
    ensures GroupFrom(lines[i..], inList, kind, open)
         == [GroupHead(lines[i], inList, kind, open)] + GroupFrom(lines[i + 1..], ListItem(lines[i], kind).Some?, kind, open)
  {
    assert lines[i..][1..] == lines[i + 1..];
  }

  lemma AppendOne<T>(a: seq<T>, x: T, b: seq<T>)
    ensures a + ([x] + b) == (a + [x]) + b
  {
  }

  /** The list pass over a whole text: split into lines, group, join. A
      text none of whose lines is a list item is left as it is. */
  function GroupLists(s: string, kind: ListKind, open: string): (r: string)
    ensures (forall k :: 0 <= k < |Split(s, '\n')| ==> ListItem(Split(s, '\n')[k], kind).None?) ==> r == s
  {
    GroupFromNoItems(Split(s, '\n'), kind, open);
    JoinSplit(s, '\n');
    Join(GroupFrom(Split(s, '\n'), false, kind, open), '\n')
  }

  /** The renderer, pass by pass. */
  function Render(tags: RenderTags, text: string): (html: string)
    ensures '\n' !in html
  {
    var blocks := BlockQuotes(tags, Inline(tags, Headings(text)));
    var bullets := GroupLists(blocks, Bullet, tags.bulletOpen);
    var numbered := GroupLists(bullets, Numbered, tags.numberedOpen);
    ReplaceChar(numbered, '\n', "<br />")
  }

  /** One list pass as the source runs it: a flag that says whether a list is
      open, updated while mapping over the lines, and a closing line pushed
      when the last line left the list open. */
  method GroupListLines(lines: seq<string>, kind: ListKind, open: string) returns (out: seq<string>)
    ensures out == GroupFrom(lines, false, kind, open)
  {
    var inList := false;
    out := [];
    var i := 0;
    while i < |lines|
      invariant 0 <= i <= |lines|
      invariant out + GroupFrom(lines[i..], inList, kind, open) == GroupFrom(lines, false, kind, open)
    {
      var line := lines[i];
      GroupFromCons(lines, i, inList, kind, open);
      AppendOne(out, GroupHead(line, inList, kind, open),
                GroupFrom(lines[i + 1..], ListItem(line, kind).Some?, kind, open));
      match ListItem(line, kind) {
        case Some(item) =>
          var listItem := ItemLine(item);
          if !inList {
            inList := true;
            out := out + [open + listItem];
          } else {
            assert "" + listItem == listItem;
            out := out + [listItem];
          }
        case None =>
          if inList {
            inList := false;
            out := out + [Closer(kind) + line];
          } else {
            assert "" + line == line;
            out := out + [line];
          }
      }
      i := i + 1;
    }
    if inList {
      out := out + [Closer(kind)];
    }
  }

  /** The renderer as the source runs it, one pass after another. */
  method RenderMarkdown(tags: RenderTags, text: string) returns (html: string)
    ensures html == Render(tags, text)
    ensures '\n' !in html
  {
    html := Headings(text);
    html := Inline(tags, html);
    html := BlockQuotes(tags, html);
    var bulletLines := GroupListLines(Split(html, '\n'), Bullet, tags.bulletOpen);
    html := Join(bulletLines, '\n');
    var numberedLines := GroupListLines(Split(html, '\n'), Numbered, tags.numberedOpen);
    html := Join(numberedLines, '\n');
    html := ReplaceChar(html, '\n', "<br />");
  }

  /** Whether a list is open just before line `k`. */
  function OpenBefore(lines: seq<string>, inList: bool, kind: ListKind, k: nat): bool
    requires k <= |lines|
  {
    if k == 0 then inList else ListItem(lines[k - 1], kind).Some?
  }

  /** What the list pass makes of line `k`, stated line by line. */
  function ExpectedLine(lines: seq<string>, inList: bool, kind: ListKind, open: string, k: nat): string
    requires k < |lines|
  {
    GroupHead(lines[k], OpenBefore(lines, inList, kind, k), kind, open)
  }

  /** Line `k` of the list pass depends only on line `k` and whether a list
      was open before it. */
  lemma {:induction false} GroupFromLine(lines: seq<string>, inList: bool, kind: ListKind, open: string, k: nat)
    requires k < |lines|
    ensures k < |GroupFrom(lines, inList, kind, open)|
    ensures GroupFrom(lines, inList, kind, open)[k] == ExpectedLine(lines, inList, kind, open, k)
    decreases k
  {
    GroupFromCons(lines, 0, inList, kind, open);
    assert lines[0..] == lines;
    if k > 0 {
      var rest := lines[1..];
      var nowOpen := ListItem(lines[0], kind).Some?;
      GroupFromLine(rest, nowOpen, kind, open, k - 1);
      assert rest[k - 1] == lines[k];
      assert OpenBefore(rest, nowOpen, kind, k - 1) == OpenBefore(lines, inList, kind, k);
    }
  }

  /** The list pass adds one line, the closing tag, exactly when a list is
      still open after the last line. */
  lemma {:induction false} GroupFromTail(lines: seq<string>, inList: bool, kind: ListKind, open: string)
    ensures |GroupFrom(lines, inList, kind, open)|
         == |lines| + (if OpenBefore(lines, inList, kind, |lines|) then 1 else 0)
    ensures OpenBefore(lines, inList, kind, |lines|) ==>
              GroupFrom(lines, inList, kind, open)[|lines|] == Closer(kind)
    decreases |lines|
  {
    if lines != [] {
      var rest := lines[1..];
      var nowOpen := ListItem(lines[0], kind).Some?;
      GroupFromCons(lines, 0, inList, kind, open);
      assert lines[0..] == lines;
      GroupFromTail(rest, nowOpen, kind, open);
      assert OpenBefore(lines, inList, kind, |lines|) == OpenBefore(rest, nowOpen, kind, |rest|);
    }
  }

  /** The list pass, line by line: each maximal run of items gets the opening
      tag exactly on its first item; the line right after a run gets the
      closing tag in front; a run reaching the last line is closed by one
      extra line that holds only the closing tag. So `- a\n- b\nc` renders
      as `<ul…><li>a</li><br /><li>b</li><br /></ul>c`: the closer of a list
      that continues is prefixed to the next line, and only a list reaching
      the end gets a line of its own. */
  lemma GroupFromShape(lines: seq<string>, inList: bool, kind: ListKind, open: string)
    ensures |GroupFrom(lines, inList, kind, open)|
         == |lines| + (if OpenBefore(lines, inList, kind, |lines|) then 1 else 0)
    ensures forall k :: 0 <= k < |lines| ==>
              GroupFrom(lines, inList, kind, open)[k] == ExpectedLine(lines, inList, kind, open, k)
    ensures OpenBefore(lines, inList, kind, |lines|) ==>
              GroupFrom(lines, inList, kind, open)[|lines|] == Closer(kind)
  {
    GroupFromTail(lines, inList, kind, open);
    forall k | 0 <= k < |lines|
      ensures GroupFrom(lines, inList, kind, open)[k] == ExpectedLine(lines, inList, kind, open, k)
    {
      GroupFromLine(lines, inList, kind, open, k);
    }
  }

  /** Lines none of which is a list item pass through the list pass unchanged. */
  lemma {:induction false} GroupFromNoItems(lines: seq<string>, kind: ListKind, open: string)
    ensures (forall k :: 0 <= k < |lines| ==> ListItem(lines[k], kind).None?) ==> GroupFrom(lines, false, kind, open) == lines
    decreases |lines|
  {
    if lines != [] && forall k :: 0 <= k < |lines| ==> ListItem(lines[k], kind).None? {
      assert forall k :: 0 <= k < |lines[1..]| ==> lines[1..][k] == lines[k + 1];
      GroupFromNoItems(lines[1..], kind, open);
      assert "" + lines[0] == lines[0];
      assert lines == [lines[0]] + lines[1..];
    }
  }

  /** A pattern whose first character is absent starts nowhere. */
  lemma MarkAbsent(s: string, p: string)
    requires |p| > 0
    ensures p[0] !in s ==> forall j :: 0 <= j <= |s| ==> !StartsAt(s, j, p)
  {
    if p[0] !in s {
      AbsentNowhere(s, p);
    }
  }

  lemma CharAbsent(s: string, c: char)
    ensures c !in s ==> forall j :: 0 <= j < |s| ==> s[j] != c
  {
  }

  /** None of the characters any pass looks for: heading and quote marks,
      emphasis stars, link brackets, backquotes, the bullet dash and the dot
      after an item number. */
  predicate PlainText(s: string) {
    forall i :: 0 <= i < |s| ==> s[i] !in "#*[`>-."
  }

  /** Text without markup characters comes out as it went in, save that each
      newline becomes a line break tag. */
  lemma RenderPlain(tags: RenderTags, s: string)
    requires PlainText(s)
    ensures Render(tags, s) == ReplaceChar(s, '\n', "<br />")
  {
    PlainTextExcludes(s);
    BlockPassesNoMarks(tags, s);
    PlainLinesAreNoItems(s, Bullet);
    PlainLinesAreNoItems(s, Numbered);
  }

  lemma PlainTextExcludes(s: string)
    requires PlainText(s)
    ensures forall c :: c in "#*[`>-." ==> c !in s
  {
    forall c | c in "#*[`>-."
      ensures c !in s
    {
      assert forall i :: 0 <= i < |s| ==> s[i] != c;
    }
  }

  /** The passes before the lists leave alone a text without heading marks,
      stars, brackets, backquotes and quote marks. */
  lemma BlockPassesNoMarks(tags: RenderTags, s: string)
    requires '#' !in s && '*' !in s && '[' !in s && '`' !in s && '>' !in s
    ensures BlockQuotes(tags, Inline(tags, Headings(s))) == s
  {
    AbsentNowhere(s, "# ");
    AbsentNowhere(s, "## ");
    AbsentNowhere(s, "### ");
    AbsentNowhere(s, "#### ");
    AbsentNowhere(s, "##### ");
    AbsentNowhere(s, "###### ");
    assert Headings(s) == s;
    AbsentNowhere(s, "> ");
  }

  /** No line terminator anywhere in `s`. */
  predicate OneLine(s: string) {
    forall j :: 0 <= j < |s| ==> NotLineTerminator(s[j])
  }

  /** Two bullet lines form one list; the renderer ends each item line and
      the closing tag's line with a line break tag, as the list pass leaves
      the closing tag on a line of its own. */
  lemma RenderBulletPair(tags: RenderTags, a: string, b: string)
    requires PlainText(a) && PlainText(b) && OneLine(a) && OneLine(b)
    requires |tags.bulletOpen| > 0 && tags.bulletOpen[0] == '<' && '\n' !in tags.bulletOpen
    ensures Render(tags, "- " + a + "\n- " + b)
         == tags.bulletOpen + ItemLine(a) + "<br />" + ItemLine(b) + "<br />" + "</ul>"
  {
    var t := "- " + a + "\n- " + b;
    var x := tags.bulletOpen + ItemLine(a);
    var y := ItemLine(b);
    var z := "</ul>";
    BulletPairBlockPasses(tags, a, b);
    BulletPairListPasses(tags, a, b);
    OneLineNoNewline(a);
    OneLineNoNewline(b);
    TaggedPieces(tags.bulletOpen, a, b);
    ReplaceNewlines3(x, y, z);
    assert Render(tags, t) == ReplaceChar(GroupLists(GroupLists(t, Bullet, tags.bulletOpen), Numbered, tags.numberedOpen), '\n', "<br />");
  }

  /** The heading, inline and quote passes leave two plain bullet lines alone. */
  lemma BulletPairBlockPasses(tags: RenderTags, a: string, b: string)
    requires PlainText(a) && PlainText(b)
    ensures var t := "- " + a + "\n- " + b;
            BlockQuotes(tags, Inline(tags, Headings(t))) == t
  {
    PlainTextExcludes(a);
    PlainTextExcludes(b);
    BlockPassesNoMarks(tags, "- " + a + "\n- " + b);
  }

  /** The bullet pass makes two items and a closing line of two bullet lines,
      and the numbered pass leaves those alone. */
  lemma BulletPairListPasses(tags: RenderTags, a: string, b: string)
    requires PlainText(a) && PlainText(b) && OneLine(a) && OneLine(b)
    requires |tags.bulletOpen| > 0 && tags.bulletOpen[0] == '<' && '\n' !in tags.bulletOpen
    ensures var t := "- " + a + "\n- " + b;
            var x := tags.bulletOpen + ItemLine(a);
            GroupLists(GroupLists(t, Bullet, tags.bulletOpen), Numbered, tags.numberedOpen)
            == x + "\n" + ItemLine(b) + "\n" + "</ul>"
  {
    var t := "- " + a + "\n- " + b;
    var x := tags.bulletOpen + ItemLine(a);
    var y := ItemLine(b);
    var z := "</ul>";
    var joined := x + "\n" + y + "\n" + z;
    OneLineNoNewline(a);
    OneLineNoNewline(b);
    assert GroupLists(t, Bullet, tags.bulletOpen) == joined by {
      BulletPairLines(a, b);
      BulletPairGroup(a, b, tags.bulletOpen);
    }
    TaggedPieces(tags.bulletOpen, a, b);
    TaggedLinesAreNoItems(x, y, z);
  }

  lemma TaggedPieces(open: string, a: string, b: string)
    requires |open| > 0 && open[0] == '<' && '\n' !in open && '\n' !in a && '\n' !in b
    ensures |open + ItemLine(a)| > 0 && (open + ItemLine(a))[0] == '<' && '\n' !in open + ItemLine(a)
    ensures |ItemLine(b)| > 0 && ItemLine(b)[0] == '<' && '\n' !in ItemLine(b)
    ensures |"</ul>"| > 0 && "</ul>"[0] == '<' && '\n' !in "</ul>"
  {
  }

  lemma OneLineNoNewline(s: string)
    requires OneLine(s)
    ensures '\n' !in s
  {
    assert forall j :: 0 <= j < |s| ==> s[j] != '\n';
  }

  lemma BulletPairLines(a: string, b: string)
    requires '\n' !in a && '\n' !in b
    ensures Split("- " + a + "\n- " + b, '\n') == ["- " + a, "- " + b]
  {
    assert "- " + a + "\n- " + b == ("- " + a) + ['\n'] + ("- " + b);
    SplitAppend("- " + a, "- " + b, '\n');
    SplitNoSeparator("- " + b, '\n');
  }

  /** A dash, a space and a one-line text make a bullet item holding that text. */
  lemma BulletItem(a: string)
    requires OneLine(a)
    ensures ListItem("- " + a, Bullet) == Some(a)
  {
    var line := "- " + a;
    assert line[0..2] == "- ";
    assert line[2..] == a;
    assert NoLineTerminatorFrom(line, 2) by {
      forall j | 2 <= j < |line| ensures !IsLineTerminator(line[j]) {
        assert line[j] == a[j - 2];
      }
    }
  }

  lemma BulletPairGroup(a: string, b: string, open: string)
    requires OneLine(a) && OneLine(b)
    ensures Join(GroupFrom(["- " + a, "- " + b], false, Bullet, open), '\n')
         == open + ItemLine(a) + "\n" + ItemLine(b) + "\n" + "</ul>"
  {
    BulletItem(a);
    BulletItem(b);
    var lines := ["- " + a, "- " + b];
    assert lines[1..] == ["- " + b];
    assert ["- " + b][1..] == [];
    assert "" + ItemLine(b) == ItemLine(b);
    assert GroupFrom(["- " + b], true, Bullet, open) == [ItemLine(b)] + ["</ul>"];
    assert GroupFrom(lines, false, Bullet, open) == [open + ItemLine(a)] + ([ItemLine(b)] + ["</ul>"]);
    assert [open + ItemLine(a)] + ([ItemLine(b)] + ["</ul>"]) == [open + ItemLine(a), ItemLine(b), "</ul>"];
    Join3(open + ItemLine(a), ItemLine(b), "</ul>", '\n');
  }

  lemma Join3(x: string, y: string, z: string, sep: char)
    ensures Join([x, y, z], sep) == x + [sep] + y + [sep] + z
  {
    assert [x, y, z][1..] == [y, z];
    assert [y, z][1..] == [z];
    assert Join([y, z], sep) == y + [sep] + z;
    assert x + [sep] + (y + [sep] + z) == x + [sep] + y + [sep] + z;
  }

  lemma TaggedLinesAreNoItems(x: string, y: string, z: string)
    requires |x| > 0 && x[0] == '<' && '\n' !in x
    requires |y| > 0 && y[0] == '<' && '\n' !in y
    requires |z| > 0 && z[0] == '<' && '\n' !in z
    ensures forall k :: 0 <= k < |Split(x + "\n" + y + "\n" + z, '\n')|
              ==> ListItem(Split(x + "\n" + y + "\n" + z, '\n')[k], Numbered).None?
  {
    Join3(x, y, z, '\n');
    SplitJoin([x, y, z], '\n');
    assert DigitRun(x, 0) == 0 && DigitRun(y, 0) == 0 && DigitRun(z, 0) == 0;
  }

  lemma ReplaceNewline(x: string, y: string)
    requires '\n' !in x
    ensures ReplaceChar(x + "\n" + y, '\n', "<br />") == x + "<br />" + ReplaceChar(y, '\n', "<br />")
  {
    ReplaceCharAppend(x + "\n", y, '\n', "<br />");
    ReplaceCharAppend(x, "\n", '\n', "<br />");
    assert ReplaceChar("\n", '\n', "<br />") == "<br />" + ReplaceChar("", '\n', "<br />");
  }

  lemma Regroup<T>(a: seq<T>, b: seq<T>, c: seq<T>, d: seq<T>, e: seq<T>)
    ensures a + b + (c + d + e) == a + b + c + d + e
  {
  }

  lemma ReplaceNewlines3(x: string, y: string, z: string)
    requires '\n' !in x && '\n' !in y && '\n' !in z
    ensures ReplaceChar(x + "\n" + y + "\n" + z, '\n', "<br />") == x + "<br />" + y + "<br />" + z
  {
    var tail := y + "\n" + z;
    Regroup(x, "\n", y, "\n", z);
    ReplaceNewline(x, tail);
    ReplaceNewline(y, z);
    Regroup(x, "<br />", y, "<br />", z);
  }

  /** A one-line text starting with `# ` becomes a first-level heading. */
  lemma RenderHeading(tags: RenderTags, s: string)
    requires PlainText(s)
    requires forall j :: 0 <= j < |s| ==> NotLineTerminator(s[j])
    ensures Render(tags, "# " + s) == "<h1>" + s + "</h1>"
  {
    var t := "# " + s;
    var h := "<h1>" + s + "</h1>";
    assert LinePass(t, "# ", "<h1>", "</h1>") == h by {
      assert forall j :: 0 <= j < |t| ==> NotLineTerminator(t[j]) by {
        forall j | 0 <= j < |t| ensures NotLineTerminator(t[j]) {
          if j >= 2 { assert t[j] == s[j - 2]; }
        }
      }
      LinePassOneLine(t, "# ", "<h1>", "</h1>");
      assert t[2..] == s;
    }
    PlainOneLineTagged(s, h);
    assert LinePass(h, "## ", "<h2>", "</h2>") == h by {
      FirstCharMismatch(h, 0, "## ");
      LinePassOneLine(h, "## ", "<h2>", "</h2>");
    }
    assert LinePass(h, "### ", "<h3>", "</h3>") == h by {
      FirstCharMismatch(h, 0, "### ");
      LinePassOneLine(h, "### ", "<h3>", "</h3>");
    }
    assert LinePass(h, "#### ", "<h4>", "</h4>") == h by {
      FirstCharMismatch(h, 0, "#### ");
      LinePassOneLine(h, "#### ", "<h4>", "</h4>");
    }
    assert LinePass(h, "##### ", "<h5>", "</h5>") == h by {
      FirstCharMismatch(h, 0, "##### ");
      LinePassOneLine(h, "##### ", "<h5>", "</h5>");
    }
    assert LinePass(h, "###### ", "<h6>", "</h6>") == h by {
      FirstCharMismatch(h, 0, "###### ");
      LinePassOneLine(h, "###### ", "<h6>", "</h6>");
    }
    assert Headings(t) == h;
    assert BlockQuotes(tags, Inline(tags, h)) == h by {
      FirstCharMismatch(h, 0, "> ");
      LinePassOneLine(h, "> ", tags.quoteOpen, "</blockquote>");
    }
    assert '\n' !in h by {
      assert forall j :: 0 <= j < |h| ==> h[j] != '\n';
    }
    TaggedLineIsNoItem(h, Bullet, tags.bulletOpen);
    TaggedLineIsNoItem(h, Numbered, tags.numberedOpen);
  }

  /** A plain one-line text wrapped in `<h1>` holds no line terminator and
      none of `*`, `[` and backquote. */
  lemma PlainOneLineTagged(s: string, h: string)
    requires PlainText(s)
    requires forall j :: 0 <= j < |s| ==> NotLineTerminator(s[j])
    requires h == "<h1>" + s + "</h1>"
    ensures forall j :: 0 <= j < |h| ==> NotLineTerminator(h[j])
    ensures '*' !in h && '[' !in h && '`' !in h
  {
    forall j | 0 <= j < |h| ensures NotLineTerminator(h[j]) && h[j] !in "*[`" {
      if 4 <= j < 4 + |s| { assert h[j] == s[j - 4]; }
    }
    forall c | c in "*[`" ensures c !in h {
      assert forall j :: 0 <= j < |h| ==> h[j] != c;
    }
  }

  /** A line starting with `<` is no list item, so a list pass leaves it alone. */
  lemma TaggedLineIsNoItem(h: string, kind: ListKind, open: string)
    requires |h| > 0 && h[0] == '<' && '\n' !in h
    ensures GroupLists(h, kind, open) == h
  {
    SplitNoSeparator(h, '\n');
    assert DigitRun(h, 0) == 0;
    FirstCharMismatch(h, 0, "- ");
    FirstCharMismatch(h, 0, ". ");
  }

  lemma PlainLinesAreNoItems(s: string, kind: ListKind)
    requires '-' !in s && '.' !in s
    ensures forall k :: 0 <= k < |Split(s, '\n')| ==> ListItem(Split(s, '\n')[k], kind).None?
  {
    forall k | 0 <= k < |Split(s, '\n')|
      ensures ListItem(Split(s, '\n')[k], kind).None?
    {
      var line := Split(s, '\n')[k];
      if StartsAt(line, 0, "- ") {
        assert line[0] == '-';
        SplitPiecesWithin(s, '\n', k, '-');
      }
      var d := DigitRun(line, 0);
      if StartsAt(line, d, ". ") {
        assert line[d] == '.';
        SplitPiecesWithin(s, '\n', k, '.');
      }
    }
  }

  /** Rendering the empty text gives the empty text. */
  lemma RenderEmpty(tags: RenderTags)
    ensures Render(tags, "") == ""
  {
    assert Headings("") == "";
    assert Inline(tags, "") == "";
    assert BlockQuotes(tags, "") == "";
    assert Split("", '\n') == [""];
    assert ListItem("", Bullet) == None && ListItem("", Numbered) == None;
  }
}
