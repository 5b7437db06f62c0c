/**
  * The file the download action produces for a note: its name, its media
  * type and its content. Creating the blob, the object URL and the link the
  * action clicks is browser work and is not part of this model.
  */
module MarkdownExport {
  import opened JsText
  import opened MarkdownRender

  /** `s.replace(/\s+/g, "_")`: every maximal run of white space becomes one underscore. */
  function UnderscoreWhitespace(s: string): (r: string)
    ensures NoWhitespace(r)
    ensures |r| <= |s|
    decreases |s|
  {
    if s == "" then ""
    else if IsWhitespace(s[0]) then "_" + UnderscoreWhitespace(TrimStart(s))
    else [s[0]] + UnderscoreWhitespace(s[1..])
  }

  /** A title without white space is used as it is. */
  lemma {:induction false} UnderscoreNoWhitespace(s: string)
    requires NoWhitespace(s)
    ensures UnderscoreWhitespace(s) == s
    decreases |s|
  {
    if s != "" {
      assert NoWhitespace(s[1..]) by {
        forall i | 0 <= i < |s[1..]| ensures !IsWhitespace(s[1..][i]) {
          assert s[1..][i] == s[i + 1];
        }
      }
      UnderscoreNoWhitespace(s[1..]);
      assert s == [s[0]] + s[1..];
    }
  }

  /** A run of white space between two words becomes a single underscore. */
  lemma UnderscoreBetweenWords(a: string, run: string, b: string)
    requires NoWhitespace(a) && NoWhitespace(b) && |run| > 0 && AllWhitespace(run)
    requires |b| > 0
    ensures UnderscoreWhitespace(a + run + b) == a + "_" + b
  {
    var t := run + b;
    assert a + run + b == a + t;
    UnderscoreAfterWord(a, t);
    assert !IsWhitespace(b[0]);
    TrimStartRun(run, b);
    UnderscoreNoWhitespace(b);
    assert UnderscoreWhitespace(t) == "_" + b;
    assert a + ("_" + b) == a + "_" + b;
  }

  /** A character that is no white space is copied. */
  lemma UnderscoreCons(c: char, t: string)
    requires !IsWhitespace(c)
    ensures UnderscoreWhitespace([c] + t) == [c] + UnderscoreWhitespace(t)
  {
    assert ([c] + t)[0] == c;
    assert ([c] + t)[1..] == t;
  }

  /** Leading characters that are no white space are copied. */
  lemma {:induction false} UnderscoreAfterWord(a: string, rest: string)
    requires NoWhitespace(a)
    ensures UnderscoreWhitespace(a + rest) == a + UnderscoreWhitespace(rest)
    decreases |a|
  {
    if a == "" {
      assert a + rest == rest;
    } else {
      var tail := a[1..];
      assert NoWhitespace(tail) by {
        forall i | 0 <= i < |tail| ensures !IsWhitespace(tail[i]) {
          assert tail[i] == a[i + 1];
        }
      }
      assert a + rest == [a[0]] + (tail + rest);
      UnderscoreCons(a[0], tail + rest);
      UnderscoreAfterWord(tail, rest);
      assert [a[0]] + (tail + UnderscoreWhitespace(rest)) == a + UnderscoreWhitespace(rest);
    }
  }

  /** A leading run of white space followed by a word collapses to one underscore. */
  lemma TrimStartRun(run: string, b: string)
    requires |run| > 0 && AllWhitespace(run) && |b| > 0 && !IsWhitespace(b[0])
    ensures UnderscoreWhitespace(run + b) == "_" + UnderscoreWhitespace(b)
  {
    TrimStartWhitespacePrefix(run, b);
  }

  lemma {:induction false} TrimStartWhitespacePrefix(run: string, b: string)
    requires AllWhitespace(run) && |b| > 0 && !IsWhitespace(b[0])
    ensures TrimStart(run + b) == b
    decreases |run|
  {
    if run != "" {
      assert (run + b)[1..] == run[1..] + b;
      assert AllWhitespace(run[1..]) by {
        forall i | 0 <= i < |run[1..]| ensures IsWhitespace(run[1..][i]) {
          assert run[1..][i] == run[i + 1];
        }
      }
      TrimStartWhitespacePrefix(run[1..], b);
    } else {
      assert run + b == b;
    }
  }

  /** The HTML page for a note: a fixed head with the note's title and a
      style sheet, and the rendered note in the body. */
  function HtmlDocument(title: string, body: string): (page: string)
    ensures StartsAt(page, |DocumentPrologue|, TitleElement(title))
    ensures StartsAt(page, |DocumentPrologue| + |TitleElement(title)| + |DocumentStyle|, body)
  {
    PiecesAt(DocumentPrologue, TitleElement(title), DocumentStyle, body, DocumentTail);
    DocumentPrologue + TitleElement(title) + DocumentStyle + body + DocumentTail
  }

  function TitleElement(title: string): string {
    "<title>" + title + "</title>"
  }

  const DocumentPrologue :=
    Join([
      "<!DOCTYPE html>",
      "<html>",
      "<head>",
      "  <meta charset=\"UTF-8\">",
      "  "
    ], '\n')

  const DocumentStyle :=
    Join([
      "",
      "  <style>",
      "    body { font-family: system-ui, sans-serif; line-height: 1.5; padding: 2rem; max-width: 800px; margin: 0 auto; }",
      "    pre { background: #f5f5f5; padding: 1rem; border-radius: 4px; overflow-x: auto; }",
      "    code { background: #f5f5f5; padding: 0.2rem 0.4rem; border-radius: 4px; }",
      "    blockquote { border-left: 4px solid #ddd; margin-left: 0; padding-left: 1rem; color: #666; }",
      "  </style>",
      "</head>",
      "<body>",
      "  "
    ], '\n')

  const DocumentTail :=
    Join([
      "",
      "</body>",
      "</html>"
    ], '\n')

  /** The file offered for download. */
  datatype DownloadFile = DownloadFile(name: string, mediaType: string, content: string)

  /** The extension chosen for a format name; any name but `md` and `html` gives `txt`. */
  function Extension(format: string): (ext: string)
    ensures ext in {"md", "html", "txt"}
    ensures ext == "txt" <==> format != "md" && format != "html"
  {
    if format == "md" then "md" else if format == "html" then "html" else "txt"
  }

  /** `downloadNote`, without the browser calls: the file it hands to the browser. */
  function DownloadNote(title: string, content: string, format: string): (f: DownloadFile)
    ensures f.name == UnderscoreWhitespace(title) + "." + Extension(format)
    ensures f.mediaType == "text/" + Extension(format)
    ensures format != "html" ==> f.content == content
    ensures format == "html" ==>
              && StartsAt(f.content, |DocumentPrologue|, TitleElement(title))
              && StartsAt(f.content, |DocumentPrologue| + |TitleElement(title)| + |DocumentStyle|, Render(ExportTags, content))
  {
    var ext := Extension(format);
    var fileContent := if format == "html" then HtmlDocument(title, Render(ExportTags, content)) else content;
    DownloadFile(UnderscoreWhitespace(title) + "." + ext, "text/" + ext, fileContent)
  }

  /** In `a + t + m + b + z`, `t` stands right after `a` and `b` after `a + t + m`. */
  lemma PiecesAt(a: string, t: string, m: string, b: string, z: string)
    ensures StartsAt(a + t + m + b + z, |a|, t)
    ensures StartsAt(a + t + m + b + z, |a| + |t| + |m|, b)
  {
    var s := a + t + m + b + z;
    assert s[|a|..|a| + |t|] == t;
    assert s[|a| + |t| + |m|..|a| + |t| + |m| + |b|] == b;
  }
}
