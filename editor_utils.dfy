/**
  * The document the code preview writes into its frame: the HTML itself,
  * CSS inside a style element of a fixed demonstration page, or JavaScript
  * inside a `try` block of a page that shows what the script logs. Whether
  * the frame and its document exist is part of the frame's state.
  */
module EditorUtils {
  import opened JsText
  import opened CodeEditor

  /** The CSS page up to its style element. */
  const CssOpen: string :=
    Join([
      "",
      "        <html>",
      "          <head>",
      "            "
    ], '\n')

  /** The CSS page after its style element. */
  const CssClose: string :=
    Join([
      "",
      "          </head>",
      "          <body>",
      "            <div class=\"demo-element\">CSS Preview</div>",
      "            <div class=\"demo-paragraph\">This is a paragraph to demonstrate your CSS.</div>",
      "            <button class=\"demo-button\">Button Element</button>",
      "            <a href=\"#\" class=\"demo-link\">Link Element</a>",
      "          </body>",
      "        </html>",
      "      "
    ], '\n')

  /** The JavaScript page up to the statement that runs the script. */
  const JsSetup: string :=
    Join([
      "",
      "        <html>",
      "          <head>",
      "            <style>",
      "              body { font-family: system-ui, sans-serif; padding: 20px; }",
      "              #output { border: 1px solid #ddd; padding: 15px; margin-top: 20px; min-height: 100px; }",
      "            </style>",
      "          </head>",
      "          <body>",
      "            <h4>JavaScript Preview</h4>",
      "            <div>Open the console (F12) to see output</div>",
      "            <div id=\"output\">Output will appear here</div>",
      "            <script>",
      "              // Redirect console.log to the output div",
      "              const originalLog = console.log;",
      "              console.log = function(...args) {",
      "                originalLog.apply(console, args);",
      "                const output = document.getElementById('output');",
      "                if (output) {",
      "                  const text = args.map(arg => ",
      "                    typeof arg === 'object' ? JSON.stringify(arg) : String(arg)",
      "                  ).join(' ');",
      "                  output.innerHTML += '<div>' + text + '</div>';",
      "                }",
      "              };",
      "              ",
      "              // Run the user code",
      "              "
    ], '\n')

  /** The `try` around the script. */
  const TryOpen: string :=
    Join([
      "try {",
      "                "
    ], '\n')

  /** The handler that logs the error message. */
  const CatchBlock: string :=
    Join([
      "",
      "              } catch (error) {",
      "                console.log('Error: ' + error.message);",
      "              }"
    ], '\n')

  /** The rest of the JavaScript page. */
  const JsClose: string :=
    Join([
      "",
      "            </script>",
      "          </body>",
      "        </html>",
      "      "
    ], '\n')

  const StyleOpen := "<style>"
  const StyleClose := "</style>"

  /** What stands before and after the code in the document for a language:
      nothing exactly for HTML. `CssFrameMarkers` and `JsFrameMarkers` say
      how the other frames meet the code. */
  function Frame(language: Language): (f: (string, string))
    ensures language == Html <==> f.0 == "" && f.1 == ""
  {
    match language
    case Html => ("", "")
    case Css => (CssOpen + StyleOpen, StyleClose + CssClose)
    case JavaScript => (JsSetup + TryOpen, CatchBlock + JsClose)
  }

  /** The `htmlContent` for a language: HTML is previewed as it is.
      `PreviewPlacesContent` says where the code stands otherwise. */
  function PreviewDocument(content: string, language: Language): (doc: string)
    ensures language == Html ==> doc == content
  {
    assert "" + content + "" == content;
    Frame(language).0 + content + Frame(language).1
  }

  lemma Sandwich(pre: string, mid: string, post: string)
    ensures StartsAt(pre + mid + post, 0, pre)
    ensures StartsAt(pre + mid + post, |pre|, mid)
    ensures StartsAt(pre + mid + post, |pre| + |mid|, post)
    ensures |pre + mid + post| == |pre| + |mid| + |post|
  {
    var s := pre + mid + post;
    assert s[0..|pre|] == pre;
    assert s[|pre|..|pre| + |mid|] == mid;
    assert s[|pre| + |mid|..|s|] == post;
  }

  /** HTML is previewed as it is; CSS stands between `<style>` and
      `</style>` after the fixed page head, followed by the fixed demo body;
      JavaScript stands between `try {` and the handler that logs
      `Error: ` and the message. */
  lemma PreviewPlacesContent(content: string, language: Language)
    ensures language == Html ==> PreviewDocument(content, language) == content
    ensures var doc := PreviewDocument(content, language);
            var head := Frame(language).0;
            && StartsAt(doc, 0, head)
            && StartsAt(doc, |head|, content)
            && StartsAt(doc, |head| + |content|, Frame(language).1)
  {
    Sandwich(Frame(language).0, content, Frame(language).1);
    if language == Html {
      assert "" + content + "" == content;
    }
  }

  lemma PrefixStarts(a: string, b: string)
    ensures StartsAt(a + b, 0, a) && StartsAt(a + b, |a|, b)
  {
    assert (a + b)[0..|a|] == a;
    assert (a + b)[|a|..|a| + |b|] == b;
  }

  /** `s` ends with `p`. */
  predicate EndsWith(s: string, p: string) {
    |p| <= |s| && s[|s| - |p|..] == p
  }

  lemma SuffixEnds(a: string, b: string)
    ensures EndsWith(a + b, b)
  {
    assert (a + b)[|a|..] == b;
  }

  /** The CSS head ends with `<style>` and its tail starts with `</style>`. */
  lemma CssFrameMarkers()
    ensures EndsWith(Frame(Css).0, StyleOpen)
    ensures StartsAt(Frame(Css).1, 0, StyleClose)
  {
    SuffixEnds(CssOpen, StyleOpen);
    PrefixStarts(StyleClose, CssClose);
  }

  /** The JavaScript head ends with `try {` and a line break, and its tail
      starts with the `catch` handler. */
  lemma JsFrameMarkers()
    ensures EndsWith(Frame(JavaScript).0, TryOpen)
    ensures StartsAt(Frame(JavaScript).1, 0, CatchBlock)
  {
    SuffixEnds(JsSetup, TryOpen);
    PrefixStarts(CatchBlock, JsClose);
  }

  /** The fixed parts do not depend on the code: two previews in the same
      language differ only where the code stands. */
  lemma PreviewFixedParts(a: string, b: string, language: Language)
    ensures var da := PreviewDocument(a, language);
            var db := PreviewDocument(b, language);
            var head := |Frame(language).0|;
            && da[..head] == db[..head]
            && da[head + |a|..] == db[head + |b|..]
  {
    var f := Frame(language);
    Sandwich(f.0, a, f.1);
    Sandwich(f.0, b, f.1);
    var da := PreviewDocument(a, language);
    var db := PreviewDocument(b, language);
    assert da[..|f.0|] == f.0 == db[..|f.0|];
    assert da[|f.0| + |a|..] == f.1 == db[|f.0| + |b|..];
  }

  /** The preview frame: whether it is attached, whether its document can
      be reached, and what was last written into that document. */
  class PreviewFrame {
    var attached: bool
    var hasDocument: bool
    var written: string

    constructor ()
      ensures !attached && !hasDocument && written == ""
    {
      attached := false;
      hasDocument := false;
      written := "";
    }

    /** `setPreviewRef`: the frame is attached or detached. */
    method SetPreviewRef(frame: bool, frameHasDocument: bool)
      modifies this
      ensures attached == frame && hasDocument == frameHasDocument && written == old(written)
    {
      attached := frame;
      hasDocument := frameHasDocument;
    }

    /** `updateCodePreview`: without a frame or its document nothing is
        written; otherwise the document is replaced by the preview. */
    method UpdateCodePreview(content: string, language: Language)
      modifies this
      ensures attached && hasDocument ==> written == PreviewDocument(content, language)
      ensures !(attached && hasDocument) ==> written == old(written)
      ensures attached == old(attached) && hasDocument == old(hasDocument)
    {
      if attached && hasDocument {
        written := PreviewDocument(content, language);
      }
    }
  }
}
