/**
  * The code editor's text area: Tab puts two spaces in place of the
  * selection, and an input right after an opening bracket, a quote or, in
  * HTML, the `<` of a `</` closes it. The handlers see the text as `value`
  * and the caret as `selectionStart`; both are parameters here, and the
  * caret the handlers move after a timer is part of the returned edit.
  */
module CodeEditor {
  import opened Optional
  import opened JsText
  import opened MarkdownFormat

  /** The languages the editor is opened for. */
  datatype Language = Html | Css | JavaScript

  /** A new text and the caret put into it. */
  datatype TextEdit = TextEdit(value: string, caret: int)

  /** `handleKeyDown`: only Tab does anything. */
  function KeyDown(value: string, key: string, start: int, end: int): (r: Option<TextEdit>)
    ensures key != "Tab" <==> r.None?
    ensures r.Some? && ValidSelection(value, start, end) ==>
              && r.value.value == value[..start] + "  " + value[end..]
              && r.value.caret == start + 2
  {
    if key == "Tab" then Some(TextEdit(InsertTab(value, start, end), start + 2)) else None
  }

  predicate IsTagNameChar(c: char) {
    'a' <= c <= 'z' || 'A' <= c <= 'Z' || '0' <= c <= '9'
  }

  /** The end of the run of tag-name characters that starts at `k`. */
  function NameRunEnd(s: string, k: nat): (e: nat)
    requires k <= |s|
    ensures k <= e <= |s|
    ensures forall j :: k <= j < e ==> IsTagNameChar(s[j])
    ensures e < |s| ==> !IsTagNameChar(s[e])
    decreases |s| - k
  {
    if k == |s| || !IsTagNameChar(s[k]) then k else NameRunEnd(s, k + 1)
  }

  /** The first offset at or after `k` holding `c`, or the length when there is none. */
  function IndexFrom(s: string, k: nat, c: char): (e: nat)
    requires k <= |s|
    ensures k <= e <= |s|
    ensures e < |s| ==> s[e] == c
    decreases |s| - k
  {
    if k == |s| || s[k] == c then k else IndexFrom(s, k + 1, c)
  }

  /** No offset between `k` and the one `IndexFrom` gives holds `c`. */
  lemma {:induction false} IndexFromFirst(s: string, k: nat, c: char)
    requires k <= |s|
    ensures forall j :: k <= j < IndexFrom(s, k, c) ==> s[j] != c
    decreases |s| - k
  {
    if k < |s| && s[k] != c {
      IndexFromFirst(s, k + 1, c);
    }
  }

  /** A match of `<([a-zA-Z0-9]+)(?:\s[^>]*)?>(?:[^<]*)` at offset `i`: the end
      of the tag name and the end of the match. The name is the whole run of
      name characters, since the character after it must be white space or
      `>`; the attributes run to the first `>`, and the text after the tag to
      the next `<`. */
  function OpenTagAt(s: string, i: nat): (r: Option<(nat, nat)>)
    ensures r.Some? ==> i < |s| && s[i] == '<' && i + 1 < r.value.0 < r.value.1 <= |s|
    ensures r.Some? ==> r.value.1 == |s| || s[r.value.1] == '<'
  {
    if i < |s| && s[i] == '<' then
      var n := NameRunEnd(s, i + 1);
      if n == i + 1 || n == |s| then None
      else if s[n] == '>' then Some((n, IndexFrom(s, n + 1, '<')))
      else if IsWhitespace(s[n]) && IndexFrom(s, n + 1, '>') < |s| then
        Some((n, IndexFrom(s, IndexFrom(s, n + 1, '>') + 1, '<')))
      else None
    else None
  }

  /** The start of the last match of the tag pattern, with the `g` flag,
      scanning from `i` on; `last` is the last match before `i`. */
  function LastTagFrom(s: string, i: nat, last: Option<nat>): (r: Option<nat>)
    requires i <= |s|
    requires last.Some? ==> OpenTagAt(s, last.value).Some?
    ensures r.Some? ==> OpenTagAt(s, r.value).Some?
    decreases |s| - i
  {
    if i == |s| then last
    else
      var t := OpenTagAt(s, i);
      if t.Some? then LastTagFrom(s, t.value.1, Some(i)) else LastTagFrom(s, i + 1, last)
  }

  /** The name in the last opening tag of `s`: `s.match(/…/g)`, its last
      element, and the name group of `/<([a-zA-Z0-9]+)/` in it. */
  function LastTagName(s: string): (r: Option<string>)
    ensures r.Some? ==> |r.value| > 0 && forall j :: 0 <= j < |r.value| ==> IsTagNameChar(r.value[j])
  {
    match LastTagFrom(s, 0, None)
    case Some(j) =>
      var n := OpenTagAt(s, j).value.0;
      var name := s[j + 1..n];
      assert forall m :: 0 <= m < |name| ==> name[m] == s[j + 1 + m];
      Some(name)
    case None => None
  }

  /** No match of the tag pattern starts in `[a, b)`. */
  ghost predicate NoTagBetween(s: string, a: nat, b: nat)
    decreases b
  {
    b <= a || (OpenTagAt(s, b - 1).None? && NoTagBetween(s, a, b - 1))
  }

  lemma {:induction false} NoTagBetweenAll(s: string, a: nat, b: nat)
    requires NoTagBetween(s, a, b)
    ensures forall k :: a <= k < b ==> OpenTagAt(s, k).None?
    decreases b
  {
    if a < b {
      NoTagBetweenAll(s, a, b - 1);
    }
  }

  /** The scan has seen every offset below `i`: the last match it kept, if
      any, is followed by no other match before `i`. */
  ghost predicate ScannedTo(s: string, i: nat, last: Option<nat>) {
    last.Some? ==>
      && OpenTagAt(s, last.value).Some?
      && OpenTagAt(s, last.value).value.1 <= i
      && NoTagBetween(s, OpenTagAt(s, last.value).value.1, i)
  }

  /** The match the scan ends with is the last one in the text. */
  lemma {:induction false} LastTagIsLast(s: string, i: nat, last: Option<nat>)
    requires i <= |s| && ScannedTo(s, i, last)
    ensures ScannedTo(s, |s|, LastTagFrom(s, i, last))
    decreases |s| - i
  {
    if i < |s| {
      LastTagFromStep(s, i, last);
      var t := OpenTagAt(s, i);
      if t.Some? {
        LastTagIsLast(s, t.value.1, Some(i));
      } else {
        LastTagIsLast(s, i + 1, last);
      }
    }
  }

  /** No opening tag starts at `i` or after it. */
  ghost predicate NoTagFrom(s: string, i: nat) {
    forall j :: i <= j < |s| ==> OpenTagAt(s, j).None?
  }

  lemma NoTagFromStep(s: string, i: nat)
    requires i < |s|
    ensures NoTagFrom(s, i) <==> OpenTagAt(s, i).None? && NoTagFrom(s, i + 1)
  {
  }

  /** One step of the scan: a match at `i` is kept and skipped over. */
  lemma LastTagFromStep(s: string, i: nat, last: Option<nat>)
    requires i < |s|
    requires last.Some? ==> OpenTagAt(s, last.value).Some?
    ensures OpenTagAt(s, i).Some? ==> LastTagFrom(s, i, last) == LastTagFrom(s, OpenTagAt(s, i).value.1, Some(i))
    ensures OpenTagAt(s, i).None? ==> LastTagFrom(s, i, last) == LastTagFrom(s, i + 1, last)
  {
  }

  /** A match already kept is never dropped. */
  lemma {:induction false} LastTagKept(s: string, i: nat, last: Option<nat>)
    requires i <= |s| && last.Some? && OpenTagAt(s, last.value).Some?
    ensures LastTagFrom(s, i, last).Some?
    decreases |s| - i
  {
    if i < |s| {
      LastTagFromStep(s, i, last);
      var t := OpenTagAt(s, i);
      if t.Some? {
        LastTagKept(s, t.value.1, Some(i));
      } else {
        LastTagKept(s, i + 1, last);
      }
    }
  }

  /** With no tag ahead, the scan ends with what it had. */
  lemma {:induction false} LastTagNoneAhead(s: string, i: nat, last: Option<nat>)
    requires i <= |s| && NoTagFrom(s, i)
    requires last.Some? ==> OpenTagAt(s, last.value).Some?
    ensures LastTagFrom(s, i, last) == last
    decreases |s| - i
  {
    if i < |s| {
      NoTagFromStep(s, i);
      LastTagFromStep(s, i, last);
      LastTagNoneAhead(s, i + 1, last);
    }
  }

  /** A tag ahead, at `j`, is found. */
  lemma {:induction false} LastTagAhead(s: string, i: nat, last: Option<nat>, j: nat)
    requires i <= j < |s| && OpenTagAt(s, j).Some?
    requires last.Some? ==> OpenTagAt(s, last.value).Some?
    ensures LastTagFrom(s, i, last).Some?
    decreases j - i
  {
    LastTagFromStep(s, i, last);
    var t := OpenTagAt(s, i);
    if t.Some? {
      LastTagKept(s, t.value.1, Some(i));
    } else {
      LastTagAhead(s, i + 1, last, j);
    }
  }

  /** The scan finds a tag exactly when the text holds one. */
  lemma LastTagFound(s: string, i: nat, last: Option<nat>)
    requires i <= |s|
    requires last.Some? ==> OpenTagAt(s, last.value).Some?
    ensures LastTagFrom(s, i, last).None? <==> last.None? && NoTagFrom(s, i)
  {
    if last.Some? {
      LastTagKept(s, i, last);
    } else if NoTagFrom(s, i) {
      LastTagNoneAhead(s, i, last);
    } else {
      var j :| i <= j < |s| && OpenTagAt(s, j).Some?;
      LastTagAhead(s, i, last, j);
    }
  }

  /** `LastTagName` names the tag of the last match, and there is none
      exactly when no opening tag occurs. */
  lemma LastTagNameSpec(s: string)
    ensures LastTagName(s).None? <==> NoTagFrom(s, 0)
    ensures LastTagName(s).Some? ==>
              exists j :: && 0 <= j < |s| && OpenTagAt(s, j).Some?
                          && LastTagName(s).value == s[j + 1..OpenTagAt(s, j).value.0]
                          && forall k :: OpenTagAt(s, j).value.1 <= k < |s| ==> OpenTagAt(s, k).None?
  {
    LastTagFound(s, 0, None);
    LastTagIsLast(s, 0, None);
    var last := LastTagFrom(s, 0, None);
    if last.Some? {
      NoTagBetweenAll(s, OpenTagAt(s, last.value).value.1, |s|);
    }
  }

  /** The closing tag the HTML rule inserts, when it applies: the caret
      follows a `<`, stands before a `/`, and the text before it holds an
      opening tag. */
  function ClosingTag(value: string, language: Language, start: int): (r: Option<string>)
    ensures r.Some? ==> language == Html && Slice(value, start - 1, start) == "<"
                        && Slice(value, start, start + 1) == "/"
    ensures r.Some? ==> LastTagName(Slice(value, 0, start)).Some?
                        && r.value == "/" + LastTagName(Slice(value, 0, start)).value + ">"
  {
    if language == Html && Slice(value, start - 1, start) == "<" then
      var name := LastTagName(Slice(value, 0, start));
      if name.Some? && Slice(value, start, start + 1) == "/" then Some("/" + name.value + ">") else None
    else None
  }

  /** `match(/\\$/)`: the text ends with a backslash. */
  predicate EndsWithBackslash(s: string) {
    |s| > 0 && s[|s| - 1] == '\\'
  }

  /** The closer for the character before the caret, or `""`. */
  function BracketCloser(value: string, start: int): (r: string)
    ensures |r| <= 1
  {
    var lastChar := Slice(value, start - 1, start);
    if lastChar == "{" then "}"
    else if lastChar == "(" then ")"
    else if lastChar == "[" then "]"
    else if lastChar == "\"" && !EndsWithBackslash(Slice(value, 0, start - 1)) then "\""
    else if lastChar == "'" && !EndsWithBackslash(Slice(value, 0, start - 1)) then "'"
    else ""
  }

  /** `handleInput`: the HTML rule, else the bracket rule. The HTML rule
      moves the caret past the closing tag; the bracket rule leaves it
      between the brackets. The two rules never both apply, since the first
      needs a `<` before the caret. */
  function Input(value: string, language: Language, start: int): (r: Option<TextEdit>)
    ensures 0 <= start <= |value| && r.Some? ==>
              var v := r.value.value;
              && 0 < start && |v| > |value| && v[..start] == value[..start]
              && v[|v| - (|value| - start)..] == value[start..]
              && start <= r.value.caret <= start + (|v| - |value|)
  {
    SliceAround(value, start);
    match ClosingTag(value, language, start)
    case Some(tag) =>
      Some(TextEdit(Slice(value, 0, start) + tag + Slice(value, start, |value|), start + |tag|))
    case None =>
      var closer := BracketCloser(value, start);
      if closer == "" then None
      else Some(TextEdit(Slice(value, 0, start) + closer + Slice(value, start, |value|), start))
  }

  /** The closer of an opening bracket or quote. */
  function CloserOf(c: char): Option<char> {
    if c == '{' then Some('}')
    else if c == '(' then Some(')')
    else if c == '[' then Some(']')
    else if c == '"' then Some('"')
    else if c == '\'' then Some('\'')
    else None
  }

  /** After an opening bracket, or a quote not escaped by a backslash, the
      closer is inserted at the caret and the caret stays where it was;
      after anything else, and after an escaped quote, nothing happens. */
  lemma InputClosesBracket(value: string, language: Language, start: int)
    requires 0 < start <= |value|
    ensures var c := value[start - 1];
            var escaped := (c == '"' || c == '\'') && start >= 2 && value[start - 2] == '\\';
            Input(value, language, start)
            == if CloserOf(c).Some? && !escaped
               then Some(TextEdit(value[..start] + [CloserOf(c).value] + value[start..], start))
               else if c == '<' then Input(value, language, start)
               else None
  {
    var c := value[start - 1];
    BracketCloserOf(value, start);
    SliceAround(value, start);
    assert Slice(value, start - 1, start) == [c];
    if c != '<' {
      assert ClosingTag(value, language, start).None?;
    }
  }

  /** The bracket rule's closer, read off the character before the caret. */
  lemma BracketCloserOf(value: string, start: int)
    requires 0 < start <= |value|
    ensures var c := value[start - 1];
            var escaped := (c == '"' || c == '\'') && start >= 2 && value[start - 2] == '\\';
            BracketCloser(value, start) == if CloserOf(c).Some? && !escaped then [CloserOf(c).value] else ""
  {
    var c := value[start - 1];
    assert Slice(value, start - 1, start) == [c];
    if start >= 2 {
      assert Slice(value, 0, start - 1) == value[..start - 1];
    } else {
      assert Slice(value, 0, start - 1) == "";
    }
  }

  /** Nothing is inserted at the very start of the text. */
  lemma InputAtStart(value: string, language: Language)
    ensures Input(value, language, 0).None?
  {
    assert Slice(value, -1, 0) == "";
  }

  lemma SliceAround(value: string, start: int)
    ensures 0 <= start <= |value| ==>
              Slice(value, 0, start) == value[..start] && Slice(value, start, |value|) == value[start..]
  {
  }

  /** The HTML rule, once it applies, inserts its closing tag and moves the caret past it. */
  lemma InputWithTag(value: string, language: Language, start: int, tag: string)
    requires ClosingTag(value, language, start) == Some(tag)
    ensures Input(value, language, start)
         == Some(TextEdit(Slice(value, 0, start) + tag + Slice(value, start, |value|), start + |tag|))
  {
  }

  /** After `<` and before `/`, the HTML rule applies with the last opening tag's name. */
  lemma ClosingTagAfterSlash(value: string, start: int, name: string)
    requires 0 < start < |value| && value[start - 1] == '<' && value[start] == '/'
    requires LastTagName(value[..start]) == Some(name)
    ensures ClosingTag(value, Html, start) == Some("/" + name + ">")
  {
    assert Slice(value, start - 1, start) == "<";
    assert Slice(value, start, start + 1) == "/";
    assert Slice(value, 0, start) == value[..start];
  }

  /** In HTML, typing `/` after `<` inserts the rest of a closing tag for
      the last opening tag before the caret, and puts the caret after it. */
  lemma InputClosesTag(value: string, start: int, name: string)
    requires 0 < start < |value| && value[start - 1] == '<' && value[start] == '/'
    requires LastTagName(value[..start]) == Some(name)
    ensures Input(value, Html, start)
         == Some(TextEdit(value[..start] + ("/" + name + ">") + value[start..], start + |name| + 2))
  {
    ClosingTagAfterSlash(value, start, name);
    InputWithTag(value, Html, start, "/" + name + ">");
    SliceAround(value, start);
  }

  /** The text area the handlers act on, with its selection. */
  class CodeTextArea {
    const language: Language
    var value: string
    var selectionStart: int
    var selectionEnd: int

    constructor (language: Language, value: string)
      ensures this.language == language && this.value == value
      ensures selectionStart == |value| && selectionEnd == |value|
    {
      this.language := language;
      this.value := value;
      selectionStart := |value|;
      selectionEnd := |value|;
    }

    /** Applies an edit: the new text, and a collapsed selection at its caret. */
    method Apply(edit: Option<TextEdit>)
      modifies this
      ensures edit.Some? ==> value == edit.value.value
                             && selectionStart == edit.value.caret && selectionEnd == edit.value.caret
      ensures edit.None? ==> value == old(value) && selectionStart == old(selectionStart)
                             && selectionEnd == old(selectionEnd)
    {
      if edit.Some? {
        value := edit.value.value;
        selectionStart := edit.value.caret;
        selectionEnd := edit.value.caret;
      }
    }

    /** A key press, followed by its caret timer. */
    method HandleKeyDown(key: string)
      modifies this
      ensures key == "Tab" && ValidSelection(old(value), old(selectionStart), old(selectionEnd)) ==>
                && value == old(value)[..old(selectionStart)] + "  " + old(value)[old(selectionEnd)..]
                && selectionStart == selectionEnd == old(selectionStart) + 2
      ensures key != "Tab" ==> value == old(value) && selectionStart == old(selectionStart)
                               && selectionEnd == old(selectionEnd)
    {
      Apply(KeyDown(value, key, selectionStart, selectionEnd));
    }

    /** An input event, followed by its caret timer. */
    method HandleInput()
      modifies this
      ensures var edit := Input(old(value), language, old(selectionStart));
              edit.Some? ==> value == edit.value.value && selectionStart == selectionEnd == edit.value.caret
      ensures Input(old(value), language, old(selectionStart)).None? ==>
                value == old(value) && selectionStart == old(selectionStart) && selectionEnd == old(selectionEnd)
    {
      Apply(Input(value, language, selectionStart));
    }
  }
}
