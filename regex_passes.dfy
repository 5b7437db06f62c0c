/**
  * The global regular-expression replacements the application performs,
  * each written as a left-to-right scanner that finds the leftmost match,
  * takes the shortest span a lazy quantifier allows, emits the replacement
  * and resumes after the match, as `String.prototype.replace` with a `g`
  * flag does. Only the pattern shapes that occur in the source are covered.
  */
module RegexPasses {
  import opened Optional
  import opened JsText

  /** Offset `i` is a position where `^` matches in multiline mode. */
  predicate AtLineStart(s: string, i: nat)
    requires i <= |s|
  {
    i == 0 || IsLineTerminator(s[i - 1])
  }

  /** The end of the line through offset `k`: where `(.*$)` in multiline mode stops. */
  function LineEnd(s: string, k: nat): (e: nat)
    requires k <= |s|
    ensures k <= e <= |s|
    ensures forall j :: k <= j < e ==> !IsLineTerminator(s[j])
    ensures e < |s| ==> IsLineTerminator(s[e])
    decreases |s| - k
  {
    if k == |s| || IsLineTerminator(s[k]) then k else LineEnd(s, k + 1)
  }

  /** `s.replace(/^PREFIX(.*$)/gm, open + "$1" + close)` from offset `i` on. */
  function LinePassFrom(s: string, i: nat, prefix: string, open: string, close: string): (r: string)
    requires i <= |s| && |prefix| > 0
    ensures (forall j :: i <= j < |s| && AtLineStart(s, j) ==> !StartsAt(s, j, prefix)) ==> r == s[i..]
    decreases |s| - i
  {
    if i == |s| then ""
    else if AtLineStart(s, i) && StartsAt(s, i, prefix) then
      var e := LineEnd(s, i + |prefix|);
      open + s[i + |prefix|..e] + close + LinePassFrom(s, e, prefix, open, close)
    else
      assert s[i..] == [s[i]] + s[i + 1..];
      [s[i]] + LinePassFrom(s, i + 1, prefix, open, close)
  }

  /** `s.replace(/^PREFIX(.*$)/gm, open + "$1" + close)`: a text in which no
      line starts with the prefix is left as it is. */
  function LinePass(s: string, prefix: string, open: string, close: string): (r: string)
    requires |prefix| > 0
    ensures (forall j :: 0 <= j < |s| && AtLineStart(s, j) ==> !StartsAt(s, j, prefix)) ==> r == s
  {
    LinePassFrom(s, 0, prefix, open, close)
  }

  /** On a text of one line a line pass rewrites that line when it starts
      with the prefix, and changes nothing otherwise. */
  lemma LinePassOneLine(s: string, prefix: string, open: string, close: string)
    requires |prefix| > 0
    requires forall j :: 0 <= j < |s| ==> NotLineTerminator(s[j])
    ensures LinePass(s, prefix, open, close)
         == if StartsAt(s, 0, prefix) then open + s[|prefix|..] + close else s
  {
    if StartsAt(s, 0, prefix) {
      assert LineEnd(s, |prefix|) == |s|;
      assert LinePassFrom(s, |s|, prefix, open, close) == "";
    } else {
      assert forall j :: 0 < j <= |s| ==> !AtLineStart(s, j);
    }
  }

  /** The lazy search behind `(X*?)CLOSE` for a group starting at `start`,
      tried at `k` and beyond: the first offset where at least `minLen`
      characters of class `allowed` have been taken and `close` follows. */
  function FindClose(s: string, start: nat, k: nat, close: string, minLen: nat, allowed: char -> bool): (r: Option<nat>)
    requires start <= k <= |s|
    requires forall j :: start <= j < k ==> allowed(s[j])
    ensures r.Some? ==> k <= r.value && r.value - start >= minLen && StartsAt(s, r.value, close)
    ensures r.Some? ==> forall j :: start <= j < r.value ==> allowed(s[j])
    ensures r.Some? ==> forall j :: k <= j < r.value ==> !(j - start >= minLen && StartsAt(s, j, close))
    decreases |s| - k
  {
    if k - start >= minLen && StartsAt(s, k, close) then Some(k)
    else if k == |s| || !allowed(s[k]) then None
    else FindClose(s, start, k + 1, close, minLen, allowed)
  }

  /** `s.replace(/OPEN(X*?)CLOSE/g, before + "$1" + after)` from offset `i` on,
      where X is the character class `allowed` and the group takes at least
      `minLen` characters (`[^`]+` is the class without a backquote and
      `minLen` 1: for it the greedy and the lazy match coincide). */
  function LazyPassFrom(s: string, i: nat, open: string, close: string, minLen: nat,
                        allowed: char -> bool, before: string, after: string): (r: string)
    requires i <= |s| && |open| > 0
    ensures |before| + |after| <= |open| + |close| ==> |r| <= |s| - i
    decreases |s| - i
  {
    if i == |s| then ""
    else if StartsAt(s, i, open) then
      match FindClose(s, i + |open|, i + |open|, close, minLen, allowed)
      case Some(e) =>
        before + s[i + |open|..e] + after + LazyPassFrom(s, e + |close|, open, close, minLen, allowed, before, after)
      case None =>
        [s[i]] + LazyPassFrom(s, i + 1, open, close, minLen, allowed, before, after)
    else
      [s[i]] + LazyPassFrom(s, i + 1, open, close, minLen, allowed, before, after)
  }

  /** A delimited pass over the whole text: a text in which the opening
      delimiter never starts is left as it is. */
  function LazyPass(s: string, open: string, close: string, minLen: nat,
                    allowed: char -> bool, before: string, after: string): (r: string)
    requires |open| > 0
    ensures (forall m :: 0 <= m < |s| ==> !StartsAt(s, m, open)) ==> r == s
  {
    NoOpenCopied(s, open, close, minLen, allowed, before, after);
    LazyPassFrom(s, 0, open, close, minLen, allowed, before, after)
  }

  lemma LazyPassStep(s: string, i: nat, open: string, close: string, minLen: nat,
                     allowed: char -> bool, before: string, after: string)
    requires i < |s| && |open| > 0 && !StartsAt(s, i, open)
    ensures LazyPassFrom(s, i, open, close, minLen, allowed, before, after)
         == [s[i]] + LazyPassFrom(s, i + 1, open, close, minLen, allowed, before, after)
  {
  }

  lemma SliceCons<T>(s: seq<T>, i: nat, j: nat)
    requires i < j <= |s|
    ensures s[i..j] == [s[i]] + s[i + 1..j]
  {
  }

  lemma SeqConsAppend<T>(x: T, a: seq<T>, b: seq<T>)
    ensures [x] + (a + b) == ([x] + a) + b
  {
  }

  /** A stretch in which the opening delimiter does not start is copied as it is. */
  lemma {:induction false} LazyPassSkip(s: string, i: nat, j: nat, open: string, close: string, minLen: nat,
                                        allowed: char -> bool, before: string, after: string)
    requires i <= j <= |s| && |open| > 0
    requires forall m :: i <= m < j ==> !StartsAt(s, m, open)
    ensures LazyPassFrom(s, i, open, close, minLen, allowed, before, after)
         == s[i..j] + LazyPassFrom(s, j, open, close, minLen, allowed, before, after)
    decreases j - i
  {
    if i < j {
      var rest := LazyPassFrom(s, j, open, close, minLen, allowed, before, after);
      var tail := LazyPassFrom(s, i + 1, open, close, minLen, allowed, before, after);
      var mid := s[i + 1..j];
      assert LazyPassFrom(s, i, open, close, minLen, allowed, before, after) == [s[i]] + tail by {
        LazyPassStep(s, i, open, close, minLen, allowed, before, after);
      }
      assert tail == mid + rest by {
        LazyPassSkip(s, i + 1, j, open, close, minLen, allowed, before, after);
      }
      assert s[i..j] == [s[i]] + mid by {
        SliceCons(s, i, j);
      }
      SeqConsAppend(s[i], mid, rest);
    } else {
      assert s[i..j] == [];
    }
  }

  lemma NoOpenCopied(s: string, open: string, close: string, minLen: nat,
                     allowed: char -> bool, before: string, after: string)
    requires |open| > 0
    ensures (forall m :: 0 <= m < |s| ==> !StartsAt(s, m, open))
            ==> LazyPassFrom(s, 0, open, close, minLen, allowed, before, after) == s
  {
    if forall m :: 0 <= m < |s| ==> !StartsAt(s, m, open) {
      LazyPassSkip(s, 0, |s|, open, close, minLen, allowed, before, after);
      assert s[0..|s|] == s;
    }
  }

  /** The match of `\[(.*?)\]\((.*?)\)` whose text group starts at `start`,
      with the text's end tried at `j` and beyond: the offset of `](` and the
      offset of the closing parenthesis. The text grows past a `](` whose
      address finds no `)` on its line. */
  function FindLink(s: string, start: nat, j: nat): (r: Option<(nat, nat)>)
    requires start <= j <= |s|
    requires forall m :: start <= m < j ==> NotLineTerminator(s[m])
    ensures r.Some? ==> j <= r.value.0 && StartsAt(s, r.value.0, "](")
                        && r.value.0 + 2 <= r.value.1 < |s| && s[r.value.1] == ')'
    ensures r.Some? ==> forall m :: start <= m < r.value.0 ==> NotLineTerminator(s[m])
    decreases |s| - j
  {
    if StartsAt(s, j, "](") && FindClose(s, j + 2, j + 2, ")", 0, NotLineTerminator).Some? then
      Some((j, FindClose(s, j + 2, j + 2, ")", 0, NotLineTerminator).value))
    else if j == |s| || IsLineTerminator(s[j]) then None
    else FindLink(s, start, j + 1)
  }

  /** A `](` at `m` whose address finds a `)` on its line. */
  predicate LinkBreakAt(s: string, m: nat) {
    StartsAt(s, m, "](") && FindClose(s, m + 2, m + 2, ")", 0, NotLineTerminator).Some?
  }

  /** The address group of a link match ends at the first `)` after its `](`. */
  lemma {:induction false} FindLinkCloses(s: string, start: nat, j: nat)
    requires start <= j <= |s|
    requires forall m :: start <= m < j ==> NotLineTerminator(s[m])
    ensures var r := FindLink(s, start, j);
            r.Some? ==> FindClose(s, r.value.0 + 2, r.value.0 + 2, ")", 0, NotLineTerminator) == Some(r.value.1)
    decreases |s| - j
  {
    if !LinkBreakAt(s, j) && !(j == |s| || IsLineTerminator(s[j])) {
      FindLinkCloses(s, start, j + 1);
    }
  }

  /** The text group of a link match ends at the first `](` from `j` on whose
      address finds a `)` on its line. */
  lemma {:induction false} FindLinkFirst(s: string, start: nat, j: nat)
    requires start <= j <= |s|
    requires forall m :: start <= m < j ==> NotLineTerminator(s[m])
    ensures var r := FindLink(s, start, j);
            r.Some? ==> forall m :: j <= m < r.value.0 ==> !LinkBreakAt(s, m)
    decreases |s| - j
  {
    if !LinkBreakAt(s, j) && !(j == |s| || IsLineTerminator(s[j])) {
      FindLinkFirst(s, start, j + 1);
    }
  }

  /** `s.replace(/\[(.*?)\]\((.*?)\)/g, …)` from offset `i` on, with the
      replacement computed by `emit(text, url)`. */
  function LinkPassFrom(s: string, i: nat, emit: (string, string) -> string): (r: string)
    requires i <= |s|
    ensures (forall j :: i <= j < |s| ==> s[j] != '[') ==> r == s[i..]
    decreases |s| - i
  {
    if i == |s| then ""
    else if s[i] == '[' then
      match FindLink(s, i + 1, i + 1)
      case Some((j, k)) => emit(s[i + 1..j], s[j + 2..k]) + LinkPassFrom(s, k + 1, emit)
      case None => [s[i]] + LinkPassFrom(s, i + 1, emit)
    else
      assert s[i..] == [s[i]] + s[i + 1..];
      [s[i]] + LinkPassFrom(s, i + 1, emit)
  }

  /** The link pass over the whole text: a text without `[` is left as it is. */
  function LinkPass(s: string, emit: (string, string) -> string): (r: string)
    ensures (forall j :: 0 <= j < |s| ==> s[j] != '[') ==> r == s
  {
    LinkPassFrom(s, 0, emit)
  }

  /** How many `#` the greedy `#{1,6}` takes at `i`, counting from `n` taken. */
  function HashRun(s: string, i: nat, n: nat): (r: nat)
    requires n <= 6 && i + n <= |s|
    ensures n <= r <= 6 && i + r <= |s|
    ensures forall j :: i + n <= j < i + r ==> s[j] == '#'
    ensures r < 6 && i + r < |s| ==> s[i + r] != '#'
    decreases 6 - n
  {
    if n == 6 || i + n == |s| || s[i + n] != '#' then n else HashRun(s, i, n + 1)
  }

  /** The end of a match of `#{1,6}\s` at `i`, if there is one. Giving back
      `#`s cannot help, since the character after them would be a `#`. */
  function HeadingMarkAt(s: string, i: nat): (r: Option<nat>)
    requires i < |s|
    ensures r.Some? ==> i + 2 <= r.value <= |s| && IsWhitespace(s[r.value - 1])
  {
    if s[i] != '#' then None
    else
      var n := HashRun(s, i, 1);
      if i + n < |s| && IsWhitespace(s[i + n]) then Some(i + n + 1) else None
  }

  /** `s.replace(/#{1,6}\s/g, '')` from offset `i` on. */
  function StripHeadingMarksFrom(s: string, i: nat): (r: string)
    requires i <= |s|
    ensures (forall j :: i <= j < |s| ==> s[j] != '#') ==> r == s[i..]
    ensures |r| <= |s| - i
    decreases |s| - i
  {
    if i == |s| then ""
    else match HeadingMarkAt(s, i)
      case Some(e) => StripHeadingMarksFrom(s, e)
      case None =>
        assert s[i..] == [s[i]] + s[i + 1..];
        [s[i]] + StripHeadingMarksFrom(s, i + 1)
  }

  /** `s.replace(/#{1,6}\s/g, '')` over the whole text: never longer, and a
      text without `#` is left as it is. */
  function StripHeadingMarks(s: string): (r: string)
    ensures |r| <= |s|
    ensures (forall j :: 0 <= j < |s| ==> s[j] != '#') ==> r == s
  {
    StripHeadingMarksFrom(s, 0)
  }
}
