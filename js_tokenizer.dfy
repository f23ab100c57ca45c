/** The backtracking recogniser for ECMA-262 comments (section 12.4,
    "Comments"), as the program's JavaScript tokenizer writes it: every
    sub-recogniser either matches and leaves the cursor after what it
    consumed, or fails and puts the cursor back where it was. */
module JsTokenizer {
  import opened Wrappers
  import JsLexical

  // ---------------------------------------------------------------------
  // What each recogniser does, as a function of the input and the cursor:
  // `Some(q)` is a match ending at `q`, `None` a failure.

  /** The cursor after an optional sub-match: where it ended, or unchanged. */
  function Opt(m: Option<nat>, p: nat): (q: nat)
    ensures m.Some? ==> q == m.value
    ensures m.None? ==> q == p
  {
    if m.Some? then m.value else p
  }

  /** The text at `pos` starts with `s`. */
  predicate At(input: seq<char>, pos: nat, s: string) {
    pos + |s| <= |input| && input[pos..pos + |s|] == s
  }

  /** MultiLineNotAsteriskChar: any character except `*`. */
  function NotAsteriskChar(input: seq<char>, pos: nat): (m: Option<nat>)
    ensures m.Some? <==> pos < |input| && input[pos] != '*'
    ensures m.Some? ==> m.value == pos + 1
  {
    if pos < |input| && input[pos] != '*' then Some(pos + 1) else None
  }

  /** MultiLineNotForwardSlashOrAsteriskChar: any character except `/` and `*`. */
  function NotSlashOrAsteriskChar(input: seq<char>, pos: nat): (m: Option<nat>)
    ensures m.Some? <==> pos < |input| && input[pos] != '/' && input[pos] != '*'
    ensures m.Some? ==> m.value == pos + 1
  {
    if pos < |input| && input[pos] != '/' && input[pos] != '*' then Some(pos + 1) else None
  }

  /** SingleLineCommentChar: any character that is not a line terminator. */
  function SingleLineCommentChar(input: seq<char>, pos: nat): (m: Option<nat>)
    ensures m.Some? <==> pos < |input| && !JsLexical.LineTerminator(input[pos] as int)
    ensures m.Some? ==> m.value == pos + 1
  {
    if pos < |input| && !JsLexical.LineTerminator(input[pos] as int) then Some(pos + 1) else None
  }

  /** SingleLineCommentChars: one comment character, then optionally more. */
  function SingleLineCommentChars(input: seq<char>, pos: nat): (m: Option<nat>)
    ensures m.Some? ==> pos < m.value <= |input|
    ensures m.None? <==> SingleLineCommentChar(input, pos).None?
    decreases |input| - pos
  {
    match SingleLineCommentChar(input, pos)
    case Some(p) => Some(Opt(SingleLineCommentChars(input, p), p))
    case None => None
  }

  /** MultiLineCommentChars: a non-`*` character and optionally more, or
      a `*` and optionally PostAsteriskCommentChars. */
  function MultiLineCommentChars(input: seq<char>, pos: nat): (m: Option<nat>)
    ensures m.Some? ==> pos < m.value <= |input|
    ensures m.None? <==> pos >= |input|
    decreases |input| - pos
  {
    match NotAsteriskChar(input, pos)
    case Some(p) => Some(Opt(MultiLineCommentChars(input, p), p))
    case None =>
      if pos < |input| && input[pos] == '*' then
        Some(Opt(PostAsteriskCommentChars(input, pos + 1), pos + 1))
      else None
  }

  /** PostAsteriskCommentChars: a character other than `/` and `*`, then
      optionally MultiLineCommentChars, or another `*` and optionally more. */
  function PostAsteriskCommentChars(input: seq<char>, pos: nat): (m: Option<nat>)
    ensures m.Some? ==> pos < m.value <= |input|
    ensures m.None? <==> pos >= |input| || input[pos] == '/'
    decreases |input| - pos
  {
    match NotSlashOrAsteriskChar(input, pos)
    case Some(p) => Some(Opt(MultiLineCommentChars(input, p), p))
    case None =>
      if pos < |input| && input[pos] == '*' then
        Some(Opt(PostAsteriskCommentChars(input, pos + 1), pos + 1))
      else None
  }

  /** MultiLineComment: `/` `*`, optional MultiLineCommentChars, `*` `/`. */
  function MultiLineComment(input: seq<char>, pos: nat): (m: Option<nat>)
    ensures m.Some? ==> pos + 4 <= m.value <= |input|
  {
    if At(input, pos, "/*") then
      var q := Opt(MultiLineCommentChars(input, pos + 2), pos + 2);
      if At(input, q, "*/") then Some(q + 2) else None
    else None
  }

  /** SingleLineComment: `//` and optional SingleLineCommentChars. */
  function SingleLineComment(input: seq<char>, pos: nat): (m: Option<nat>)
    ensures m.Some? <==> At(input, pos, "//")
    ensures m.Some? ==> pos + 2 <= m.value <= |input|
  {
    if At(input, pos, "//") then Some(Opt(SingleLineCommentChars(input, pos + 2), pos + 2)) else None
  }

  /** Comment: a multi-line comment, or else a single-line one. */
  function Comment(input: seq<char>, pos: nat): (m: Option<nat>)
    ensures m.Some? <==> MultiLineComment(input, pos).Some? || SingleLineComment(input, pos).Some?
  {
    match MultiLineComment(input, pos)
    case Some(q) => Some(q)
    case None => SingleLineComment(input, pos)
  }

  // ---------------------------------------------------------------------
  // The recognisers over a shared cursor

  /** The tokenizer: the input and a cursor into it. Taking a snapshot of
      the cursor and restoring it are reading and assigning `pos`. */
  class Tokenizer {
    var input: seq<char>
    var pos: nat

    constructor(js: string)
      ensures input == js && pos == 0
    {
      input := js;
      pos := 0;
    }

    /** The next character, without consuming it. */
    function Peek(): (c: Option<char>)
      reads this
      ensures c.Some? <==> pos < |input|
      ensures c.Some? ==> c.value == input[pos]
    {
      if pos < |input| then Some(input[pos]) else None
    }

    /** Whether the next `|s|` characters, peeked without consuming, are `s`. */
    function PeekIs(s: string): bool
      reads this
    {
      At(input, pos, s)
    }

    method MultiLineNotAsteriskChar() returns (r: bool)
      modifies this
      ensures input == old(input)
      ensures r == NotAsteriskChar(input, old(pos)).Some?
      ensures pos == Opt(NotAsteriskChar(input, old(pos)), old(pos))
    {
      match Peek()
      case Some(c) =>
        if c == '*' {
          return false;
        }
        pos := pos + 1;
        return true;
      case None =>
        return false;
    }

    method MultiLineNotForwardSlashOrAsteriskChar() returns (r: bool)
      modifies this
      ensures input == old(input)
      ensures r == NotSlashOrAsteriskChar(input, old(pos)).Some?
      ensures pos == Opt(NotSlashOrAsteriskChar(input, old(pos)), old(pos))
    {
      match Peek()
      case Some(c) =>
        if c == '/' || c == '*' {
          return false;
        }
        pos := pos + 1;
        return true;
      case None =>
        return false;
    }

    method SingleLineCommentCharStep() returns (r: bool)
      modifies this
      ensures input == old(input)
      ensures r == SingleLineCommentChar(input, old(pos)).Some?
      ensures pos == Opt(SingleLineCommentChar(input, old(pos)), old(pos))
    {
      match Peek()
      case Some(c) =>
        if JsLexical.LineTerminator(c as int) {
          return false;
        }
        pos := pos + 1;
        return true;
      case None =>
        return false;
    }

    method SingleLineCommentCharsStep() returns (r: bool)
      modifies this
      ensures input == old(input)
      ensures r == SingleLineCommentChars(input, old(pos)).Some?
      ensures pos == Opt(SingleLineCommentChars(input, old(pos)), old(pos))
      decreases |input| - pos
    {
      var state := pos;
      var matched := SingleLineCommentCharStep();
      if matched {
        var _ := SingleLineCommentCharsStep();
        return true;
      }
      pos := state;
      return false;
    }

    method MultiLineCommentCharsStep() returns (r: bool)
      modifies this
      ensures input == old(input)
      ensures r == MultiLineCommentChars(input, old(pos)).Some?
      ensures pos == Opt(MultiLineCommentChars(input, old(pos)), old(pos))
      decreases |input| - pos, 1
    {
      var state := pos;
      var matched := MultiLineNotAsteriskChar();
      if matched {
        var _ := MultiLineCommentCharsStep();
        return true;
      }
      pos := state;
      if Peek() == Some('*') {
        pos := pos + 1;
        var _ := PostAsteriskCommentCharsStep();
        return true;
      }
      pos := state;
      return false;
    }

    method PostAsteriskCommentCharsStep() returns (r: bool)
      modifies this
      ensures input == old(input)
      ensures r == PostAsteriskCommentChars(input, old(pos)).Some?
      ensures pos == Opt(PostAsteriskCommentChars(input, old(pos)), old(pos))
      decreases |input| - pos, 1
    {
      var state := pos;
      var matched := MultiLineNotForwardSlashOrAsteriskChar();
      if matched {
        var _ := MultiLineCommentCharsStep();
        return true;
      }
      pos := state;
      if Peek() == Some('*') {
        pos := pos + 1;
        var _ := PostAsteriskCommentCharsStep();
        return true;
      }
      pos := state;
      return false;
    }

    method MultiLineCommentStep() returns (r: bool)
      modifies this
      ensures input == old(input)
      ensures r == MultiLineComment(input, old(pos)).Some?
      ensures pos == Opt(MultiLineComment(input, old(pos)), old(pos))
    {
      var state := pos;
      if PeekIs("/*") {
        pos := pos + 2;
        var _ := MultiLineCommentCharsStep();
        if PeekIs("*/") {
          pos := pos + 2;
          return true;
        }
      }
      pos := state;
      return false;
    }

    method SingleLineCommentStep() returns (r: bool)
      modifies this
      ensures input == old(input)
      ensures r == SingleLineComment(input, old(pos)).Some?
      ensures pos == Opt(SingleLineComment(input, old(pos)), old(pos))
    {
      if PeekIs("//") {
        pos := pos + 2;
        var _ := SingleLineCommentCharsStep();
        return true;
      }
      return false;
    }

    method CommentStep() returns (r: bool)
      modifies this
      ensures input == old(input)
      ensures r == Comment(input, old(pos)).Some?
      ensures pos == Opt(Comment(input, old(pos)), old(pos))
    {
      var state := pos;
      var multi := MultiLineCommentStep();
      if multi {
        return true;
      }
      var single := SingleLineCommentStep();
      if single {
        return true;
      }
      pos := state;
      return false;
    }
  }

  // ---------------------------------------------------------------------
  // Properties

  /** A single-line comment's characters are the longest run of
      non-line-terminators: each is one, and the run stops at a line
      terminator or the end of the input. */
  lemma {:induction false} SingleLineCommentCharsMaximal(input: seq<char>, pos: nat)
    requires pos <= |input|
    ensures var q := Opt(SingleLineCommentChars(input, pos), pos);
      && pos <= q <= |input|
      && (forall i :: pos <= i < q ==> !JsLexical.LineTerminator(input[i] as int))
      && (q == |input| || JsLexical.LineTerminator(input[q] as int))
    decreases |input| - pos
  {
    if SingleLineCommentChar(input, pos).Some? {
      SingleLineCommentCharsMaximal(input, pos + 1);
    }
  }

  /** `//` starts a comment that runs up to the next line terminator or the
      end of the input, and nothing else starts a single-line comment. */
  lemma SingleLineCommentExtent(input: seq<char>, pos: nat)
    ensures SingleLineComment(input, pos).Some? <==> At(input, pos, "//")
    ensures SingleLineComment(input, pos).Some? ==>
      var q := SingleLineComment(input, pos).value;
      && (forall i :: pos + 2 <= i < q ==> !JsLexical.LineTerminator(input[i] as int))
      && (q == |input| || JsLexical.LineTerminator(input[q] as int))
  {
    if At(input, pos, "//") {
      SingleLineCommentCharsMaximal(input, pos + 2);
    }
  }

  /** Where the multi-line character matchers stop: MultiLineCommentChars
      fails only at the end of the input, and both it and
      PostAsteriskCommentChars stop either at the end or on a `/` just
      after a `*` they consumed. */
  lemma {:induction false} MultiLineCharsStop(input: seq<char>, pos: nat)
    requires pos <= |input|
    ensures MultiLineCommentChars(input, pos).None? ==> pos == |input|
    ensures MultiLineCommentChars(input, pos).Some? ==> StopsAfterAsterisk(input, MultiLineCommentChars(input, pos).value)
    ensures 0 < pos && input[pos - 1] == '*' ==> StopsAfterAsterisk(input, Opt(PostAsteriskCommentChars(input, pos), pos))
    decreases |input| - pos
  {
    if pos < |input| {
      MultiLineCharsStop(input, pos + 1);
    }
  }

  /** The end of the input, or a `/` preceded by `*`. */
  predicate StopsAfterAsterisk(input: seq<char>, q: nat) {
    q == |input| || (0 < q < |input| && input[q] == '/' && input[q - 1] == '*')
  }

  /** As written, no multi-line comment is ever recognised: the character
      matchers always consume the `*` of a closing `*` `/`, so the test for
      it never succeeds. */
  lemma MultiLineCommentNeverMatches(input: seq<char>, pos: nat)
    ensures MultiLineComment(input, pos) == None
  {
    if At(input, pos, "/*") {
      MultiLineCharsStop(input, pos + 2);
      var q := Opt(MultiLineCommentChars(input, pos + 2), pos + 2);
      assert StopsAfterAsterisk(input, q);
    }
  }

  /** Hence `comment` recognises exactly the single-line comments. */
  lemma CommentIsSingleLine(input: seq<char>, pos: nat)
    ensures Comment(input, pos) == SingleLineComment(input, pos)
  {
    MultiLineCommentNeverMatches(input, pos);
  }

  /** The input that shows it: the four characters `/` `*` `*` `/` form a comment in ECMA-262, but here the
      recogniser fails on it. */
  lemma EmptyMultiLineCommentRejected()
    ensures Comment("/**/", 0) == None
    ensures StandardMultiLineComment("/**/", 0) == Some(4)
  {
    CommentIsSingleLine("/**/", 0);
    assert !At("/**/", 0, "//") by {
      assert "/**/"[0..2] == "/*";
    }
    assert At("/**/", 0, "/*") by {
      assert "/**/"[0..2] == "/*";
    }
    assert CloseSearch("/**/", 2) == Some(4) by {
      assert At("/**/", 2, "*/") by { assert "/**/"[2..4] == "*/"; }
    }
  }

  // ---------------------------------------------------------------------
  // The multi-line comment as ECMA-262 defines it

  /** The end of the first `*` `/` at or after `k`. */
  function CloseSearch(input: seq<char>, k: nat): (m: Option<nat>)
    ensures m.Some? ==> k + 2 <= m.value <= |input| && At(input, m.value - 2, "*/")
    ensures m.Some? ==> forall j :: k <= j < m.value - 2 ==> !At(input, j, "*/")
    ensures m.None? ==> forall j :: k <= j ==> !At(input, j, "*/")
    decreases |input| - k
  {
    if k + 2 > |input| then None
    else if At(input, k, "*/") then Some(k + 2)
    else CloseSearch(input, k + 1)
  }

  /** The search finds the first `*` `/`. */
  lemma {:induction false} CloseSearchFindsFirst(input: seq<char>, k: nat, e: nat)
    requires k <= e && At(input, e, "*/")
    requires forall j :: k <= j < e ==> !At(input, j, "*/")
    ensures CloseSearch(input, k) == Some(e + 2)
    decreases e - k
  {
    if k < e {
      CloseSearchFindsFirst(input, k + 1, e);
    }
  }

  /** MultiLineComment as the grammar means it: `/` `*`, then characters
      containing no `*` `/`, then `*` `/`. */
  function StandardMultiLineComment(input: seq<char>, pos: nat): (m: Option<nat>)
    ensures m.Some? ==> pos + 4 <= m.value <= |input|
  {
    if At(input, pos, "/*") then CloseSearch(input, pos + 2) else None
  }

  /** `body` has no `*` `/` of its own. */
  predicate NoClose(body: string) {
    forall j :: 0 <= j < |body| - 1 ==> !At(body, j, "*/")
  }

  /** The comment `/` `*`, `body`, `*` `/` is recognised up to its end exactly
      when `body` contains no `*` `/` of its own. */
  lemma StandardMultiLineCommentExact(body: string, rest: seq<char>)
    ensures var input := "/*" + body + "*/" + rest;
      StandardMultiLineComment(input, 0) == Some(|body| + 4) <==> NoClose(body)
  {
    if NoClose(body) {
      NoCloseReachesEnd(body, rest);
    } else {
      CloseInBodyEndsEarly(body, rest);
    }
  }

  /** Where the parts of a comment sit in its input. */
  lemma CommentLayout(body: string, rest: seq<char>)
    ensures var input := "/*" + body + "*/" + rest;
      && |input| == |body| + 4 + |rest|
      && At(input, 0, "/*") && At(input, |body| + 2, "*/")
      && input[|body| + 2] == '*'
      && forall j :: 0 <= j < |body| - 1 ==> (At(input, j + 2, "*/") <==> At(body, j, "*/"))
  {
    var input := "/*" + body + "*/" + rest;
    assert input[0..2] == "/*";
    assert input[|body| + 2..|body| + 4] == "*/";
    forall j | 0 <= j < |body| - 1
      ensures At(input, j + 2, "*/") <==> At(body, j, "*/")
    {
      assert input[j + 2..j + 4] == body[j..j + 2];
    }
  }

  /** With no `*` `/` in the body, the search stops at the closing one. */
  lemma NoCloseReachesEnd(body: string, rest: seq<char>)
    requires NoClose(body)
    ensures StandardMultiLineComment("/*" + body + "*/" + rest, 0) == Some(|body| + 4)
  {
    var input := "/*" + body + "*/" + rest;
    CommentLayout(body, rest);
    forall j | 2 <= j < |body| + 2
      ensures !At(input, j, "*/")
    {
      if j < |body| + 1 {
        assert !At(body, j - 2, "*/");
      } else {
        assert input[j + 1] == '*';
      }
    }
    CloseSearchFindsFirst(input, 2, |body| + 2);
  }

  /** A `*` `/` inside the body ends the comment before the closing one. */
  lemma CloseInBodyEndsEarly(body: string, rest: seq<char>)
    requires !NoClose(body)
    ensures StandardMultiLineComment("/*" + body + "*/" + rest, 0) != Some(|body| + 4)
  {
    var input := "/*" + body + "*/" + rest;
    CommentLayout(body, rest);
    var j :| 0 <= j < |body| - 1 && At(body, j, "*/");
    assert At(input, j + 2, "*/");
  }
}
