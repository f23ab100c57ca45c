/** The HTML tokenizer as the program runs it: a state, mutable builders
    for the current tag and the temporary buffer, the input with a read
    position, and a queue of tokens still to hand out. Each handler is
    proved to do what the matching function of `HtmlTokenizerSpec` says,
    and `Next` what `NextSpec` says. */
module HtmlTokenizer {
  import opened Wrappers
  import opened HtmlDetail
  import opened HtmlTokenizerSpec

  class HtmlTokenizer {
    var input: seq<char>
    var pos: nat
    var state: State
    var returnState: Option<State>
    var lastEmittedTag: Option<TagData>
    var tag: Option<Tag>
    var tempBuf: string
    var tokensToEmit: seq<Token>

    /** The current tag object, if there is one. */
    function TagFrame(): set<object>
      reads this`tag
    {
      if tag.Some? then {tag.value} else {}
    }

    /** The handlers' part of the tokenizer, as a value. */
    function Snapshot(): Machine
      reads this`state, this`returnState, this`lastEmittedTag, this`tag, this`tempBuf, TagFrame()
    {
      Machine(state, returnState, lastEmittedTag, if tag.Some? then Some(tag.value.Data()) else None, tempBuf)
    }

    /** The whole tokenizer, as a value. */
    function Whole(): Tokenizer
      reads this, TagFrame()
    {
      Tokenizer(Snapshot(), tokensToEmit, input, pos)
    }

    predicate Valid()
      reads this
    {
      pos <= |input|
    }

    /** `HtmlTokenizer::new`, with the initial state and the last start tag
        taken as parameters. */
    constructor(html: string, initialState: State, lastEmitted: Option<TagData>)
      ensures Valid()
      ensures Whole() == Tokenizer(Machine(initialState, None, lastEmitted, None, []), [], html, 0)
    {
      input := html;
      pos := 0;
      state := initialState;
      returnState := None;
      lastEmittedTag := lastEmitted;
      tag := None;
      tempBuf := [];
      tokensToEmit := [];
    }

    /** The input's `read()`: the next character, or `None` once the input
        is used up. */
    method Read() returns (c: Option<char>)
      requires Valid()
      modifies this`pos
      ensures Valid()
      ensures old(pos) < |input| ==> c == Some(input[old(pos)]) && pos == old(pos) + 1
      ensures old(pos) == |input| ==> c == None && pos == old(pos)
    {
      if pos < |input| {
        c := Some(input[pos]);
        pos := pos + 1;
      } else {
        c := None;
      }
    }

    // -------------------------------------------------------------------
    // Helpers

    method EndTagAppropriateNow() returns (r: Option<bool>)
      ensures r == EndTagAppropriate(Snapshot())
    {
      match lastEmittedTag
      case None => r := Some(false);
      case Some(last) =>
        if tag.None? {
          r := None;
        } else {
          r := Some(last.name == tag.value.name);
        }
    }

    /** `temp_buf_to_tokens`: one character token per buffered character. */
    method TempBufToTokens() returns (buf: seq<Token>)
      ensures buf == CharTokens(tempBuf)
    {
      buf := [];
      for i := 0 to |tempBuf|
        invariant buf == CharTokens(tempBuf[..i])
      {
        buf := buf + [Character(tempBuf[i])];
        assert buf == CharTokens(tempBuf[..i + 1]);
      }
      assert tempBuf[..|tempBuf|] == tempBuf;
    }

    // -------------------------------------------------------------------
    // The text states

    method HandleData(c: Option<char>) returns (out: Emission)
      modifies this`state, this`returnState
      ensures StepResult(Snapshot(), out) == DataStep(old(Snapshot()), c)
    {
      if c == Some('&') {
        returnState := Some(State.Data);
        state := CharacterReference;
        return Nothing;
      } else if c == Some('<') {
        state := TagOpen;
        return Nothing;
      } else if c == Some('\0') {
        return Emit([Character('\0')]);
      } else if c.None? {
        return Emit([Eof]);
      }
      return Emit([Character(c.value)]);
    }

    method HandleRcdata(c: Option<char>) returns (out: Emission)
      modifies this`state, this`returnState
      ensures StepResult(Snapshot(), out) == RcdataStep(old(Snapshot()), c)
    {
      if c == Some('&') {
        returnState := Some(Rcdata);
        state := CharacterReference;
        return Nothing;
      } else if c == Some('<') {
        state := RcdataLessThanSign;
        return Nothing;
      } else if c == Some('\0') {
        return Emit([Character(REPLACEMENT_CHARACTER)]);
      } else if c.None? {
        return Emit([Eof]);
      }
      return Emit([Character(c.value)]);
    }

    method HandleRawtext(c: Option<char>) returns (out: Emission)
      modifies this`state
      ensures StepResult(Snapshot(), out) == RawtextStep(old(Snapshot()), c)
    {
      if c == Some('<') {
        state := RawtextLessThanSign;
        return Nothing;
      } else if c == Some('\0') {
        return Emit([Character(REPLACEMENT_CHARACTER)]);
      } else if c.None? {
        return Emit([Eof]);
      }
      return Emit([Character(c.value)]);
    }

    method HandleScriptData(c: Option<char>) returns (out: Emission)
      modifies this`state
      ensures StepResult(Snapshot(), out) == ScriptDataStep(old(Snapshot()), c)
    {
      if c == Some('<') {
        state := ScriptDataLessThanSign;
        return Nothing;
      } else if c == Some('\0') {
        return Emit([Character(REPLACEMENT_CHARACTER)]);
      } else if c.None? {
        return Emit([Eof]);
      }
      return Emit([Character(c.value)]);
    }

    method HandlePlaintext(c: Option<char>) returns (out: Emission)
      ensures StepResult(Snapshot(), out) == PlaintextStep(Snapshot(), c)
    {
      if c == Some('\0') {
        return Emit([Character(REPLACEMENT_CHARACTER)]);
      } else if c.None? {
        return Emit([Eof]);
      }
      return Emit([Character(c.value)]);
    }

    /** The RCDATA or RAWTEXT handler, whichever `k` names. */
    method HandleText(k: TextKind, c: Option<char>) returns (out: Emission)
      modifies this`state, this`returnState
      ensures StepResult(Snapshot(), out) == TextStep(k, old(Snapshot()), c)
    {
      match k
      case RcdataText => out := HandleRcdata(c);
      case RawtextText => out := HandleRawtext(c);
    }

    // -------------------------------------------------------------------
    // Tags

    /** Appends `c` to the current tag's name, which must be there. */
    method PushToTag(c: char) returns (out: Emission)
      modifies TagFrame()
      ensures StepResult(Snapshot(), out) == PushToTagName(old(Snapshot()), c)
    {
      if tag.None? {
        return Panicked(TagMissing);
      }
      tag.value.name := tag.value.name + [c];
      return Nothing;
    }

    method HandleTagName(c: Option<char>) returns (out: Emission)
      modifies this`state, TagFrame()
      ensures StepResult(Snapshot(), out) == TagNameStep(old(Snapshot()), c)
    {
      if c.Some? && IsAsciiWhitespace(c.value) {
        state := BeforeAttributeName;
        return Nothing;
      } else if c == Some('/') {
        state := SelfClosingStartTag;
        return Nothing;
      } else if c == Some('>') {
        state := State.Data;
        if tag.Some? {
          var copy := tag.value.Clone();
          return Emit([Token.Tag(copy)]);
        }
        return Nothing;
      } else if c.Some? && IsAsciiUpperAlpha(c.value) {
        out := PushToTag(LowercaseFromAsciiUpper(c.value).value);
      } else if c == Some('\0') {
        out := PushToTag(REPLACEMENT_CHARACTER);
      } else if c.None? {
        return Emit([Eof]);
      } else {
        out := PushToTag(c.value);
      }
    }

    method HandleTagOpen(c: Option<char>) returns (out: Emission)
      modifies this`state, this`returnState, this`tag, TagFrame()
      ensures tag.Some? ==> tag == old(tag) || fresh(tag.value)
      ensures StepResult(Snapshot(), out) == TagOpenStep(old(Snapshot()), c)
    {
      if c == Some('!') {
        state := MarkupDeclarationOpen;
        return Nothing;
      } else if c == Some('/') {
        state := EndTagOpen;
        return Nothing;
      } else if c.Some? && IsAsciiAlpha(c.value) {
        var t := new Tag(false);
        tag := Some(t);
        out := HandleTagName(c);
      } else if c == Some('?') {
        return Panicked(Unimplemented(BogusComment));
      } else if c.None? {
        return Emit([Character('<'), Eof]);
      } else {
        var reconsumed := HandleData(c);
        return Emit([Character('<')] + TokensOf(reconsumed));
      }
    }

    method HandleEndTagOpen(c: Option<char>) returns (out: Emission)
      modifies this`state, this`tag, TagFrame()
      ensures tag.Some? ==> tag == old(tag) || fresh(tag.value)
      ensures StepResult(Snapshot(), out) == EndTagOpenStep(old(Snapshot()), c)
    {
      if c.Some? && IsAsciiAlpha(c.value) {
        var t := new Tag(true);
        tag := Some(t);
        out := HandleTagName(c);
      } else if c == Some('<') {
        state := State.Data;
        return Nothing;
      } else if c.None? {
        return Emit([Character('<'), Character('/'), Eof]);
      } else {
        return Panicked(Unimplemented(BogusComment));
      }
    }

    // -------------------------------------------------------------------
    // RCDATA and RAWTEXT end tags

    method HandleLessThanSign(k: TextKind, c: Option<char>) returns (out: Emission)
      modifies this`state, this`returnState, this`tempBuf
      ensures StepResult(Snapshot(), out) == LessThanSignStep(k, old(Snapshot()), c)
    {
      if c == Some('/') {
        tempBuf := [];
        state := if k == RcdataText then RcdataEndTagOpen else RawtextEndTagOpen;
        return Nothing;
      }
      var reconsumed := HandleText(k, c);
      return Emit([Character('<')] + TokensOf(reconsumed));
    }

    method HandleEndTagOpenText(k: TextKind, c: Option<char>) returns (out: Emission)
      modifies this`state, this`returnState, this`tag, this`tempBuf, TagFrame()
      ensures tag.Some? ==> tag == old(tag) || fresh(tag.value)
      ensures StepResult(Snapshot(), out) == EndTagOpenTextStep(k, old(Snapshot()), c)
    {
      if c.Some? && IsAsciiAlpha(c.value) {
        var t := new Tag(true);
        tag := Some(t);
        out := HandleEndTagName(k, c);
      } else {
        var reconsumed := HandleText(k, c);
        return Emit([Character('<'), Character('/')] + TokensOf(reconsumed));
      }
    }

    /** `<`, `/`, the buffered characters, and the text handler's output. */
    method EndTagNameFallbackNow(k: TextKind, c: Option<char>) returns (out: Emission)
      modifies this`state, this`returnState
      ensures StepResult(Snapshot(), out) == EndTagNameFallback(k, old(Snapshot()), c)
    {
      var tok := [Character('<'), Character('/')];
      var buffered := TempBufToTokens();
      tok := tok + buffered;
      var reconsumed := HandleText(k, c);
      tok := tok + TokensOf(reconsumed);
      return Emit(tok);
    }

    /** A letter of an end-tag name, lower-cased into the tag and kept as
        typed in the buffer. */
    method PushEndTagLetterNow(lower: char, typed: char) returns (out: Emission)
      modifies this`tempBuf, TagFrame()
      ensures StepResult(Snapshot(), out) == PushEndTagLetter(old(Snapshot()), lower, typed)
    {
      if tag.None? {
        return Panicked(TagMissing);
      }
      tag.value.name := tag.value.name + [lower];
      tempBuf := tempBuf + [typed];
      return Nothing;
    }

    method HandleEndTagName(k: TextKind, c: Option<char>) returns (out: Emission)
      modifies this`state, this`returnState, this`tag, this`tempBuf, TagFrame()
      ensures tag.Some? ==> tag == old(tag)
      ensures StepResult(Snapshot(), out) == EndTagNameStep(k, old(Snapshot()), c)
    {
      if c.Some? && (IsAsciiWhitespace(c.value) || c.value == '/' || c.value == '>') {
        out := CloseEndTagIfAppropriate(k, c.value);
      } else if c.Some? && IsAsciiUpperAlpha(c.value) {
        out := PushEndTagLetterNow(LowercaseFromAsciiUpper(c.value).value, c.value);
      } else if c.Some? && IsAsciiLowerAlpha(c.value) {
        out := PushEndTagLetterNow(c.value, c.value);
      } else {
        out := EndTagNameFallbackNow(k, c);
      }
    }

    /** Whitespace, `/` or `>` in an end-tag name: acted on when the end tag
        is appropriate, otherwise treated like any other character. */
    method CloseEndTagIfAppropriate(k: TextKind, c: char) returns (out: Emission)
      requires IsAsciiWhitespace(c) || c == '/' || c == '>'
      modifies this`state, this`returnState, this`tag, this`tempBuf, TagFrame()
      ensures tag.Some? ==> tag == old(tag)
      ensures StepResult(Snapshot(), out) == EndTagNameStep(k, old(Snapshot()), Some(c))
    {
      var appropriate := EndTagAppropriateNow();
      if appropriate.None? {
        return Panicked(TagMissing);
      }
      if !appropriate.value {
        out := EndTagNameFallbackNow(k, Some(c));
        return;
      }
      if c == '/' {
        state := SelfClosingStartTag;
        return Nothing;
      } else if c == '>' {
        state := State.Data;
        if k == RawtextText {
          return Nothing;
        }
        var copy := tag.value.Clone();
        tag := None;
        return Emit([Token.Tag(copy)]);
      }
      state := BeforeAttributeName;
      return Nothing;
    }

    // -------------------------------------------------------------------
    // Dispatch and the driver

    /** The handler for the current state. */
    method Dispatch(c: Option<char>) returns (out: Emission)
      modifies this`state, this`returnState, this`tag, this`tempBuf, TagFrame()
      ensures tag.Some? ==> tag == old(tag) || fresh(tag.value)
      ensures StepResult(Snapshot(), out) == HtmlTokenizerSpec.Dispatch(old(Snapshot()), c)
    {
      match state
      case Data | Rcdata | Rawtext | ScriptData | Plaintext => out := DispatchText(c);
      case TagOpen | EndTagOpen | TagName => out := DispatchTag(c);
      case RcdataLessThanSign | RcdataEndTagOpen | RcdataEndTagName => out := DispatchRcdataEndTag(c);
      case RawtextLessThanSign | RawtextEndTagOpen | RawtextEndTagName => out := DispatchRawtextEndTag(c);
      case ScriptDataEscapedEndTagOpen => out := Panicked(Unimplemented(ScriptDataEndTagOpen));
      case ScriptDataEscapedEndTagName => out := Panicked(Unimplemented(ScriptDataEndTagName));
      case _ => out := Panicked(Unimplemented(state));
    }

    /** The five text states. */
    method DispatchText(c: Option<char>) returns (out: Emission)
      requires TextState(state)
      modifies this`state, this`returnState
      ensures StepResult(Snapshot(), out) == HtmlTokenizerSpec.Dispatch(old(Snapshot()), c)
    {
      match state
      case Data => out := HandleData(c);
      case Rcdata => out := HandleRcdata(c);
      case Rawtext => out := HandleRawtext(c);
      case ScriptData => out := HandleScriptData(c);
      case Plaintext => out := HandlePlaintext(c);
    }

    /** The tag-open, end-tag-open and tag-name states. */
    method DispatchTag(c: Option<char>) returns (out: Emission)
      requires state == TagOpen || state == EndTagOpen || state == TagName
      modifies this`state, this`returnState, this`tag, TagFrame()
      ensures tag.Some? ==> tag == old(tag) || fresh(tag.value)
      ensures StepResult(Snapshot(), out) == HtmlTokenizerSpec.Dispatch(old(Snapshot()), c)
    {
      match state
      case TagOpen => out := HandleTagOpen(c);
      case EndTagOpen => out := HandleEndTagOpen(c);
      case TagName => out := HandleTagName(c);
    }

    /** The RCDATA less-than-sign, end-tag-open and end-tag-name states. */
    method DispatchRcdataEndTag(c: Option<char>) returns (out: Emission)
      requires state == RcdataLessThanSign || state == RcdataEndTagOpen || state == RcdataEndTagName
      modifies this`state, this`returnState, this`tag, this`tempBuf, TagFrame()
      ensures tag.Some? ==> tag == old(tag) || fresh(tag.value)
      ensures StepResult(Snapshot(), out) == HtmlTokenizerSpec.Dispatch(old(Snapshot()), c)
    {
      match state
      case RcdataLessThanSign => out := HandleLessThanSign(RcdataText, c);
      case RcdataEndTagOpen => out := HandleEndTagOpenText(RcdataText, c);
      case RcdataEndTagName => out := HandleEndTagName(RcdataText, c);
    }

    /** The RAWTEXT less-than-sign, end-tag-open and end-tag-name states. */
    method DispatchRawtextEndTag(c: Option<char>) returns (out: Emission)
      requires state == RawtextLessThanSign || state == RawtextEndTagOpen || state == RawtextEndTagName
      modifies this`state, this`returnState, this`tag, this`tempBuf, TagFrame()
      ensures tag.Some? ==> tag == old(tag) || fresh(tag.value)
      ensures StepResult(Snapshot(), out) == HtmlTokenizerSpec.Dispatch(old(Snapshot()), c)
    {
      match state
      case RawtextLessThanSign => out := HandleLessThanSign(RawtextText, c);
      case RawtextEndTagOpen => out := HandleEndTagOpenText(RawtextText, c);
      case RawtextEndTagName => out := HandleEndTagName(RawtextText, c);
    }

    /** One round of the loop of `next()`: read a character and run the
        handler for the current state on it. */
    method ReadAndDispatch() returns (out: Emission)
      requires Valid()
      modifies this`pos, this`state, this`returnState, this`tag, this`tempBuf, TagFrame()
      ensures Valid() && old(pos) <= pos
      ensures tag.Some? ==> tag == old(tag) || fresh(tag.value)
      ensures out.Nothing? ==> Pull(Snapshot(), input, pos) == Pull(old(Snapshot()), input, old(pos)) && old(pos) < pos
      ensures !out.Nothing? ==> PullResult(Snapshot(), pos, out) == Pull(old(Snapshot()), input, old(pos))
    {
      ghost var p0 := pos;
      var c := Read();
      ghost var before := Snapshot();
      out := Dispatch(c);
      PullAfterStep(before, input, p0, c, Snapshot(), out);
    }

    /** The loop of `next()`: read and run handlers until one returns
        tokens or panics. */
    method RunUntilTokens() returns (out: Emission)
      requires Valid()
      modifies this`pos, this`state, this`returnState, this`tag, this`tempBuf, TagFrame()
      ensures Valid()
      ensures tag.Some? ==> tag == old(tag) || fresh(tag.value)
      ensures PullResult(Snapshot(), pos, out) == Pull(old(Snapshot()), input, old(pos))
    {
      while true
        invariant Valid() && old(pos) <= pos
        invariant tag.Some? ==> tag == old(tag) || fresh(tag.value)
        invariant Pull(Snapshot(), input, pos) == Pull(old(Snapshot()), input, old(pos))
        decreases |input| - pos
      {
        out := ReadAndDispatch();
        if !out.Nothing? {
          return;
        }
      }
    }

    /** `next()`: hands out a queued token if there is one; otherwise runs
        the loop, returns a single token directly, and queues a longer list,
        returning its first token. */
    method Next() returns (out: NextOutcome)
      requires Valid()
      modifies this, TagFrame()
      ensures Valid()
      ensures (Whole(), out) == NextSpec(old(Whole()))
    {
      if tokensToEmit != [] {
        out := Yield(tokensToEmit[0]);
        tokensToEmit := tokensToEmit[1..];
        return;
      }
      var tokens := RunUntilTokens();
      match tokens
      case Emit(ts) =>
        if |ts| == 1 {
          out := Yield(ts[0]);
        } else {
          tokensToEmit := ts[1..];
          out := Yield(ts[0]);
        }
      case Panicked(reason) =>
        out := Abort(reason);
    }
  }
}
