/** What each implemented state of the HTML tokenizer does with one input
    character (or the end of the input), and what the pull driver `next()`
    returns, as functions of the tokenizer's state. The handlers follow
    section 13.2.5 of the WHATWG HTML Living Standard as the program
    implements them, including where the program departs from it. */
module HtmlTokenizerSpec {
  import opened Wrappers
  import opened HtmlDetail
  import CodePoint

  /** Why a call panics: a state whose handler is `unreachable!()`, or an
      `unwrap()` of a current tag that is not there. */
  datatype Panic = Unimplemented(handler: State) | TagMissing

  /** What a handler returns: no tokens (the driver reads on), a list of
      tokens, or a panic. */
  datatype Emission = Nothing | Emit(tokens: seq<Token>) | Panicked(reason: Panic)

  /** The part of the tokenizer the handlers read and write. The fields
      for attributes, comments, DOCTYPEs and character references are not
      touched by any implemented handler and are not part of this model. */
  datatype Machine = Machine(
    state: State,
    returnState: Option<State>,
    lastEmittedTag: Option<TagData>,
    tag: Option<TagData>,
    tempBuf: string)

  /** A handler's effect: the new machine and what it returned. */
  datatype StepResult = StepResult(next: Machine, out: Emission)

  /** `unwrap_or_default()` on what a reconsuming handler returned. */
  function TokensOf(e: Emission): (ts: seq<Token>)
    ensures e.Emit? ==> ts == e.tokens
    ensures !e.Emit? ==> ts == []
  {
    if e.Emit? then e.tokens else []
  }

  /** One character token per character of `s`, in order. */
  function CharTokens(s: string): (ts: seq<Token>)
    ensures |ts| == |s|
    ensures forall i :: 0 <= i < |s| ==> ts[i] == Character(s[i])
  {
    if s == [] then [] else [Character(s[0])] + CharTokens(s[1..])
  }

  predicate IsAsciiWhitespace(c: char) { CodePoint.AsciiWhitespace(c as int) }
  predicate IsAsciiAlpha(c: char) { CodePoint.AsciiAlpha(c as int) }
  predicate IsAsciiUpperAlpha(c: char) { CodePoint.AsciiUpperAlpha(c as int) }
  predicate IsAsciiLowerAlpha(c: char) { CodePoint.AsciiLowerAlpha(c as int) }

  const REPLACEMENT_CHARACTER: char := '\U{FFFD}'

  /** `lowercase_char_from_ascii_upper`: the character 0x20 above `c`; its
      `unwrap()` fails only where that is not a scalar value, which no
      ASCII upper-case letter reaches. */
  function LowercaseFromAsciiUpper(c: char): (r: Option<char>)
    ensures r.Some? <==> c as int + 0x20 <= 0x10FFFF && CodePoint.ScalarValue(c as int + 0x20)
    ensures r.Some? ==> r.value as int == c as int + 0x20
    ensures IsAsciiUpperAlpha(c) ==> r.Some? && IsAsciiLowerAlpha(r.value)
  {
    var u := c as int + 0x20;
    if u <= 0x10FFFF && CodePoint.ScalarValue(u) then Some(u as char) else None
  }

  /** `in_attr_state`: the return state is one of the attribute-value states. */
  predicate InAttrState(returnState: State) {
    returnState == AttributeValueDoubleQuoted || returnState == AttributeValueSingleQuoted
    || returnState == AttributeValueUnquoted
  }

  /** `end_tag_appropriate`: `None` is the panic on a missing current tag,
      which happens only once there is a last start tag to compare with. */
  function EndTagAppropriate(m: Machine): (r: Option<bool>)
    ensures m.lastEmittedTag.None? ==> r == Some(false)
    ensures m.lastEmittedTag.Some? && m.tag.None? ==> r.None?
    ensures m.lastEmittedTag.Some? && m.tag.Some? ==>
      r == Some(m.lastEmittedTag.value.name == m.tag.value.name)
  {
    match m.lastEmittedTag
    case None => Some(false)
    case Some(last) => if m.tag.None? then None else Some(last.name == m.tag.value.name)
  }

  // ---------------------------------------------------------------------
  // The text states

  function DataStep(m: Machine, c: Option<char>): (r: StepResult)
    ensures r.next.lastEmittedTag == m.lastEmittedTag
    ensures r.out.Nothing? || (r.out.Emit? && |r.out.tokens| == 1)
    ensures c.None? ==> r == StepResult(m, Emit([Eof]))
  {
    if c == Some('&') then StepResult(m.(returnState := Some(Data), state := CharacterReference), Nothing)
    else if c == Some('<') then StepResult(m.(state := TagOpen), Nothing)
    else if c == Some('\0') then StepResult(m, Emit([Character('\0')]))
    else if c.None? then StepResult(m, Emit([Eof]))
    else StepResult(m, Emit([Character(c.value)]))
  }

  function RcdataStep(m: Machine, c: Option<char>): (r: StepResult)
    ensures r.next.lastEmittedTag == m.lastEmittedTag
    ensures r.out.Nothing? || (r.out.Emit? && |r.out.tokens| == 1)
    ensures c.None? ==> r == StepResult(m, Emit([Eof]))
  {
    if c == Some('&') then StepResult(m.(returnState := Some(Rcdata), state := CharacterReference), Nothing)
    else if c == Some('<') then StepResult(m.(state := RcdataLessThanSign), Nothing)
    else if c == Some('\0') then StepResult(m, Emit([Character(REPLACEMENT_CHARACTER)]))
    else if c.None? then StepResult(m, Emit([Eof]))
    else StepResult(m, Emit([Character(c.value)]))
  }

  function RawtextStep(m: Machine, c: Option<char>): (r: StepResult)
    ensures r.next.lastEmittedTag == m.lastEmittedTag
    ensures r.out.Nothing? || (r.out.Emit? && |r.out.tokens| == 1)
    ensures c.None? ==> r == StepResult(m, Emit([Eof]))
  {
    if c == Some('<') then StepResult(m.(state := RawtextLessThanSign), Nothing)
    else if c == Some('\0') then StepResult(m, Emit([Character(REPLACEMENT_CHARACTER)]))
    else if c.None? then StepResult(m, Emit([Eof]))
    else StepResult(m, Emit([Character(c.value)]))
  }

  function ScriptDataStep(m: Machine, c: Option<char>): (r: StepResult)
    ensures r.next.lastEmittedTag == m.lastEmittedTag
    ensures r.out.Nothing? || (r.out.Emit? && |r.out.tokens| == 1)
    ensures c.None? ==> r == StepResult(m, Emit([Eof]))
  {
    if c == Some('<') then StepResult(m.(state := ScriptDataLessThanSign), Nothing)
    else if c == Some('\0') then StepResult(m, Emit([Character(REPLACEMENT_CHARACTER)]))
    else if c.None? then StepResult(m, Emit([Eof]))
    else StepResult(m, Emit([Character(c.value)]))
  }

  function PlaintextStep(m: Machine, c: Option<char>): (r: StepResult)
    ensures r.out.Emit? && |r.out.tokens| == 1 && r.next == m
    ensures c.None? ==> r.out == Emit([Eof])
  {
    if c == Some('\0') then StepResult(m, Emit([Character(REPLACEMENT_CHARACTER)]))
    else if c.None? then StepResult(m, Emit([Eof]))
    else StepResult(m, Emit([Character(c.value)]))
  }

  // ---------------------------------------------------------------------
  // Tags

  /** The current tag with `c` appended to its name. */
  function PushToTagName(m: Machine, c: char): (r: StepResult)
    ensures r.next.lastEmittedTag == m.lastEmittedTag
    ensures m.tag.None? ==> r == StepResult(m, Panicked(TagMissing))
    ensures m.tag.Some? ==> r == StepResult(m.(tag := Some(m.tag.value.(name := m.tag.value.name + [c]))), Nothing)
  {
    if m.tag.None? then StepResult(m, Panicked(TagMissing))
    else StepResult(m.(tag := Some(m.tag.value.(name := m.tag.value.name + [c]))), Nothing)
  }

  function TagNameStep(m: Machine, c: Option<char>): (r: StepResult)
    ensures r.next.lastEmittedTag == m.lastEmittedTag
    ensures r.out.Emit? ==> |r.out.tokens| == 1
    ensures c.None? ==> r == StepResult(m, Emit([Eof]))
  {
    if c.Some? && IsAsciiWhitespace(c.value) then StepResult(m.(state := BeforeAttributeName), Nothing)
    else if c == Some('/') then StepResult(m.(state := SelfClosingStartTag), Nothing)
    else if c == Some('>') then
      StepResult(m.(state := Data), if m.tag.Some? then Emit([Tag(m.tag.value)]) else Nothing)
    else if c.Some? && IsAsciiUpperAlpha(c.value) then PushToTagName(m, LowercaseFromAsciiUpper(c.value).value)
    else if c == Some('\0') then PushToTagName(m, REPLACEMENT_CHARACTER)
    else if c.None? then StepResult(m, Emit([Eof]))
    else PushToTagName(m, c.value)
  }

  /** As written the letter is handed to the tag-name handler without
      moving to the tag-name state. */
  function TagOpenStep(m: Machine, c: Option<char>): (r: StepResult)
    ensures r.next.lastEmittedTag == m.lastEmittedTag
    ensures r.out.Emit? ==> |r.out.tokens| >= 1
    ensures c.None? ==> r == StepResult(m, Emit([Character('<'), Eof]))
  {
    if c == Some('!') then StepResult(m.(state := MarkupDeclarationOpen), Nothing)
    else if c == Some('/') then StepResult(m.(state := EndTagOpen), Nothing)
    else if c.Some? && IsAsciiAlpha(c.value) then TagNameStep(m.(tag := Some(NewTag(false))), c)
    else if c == Some('?') then StepResult(m, Panicked(Unimplemented(BogusComment)))
    else if c.None? then StepResult(m, Emit([Character('<'), Eof]))
    else
      var r := DataStep(m, c);
      StepResult(r.next, Emit([Character('<')] + TokensOf(r.out)))
  }

  function EndTagOpenStep(m: Machine, c: Option<char>): (r: StepResult)
    ensures r.next.lastEmittedTag == m.lastEmittedTag
    ensures r.out.Emit? ==> |r.out.tokens| >= 1
    ensures c.None? ==> r == StepResult(m, Emit([Character('<'), Character('/'), Eof]))
  {
    if c.Some? && IsAsciiAlpha(c.value) then TagNameStep(m.(tag := Some(NewTag(true))), c)
    else if c == Some('<') then StepResult(m.(state := Data), Nothing)
    else if c.None? then StepResult(m, Emit([Character('<'), Character('/'), Eof]))
    else StepResult(m, Panicked(Unimplemented(BogusComment)))
  }

  // ---------------------------------------------------------------------
  // RCDATA and RAWTEXT end tags

  /** Which text state an end-tag run belongs to. */
  datatype TextKind = RcdataText | RawtextText

  /** The text handler the end-tag states fall back to. */
  function TextStep(k: TextKind, m: Machine, c: Option<char>): (r: StepResult)
    ensures r.next.lastEmittedTag == m.lastEmittedTag
    ensures r.out.Nothing? || (r.out.Emit? && |r.out.tokens| == 1)
    ensures c.None? ==> r == StepResult(m, Emit([Eof]))
  {
    match k
    case RcdataText => RcdataStep(m, c)
    case RawtextText => RawtextStep(m, c)
  }

  /** `<` was not followed by `/`: emit it and reconsume in the text state. */
  function LessThanSignStep(k: TextKind, m: Machine, c: Option<char>): (r: StepResult)
    ensures r.next.lastEmittedTag == m.lastEmittedTag
    ensures r.out.Emit? ==> |r.out.tokens| >= 1
    ensures c != Some('/') ==> r.out.Emit?
    ensures c.None? ==> r == StepResult(m, Emit([Character('<'), Eof]))
  {
    if c == Some('/') then
      StepResult(m.(tempBuf := [], state := if k == RcdataText then RcdataEndTagOpen else RawtextEndTagOpen), Nothing)
    else
      var r := TextStep(k, m, c);
      StepResult(r.next, Emit([Character('<')] + TokensOf(r.out)))
  }

  function EndTagOpenTextStep(k: TextKind, m: Machine, c: Option<char>): (r: StepResult)
    ensures r.next.lastEmittedTag == m.lastEmittedTag
    ensures r.out.Emit? ==> |r.out.tokens| >= 1
    ensures c.None? ==> r == StepResult(m, Emit([Character('<'), Character('/'), Eof]))
  {
    if c.Some? && IsAsciiAlpha(c.value) then EndTagNameStep(k, m.(tag := Some(NewTag(true))), c)
    else
      var r := TextStep(k, m, c);
      assert c.None? ==> [Character('<'), Character('/')] + TokensOf(r.out) == [Character('<'), Character('/'), Eof];
      StepResult(r.next, Emit([Character('<'), Character('/')] + TokensOf(r.out)))
  }

  /** Leaving an end-tag name that did not close the element: `<`, `/`, the
      buffered characters, then the text handler's output for `c`. */
  function EndTagNameFallback(k: TextKind, m: Machine, c: Option<char>): (r: StepResult)
    ensures r.next.lastEmittedTag == m.lastEmittedTag
    ensures r.out.Emit? && |r.out.tokens| >= 2 + |m.tempBuf|
    ensures r.out.tokens[..2] == [Character('<'), Character('/')]
    ensures r.out.tokens[2..2 + |m.tempBuf|] == CharTokens(m.tempBuf)
    ensures r.out.tokens[2 + |m.tempBuf|..] == TokensOf(TextStep(k, m, c).out)
    ensures r.next == TextStep(k, m, c).next
  {
    var r := TextStep(k, m, c);
    var ts := [Character('<'), Character('/')] + CharTokens(m.tempBuf) + TokensOf(r.out);
    assert ts[..2] == [Character('<'), Character('/')];
    assert ts[2..2 + |m.tempBuf|] == CharTokens(m.tempBuf);
    StepResult(r.next, Emit(ts))
  }

  /** A letter of an end-tag name: lower-cased into the tag's name, kept as
      typed in the temporary buffer. */
  function PushEndTagLetter(m: Machine, lower: char, typed: char): (r: StepResult)
    ensures r.next.lastEmittedTag == m.lastEmittedTag
    ensures m.tag.None? ==> r.out == Panicked(TagMissing)
    ensures m.tag.Some? ==> r == StepResult(m.(tag := Some(m.tag.value.(name := m.tag.value.name + [lower])),
                                               tempBuf := m.tempBuf + [typed]), Nothing)
  {
    if m.tag.None? then StepResult(m, Panicked(TagMissing))
    else StepResult(m.(tag := Some(m.tag.value.(name := m.tag.value.name + [lower])), tempBuf := m.tempBuf + [typed]), Nothing)
  }

  /** A delimiter that acts only when the end tag is appropriate. */
  function IfAppropriate(k: TextKind, m: Machine, c: Option<char>, acted: StepResult): (r: StepResult)
    requires acted.next.lastEmittedTag == m.lastEmittedTag
    ensures r.next.lastEmittedTag == m.lastEmittedTag
    ensures acted.out.Emit? ==> |acted.out.tokens| >= 1 ==> r.out.Emit? ==> |r.out.tokens| >= 1
  {
    match EndTagAppropriate(m)
    case None => StepResult(m, Panicked(TagMissing))
    case Some(b) => if b then acted else EndTagNameFallback(k, m, c)
  }

  /** The RCDATA and RAWTEXT end-tag-name states. On an appropriate `>`
      the RCDATA variant emits the tag and drops it; as written, the RAWTEXT
      variant emits nothing. */
  function EndTagNameStep(k: TextKind, m: Machine, c: Option<char>): (r: StepResult)
    ensures r.next.lastEmittedTag == m.lastEmittedTag
    ensures r.out.Emit? ==> |r.out.tokens| >= 1
    ensures c.None? ==> r == EndTagNameFallback(k, m, c)
  {
    if c.Some? && IsAsciiWhitespace(c.value) then
      IfAppropriate(k, m, c, StepResult(m.(state := BeforeAttributeName), Nothing))
    else if c == Some('/') then
      IfAppropriate(k, m, c, StepResult(m.(state := SelfClosingStartTag), Nothing))
    else if c == Some('>') then
      IfAppropriate(k, m, c,
        match k
        case RcdataText =>
          if m.tag.Some? then StepResult(m.(state := Data, tag := None), Emit([Tag(m.tag.value)]))
          else StepResult(m, Panicked(TagMissing))
        case RawtextText => StepResult(m.(state := Data), Nothing))
    else if c.Some? && IsAsciiUpperAlpha(c.value) then
      PushEndTagLetter(m, LowercaseFromAsciiUpper(c.value).value, c.value)
    else if c.Some? && IsAsciiLowerAlpha(c.value) then
      PushEndTagLetter(m, c.value, c.value)
    else EndTagNameFallback(k, m, c)
  }

  // ---------------------------------------------------------------------
  // Dispatch and the driver

  /** The handler `next()` calls for the current state. */
  function Dispatch(m: Machine, c: Option<char>): (r: StepResult)
    ensures r.next.lastEmittedTag == m.lastEmittedTag
    ensures r.out.Emit? ==> |r.out.tokens| >= 1
    ensures c.None? ==> !r.out.Nothing?
  {
    match m.state
    case Data => DataStep(m, c)
    case Rcdata => RcdataStep(m, c)
    case Rawtext => RawtextStep(m, c)
    case ScriptData => ScriptDataStep(m, c)
    case Plaintext => PlaintextStep(m, c)
    case TagOpen => TagOpenStep(m, c)
    case EndTagOpen => EndTagOpenStep(m, c)
    case TagName => TagNameStep(m, c)
    case RcdataLessThanSign => LessThanSignStep(RcdataText, m, c)
    case RcdataEndTagOpen => EndTagOpenTextStep(RcdataText, m, c)
    case RcdataEndTagName => EndTagNameStep(RcdataText, m, c)
    case RawtextLessThanSign => LessThanSignStep(RawtextText, m, c)
    case RawtextEndTagOpen => EndTagOpenTextStep(RawtextText, m, c)
    case RawtextEndTagName => EndTagNameStep(RawtextText, m, c)
    case ScriptDataEscapedEndTagOpen => StepResult(m, Panicked(Unimplemented(ScriptDataEndTagOpen)))
    case ScriptDataEscapedEndTagName => StepResult(m, Panicked(Unimplemented(ScriptDataEndTagName)))
    case _ => StepResult(m, Panicked(Unimplemented(m.state)))
  }

  /** Where the driver's inner loop ends: the machine, the input position,
      and the tokens of the first handler that returned some, or a panic. */
  datatype PullResult = PullResult(m: Machine, pos: nat, out: Emission)

  /** The driver's loop: read a character (none once the input is used
      up), run the handler, and go on while it returns no tokens. */
  function Pull(m: Machine, input: seq<char>, pos: nat): (r: PullResult)
    requires pos <= |input|
    ensures pos <= r.pos <= |input|
    ensures r.out.Emit? ==> |r.out.tokens| >= 1
    ensures !r.out.Nothing?
    decreases |input| - pos
  {
    var c := if pos < |input| then Some(input[pos]) else None;
    var r := Dispatch(m, c);
    if r.out.Nothing? then
      if pos < |input| then Pull(r.next, input, pos + 1)
      else assert false; PullResult(r.next, pos, r.out)
    else PullResult(r.next, if pos < |input| then pos + 1 else pos, r.out)
  }

  /** One round of the loop: a handler that returns nothing lets the loop
      go on with the next character; anything else ends it. */
  lemma PullAfterStep(m: Machine, input: seq<char>, pos: nat, c: Option<char>, next: Machine, out: Emission)
    requires pos <= |input| && c == if pos < |input| then Some(input[pos]) else None
    requires Dispatch(m, c) == StepResult(next, out)
    ensures out.Nothing? ==> pos < |input| && Pull(m, input, pos) == Pull(next, input, pos + 1)
    ensures !out.Nothing? ==> Pull(m, input, pos) == PullResult(next, if pos < |input| then pos + 1 else pos, out)
  {
  }

  /** What `next()` returns: a token, or the panic it ran into. */
  datatype NextOutcome = Yield(token: Token) | Abort(reason: Panic)

  /** The whole tokenizer between calls of `next()`. */
  datatype Tokenizer = Tokenizer(m: Machine, queue: seq<Token>, input: seq<char>, pos: nat)

  predicate ValidTokenizer(t: Tokenizer) {
    t.pos <= |t.input|
  }

  /** `next()`: the front of the queue if there is one; otherwise run the
      loop, return a single token directly, and queue a longer list and
      return its first token. */
  function NextSpec(t: Tokenizer): (r: (Tokenizer, NextOutcome))
    requires ValidTokenizer(t)
    ensures ValidTokenizer(r.0) && r.0.input == t.input && t.pos <= r.0.pos
  {
    if t.queue != [] then (t.(queue := t.queue[1..]), Yield(t.queue[0]))
    else
      var p := Pull(t.m, t.input, t.pos);
      match p.out
      case Emit(ts) =>
        if |ts| == 1 then (Tokenizer(p.m, [], t.input, p.pos), Yield(ts[0]))
        else (Tokenizer(p.m, ts[1..], t.input, p.pos), Yield(ts[0]))
      case Panicked(reason) => (Tokenizer(p.m, [], t.input, p.pos), Abort(reason))
  }

  /** The outcomes of `n` calls of `next()`, stopping at a panic. */
  function NextMany(t: Tokenizer, n: nat): (outs: seq<NextOutcome>)
    requires ValidTokenizer(t)
    ensures |outs| <= n
    decreases n
  {
    if n == 0 then []
    else
      var (t', o) := NextSpec(t);
      if o.Abort? then [o] else [o] + NextMany(t', n - 1)
  }

  // ---------------------------------------------------------------------
  // Properties of the handlers

  /** The five text states. */
  predicate TextState(s: State) {
    s == Data || s == Rcdata || s == Rawtext || s == ScriptData || s == Plaintext
  }

  /** In the data state `&` records the data state as the return state and
      moves to the character-reference state, `<` moves to tag open, and
      neither emits anything or touches anything else. */
  lemma DataSwitches(m: Machine)
    requires m.state == Data
    ensures Dispatch(m, Some('&')) == StepResult(m.(returnState := Some(Data), state := CharacterReference), Nothing)
    ensures Dispatch(m, Some('<')) == StepResult(m.(state := TagOpen), Nothing)
  {
  }

  /** A NUL is emitted as itself in the data state and as U+FFFD in the
      other four text states; no text state changes anything on it. */
  lemma NulInTextStates(m: Machine)
    requires TextState(m.state)
    ensures Dispatch(m, Some('\0')).next == m
    ensures m.state == Data ==> Dispatch(m, Some('\0')).out == Emit([Character('\0')])
    ensures m.state != Data ==> Dispatch(m, Some('\0')).out == Emit([Character(REPLACEMENT_CHARACTER)])
  {
  }

  /** At the end of the input a text state returns exactly the end-of-file
      token and leaves the machine as it was. */
  lemma EofInTextStates(m: Machine)
    requires TextState(m.state)
    ensures Dispatch(m, None) == StepResult(m, Emit([Eof]))
  {
  }

  /** Hence once the input is used up, every further `next()` in a text
      state returns `Eof` and leaves the tokenizer unchanged. */
  lemma {:induction false} EofRepeats(t: Tokenizer, n: nat)
    requires ValidTokenizer(t) && t.pos == |t.input| && t.queue == [] && TextState(t.m.state)
    ensures NextSpec(t) == (t, Yield(Eof))
    ensures NextMany(t, n) == seq(n, _ => Yield(Eof))
    decreases n
  {
    EofInTextStates(t.m);
    if n > 0 {
      EofRepeats(t, n - 1);
    }
  }

  /** In the tag-name state: white space, `/` and `>` move to the
      before-attribute-name, self-closing and data states; an upper-case
      letter is appended 0x20 higher, NUL as U+FFFD, anything else as it is. */
  lemma TagNameCharacters(m: Machine, c: char)
    requires m.state == TagName && m.tag.Some?
    ensures IsAsciiWhitespace(c) ==> Dispatch(m, Some(c)) == StepResult(m.(state := BeforeAttributeName), Nothing)
    ensures c == '/' ==> Dispatch(m, Some(c)) == StepResult(m.(state := SelfClosingStartTag), Nothing)
    ensures c == '>' ==> Dispatch(m, Some(c)) == StepResult(m.(state := Data), Emit([Tag(m.tag.value)]))
    ensures var r := Dispatch(m, Some(c));
      var appended := if IsAsciiUpperAlpha(c) then (c as int + 0x20) as char
        else if c == '\0' then REPLACEMENT_CHARACTER else c;
      !IsAsciiWhitespace(c) && c != '/' && c != '>' ==>
        r == StepResult(m.(tag := Some(m.tag.value.(name := m.tag.value.name + [appended]))), Nothing)
  {
  }

  /** The tag-name state without a current tag: white space and `/` switch
      state as usual, `>` returns to the data state emitting nothing, and
      every other character panics in the `unwrap()` of the missing tag. */
  lemma TagNameWithoutTag(m: Machine, c: char)
    requires m.state == TagName && m.tag.None?
    ensures Dispatch(m, Some('>')) == StepResult(m.(state := Data), Nothing)
    ensures IsAsciiWhitespace(c) ==> Dispatch(m, Some(c)) == StepResult(m.(state := BeforeAttributeName), Nothing)
    ensures c == '/' ==> Dispatch(m, Some(c)) == StepResult(m.(state := SelfClosingStartTag), Nothing)
    ensures !IsAsciiWhitespace(c) && c != '/' && c != '>' ==> Dispatch(m, Some(c)) == StepResult(m, Panicked(TagMissing))
  {
  }

  /** `end_tag_appropriate` never holds without a last start tag, and
      otherwise compares names. */
  lemma EndTagAppropriateMeaning(m: Machine)
    ensures EndTagAppropriate(m) == Some(true) <==>
      m.lastEmittedTag.Some? && m.tag.Some? && m.lastEmittedTag.value.name == m.tag.value.name
    ensures EndTagAppropriate(m).None? <==> m.lastEmittedTag.Some? && m.tag.None?
  {
  }

  /** No implemented handler changes the last start tag (`Dispatch`
      ensures it), so as written it keeps the value it was constructed
      with, however far the driver runs. */
  lemma {:induction false} PullKeepsLastEmittedTag(m: Machine, input: seq<char>, pos: nat)
    requires pos <= |input|
    ensures Pull(m, input, pos).m.lastEmittedTag == m.lastEmittedTag
    decreases |input| - pos
  {
    var c := if pos < |input| then Some(input[pos]) else None;
    if Dispatch(m, c).out.Nothing? && pos < |input| {
      PullKeepsLastEmittedTag(Dispatch(m, c).next, input, pos + 1);
    }
  }

  /** The machines a tokenizer made by `new` (the data state, no last start
      tag) can reach: nothing sets the last start tag, and no implemented
      handler enters a text state other than data, the tag-name state or
      an end-tag state of RCDATA or RAWTEXT. */
  predicate ReachableFromNew(m: Machine) {
    && m.lastEmittedTag.None?
    && (|| m.state == Data || m.state == TagOpen || m.state == EndTagOpen
        || m.state == CharacterReference || m.state == MarkupDeclarationOpen)
  }

  /** One handler keeps a machine among those reachable from `new`. */
  lemma DispatchStaysReachable(m: Machine, c: Option<char>)
    requires ReachableFromNew(m)
    ensures ReachableFromNew(Dispatch(m, c).next)
  {
  }

  /** So does the driver's whole loop. */
  lemma {:induction false} PullStaysReachable(m: Machine, input: seq<char>, pos: nat)
    requires pos <= |input| && ReachableFromNew(m)
    ensures ReachableFromNew(Pull(m, input, pos).m)
    decreases |input| - pos
  {
    var c := if pos < |input| then Some(input[pos]) else None;
    DispatchStaysReachable(m, c);
    if Dispatch(m, c).out.Nothing? && pos < |input| {
      PullStaysReachable(Dispatch(m, c).next, input, pos + 1);
    }
  }

  /** A tokenizer made by `new` stays one after any `next()`: no end tag is
      ever appropriate, and RCDATA, RAWTEXT, script data, PLAINTEXT and the
      tag-name state are never entered. */
  lemma NextFromNewNeverAppropriate(t: Tokenizer)
    requires ValidTokenizer(t) && ReachableFromNew(t.m)
    ensures ReachableFromNew(NextSpec(t).0.m)
    ensures EndTagAppropriate(NextSpec(t).0.m) == Some(false)
    ensures var s := NextSpec(t).0.m.state;
      s != Rcdata && s != Rawtext && s != ScriptData && s != Plaintext && s != TagName
  {
    if t.queue == [] {
      PullStaysReachable(t.m, t.input, t.pos);
    }
  }

  /** The end-tag-name states: a letter goes into the tag's name in lower
      case and into the temporary buffer as typed. */
  lemma EndTagNameLetters(k: TextKind, m: Machine, c: char)
    requires m.tag.Some? && (IsAsciiUpperAlpha(c) || IsAsciiLowerAlpha(c))
    ensures var lower := if IsAsciiUpperAlpha(c) then (c as int + 0x20) as char else c;
      EndTagNameStep(k, m, Some(c)) ==
        StepResult(m.(tag := Some(m.tag.value.(name := m.tag.value.name + [lower])), tempBuf := m.tempBuf + [c]), Nothing)
  {
  }

  /** The end-tag-name states on anything but a delimiter, whatever the tag:
      a letter with no current tag panics on the missing tag, and any other
      character (or the end of the input) takes the fallback. */
  lemma EndTagNameOtherCharacters(k: TextKind, m: Machine, c: Option<char>)
    requires c.None? || (!IsAsciiWhitespace(c.value) && c.value != '/' && c.value != '>')
    ensures c.Some? && (IsAsciiUpperAlpha(c.value) || IsAsciiLowerAlpha(c.value)) && m.tag.None? ==>
      EndTagNameStep(k, m, c) == StepResult(m, Panicked(TagMissing))
    ensures c.None? || (!IsAsciiUpperAlpha(c.value) && !IsAsciiLowerAlpha(c.value)) ==>
      EndTagNameStep(k, m, c) == EndTagNameFallback(k, m, c)
  {
  }

  /** An end-tag name that does not close the element emits `<`, `/`, the
      buffered characters in order, and then what the text state emits
      for the same input. */
  lemma EndTagNameMismatch(k: TextKind, m: Machine, c: Option<char>)
    requires c.None? || (!IsAsciiUpperAlpha(c.value) && !IsAsciiLowerAlpha(c.value))
    requires EndTagAppropriate(m) == Some(false)
    ensures var r := EndTagNameStep(k, m, c);
      && r.next == TextStep(k, m, c).next
      && r.out == Emit([Character('<'), Character('/')] + CharTokens(m.tempBuf) + TokensOf(TextStep(k, m, c).out))
  {
    var t := EndTagNameFallback(k, m, c).out.tokens;
    assert t == t[..2] + t[2..2 + |m.tempBuf|] + t[2 + |m.tempBuf|..];
  }

  /** On an appropriate `>` the RCDATA state emits the finished tag and
      drops it, while the RAWTEXT state, as written, emits nothing. */
  lemma AppropriateEndTagClose(m: Machine)
    requires EndTagAppropriate(m) == Some(true)
    ensures EndTagNameStep(RcdataText, m, Some('>')) ==
      StepResult(m.(state := Data, tag := None), Emit([Tag(m.tag.value)]))
    ensures EndTagNameStep(RawtextText, m, Some('>')) == StepResult(m.(state := Data), Nothing)
  {
  }

  /** As written the tag-open and end-tag-open states hand a letter to the
      tag-name handler but stay where they are, starting a fresh tag on
      every letter. */
  lemma TagOpenDoesNotSwitch(m: Machine, c: char)
    requires IsAsciiLowerAlpha(c)
    ensures m.state == TagOpen ==>
      Dispatch(m, Some(c)) == StepResult(m.(tag := Some(NewTag(false).(name := [c]))), Nothing)
    ensures m.state == EndTagOpen ==>
      Dispatch(m, Some(c)) == StepResult(m.(tag := Some(NewTag(true).(name := [c]))), Nothing)
  {
    assert IsAsciiAlpha(c) && !IsAsciiUpperAlpha(c) && !IsAsciiWhitespace(c);
    assert [] + [c] == [c];
  }

  /** In the RCDATA state `&` records RCDATA as the return state and moves
      to the character-reference state; `<` moves RCDATA, RAWTEXT and
      script data to their own less-than-sign states. None of these emits
      anything or touches anything else. */
  lemma TextStatesSwitch(m: Machine)
    ensures m.state == Rcdata ==>
      Dispatch(m, Some('&')) == StepResult(m.(returnState := Some(Rcdata), state := CharacterReference), Nothing)
    ensures m.state == Rcdata ==> Dispatch(m, Some('<')) == StepResult(m.(state := RcdataLessThanSign), Nothing)
    ensures m.state == Rawtext ==> Dispatch(m, Some('<')) == StepResult(m.(state := RawtextLessThanSign), Nothing)
    ensures m.state == ScriptData ==> Dispatch(m, Some('<')) == StepResult(m.(state := ScriptDataLessThanSign), Nothing)
  {
  }

  /** In every text state a character the state gives no meaning to
      (anything but NUL, `<` outside PLAINTEXT, and `&` in the data and
      RCDATA states) is emitted as itself and changes nothing. */
  lemma TextStatesEmitOther(m: Machine, c: char)
    requires TextState(m.state) && c != '\0'
    requires m.state != Plaintext ==> c != '<'
    requires m.state == Data || m.state == Rcdata ==> c != '&'
    ensures Dispatch(m, Some(c)) == StepResult(m, Emit([Character(c)]))
  {
  }

  /** The rest of the tag-open state: `!` and `/` move to the markup
      declaration and end-tag-open states, `?` panics in the unimplemented
      bogus-comment handler, an upper-case letter starts a start tag named
      by its lower case, and any other character emits `<` and is
      reconsumed by the data handler. As written the state is not set to
      data first, so an ordinary character leaves the machine in tag open. */
  lemma TagOpenOther(m: Machine, c: char)
    requires m.state == TagOpen
    ensures Dispatch(m, Some('!')) == StepResult(m.(state := MarkupDeclarationOpen), Nothing)
    ensures Dispatch(m, Some('/')) == StepResult(m.(state := EndTagOpen), Nothing)
    ensures Dispatch(m, Some('?')) == StepResult(m, Panicked(Unimplemented(BogusComment)))
    ensures IsAsciiUpperAlpha(c) ==>
      Dispatch(m, Some(c)) == StepResult(m.(tag := Some(NewTag(false).(name := [(c as int + 0x20) as char]))), Nothing)
    ensures c != '!' && c != '/' && c != '?' && !IsAsciiAlpha(c) ==>
      var d := DataStep(m, Some(c));
      Dispatch(m, Some(c)) == StepResult(d.next, Emit([Character('<')] + TokensOf(d.out)))
    ensures c != '!' && c != '/' && c != '?' && c != '&' && c != '<' && c != '\0' && !IsAsciiAlpha(c) ==>
      Dispatch(m, Some(c)) == StepResult(m, Emit([Character('<'), Character(c)]))
  {
    if IsAsciiUpperAlpha(c) {
      assert !IsAsciiWhitespace(c);
      assert [] + [(c as int + 0x20) as char] == [(c as int + 0x20) as char];
    }
    assert [Character('<')] + [Character(c)] == [Character('<'), Character(c)];
  }

  /** The rest of the end-tag-open state: an upper-case letter starts an
      end tag named by its lower case, `<` moves to the data state without
      emitting anything, and any other character panics in the
      unimplemented bogus-comment handler. */
  lemma EndTagOpenBogus(m: Machine, c: char)
    requires m.state == EndTagOpen
    ensures IsAsciiUpperAlpha(c) ==>
      Dispatch(m, Some(c)) == StepResult(m.(tag := Some(NewTag(true).(name := [(c as int + 0x20) as char]))), Nothing)
    ensures Dispatch(m, Some('<')) == StepResult(m.(state := Data), Nothing)
    ensures c != '<' && !IsAsciiAlpha(c) ==> Dispatch(m, Some(c)) == StepResult(m, Panicked(Unimplemented(BogusComment)))
  {
    if IsAsciiUpperAlpha(c) {
      assert !IsAsciiWhitespace(c);
      assert [] + [(c as int + 0x20) as char] == [(c as int + 0x20) as char];
    }
  }

  /** The RCDATA and RAWTEXT less-than-sign states: `/` clears the
      temporary buffer and moves to the end-tag-open state; anything else
      emits `<` and then whatever the text handler does with the same
      input, ending where the text handler ends. */
  lemma LessThanSignReconsumes(k: TextKind, m: Machine, c: Option<char>)
    ensures LessThanSignStep(k, m, Some('/')) ==
      StepResult(m.(tempBuf := [], state := if k == RcdataText then RcdataEndTagOpen else RawtextEndTagOpen), Nothing)
    ensures c != Some('/') ==>
      var t := TextStep(k, m, c);
      LessThanSignStep(k, m, c) == StepResult(t.next, Emit([Character('<')] + TokensOf(t.out)))
  {
  }

  /** The RCDATA and RAWTEXT end-tag-open states: anything but a letter
      emits `<`, `/` and then whatever the text handler does with the same
      input, ending where the text handler ends. */
  lemma EndTagOpenTextNonLetter(k: TextKind, m: Machine, c: Option<char>)
    requires c.None? || !IsAsciiAlpha(c.value)
    ensures var t := TextStep(k, m, c);
      EndTagOpenTextStep(k, m, c) == StepResult(t.next, Emit([Character('<'), Character('/')] + TokensOf(t.out)))
  {
  }

  /** In the end-tag-name states white space and `/` act only on an
      appropriate end tag, moving to the before-attribute-name and
      self-closing states; with a last start tag but no current tag, white
      space, `/` and `>` all panic on the missing tag. */
  lemma EndTagNameDelimiters(k: TextKind, m: Machine, c: char)
    requires IsAsciiWhitespace(c) || c == '/' || c == '>'
    ensures EndTagAppropriate(m) == Some(true) && IsAsciiWhitespace(c) ==>
      EndTagNameStep(k, m, Some(c)) == StepResult(m.(state := BeforeAttributeName), Nothing)
    ensures EndTagAppropriate(m) == Some(true) && c == '/' ==>
      EndTagNameStep(k, m, Some(c)) == StepResult(m.(state := SelfClosingStartTag), Nothing)
    ensures EndTagAppropriate(m).None? ==> EndTagNameStep(k, m, Some(c)) == StepResult(m, Panicked(TagMissing))
  {
  }

  // ---------------------------------------------------------------------
  // Properties of the driver

  /** A queued token is handed out first, without reading input. */
  lemma NextDrainsQueueFirst(t: Tokenizer)
    requires ValidTokenizer(t) && t.queue != []
    ensures NextSpec(t) == (t.(queue := t.queue[1..]), Yield(t.queue[0]))
  {
  }

  /** Each token handed out in turn. */
  function Yields(ts: seq<Token>): (r: seq<NextOutcome>)
    ensures |r| == |ts| && forall i :: 0 <= i < |ts| ==> r[i] == Yield(ts[i])
  {
    if ts == [] then [] else [Yield(ts[0])] + Yields(ts[1..])
  }

  /** The queue comes out front first, in order. */
  lemma {:induction false} QueueFifo(t: Tokenizer)
    requires ValidTokenizer(t)
    ensures NextMany(t, |t.queue|) == Yields(t.queue)
    decreases |t.queue|
  {
    if t.queue != [] {
      var t' := t.(queue := t.queue[1..]);
      QueueFifo(t');
    }
  }

  /** With an empty queue `next()` returns the first token of what the
      loop produced and queues the rest. */
  lemma NextAfterPull(t: Tokenizer)
    requires ValidTokenizer(t) && t.queue == []
    requires Pull(t.m, t.input, t.pos).out.Emit?
    ensures var p := Pull(t.m, t.input, t.pos);
      NextSpec(t) == (Tokenizer(p.m, p.out.tokens[1..], t.input, p.pos), Yield(p.out.tokens[0]))
  {
    var p := Pull(t.m, t.input, t.pos);
    if |p.out.tokens| == 1 {
      assert p.out.tokens[1..] == [];
    }
  }

  /** With an empty queue, a handler's list of tokens is returned in order:
      its first token now and the rest, queued, by the following calls. */
  lemma EmittedTokensInOrder(t: Tokenizer)
    requires ValidTokenizer(t) && t.queue == []
    requires Pull(t.m, t.input, t.pos).out.Emit?
    ensures var ts := Pull(t.m, t.input, t.pos).out.tokens;
      NextMany(t, |ts|) == Yields(ts)
  {
    var p := Pull(t.m, t.input, t.pos);
    var ts := p.out.tokens;
    var t' := Tokenizer(p.m, ts[1..], t.input, p.pos);
    NextAfterPull(t);
    NextManyUnfold(t, |ts|);
    QueueFifo(t');
  }

  /** One call of `next()` that does not panic, then the rest. */
  lemma NextManyUnfold(t: Tokenizer, n: nat)
    requires ValidTokenizer(t) && n > 0 && NextSpec(t).1.Yield?
    ensures NextMany(t, n) == [NextSpec(t).1] + NextMany(NextSpec(t).0, n - 1)
  {
  }

  /** As written, "<div>" in the data state yields `<` and `>` as
      characters (each letter started a new tag that was never finished),
      and then, still in the tag-open state, `<` and the end of file. */
  lemma DivIsNotATag()
    ensures var t := Tokenizer(Machine(Data, None, None, None, []), [], "<div>", 0);
      NextMany(t, 4) == [Yield(Character('<')), Yield(Character('>')), Yield(Character('<')), Yield(Eof)]
  {
    var input := "<div>";
    var m0 := Machine(Data, None, None, None, []);
    var mv := m0.(state := TagOpen, tag := Some(NewTag(false).(name := ['v'])));
    DivPulls();
    var t0 := Tokenizer(m0, [], input, 0);
    var t1 := Tokenizer(mv, [Character('>')], input, 5);
    var t2 := t1.(queue := []);
    var t3 := t2.(queue := [Eof]);
    NextAfterPull(t0);
    NextAfterPull(t2);
    assert t1.queue[1..] == [] && t3.queue[1..] == [];
    NextManyUnfold(t0, 4);
    NextManyUnfold(t1, 3);
    NextManyUnfold(t2, 2);
    NextManyUnfold(t3, 1);
  }

  /** In the tag-open state a lower-case letter only replaces the current
      tag by a one-letter tag, and the loop goes on. */
  lemma TagOpenPullsPastLetter(m: Machine, input: seq<char>, pos: nat)
    requires m.state == TagOpen && pos < |input| && IsAsciiLowerAlpha(input[pos])
    ensures Pull(m, input, pos) == Pull(m.(tag := Some(NewTag(false).(name := [input[pos]]))), input, pos + 1)
  {
    TagOpenDoesNotSwitch(m, input[pos]);
    PullAfterStep(m, input, pos, Some(input[pos]), m.(tag := Some(NewTag(false).(name := [input[pos]]))), Nothing);
  }

  /** The two runs of the driver's loop on "<div>". */
  lemma DivPulls()
    ensures var mv := Machine(TagOpen, None, None, Some(NewTag(false).(name := ['v'])), []);
      && Pull(Machine(Data, None, None, None, []), "<div>", 0) == PullResult(mv, 5, Emit([Character('<'), Character('>')]))
      && Pull(mv, "<div>", 5) == PullResult(mv, 5, Emit([Character('<'), Eof]))
  {
    var input := "<div>";
    var m0 := Machine(Data, None, None, None, []);
    var m1 := m0.(state := TagOpen);
    var mv := m1.(tag := Some(NewTag(false).(name := ['v'])));
    assert Dispatch(m0, Some('<')) == StepResult(m1, Nothing);
    PullAfterStep(m0, input, 0, Some('<'), m1, Nothing);
    DivLetters(m1);
    DivEnd(mv);
  }

  /** The letters of "div" pass through the tag-open state. */
  lemma DivLetters(m1: Machine)
    requires m1.state == TagOpen
    ensures Pull(m1, "<div>", 1) == Pull(m1.(tag := Some(NewTag(false).(name := ['v']))), "<div>", 4)
  {
    var input := "<div>";
    assert IsAsciiLowerAlpha(input[1]) && IsAsciiLowerAlpha(input[2]) && IsAsciiLowerAlpha(input[3]);
    TagOpenPullsPastLetter(m1, input, 1);
    TagOpenPullsPastLetter(m1.(tag := Some(NewTag(false).(name := ['d']))), input, 2);
    TagOpenPullsPastLetter(m1.(tag := Some(NewTag(false).(name := ['i']))), input, 3);
  }

  /** The closing `>` of "<div>" and the end of the input, in the tag-open
      state. */
  lemma DivEnd(mv: Machine)
    requires mv.state == TagOpen
    ensures Pull(mv, "<div>", 4) == PullResult(mv, 5, Emit([Character('<'), Character('>')]))
    ensures Pull(mv, "<div>", 5) == PullResult(mv, 5, Emit([Character('<'), Eof]))
  {
    var input := "<div>";
    assert !IsAsciiAlpha('>');
    assert [Character('<')] + [Character('>')] == [Character('<'), Character('>')];
    PullAfterStep(mv, input, 4, Some('>'), mv, Emit([Character('<'), Character('>')]));
    PullAfterStep(mv, input, 5, None, mv, Emit([Character('<'), Eof]));
  }
}
