/** The byte-at-a-time UTF-8 decoder of section 8.1.1 of the WHATWG Encoding
    Standard, as the program implements it, and the UTF-8 encoding of a
    string (what Rust's `str::as_bytes` yields) that the other modules use
    to speak about the bytes of a string. */
module Utf8 {
  import opened Wrappers
  import CodePoint

  // ---------------------------------------------------------------------
  // UTF-8 encoding

  /** The UTF-8 bytes of one scalar value. */
  function EncodeChar(c: char): (bytes: seq<u8>)
    ensures 1 <= |bytes| <= 4
    ensures |bytes| == 1 <==> c as int <= 0x7F
    ensures |bytes| == 1 ==> bytes[0] == c as int
    ensures |bytes| > 1 ==> 0xC2 <= bytes[0] <= 0xF4
    ensures forall i :: 1 <= i < |bytes| ==> 0x80 <= bytes[i] <= 0xBF
  {
    var u := c as int;
    if u < 0x80 then [u]
    else if u < 0x800 then [0xC0 + u / 0x40, 0x80 + u % 0x40]
    else if u < 0x1_0000 then [0xE0 + u / 0x1000, 0x80 + (u / 0x40) % 0x40, 0x80 + u % 0x40]
    else [0xF0 + u / 0x4_0000, 0x80 + (u / 0x1000) % 0x40, 0x80 + (u / 0x40) % 0x40, 0x80 + u % 0x40]
  }

  /** The UTF-8 bytes of a string. */
  function EncodeString(s: string): (bytes: seq<u8>)
    ensures |bytes| >= |s|
  {
    if s == [] then [] else EncodeChar(s[0]) + EncodeString(s[1..])
  }

  /** An ASCII-only string is encoded byte for byte. */
  lemma {:induction false} EncodeAsciiString(s: string)
    requires forall i :: 0 <= i < |s| ==> s[i] as int <= 0x7F
    ensures |EncodeString(s)| == |s|
    ensures forall i :: 0 <= i < |s| ==> EncodeString(s)[i] == s[i] as int
  {
    if s != [] {
      EncodeAsciiString(s[1..]);
    }
  }

  // ---------------------------------------------------------------------
  // Decoder

  /** What one call of `read` reports. */
  datatype ConvertByteResult = Char(c: char) | Error | ErrorWithPrepend(b: u8) | Finished

  /** `read` either returns, or reaches the `unreachable!()` at
      io/decode/utf8.rs:120 because the assembled code point is not a
      `char`. */
  datatype ReadOutcome = Returned(result: ConvertByteResult) | Unreachable(codePoint: u32)

  /** The five decoder fields. */
  datatype DecoderState = DecoderState(
    codePoint: u32,
    bytesSeen: nat,
    bytesNeeded: nat,
    lowerBound: u8,
    upperBound: u8)

  const Initial := DecoderState(0, 0, 0, 0x80, 0xBF)

  /** The decoder as the program writes it, or as the Encoding Standard
      specifies it.  The two differ in two places: the program rejects a
      continuation byte equal to either bound (io/decode/utf8.rs:96), and it
      gives the upper bound 0x9F to lead byte 0xEF rather than 0xED
      (io/decode/utf8.rs:76). */
  datatype Variant = AsWritten | Standard

  /** The three-byte lead byte that narrows the upper bound to 0x9F. */
  function NarrowedLead(v: Variant): u8 {
    if v.AsWritten? then 0xEF else 0xED
  }

  predicate OutOfBounds(v: Variant, c: u8, lower: u8, upper: u8) {
    if v.AsWritten? then c <= lower || c >= upper else c < lower || c > upper
  }

  /** `(cp << 6) | (c & 0x3F)` on `u32`: the shift drops the bits above 32,
      and the six low bits it makes zero are then filled with `c`'s. */
  function ShiftIn(cp: u32, c: u8): (r: u32)
    ensures r % 0x40 == c % 0x40 && r / 0x40 == cp % 0x400_0000
  {
    (cp * 0x40) % 0x1_0000_0000 + c % 0x40
  }

  /** While the code point has fewer than 26 bits the shift loses nothing,
      and a continuation byte contributes its six low bits. */
  lemma ShiftInNoWrap(cp: u32, m: nat)
    requires cp < 0x400_0000 && m < 0x40
    ensures ShiftIn(cp, 0x80 + m) == cp * 0x40 + m
  {
    assert (cp * 0x40) % 0x1_0000_0000 == cp * 0x40;
    assert (0x80 + m) % 0x40 == m;
  }

  /** One iteration of `read`'s loop: the decoder either goes on to the next
      byte or returns. */
  datatype StepResult = Continue(next: DecoderState) | Stop(next: DecoderState, outcome: ReadOutcome)

  /** One iteration of the loop on the byte `b`, `None` standing for the end
      of the input. */
  function Step(v: Variant, s: DecoderState, b: Option<u8>): (r: StepResult)
    ensures b.None? ==> r.Stop?
  {
    match b
    case None =>
      if s.bytesNeeded != 0 then Stop(s.(bytesNeeded := 0), Returned(Error))
      else Stop(s, Returned(Finished))
    case Some(c) =>
      if s.bytesNeeded == 0 then
        if c <= 0x7F then Stop(s, Returned(Char(c as char)))
        else if 0xC2 <= c <= 0xDF then
          Continue(s.(bytesNeeded := 1, codePoint := c % 0x20))
        else if 0xE0 <= c <= 0xEF then
          Continue(s.(lowerBound := if c == 0xE0 then 0xA0 else s.lowerBound,
                      upperBound := if c == NarrowedLead(v) then 0x9F else s.upperBound,
                      bytesNeeded := 2,
                      codePoint := c % 0x10))
        else if 0xF0 <= c <= 0xF4 then
          Continue(s.(lowerBound := if c == 0xF0 then 0x90 else s.lowerBound,
                      upperBound := if c == 0xF4 then 0x8F else s.upperBound,
                      bytesNeeded := 3,
                      codePoint := c % 0x8))
        else Stop(s, Returned(Error))
      else if OutOfBounds(v, c, s.lowerBound, s.upperBound) then
        Stop(Initial, Returned(ErrorWithPrepend(c)))
      else
        var cp := ShiftIn(s.codePoint, c);
        var seen := s.bytesSeen + 1;
        if seen != s.bytesNeeded then
          Continue(s.(lowerBound := 0x80, upperBound := 0xBF, codePoint := cp, bytesSeen := seen))
        else
          var done := DecoderState(0, 0, 0, 0x80, 0xBF);
          if cp <= 0x10FFFF && CodePoint.ScalarValue(cp) then Stop(done, Returned(Char(cp as char)))
          else Stop(done, Unreachable(cp))
  }

  /** A whole call of `read` on the reader `input` positioned at `pos`:
      the new decoder state, the new reader position and the outcome. */
  datatype ReadResult = ReadResult(state: DecoderState, pos: nat, outcome: ReadOutcome)

  function ReadFrom(v: Variant, s: DecoderState, input: seq<u8>, pos: nat): (r: ReadResult)
    requires pos <= |input|
    ensures pos <= r.pos <= |input|
    ensures r.pos == pos ==>
      pos == |input| && (r.outcome == Returned(Finished) || (s.bytesNeeded > 0 && r.state.bytesNeeded == 0))
    decreases |input| - pos
  {
    var b := if pos < |input| then Some(input[pos]) else None;
    var pos' := if pos < |input| then pos + 1 else pos;
    match Step(v, s, b)
    case Stop(next, outcome) => ReadResult(next, pos', outcome)
    case Continue(next) => ReadFrom(v, next, input, pos')
  }

  /** Calls `read` until it reports `Finished` (or reaches the
      `unreachable!()`), collecting what each call reported. */
  function ReadAll(v: Variant, s: DecoderState, input: seq<u8>, pos: nat): seq<ReadOutcome>
    requires pos <= |input|
    decreases |input| - pos, s.bytesNeeded
  {
    var r := ReadFrom(v, s, input, pos);
    if r.outcome == Returned(Finished) || r.outcome.Unreachable? then [r.outcome]
    else [r.outcome] + ReadAll(v, r.state, input, r.pos)
  }

  /** What decoding a string's characters should report. */
  function CharsThenFinished(s: string): seq<ReadOutcome> {
    if s == [] then [Returned(Finished)] else [Returned(Char(s[0]))] + CharsThenFinished(s[1..])
  }

  // ---------------------------------------------------------------------
  // One byte at a time

  /** With nothing pending, an ASCII byte is returned as a character and the
      state is left as it was. */
  lemma StepAscii(v: Variant, s: DecoderState, c: u8)
    requires s.bytesNeeded == 0 && c <= 0x7F
    ensures Step(v, s, Some(c)) == Stop(s, Returned(Char(c as char)))
  {
  }

  /** With nothing pending, a byte that cannot start a sequence is an error
      and the state is left as it was. */
  lemma StepInvalidLead(v: Variant, s: DecoderState, c: u8)
    requires s.bytesNeeded == 0 && (0x80 <= c <= 0xC1 || c >= 0xF5)
    ensures Step(v, s, Some(c)) == Stop(s, Returned(Error))
  {
  }

  /** A lead byte starts a sequence of 1, 2 or 3 continuation bytes, keeps
      its low 5, 4 or 3 bits, and narrows a bound for E0, EF (as written),
      F0 and F4. */
  lemma StepLead(s: DecoderState, c: u8)
    requires s.bytesNeeded == 0 && 0xC2 <= c <= 0xF4
    ensures var r := Step(AsWritten, s, Some(c));
      && r.Continue?
      && r.next.bytesSeen == s.bytesSeen
      && (c <= 0xDF ==> r.next.bytesNeeded == 1 && r.next.codePoint == c % 0x20)
      && (0xE0 <= c <= 0xEF ==> r.next.bytesNeeded == 2 && r.next.codePoint == c % 0x10)
      && (0xF0 <= c ==> r.next.bytesNeeded == 3 && r.next.codePoint == c % 0x8)
      && r.next.lowerBound == (if c == 0xE0 then 0xA0 else if c == 0xF0 then 0x90 else s.lowerBound)
      && r.next.upperBound == (if c == 0xEF then 0x9F else if c == 0xF4 then 0x8F else s.upperBound)
  {
  }

  /** As written, a continuation byte on or outside either bound is
      reported for re-reading and every field goes back to its initial
      value. */
  lemma StepRejects(s: DecoderState, c: u8)
    requires s.bytesNeeded > 0 && (c <= s.lowerBound || c >= s.upperBound)
    ensures Step(AsWritten, s, Some(c)) == Stop(Initial, Returned(ErrorWithPrepend(c)))
  {
  }

  /** An accepted continuation byte shifts its low six bits into the code
      point, counts itself and restores the default bounds; the last one
      returns the code point and clears the counters. */
  lemma StepAccepts(s: DecoderState, c: u8)
    requires s.bytesNeeded > 0 && s.lowerBound < c < s.upperBound
    requires s.codePoint < 0x4000000
    ensures var r := Step(AsWritten, s, Some(c));
      var cp := s.codePoint * 0x40 + c % 0x40;
      if s.bytesSeen + 1 != s.bytesNeeded then
        r == Continue(DecoderState(cp, s.bytesSeen + 1, s.bytesNeeded, 0x80, 0xBF))
      else
        && r.next == Initial
        && (if cp <= 0x10FFFF && CodePoint.ScalarValue(cp) then r.outcome == Returned(Char(cp as char))
            else r.outcome == Unreachable(cp))
  {
  }

  /** At the end of the input a pending sequence is an error that clears
      `bytesNeeded` only; otherwise the decoder reports `Finished`. */
  lemma StepEnd(v: Variant, s: DecoderState)
    ensures Step(v, s, None) ==
      if s.bytesNeeded != 0 then Stop(s.(bytesNeeded := 0), Returned(Error))
      else Stop(s, Returned(Finished))
  {
  }

  // ---------------------------------------------------------------------
  // Where the program departs from the Encoding Standard

  /** U+0080 is encoded C2 80; the program rejects the 0x80 because it tests
      the bounds exclusively, where the Standard decodes it. */
  lemma ExclusiveBoundsRejectU0080()
    ensures ReadFrom(AsWritten, Initial, [0xC2, 0x80], 0).outcome == Returned(ErrorWithPrepend(0x80))
    ensures ReadFrom(Standard, Initial, [0xC2, 0x80], 0).outcome == Returned(Char('\U{80}'))
  {
    var input: seq<u8> := [0xC2, 0x80];
    var s1 := DecoderState(0x2, 0, 1, 0x80, 0xBF);
    ReadFromContinue(AsWritten, Initial, input, 0, s1);
    ReadFromStop(AsWritten, s1, input, 1, Initial, Returned(ErrorWithPrepend(0x80)));
    ReadFromContinue(Standard, Initial, input, 0, s1);
    ShiftInNoWrap(0x2, 0);
    ReadFromStop(Standard, s1, input, 1, Initial, Returned(Char('\U{80}')));
  }

  /** U+F801 is encoded EF A0 81; because 0xEF narrows the upper bound the
      program rejects it, where the Standard decodes it. */
  lemma NarrowedEfRejectsUF801()
    ensures ReadFrom(AsWritten, Initial, [0xEF, 0xA0, 0x81], 0).outcome == Returned(ErrorWithPrepend(0xA0))
    ensures ReadFrom(Standard, Initial, [0xEF, 0xA0, 0x81], 0).outcome == Returned(Char('\U{F801}'))
  {
    var input: seq<u8> := [0xEF, 0xA0, 0x81];
    var s1 := DecoderState(0xF, 0, 2, 0x80, 0x9F);
    ReadFromContinue(AsWritten, Initial, input, 0, s1);
    ReadFromStop(AsWritten, s1, input, 1, Initial, Returned(ErrorWithPrepend(0xA0)));
    var t1 := s1.(upperBound := 0xBF);
    var t2 := DecoderState(0x3E0, 1, 2, 0x80, 0xBF);
    ReadFromContinue(Standard, Initial, input, 0, t1);
    ShiftInNoWrap(0xF, 0x20);
    ReadFromContinue(Standard, t1, input, 1, t2);
    ShiftInNoWrap(0x3E0, 0x01);
    ReadFromStop(Standard, t2, input, 2, Initial, Returned(Char('\U{F801}')));
  }

  /** ED A0 81 would be the surrogate U+D801; with 0xED left unnarrowed the
      program assembles it and reaches the `unreachable!()`, where the
      Standard rejects the 0xA0. */
  lemma SurrogateReachesUnreachable()
    ensures ReadFrom(AsWritten, Initial, [0xED, 0xA0, 0x81], 0).outcome == Unreachable(0xD801)
    ensures ReadFrom(Standard, Initial, [0xED, 0xA0, 0x81], 0).outcome == Returned(ErrorWithPrepend(0xA0))
  {
    var input: seq<u8> := [0xED, 0xA0, 0x81];
    var s1 := DecoderState(0xD, 0, 2, 0x80, 0xBF);
    var s2 := DecoderState(0x360, 1, 2, 0x80, 0xBF);
    ReadFromContinue(AsWritten, Initial, input, 0, s1);
    ReadFromContinue(AsWritten, s1, input, 1, s2);
    assert Step(AsWritten, s2, Some(0x81)) == Stop(Initial, Unreachable(0xD801));
    ReadFromContinue(Standard, Initial, input, 0, s1.(upperBound := 0x9F));
  }

  /** Unfolding `ReadFrom` over a byte that does not end the call. */
  lemma ReadFromContinue(v: Variant, s: DecoderState, input: seq<u8>, pos: nat, next: DecoderState)
    requires pos < |input| && Step(v, s, Some(input[pos])) == Continue(next)
    ensures ReadFrom(v, s, input, pos) == ReadFrom(v, next, input, pos + 1)
  {
  }

  /** Unfolding `ReadFrom` over the byte that ends the call. */
  lemma ReadFromStop(v: Variant, s: DecoderState, input: seq<u8>, pos: nat, next: DecoderState, outcome: ReadOutcome)
    requires pos < |input| && Step(v, s, Some(input[pos])) == Stop(next, outcome)
    ensures ReadFrom(v, s, input, pos) == ReadResult(next, pos + 1, outcome)
  {
  }

  /** Decoding the UTF-8 bytes of `c` from the initial state returns `c`,
      consumes exactly those bytes and returns to the initial state. */
  lemma DecodeEncodedChar(c: char, input: seq<u8>, pos: nat)
    requires pos + |EncodeChar(c)| <= |input|
    requires input[pos..pos + |EncodeChar(c)|] == EncodeChar(c)
    ensures ReadFrom(Standard, Initial, input, pos) ==
      ReadResult(Initial, pos + |EncodeChar(c)|, Returned(Char(c)))
  {
    var e := EncodeChar(c);
    assert forall i :: 0 <= i < |e| ==> input[pos + i] == e[i];
    var u := c as int;
    if u < 0x80 {
    } else if u < 0x800 {
      DecodeTwoBytes(c, input, pos);
    } else if u < 0x1_0000 {
      DecodeThreeBytes(c, input, pos);
    } else {
      DecodeFourBytes(c, input, pos);
    }
  }

  /** `u` split into a top part and two groups of six bits, as the
      three-byte encoding splits it. */
  lemma SixBitGroups3(u: nat) returns (q: nat, m1: nat, m0: nat)
    ensures m1 < 0x40 && m0 < 0x40
    ensures u == q * 0x1000 + m1 * 0x40 + m0
    ensures q == u / 0x1000 && m1 == (u / 0x40) % 0x40 && m0 == u % 0x40
  {
    var a := u / 0x40;
    m0 := u % 0x40;
    q := a / 0x40;
    m1 := a % 0x40;
    assert u == a * 0x40 + m0;
    assert a == q * 0x40 + m1;
    assert u == q * 0x1000 + (m1 * 0x40 + m0);
    assert 0 <= m1 * 0x40 + m0 < 0x1000;
  }

  /** `u` split into a top part and three groups of six bits, as the
      four-byte encoding splits it. */
  lemma SixBitGroups4(u: nat) returns (q: nat, m2: nat, m1: nat, m0: nat)
    ensures m2 < 0x40 && m1 < 0x40 && m0 < 0x40
    ensures u == q * 0x4_0000 + m2 * 0x1000 + m1 * 0x40 + m0
    ensures q == u / 0x4_0000 && m2 == (u / 0x1000) % 0x40
    ensures m1 == (u / 0x40) % 0x40 && m0 == u % 0x40
  {
    var a, b;
    a, m1, m0 := SixBitGroups3(u);
    q := a / 0x40;
    m2 := a % 0x40;
    assert a == q * 0x40 + m2;
    assert u == q * 0x4_0000 + (m2 * 0x1000 + m1 * 0x40 + m0);
    assert 0 <= m2 * 0x1000 + m1 * 0x40 + m0 < 0x4_0000;
    b := (u / 0x1000);
    assert b == a;
  }

  lemma DecodeTwoBytes(c: char, input: seq<u8>, pos: nat)
    requires 0x80 <= c as int < 0x800
    requires pos + 2 <= |input| && input[pos] == EncodeChar(c)[0] && input[pos + 1] == EncodeChar(c)[1]
    ensures ReadFrom(Standard, Initial, input, pos) == ReadResult(Initial, pos + 2, Returned(Char(c)))
  {
    var u := c as int;
    var q := u / 0x40;
    var m0 := u % 0x40;
    assert u == q * 0x40 + m0;
    assert input[pos] == 0xC0 + q && input[pos + 1] == 0x80 + m0;
    var s1 := Initial.(bytesNeeded := 1, codePoint := q);
    ReadFromContinue(Standard, Initial, input, pos, s1);
    ShiftInNoWrap(q, m0);
  }

  lemma DecodeThreeBytes(c: char, input: seq<u8>, pos: nat)
    requires 0x800 <= c as int < 0x1_0000
    requires pos + 3 <= |input|
    requires input[pos] == EncodeChar(c)[0] && input[pos + 1] == EncodeChar(c)[1] && input[pos + 2] == EncodeChar(c)[2]
    ensures ReadFrom(Standard, Initial, input, pos) == ReadResult(Initial, pos + 3, Returned(Char(c)))
  {
    var q, m1, m0 := SixBitGroups3(c as int);
    assert input[pos] == 0xE0 + q && input[pos + 1] == 0x80 + m1 && input[pos + 2] == 0x80 + m0;
    ThreeByteSteps(c, q, m1, m0, input, pos);
  }

  /** The three steps of a three-byte sequence, on its six-bit groups. */
  lemma ThreeByteSteps(c: char, q: nat, m1: nat, m0: nat, input: seq<u8>, pos: nat)
    requires q < 0x10 && m1 < 0x40 && m0 < 0x40 && c as int == q * 0x1000 + m1 * 0x40 + m0
    requires 0x800 <= c as int
    requires pos + 3 <= |input|
    requires input[pos] == 0xE0 + q && input[pos + 1] == 0x80 + m1 && input[pos + 2] == 0x80 + m0
    ensures ReadFrom(Standard, Initial, input, pos) == ReadResult(Initial, pos + 3, Returned(Char(c)))
  {
    assert q == 0 ==> m1 >= 0x20;
    assert q == 0xD ==> m1 < 0x20;
    var s1 := DecoderState(q, 0, 2, if q == 0 then 0xA0 else 0x80, if q == 0xD then 0x9F else 0xBF);
    ReadFromContinue(Standard, Initial, input, pos, s1);
    var s2 := DecoderState(q * 0x40 + m1, 1, 2, 0x80, 0xBF);
    ShiftInNoWrap(q, m1);
    ReadFromContinue(Standard, s1, input, pos + 1, s2);
    ShiftInNoWrap(q * 0x40 + m1, m0);
    assert Step(Standard, s2, Some(input[pos + 2])) == Stop(Initial, Returned(Char(c)));
    ReadFromStop(Standard, s2, input, pos + 2, Initial, Returned(Char(c)));
  }

  lemma DecodeFourBytes(c: char, input: seq<u8>, pos: nat)
    requires 0x1_0000 <= c as int
    requires pos + 4 <= |input|
    requires input[pos] == EncodeChar(c)[0] && input[pos + 1] == EncodeChar(c)[1]
    requires input[pos + 2] == EncodeChar(c)[2] && input[pos + 3] == EncodeChar(c)[3]
    ensures ReadFrom(Standard, Initial, input, pos) == ReadResult(Initial, pos + 4, Returned(Char(c)))
  {
    var q, m2, m1, m0 := SixBitGroups4(c as int);
    assert input[pos] == 0xF0 + q && input[pos + 1] == 0x80 + m2;
    assert input[pos + 2] == 0x80 + m1 && input[pos + 3] == 0x80 + m0;
    FourByteSteps(c, q, m2, m1, m0, input, pos);
  }

  /** The four steps of a four-byte sequence, on its six-bit groups. */
  lemma FourByteSteps(c: char, q: nat, m2: nat, m1: nat, m0: nat, input: seq<u8>, pos: nat)
    requires q <= 4 && m2 < 0x40 && m1 < 0x40 && m0 < 0x40
    requires c as int == q * 0x4_0000 + m2 * 0x1000 + m1 * 0x40 + m0
    requires 0x1_0000 <= c as int
    requires pos + 4 <= |input|
    requires input[pos] == 0xF0 + q && input[pos + 1] == 0x80 + m2
    requires input[pos + 2] == 0x80 + m1 && input[pos + 3] == 0x80 + m0
    ensures ReadFrom(Standard, Initial, input, pos) == ReadResult(Initial, pos + 4, Returned(Char(c)))
  {
    var cp2 := q * 0x40 + m2;
    FourByteLead(q, m2, input, pos);
    assert cp2 * 0x1000 + m1 * 0x40 + m0 == c as int;
    FourByteTail(c, cp2, m1, m0, input, pos + 2);
  }

  /** The lead byte and the first continuation byte of a four-byte
      sequence. */
  lemma FourByteLead(q: nat, m2: nat, input: seq<u8>, pos: nat)
    requires q <= 4 && m2 < 0x40
    requires q == 0 ==> m2 >= 0x10
    requires q == 4 ==> m2 < 0x10
    requires pos + 2 <= |input| && input[pos] == 0xF0 + q && input[pos + 1] == 0x80 + m2
    ensures ReadFrom(Standard, Initial, input, pos) ==
      ReadFrom(Standard, DecoderState(q * 0x40 + m2, 1, 3, 0x80, 0xBF), input, pos + 2)
  {
    var s1 := DecoderState(q, 0, 3, if q == 0 then 0x90 else 0x80, if q == 4 then 0x8F else 0xBF);
    assert Step(Standard, Initial, Some(input[pos])) == Continue(s1);
    ReadFromContinue(Standard, Initial, input, pos, s1);
    ShiftInNoWrap(q, m2);
    var s2 := DecoderState(q * 0x40 + m2, 1, 3, 0x80, 0xBF);
    assert Step(Standard, s1, Some(input[pos + 1])) == Continue(s2);
    ReadFromContinue(Standard, s1, input, pos + 1, s2);
  }

  /** The last two continuation bytes of a four-byte sequence. */
  lemma FourByteTail(c: char, cp2: nat, m1: nat, m0: nat, input: seq<u8>, pos: nat)
    requires cp2 < 0x110 && m1 < 0x40 && m0 < 0x40 && c as int == cp2 * 0x1000 + m1 * 0x40 + m0
    requires pos + 2 <= |input| && input[pos] == 0x80 + m1 && input[pos + 1] == 0x80 + m0
    ensures ReadFrom(Standard, DecoderState(cp2, 1, 3, 0x80, 0xBF), input, pos) ==
      ReadResult(Initial, pos + 2, Returned(Char(c)))
  {
    var s2 := DecoderState(cp2, 1, 3, 0x80, 0xBF);
    var cp3 := cp2 * 0x40 + m1;
    var s3 := DecoderState(cp3, 2, 3, 0x80, 0xBF);
    ShiftInNoWrap(cp2, m1);
    assert Step(Standard, s2, Some(input[pos])) == Continue(s3);
    ReadFromContinue(Standard, s2, input, pos, s3);
    ShiftInNoWrap(cp3, m0);
    assert cp3 * 0x40 + m0 == c as int;
    assert Step(Standard, s3, Some(input[pos + 1])) == Stop(Initial, Returned(Char(c)));
    ReadFromStop(Standard, s3, input, pos + 1, Initial, Returned(Char(c)));
  }

  /** Decoding the UTF-8 bytes of a whole string reports each of its
      characters in order and then `Finished`. */
  lemma {:induction false} DecodeEncodedString(s: string, input: seq<u8>, pos: nat)
    requires pos <= |input| && input[pos..] == EncodeString(s)
    ensures ReadAll(Standard, Initial, input, pos) == CharsThenFinished(s)
    decreases s
  {
    if s == [] {
      ReadAllAtEnd(input);
    } else {
      var next := DecodeFirstChar(s, input, pos);
      DecodeEncodedString(s[1..], input, next);
      assert CharsThenFinished(s) == [Returned(Char(s[0]))] + CharsThenFinished(s[1..]);
    }
  }

  /** The first character of an encoded string is decoded from its bytes,
      leaving the rest of the string's bytes. */
  lemma DecodeFirstChar(s: string, input: seq<u8>, pos: nat) returns (next: nat)
    requires s != [] && pos <= |input| && input[pos..] == EncodeString(s)
    ensures pos <= next <= |input| && input[next..] == EncodeString(s[1..])
    ensures ReadAll(Standard, Initial, input, pos) == [Returned(Char(s[0]))] + ReadAll(Standard, Initial, input, next)
  {
    var c, rest := s[0], s[1..];
    var e, tail := EncodeChar(c), EncodeString(rest);
    assert EncodeString(s) == e + tail;
    SplitSuffix(input, pos, e, tail);
    DecodeEncodedChar(c, input, pos);
    next := pos + |e|;
    ReadAllAfterChar(input, pos, next, c);
  }

  /** At the end of the input the decoder reports `Finished` and stops. */
  lemma ReadAllAtEnd(input: seq<u8>)
    ensures ReadAll(Standard, Initial, input, |input|) == [Returned(Finished)]
  {
    assert ReadFrom(Standard, Initial, input, |input|).outcome == Returned(Finished);
  }

  /** A suffix that is `e + rest` splits into `e` and then `rest`. */
  lemma SplitSuffix(input: seq<u8>, pos: nat, e: seq<u8>, rest: seq<u8>)
    requires pos <= |input| && input[pos..] == e + rest
    ensures pos + |e| <= |input|
    ensures input[pos..pos + |e|] == e && input[pos + |e|..] == rest
  {
    assert input[pos..][..|e|] == e;
    assert input[pos..][|e|..] == rest;
  }

  /** A call that returns a character is followed by the rest of the
      decoding. */
  lemma ReadAllAfterChar(input: seq<u8>, pos: nat, pos': nat, c: char)
    requires pos <= pos' <= |input|
    requires ReadFrom(Standard, Initial, input, pos) == ReadResult(Initial, pos', Returned(Char(c)))
    ensures ReadAll(Standard, Initial, input, pos) == [Returned(Char(c))] + ReadAll(Standard, Initial, input, pos')
  {
  }

  // ---------------------------------------------------------------------
  // The decoder's invariant

  /** How large the code point can be after `seen` continuation bytes. */
  function PendingBound(seen: nat): nat {
    if seen == 0 then 0x20 else if seen == 1 then 0x800 else 0x2_0000
  }

  /** A sequence is pending exactly when `bytesNeeded` is positive; then
      fewer bytes have been seen than are needed and the code point has not
      outgrown them.  While input remains, a decoder with nothing pending has
      its initial bounds and counter (only the end-of-input error leaves
      them stale, io/decode/utf8.rs:56-58). */
  ghost predicate StateInvariant(s: DecoderState, inputLeft: bool) {
    && s.bytesNeeded <= 3
    && (s.bytesNeeded > 0 ==> s.bytesSeen < s.bytesNeeded && s.codePoint < PendingBound(s.bytesSeen))
    && (s.bytesNeeded == 0 && inputLeft ==> s.bytesSeen == 0 && s.lowerBound == 0x80 && s.upperBound == 0xBF)
  }

  /** One step keeps the invariant. */
  lemma StepKeepsInvariant(v: Variant, s: DecoderState, input: seq<u8>, pos: nat)
    requires pos <= |input| && StateInvariant(s, pos < |input|)
    ensures var r := Step(v, s, if pos < |input| then Some(input[pos]) else None);
      StateInvariant(r.next, (if pos < |input| then pos + 1 else pos) < |input|)
  {
  }

  /** A whole call keeps the invariant, so between calls `bytesNeeded` is at
      most 3 and, while a sequence is pending, `bytesSeen < bytesNeeded`. */
  lemma {:induction false} ReadKeepsInvariant(v: Variant, s: DecoderState, input: seq<u8>, pos: nat)
    requires pos <= |input| && StateInvariant(s, pos < |input|)
    ensures var r := ReadFrom(v, s, input, pos);
      r.pos <= |input| && StateInvariant(r.state, r.pos < |input|)
    decreases |input| - pos
  {
    StepKeepsInvariant(v, s, input, pos);
    var b := if pos < |input| then Some(input[pos]) else None;
    var pos' := if pos < |input| then pos + 1 else pos;
    if Step(v, s, b).Continue? {
      ReadKeepsInvariant(v, Step(v, s, b).next, input, pos');
    }
  }

  // ---------------------------------------------------------------------
  // The decoder object

  class Utf8Decoder {
    var codePoint: u32
    var bytesSeen: nat
    var bytesNeeded: nat
    var lowerBound: u8
    var upperBound: u8
    /** The reader, modelled as the bytes it will produce and how many of
        them have been taken. */
    var input: seq<u8>
    var pos: nat

    function State(): DecoderState
      reads this
    {
      DecoderState(codePoint, bytesSeen, bytesNeeded, lowerBound, upperBound)
    }

    ghost predicate Valid()
      reads this
    {
      pos <= |input| && StateInvariant(State(), pos < |input|)
    }

    constructor (reader: seq<u8>)
      ensures Valid()
      ensures State() == Initial && input == reader && pos == 0
    {
      codePoint, bytesSeen, bytesNeeded := 0, 0, 0;
      lowerBound, upperBound := 0x80, 0xBF;
      input, pos := reader, 0;
    }

    /** Reads bytes until one character, an error or the end of the input
        can be reported. */
    method Read() returns (r: ReadOutcome)
      requires Valid()
      modifies this
      ensures Valid()
      ensures input == old(input)
      ensures ReadResult(State(), pos, r) == ReadFrom(AsWritten, old(State()), input, old(pos))
    {
      ReadKeepsInvariant(AsWritten, State(), input, pos);
      ghost var expected := ReadFrom(AsWritten, State(), input, pos);
      while true
        invariant input == old(input) && pos <= |input|
        invariant ReadFrom(AsWritten, State(), input, pos) == expected
        decreases |input| - pos
      {
        if pos >= |input| {
          // the reader reports that nothing is left
          if bytesNeeded != 0 {
            bytesNeeded := 0;
            return Returned(Error);
          }
          return Returned(Finished);
        }
        var c := input[pos];
        pos := pos + 1;
        var stop := Consume(c);
        if stop.Some? {
          return stop.value;
        }
      }
    }

    /** The body of `read`'s loop once a byte `c` has been read: `Some`
        of what `read` returns, or `None` when it reads the next byte. */
    method Consume(c: u8) returns (stop: Option<ReadOutcome>)
      modifies this
      ensures input == old(input) && pos == old(pos)
      ensures Step(AsWritten, old(State()), Some(c)) ==
        if stop.Some? then Stop(State(), stop.value) else Continue(State())
    {
      if bytesNeeded == 0 {
        if c <= 0x7F {
          return Some(Returned(Char(c as char)));
        } else if 0xC2 <= c <= 0xDF {
          bytesNeeded := 1;
          codePoint := c % 0x20;
        } else if 0xE0 <= c <= 0xEF {
          if c == 0xE0 {
            lowerBound := 0xA0;
          }
          if c == 0xEF {
            upperBound := 0x9F;
          }
          bytesNeeded := 2;
          codePoint := c % 0x10;
        } else if 0xF0 <= c <= 0xF4 {
          if c == 0xF0 {
            lowerBound := 0x90;
          }
          if c == 0xF4 {
            upperBound := 0x8F;
          }
          bytesNeeded := 3;
          codePoint := c % 0x8;
        } else {
          return Some(Returned(Error));
        }
        return None;
      }

      if c <= lowerBound || c >= upperBound {
        codePoint, bytesNeeded, bytesSeen := 0, 0, 0;
        lowerBound, upperBound := 0x80, 0xBF;
        return Some(Returned(ErrorWithPrepend(c)));
      }

      lowerBound, upperBound := 0x80, 0xBF;
      codePoint := (codePoint * 0x40) % 0x1_0000_0000 + c % 0x40;
      bytesSeen := bytesSeen + 1;
      if bytesSeen != bytesNeeded {
        return None;
      }

      var cp := codePoint;
      codePoint, bytesNeeded, bytesSeen := 0, 0, 0;
      if cp <= 0x10FFFF && CodePoint.ScalarValue(cp) {
        return Some(Returned(Char(cp as char)));
      }
      return Some(Unreachable(cp));
    }
  }
}
