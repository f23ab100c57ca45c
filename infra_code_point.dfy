/** Code-point classes of section 4.5 ("Code points") of the WHATWG Infra
    Standard, as the program defines them over `u32`. */
module CodePoint {
  import opened Wrappers

  predicate Surrogate(cp: u32) {
    0xD800 <= cp <= 0xDFFF
  }

  predicate ScalarValue(cp: u32) {
    !Surrogate(cp)
  }

  predicate Noncharacter(cp: u32) {
    || 0xFDD0 <= cp <= 0xFDEF
    || 0xFFFE <= cp <= 0xFFFF
    || 0x1FFFE <= cp <= 0x1FFFF
    || 0x2FFFE <= cp <= 0x2FFFF
    || 0x3FFFE <= cp <= 0x3FFFF
    || 0x4FFFE <= cp <= 0x4FFFF
    || 0x5FFFE <= cp <= 0x5FFFF
    || 0x6FFFE <= cp <= 0x6FFFF
    || 0x7FFFE <= cp <= 0x7FFFF
    || 0x8FFFE <= cp <= 0x8FFFF
    || 0x9FFFE <= cp <= 0x9FFFF
    || 0xAFFFE <= cp <= 0xAFFFF
    || 0xBFFFE <= cp <= 0xBFFFF
    || 0xCFFFE <= cp <= 0xCFFFF
    || 0xDFFFE <= cp <= 0xDFFFF
    || 0xEFFFE <= cp <= 0xEFFFF
    || 0xFFFFE <= cp <= 0xFFFFF
    || 0x10FFFE <= cp <= 0x10FFFF
  }

  predicate AsciiCodePoint(cp: u32) {
    cp <= 0x7F
  }

  predicate AsciiTabOrNewline(cp: u32) {
    cp == 0x9 || cp == 0xA || cp == 0xD
  }

  predicate AsciiWhitespace(cp: u32) {
    cp == 0x9 || cp == 0xA || cp == 0xC || cp == 0xD || cp == 0x20
  }

  predicate C0Control(cp: u32) {
    cp <= 0x1F
  }

  predicate C0ControlOrSpace(cp: u32) {
    C0Control(cp) || cp == 0x20
  }

  predicate Control(cp: u32) {
    if C0Control(cp) then true else 0x7F <= cp <= 0x9F
  }

  predicate AsciiDigit(cp: u32) {
    0x30 <= cp <= 0x39
  }

  /** As written: only A-F, without the digits 0-9 that the Infra Standard
      includes in "ASCII upper hex digit". */
  predicate AsciiUpperHexDigit(cp: u32) {
    0x41 <= cp <= 0x46
  }

  /** As written: only a-f, without the digits. */
  predicate AsciiLowerHexDigit(cp: u32) {
    0x61 <= cp <= 0x66
  }

  predicate AsciiHexDigit(cp: u32) {
    0x41 <= cp <= 0x46 || 0x61 <= cp <= 0x66
  }

  predicate AsciiUpperAlpha(cp: u32) {
    0x41 <= cp <= 0x5A
  }

  predicate AsciiLowerAlpha(cp: u32) {
    0x61 <= cp <= 0x7A
  }

  predicate AsciiAlpha(cp: u32) {
    0x41 <= cp <= 0x5A || 0x61 <= cp <= 0x7A
  }

  predicate AsciiAlphanumeric(cp: u32) {
    AsciiDigit(cp) || AsciiAlpha(cp)
  }

  /** The Infra Standard's own "ASCII hex digit": an ASCII digit or one of
      A-F/a-f.  This is the corrected reading of `AsciiHexDigit`. */
  predicate InfraAsciiHexDigit(cp: u32) {
    AsciiDigit(cp) || 0x41 <= cp <= 0x46 || 0x61 <= cp <= 0x66
  }

  // ---------------------------------------------------------------------
  // Properties

  /** Every Dafny `char` (a Unicode scalar value) is an Infra scalar value
      below U+110000, and so is every Rust `char` the program handles. */
  lemma CharIsScalarValue(c: char)
    ensures c as int <= 0x10FFFF && ScalarValue(c as int)
  {
  }

  /** A noncharacter is U+FDD0..U+FDEF or one of the last two code points of
      one of the 17 planes. */
  lemma NoncharacterPlanes(cp: u32)
    ensures Noncharacter(cp) <==>
      (0xFDD0 <= cp <= 0xFDEF || (cp <= 0x10FFFF && cp % 0x10000 >= 0xFFFE))
  {
    var plane := cp / 0x10000;
    assert cp == plane * 0x10000 + cp % 0x10000;
  }

  /** The alpha classes split into upper and lower case, and the
      alphanumerics are the digits and the letters. */
  lemma AlphaClasses(cp: u32)
    ensures AsciiAlpha(cp) <==> AsciiUpperAlpha(cp) || AsciiLowerAlpha(cp)
    ensures AsciiAlphanumeric(cp) <==> AsciiDigit(cp) || AsciiUpperAlpha(cp) || AsciiLowerAlpha(cp)
    ensures !(AsciiUpperAlpha(cp) && AsciiLowerAlpha(cp))
  {
  }

  /** As written, the hex-digit class is the union of the two case classes
      and contains no decimal digit. */
  lemma AsciiHexDigitAsWritten(cp: u32)
    ensures AsciiHexDigit(cp) <==> AsciiUpperHexDigit(cp) || AsciiLowerHexDigit(cp)
    ensures AsciiDigit(cp) ==> !AsciiHexDigit(cp)
  {
  }

  /** The input that shows the discrepancy: '0' is an Infra hex digit but not
      a hex digit as the program defines it. */
  lemma AsciiHexDigitMissesZero()
    ensures InfraAsciiHexDigit(0x30) && !AsciiHexDigit(0x30)
  {
  }

  /** The corrected class is exactly 0-9, A-F, a-f, and it contains the
      as-written one. */
  lemma InfraAsciiHexDigitIsDigitsAndLetters(cp: u32)
    ensures InfraAsciiHexDigit(cp) <==> AsciiDigit(cp) || AsciiHexDigit(cp)
    ensures AsciiHexDigit(cp) ==> InfraAsciiHexDigit(cp)
    ensures InfraAsciiHexDigit(cp) ==> AsciiAlphanumeric(cp)
  {
  }

  /** The control classes. */
  lemma ControlClasses(cp: u32)
    ensures Control(cp) <==> C0Control(cp) || 0x7F <= cp <= 0x9F
    ensures C0ControlOrSpace(cp) <==> C0Control(cp) || cp == 0x20
  {
  }

  /** Tab-or-newline is contained in whitespace, which is contained in
      C0-control-or-space. */
  lemma WhitespaceChain(cp: u32)
    ensures AsciiTabOrNewline(cp) ==> AsciiWhitespace(cp)
    ensures AsciiWhitespace(cp) ==> C0ControlOrSpace(cp)
  {
  }

  /** Every alphanumeric is an ASCII code point. */
  lemma AlphanumericIsAscii(cp: u32)
    ensures AsciiAlphanumeric(cp) ==> AsciiCodePoint(cp)
  {
  }
}
