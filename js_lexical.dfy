/** The lexical character classes of ECMA-262 sections 12.1 to 12.3 (Unicode
    format-control characters, white space, line terminators), as the
    program's JavaScript front end defines them. */
module JsLexical {
  import opened Wrappers

  /** ZWNJ, ZWJ and ZWNBSP. */
  predicate Control(c: u32) {
    c == 0x200C || c == 0x200D || c == 0xFEFF
  }

  /** TAB, VT, FF, SP, NBSP and ZWNBSP; the other Unicode "Space_Separator"
      code points are not recognised, as in the program. */
  predicate WhiteSpace(c: u32) {
    c == 0x9 || c == 0xB || c == 0xC || c == 0x20 || c == 0xA0 || c == 0xFEFF
  }

  /** LF, CR, LS and PS. */
  predicate LineTerminator(c: u32) {
    c == 0xA || c == 0xD || c == 0x2028 || c == 0x2029
  }

  /** The classes as sets: what each predicate accepts, and nothing else. */
  lemma ClassMembers(c: u32)
    ensures Control(c) <==> c in {0x200C, 0x200D, 0xFEFF}
    ensures WhiteSpace(c) <==> c in {0x9, 0xB, 0xC, 0x20, 0xA0, 0xFEFF}
    ensures LineTerminator(c) <==> c in {0xA, 0xD, 0x2028, 0x2029}
  {
  }

  /** No character is both white space and a line terminator, and ZWNBSP is
      the only format-control character that is also white space. */
  lemma ClassOverlaps(c: u32)
    ensures !(WhiteSpace(c) && LineTerminator(c))
    ensures Control(c) && WhiteSpace(c) <==> c == 0xFEFF
    ensures !(Control(c) && LineTerminator(c))
  {
  }
}
