/** A string held as UTF-16 code units, the representation JavaScript
    strings use; characters outside the Basic Multilingual Plane are stored
    as surrogate pairs as described in section 2.1 of RFC 2781. */
module Utf16 {
  import opened Wrappers

  /** The UTF-16 code units of one character.  A Dafny `char` is a Unicode
      scalar value, so the program's panic on a surrogate code point
      (string/mod.rs:58) cannot be reached, just as it cannot with a Rust
      `char`. */
  function EncodeChar(c: char): (units: seq<u16>)
    ensures 1 <= |units| <= 2
    ensures |units| == 1 <==> c as int <= 0xFFFF
    ensures |units| == 1 ==> units[0] == c as int
    ensures |units| == 2 ==>
      && 0xD800 <= units[0] <= 0xDBFF
      && 0xDC00 <= units[1] <= 0xDFFF
      && (units[0] as int - 0xD800) * 0x400 + (units[1] as int - 0xDC00) + 0x10000 == c as int
  {
    var u := c as int;
    if u <= 0xD7FF || 0xE000 <= u <= 0xFFFF then
      [u]
    else
      var uPrime := u - 0x10000;
      var high := uPrime / 0x400 + 0xD800;
      var low := uPrime % 0x400 + 0xDC00;
      [high, low]
  }

  /** Decodes one character's worth of code units: a lone unit is the code
      point itself, a pair is combined as RFC 2781 describes. */
  function DecodeUnits(units: seq<u16>): int
    requires 1 <= |units| <= 2
  {
    if |units| == 1 then units[0] as int
    else (units[0] as int - 0xD800) * 0x400 + (units[1] as int - 0xDC00) + 0x10000
  }

  /** Decoding what `EncodeChar` produced gives the character back, and a
      single unit is never a surrogate. */
  lemma EncodeCharRoundTrip(c: char)
    ensures DecodeUnits(EncodeChar(c)) == c as int
    ensures |EncodeChar(c)| == 1 ==> !(0xD800 <= EncodeChar(c)[0] <= 0xDFFF)
  {
  }

  class Utf16String {
    /** The code units, in order. */
    var vec: seq<u16>

    constructor ()
      ensures vec == []
    {
      vec := [];
    }

    /** Appends the other string's code units. */
    method PushStr(other: Utf16String)
      modifies this
      ensures vec == old(vec) + old(other.vec)
      ensures other != this ==> other.vec == old(other.vec)
    {
      vec := vec + other.vec;
    }

    /** Appends one code unit. */
    method Push(unit: u16)
      modifies this
      ensures vec == old(vec) + [unit]
    {
      vec := vec + [unit];
    }

    /** Appends the UTF-16 encoding of `c`: one unit inside the Basic
        Multilingual Plane, a surrogate pair outside it. */
    method PushChar(c: char)
      modifies this
      ensures vec == old(vec) + EncodeChar(c)
    {
      var u := c as int;
      if u <= 0xD7FF || 0xE000 <= u <= 0xFFFF {
        vec := vec + [u];
      } else {
        var uPrime := u - 0x10000;
        var high := uPrime / 0x400 + 0xD800;
        var low := uPrime % 0x400 + 0xDC00;
        vec := vec + [high];
        vec := vec + [low];
      }
    }
  }
}
