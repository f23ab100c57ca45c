/** Percent-encoded bytes (section 1.3 of the WHATWG URL Standard), as the
    program implements them: encoding one byte, and decoding a byte string
    with the program's own handling of malformed `%` sequences. */
module PercentEncoding {
  import opened Wrappers
  import Utf8

  const PERCENT: u8 := 0x25

  /** The program's lowercase hex alphabet, "0123456789abcdef". */
  function HexChar(n: nat): (c: char)
    requires n < 16
    ensures '0' <= c <= '9' || 'a' <= c <= 'f'
  {
    if n < 10 then ('0' as int + n) as char else ('a' as int + n - 10) as char
  }

  /** A byte that the decoder accepts as a hex digit: 0-9, A-F or a-f. */
  predicate IsHexByte(b: u8) {
    0x30 <= b <= 0x39 || 0x41 <= b <= 0x46 || 0x61 <= b <= 0x66
  }

  /** The value of a hex-digit byte. */
  function HexValue(b: u8): (n: nat)
    requires IsHexByte(b)
    ensures n < 16
  {
    if b <= 0x39 then b - 0x30 else if b <= 0x46 then b - 0x41 + 10 else b - 0x61 + 10
  }

  /** `%` followed by the lowercase hex digits of the high and low nibble. */
  function PercentEncoded(b: u8): (s: string)
    ensures |s| == 3 && s[0] == '%'
    ensures forall i :: 1 <= i < 3 ==> s[i] as int < 0x80
    ensures forall i :: 1 <= i < 3 ==> IsHexByte(s[i] as int)
    ensures HexValue(s[1] as int) * 16 + HexValue(s[2] as int) == b
  {
    ['%', HexChar(b / 16), HexChar(b % 16)]
  }

  /** Encodes one byte by pushing its three characters onto a buffer. */
  method Encode(b: u8) returns (buf: string)
    ensures buf == PercentEncoded(b)
  {
    buf := [];
    buf := buf + ['%'];
    buf := buf + [HexChar(b / 16)];
    buf := buf + [HexChar(b % 16)];
  }

  /** What the program's `decode` returns, stated recursively: ordinary bytes
      are copied; `%` and two hex digits become one byte; a `%` at the very
      end is dropped; `%` and one hex digit at the end leave that digit; a
      `%` before a non-hex byte is dropped; and a `%` whose first digit is
      followed by a non-hex byte leaves that digit, which is then read again
      as an ordinary byte. */
  function Decoded(bytes: seq<u8>): (r: seq<u8>)
    ensures |r| <= |bytes|
    decreases |bytes|
  {
    if bytes == [] then []
    else if bytes[0] != PERCENT then [bytes[0]] + Decoded(bytes[1..])
    else if |bytes| == 1 then []
    else if !IsHexByte(bytes[1]) then Decoded(bytes[1..])
    else if |bytes| == 2 then [bytes[1]]
    else if IsHexByte(bytes[2]) then [HexValue(bytes[1]) * 16 + HexValue(bytes[2])] + Decoded(bytes[3..])
    else [bytes[1]] + Decoded(bytes[1..])
  }

  /** The program's `decode`: one pass over the input, with a counter that
      skips the two digits of a decoded `%xx`. */
  method Decode(bytes: seq<u8>) returns (output: seq<u8>)
    ensures output == Decoded(bytes)
  {
    output := [];
    var skips := 0;
    for n := 0 to |bytes|
      invariant 0 <= skips <= 2 && n + skips <= |bytes|
      invariant output + Decoded(bytes[n + skips..]) == Decoded(bytes)
    {
      if skips != 0 {
        skips := skips - 1;
        continue;
      }
      assert bytes[n..] == [bytes[n]] + bytes[n + 1..];
      if bytes[n] != PERCENT {
        output := output + [bytes[n]];
        continue;
      }
      if n + 1 >= |bytes| {
        return output;
      }
      if IsHexByte(bytes[n + 1]) {
        if n + 2 >= |bytes| {
          output := output + [bytes[n + 1]];
          return output;
        }
        if IsHexByte(bytes[n + 2]) {
          skips := 2;
          var highNibble := HexValue(bytes[n + 1]);
          var lowNibble := HexValue(bytes[n + 2]);
          // (high << 4) | low, with both nibbles below 16
          output := output + [highNibble * 16 + lowNibble];
          assert bytes[n..][3..] == bytes[n + 3..];
          continue;
        }
        output := output + [bytes[n + 1]];
        continue;
      }
    }
  }

  /** `decode_str`: decodes the UTF-8 bytes of a string; a string without
      `%` comes back as its own UTF-8 bytes. */
  method DecodeStr(s: string) returns (output: seq<u8>)
    ensures output == Decoded(Utf8.EncodeString(s))
    ensures (forall i :: 0 <= i < |s| ==> s[i] != '%') ==> output == Utf8.EncodeString(s)
  {
    output := Decode(Utf8.EncodeString(s));
    if forall i :: 0 <= i < |s| ==> s[i] != '%' {
      EncodeStringWithoutPercent(s);
      DecodedWithoutPercent(Utf8.EncodeString(s));
    }
  }

  /** The UTF-8 bytes of a string hold 0x25 only where the string holds `%`:
      every byte of a multi-byte sequence is 0x80 or above. */
  lemma {:induction false} EncodeStringWithoutPercent(s: string)
    requires forall i :: 0 <= i < |s| ==> s[i] != '%'
    ensures forall i :: 0 <= i < |Utf8.EncodeString(s)| ==> Utf8.EncodeString(s)[i] != PERCENT
  {
    if s != [] {
      EncodeStringWithoutPercent(s[1..]);
      var head := Utf8.EncodeChar(s[0]);
      assert forall i :: 0 <= i < |head| ==> head[i] != PERCENT;
    }
  }

  // ---------------------------------------------------------------------
  // Properties

  /** Bytes without a `%` come back unchanged. */
  lemma {:induction false} DecodedWithoutPercent(bytes: seq<u8>)
    requires forall i :: 0 <= i < |bytes| ==> bytes[i] != PERCENT
    ensures Decoded(bytes) == bytes
  {
    if bytes != [] {
      DecodedWithoutPercent(bytes[1..]);
    }
  }

  /** A prefix without `%` is copied in front of the rest's decoding. */
  lemma {:induction false} DecodedPlainPrefix(prefix: seq<u8>, rest: seq<u8>)
    requires forall i :: 0 <= i < |prefix| ==> prefix[i] != PERCENT
    ensures Decoded(prefix + rest) == prefix + Decoded(rest)
  {
    if prefix != [] {
      var whole := prefix + rest;
      assert whole[0] == prefix[0] != PERCENT;
      assert whole[1..] == prefix[1..] + rest;
      assert Decoded(whole) == [prefix[0]] + Decoded(prefix[1..] + rest);
      DecodedPlainPrefix(prefix[1..], rest);
      assert prefix == [prefix[0]] + prefix[1..];
    } else {
      assert prefix + rest == rest;
    }
  }

  /** `%` and two hex digits decode to the single byte `(hi << 4) | lo`, and
      decoding goes on after the digits. */
  lemma DecodedTriplet(hi: u8, lo: u8, rest: seq<u8>)
    requires IsHexByte(hi) && IsHexByte(lo)
    ensures Decoded([PERCENT, hi, lo] + rest) == [HexValue(hi) * 16 + HexValue(lo)] + Decoded(rest)
  {
    assert ([PERCENT, hi, lo] + rest)[3..] == rest;
  }

  /** At the end of the input a lone `%` is dropped, and `%` with one hex
      digit leaves just that digit. */
  lemma DecodedTruncatedEscape(prefix: seq<u8>, d: u8)
    requires forall i :: 0 <= i < |prefix| ==> prefix[i] != PERCENT
    requires IsHexByte(d)
    ensures Decoded(prefix + [PERCENT]) == prefix
    ensures Decoded(prefix + [PERCENT, d]) == prefix + [d]
  {
    DecodedPlainPrefix(prefix, [PERCENT]);
    DecodedPlainPrefix(prefix, [PERCENT, d]);
  }

  /** A `%` before a non-hex byte is dropped; a `%` whose hex digit is
      followed by a non-hex byte leaves that digit twice: it is pushed once
      by the failed escape and again when the loop, having advanced past
      the `%` only, reads it as an ordinary byte. */
  lemma DecodedMalformedEscape(d: u8, x: u8, rest: seq<u8>)
    requires !IsHexByte(x) && x != PERCENT && IsHexByte(d)
    ensures Decoded([PERCENT, x] + rest) == [x] + Decoded(rest)
    ensures Decoded([PERCENT, d, x] + rest) == [d, d, x] + Decoded(rest)
  {
    assert ([PERCENT, x] + rest)[1..] == [x] + rest;
    assert ([x] + rest)[1..] == rest;
    assert ([PERCENT, d, x] + rest)[1..] == [d, x] + rest;
    assert ([d, x] + rest)[1..] == [x] + rest;
  }

  /** Decoding the UTF-8 bytes of an encoded byte gives that byte back. */
  lemma EncodeDecodeRoundTrip(b: u8)
    ensures Decoded(Utf8.EncodeString(PercentEncoded(b))) == [b]
  {
    var s := PercentEncoded(b);
    Utf8.EncodeAsciiString(s);
    var bytes := Utf8.EncodeString(s);
    assert bytes == [PERCENT, s[1] as int, s[2] as int];
    DecodedTriplet(s[1] as int, s[2] as int, []);
    assert bytes == [PERCENT, s[1] as int, s[2] as int] + [];
  }

  // ---------------------------------------------------------------------
  // The URL Standard's percent-decode

  /** Percent-decode as the URL Standard defines it: a `%` that does not
      start `%` and two hex digits is kept as it is. */
  function StandardDecoded(bytes: seq<u8>): seq<u8>
    decreases |bytes|
  {
    if bytes == [] then []
    else if bytes[0] == PERCENT && |bytes| >= 3 && IsHexByte(bytes[1]) && IsHexByte(bytes[2]) then
      [HexValue(bytes[1]) * 16 + HexValue(bytes[2])] + StandardDecoded(bytes[3..])
    else [bytes[0]] + StandardDecoded(bytes[1..])
  }

  /** No `%` of `bytes` starts a `%` and two hex digits. */
  predicate NoEscapes(bytes: seq<u8>) {
    forall i :: 0 <= i < |bytes| - 2 && bytes[i] == PERCENT ==> !(IsHexByte(bytes[i + 1]) && IsHexByte(bytes[i + 2]))
  }

  /** The Standard's decoding leaves input without escapes unchanged, and it
      also decodes what `PercentEncoded` produces. */
  lemma {:induction false} StandardDecodedKeepsPlainInput(bytes: seq<u8>)
    requires NoEscapes(bytes)
    ensures StandardDecoded(bytes) == bytes
  {
    if bytes != [] {
      assert NoEscapes(bytes[1..]) by {
        forall i | 0 <= i < |bytes[1..]| - 2 && bytes[1..][i] == PERCENT
          ensures !(IsHexByte(bytes[1..][i + 1]) && IsHexByte(bytes[1..][i + 2]))
        {
          assert bytes[i + 1] == PERCENT;
        }
      }
      StandardDecodedKeepsPlainInput(bytes[1..]);
    }
  }

  lemma StandardEncodeDecodeRoundTrip(b: u8)
    ensures StandardDecoded(Utf8.EncodeString(PercentEncoded(b))) == [b]
  {
    var s := PercentEncoded(b);
    Utf8.EncodeAsciiString(s);
    var bytes := Utf8.EncodeString(s);
    assert bytes == [PERCENT, s[1] as int, s[2] as int];
    assert bytes[3..] == [];
  }

  /** The input that shows the program's malformed-`%` handling: "%4z" decodes
      to "44z" where the Standard keeps "%4z". */
  lemma MalformedEscapeDuplicatesDigit()
    ensures Decoded([0x25, 0x34, 0x7A]) == [0x34, 0x34, 0x7A]
    ensures StandardDecoded([0x25, 0x34, 0x7A]) == [0x25, 0x34, 0x7A]
  {
    DecodedMalformedEscape(0x34, 0x7A, []);
    assert [0x25, 0x34, 0x7A] == [PERCENT, 0x34, 0x7A] + [];
    StandardDecodedKeepsPlainInput([0x25, 0x34, 0x7A]);
  }
}
