/**
 * PHP's `rawurlencode`: percent-encoding as in section 2.1 of RFC 3986.
 * Every byte outside the unreserved set of section 2.3 (ALPHA, DIGIT,
 * "-", ".", "_", "~") becomes "%" followed by two upper-case hex digits.
 */
module RawUrl {
  import opened Options
  import opened PhpStrings

  predicate IsUnreserved(c: Byte)
  {
    ('A' <= c <= 'Z') || ('a' <= c <= 'z') || ('0' <= c <= '9') || c == '-' || c == '.' || c == '_' || c == '~'
  }

  function HexDigit(n: nat): Byte
    requires n < 16
  {
    if n < 10 then ('0' as int + n) as char else ('A' as int + n - 10) as char
  }

  /** The value of a hex digit of either case. */
  function HexValue(c: Byte): (r: Option<nat>)
    ensures r.Some? ==> r.value < 16
  {
    if '0' <= c <= '9' then Some(c as int - '0' as int)
    else if 'A' <= c <= 'F' then Some(c as int - 'A' as int + 10)
    else if 'a' <= c <= 'f' then Some(c as int - 'a' as int + 10)
    else None
  }

  function EncodeByte(c: Byte): PhpString
  {
    if IsUnreserved(c) then [c] else ['%', HexDigit(c as int / 16), HexDigit(c as int % 16)]
  }

  /**
   * `rawurlencode(s)`. Its output is made only of unreserved bytes and "%",
   * so it never holds the "&", "\"", "," or "=" that the OAuth header uses
   * as delimiters.
   */
  function Encode(s: PhpString): (r: PhpString)
    ensures |r| >= |s|
    ensures forall i :: 0 <= i < |r| ==> IsUnreserved(r[i]) || r[i] == '%'
    decreases |s|
  {
    if s == [] then [] else EncodeByte(s[0]) + Encode(s[1..])
  }

  /**
   * Percent-decoding (what a receiving OAuth parser applies to a value):
   * "%" must be followed by two hex digits; any other byte stands for itself.
   */
  function Decode(s: PhpString): Option<PhpString>
    decreases |s|
  {
    if s == [] then Some([])
    else if s[0] == '%' then
      if |s| < 3 then None
      else match (HexValue(s[1]), HexValue(s[2]), Decode(s[3..]))
        case (Some(hi), Some(lo), Some(rest)) => Some([(hi * 16 + lo) as char] + rest)
        case _ => None
    else match Decode(s[1..])
      case Some(rest) => Some([s[0]] + rest)
      case None => None
  }

  /** Decoding one encoded byte in front of a decodable tail restores the byte. */
  lemma DecodeEncodeByte(c: Byte, t: PhpString, x: PhpString)
    requires Decode(t) == Some(x)
    ensures Decode(EncodeByte(c) + t) == Some([c] + x)
  {
    var e := EncodeByte(c) + t;
    if IsUnreserved(c) {
      assert e[0] == c && e[1..] == t;
    } else {
      var hi, lo := c as int / 16, c as int % 16;
      assert e[0] == '%' && e[1] == HexDigit(hi) && e[2] == HexDigit(lo) && e[3..] == t;
      assert HexValue(HexDigit(hi)) == Some(hi);
      assert HexValue(HexDigit(lo)) == Some(lo);
      assert (hi * 16 + lo) as char == c;
    }
  }

  /** Decoding undoes the encoding, whatever bytes the input holds. */
  lemma {:induction false} DecodeEncode(s: PhpString)
    ensures Decode(Encode(s)) == Some(s)
    decreases |s|
  {
    if s != [] {
      DecodeEncode(s[1..]);
      DecodeEncodeByte(s[0], Encode(s[1..]), s[1..]);
      assert s == [s[0]] + s[1..];
    }
  }

  /** Two inputs with the same encoding are equal. */
  lemma EncodeInjective(a: PhpString, b: PhpString)
    requires Encode(a) == Encode(b)
    ensures a == b
  {
    DecodeEncode(a);
    DecodeEncode(b);
  }

  /** A string made only of unreserved bytes is left as it is. */
  lemma {:induction false} EncodeUnreserved(s: PhpString)
    requires forall i :: 0 <= i < |s| ==> IsUnreserved(s[i])
    ensures Encode(s) == s
    decreases |s|
  {
    if s != [] {
      EncodeUnreserved(s[1..]);
      assert Encode(s) == [s[0]] + s[1..];
    }
  }
}
