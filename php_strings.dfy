/**
 * PHP strings and the few string built-ins the client relies on.
 *
 * A PHP string is a sequence of bytes; here each byte is a `char` below 256,
 * so string literals can be written directly.
 */
module PhpStrings {
  import opened Options

  type Byte = c: char | c as int < 0x100 witness 'a'
  type PhpString = seq<Byte>

  /** Index of the first `c` in `s`, or `|s|` when `s` has none. */
  function Find(s: PhpString, c: Byte): (r: nat)
    ensures r <= |s|
    ensures r < |s| ==> s[r] == c
    ensures forall i :: 0 <= i < r ==> s[i] != c
    decreases |s|
  {
    if s == [] then 0
    else if s[0] == c then 0
    else 1 + Find(s[1..], c)
  }

  /** The first `c` of `a + [c] + b` is the one after `a` when `a` holds no `c`. */
  lemma FindAfter(a: PhpString, c: Byte, b: PhpString)
    requires forall i :: 0 <= i < |a| ==> a[i] != c
    ensures Find(a + [c] + b, c) == |a|
  {
    var s := a + [c] + b;
    var r := Find(s, c);
    assert s[|a|] == c;
    assert forall i :: 0 <= i < |a| ==> s[i] == a[i];
  }

  ghost predicate OccursAt(s: PhpString, pattern: PhpString, i: nat)
  {
    i + |pattern| <= |s| && s[i..i + |pattern|] == pattern
  }

  /** `strpos(s, pattern) !== false` for a non-empty pattern, searched from the front. */
  predicate Contains(s: PhpString, pattern: PhpString)
    ensures Contains(s, pattern) ==> |pattern| <= |s|
    ensures Contains(s, pattern) ==> forall k :: 0 <= k < |pattern| ==> pattern[k] in s
    decreases |s|
  {
    (|pattern| <= |s| && s[..|pattern|] == pattern) || (|s| > 0 && Contains(s[1..], pattern))
  }

  /** An occurrence at offset `i` is found by the search. */
  lemma {:induction false} OccursAtContains(s: PhpString, pattern: PhpString, i: nat)
    requires OccursAt(s, pattern, i)
    ensures Contains(s, pattern)
    decreases i
  {
    if i == 0 {
      assert s[..|pattern|] == s[0..|pattern|];
    } else {
      assert s[1..][i - 1..i - 1 + |pattern|] == s[i..i + |pattern|];
      OccursAtContains(s[1..], pattern, i - 1);
    }
  }

  /** The search finds `pattern` exactly when it occurs at some offset of `s`. */
  lemma {:induction false} ContainsIff(s: PhpString, pattern: PhpString)
    ensures Contains(s, pattern) <==> exists i :: OccursAt(s, pattern, i)
    decreases |s|
  {
    if exists i :: OccursAt(s, pattern, i) {
      var i: nat :| OccursAt(s, pattern, i);
      OccursAtContains(s, pattern, i);
    } else if Contains(s, pattern) {
      if |pattern| <= |s| && s[..|pattern|] == pattern {
        assert OccursAt(s, pattern, 0);
      } else {
        ContainsIff(s[1..], pattern);
        var i: nat :| OccursAt(s[1..], pattern, i);
        assert s[1..][i..i + |pattern|] == s[i + 1..i + 1 + |pattern|];
        assert OccursAt(s, pattern, i + 1);
      }
    }
  }

  /** `implode(sep, parts)`. */
  function Join(parts: seq<PhpString>, sep: PhpString): PhpString
    decreases |parts|
  {
    if |parts| == 0 then []
    else if |parts| == 1 then parts[0]
    else parts[0] + sep + Join(parts[1..], sep)
  }

  /** Joining more than one part: the first part, the separator, then the rest joined. */
  lemma JoinCons(parts: seq<PhpString>, sep: PhpString)
    requires |parts| > 1
    ensures Join(parts, sep) == parts[0] + (sep + Join(parts[1..], sep))
  {
  }

  /**
   * `implode` starts with the first part, followed by the separator when
   * more parts follow, and ends with the last part; no parts give "".
   */
  lemma {:induction false} JoinShape(parts: seq<PhpString>, sep: PhpString)
    ensures |parts| == 0 ==> Join(parts, sep) == []
    ensures |parts| > 0 ==> parts[0] <= Join(parts, sep)
    ensures |parts| > 1 ==> parts[0] + sep <= Join(parts, sep)
    ensures |parts| > 0 ==> var r, last := Join(parts, sep), parts[|parts| - 1];
                            |last| <= |r| && r[|r| - |last|..] == last
    decreases |parts|
  {
    if |parts| > 1 {
      JoinShape(parts[1..], sep);
      assert parts[1..][|parts[1..]| - 1] == parts[|parts| - 1];
    }
  }

  predicate IsDigit(c: Byte)
  {
    '0' <= c <= '9'
  }

  function DigitChar(d: nat): (c: Byte)
    requires d < 10
    ensures IsDigit(c) && c as int - '0' as int == d
  {
    ('0' as int + d) as char
  }

  /** The decimal digits of `n`, most significant first, without leading zeros. */
  function NatDigits(n: nat): (r: PhpString)
    ensures |r| > 0
    ensures forall i :: 0 <= i < |r| ==> IsDigit(r[i])
    decreases n
  {
    if n < 10 then [DigitChar(n)] else NatDigits(n / 10) + [DigitChar(n % 10)]
  }

  /** PHP's conversion of an integer to a string (what `rawurlencode` sees when given an int). */
  function DecimalString(n: int): (r: PhpString)
    ensures |r| > 0
    ensures r[0] == '-' <==> n < 0
    ensures forall k :: (if n < 0 then 1 else 0) <= k < |r| ==> IsDigit(r[k])
  {
    if n < 0 then "-" + NatDigits(-n) else NatDigits(n)
  }

  /** Reads back a non-empty run of decimal digits. */
  function ParseDigits(s: PhpString): Option<nat>
    decreases |s|
  {
    if s == [] || !IsDigit(s[|s| - 1]) then None
    else
      var d := s[|s| - 1] as int - '0' as int;
      if |s| == 1 then Some(d)
      else match ParseDigits(s[..|s| - 1])
        case Some(p) => Some(p * 10 + d)
        case None => None
  }

  /** Reads back an optionally negative decimal integer. */
  function ParseDecimal(s: PhpString): Option<int>
  {
    if |s| > 0 && s[0] == '-' then
      match ParseDigits(s[1..])
      case Some(p) => Some(-(p as int))
      case None => None
    else
      match ParseDigits(s)
      case Some(p) => Some(p)
      case None => None
  }

  lemma {:induction false} ParseNatDigits(n: nat)
    ensures ParseDigits(NatDigits(n)) == Some(n)
    decreases n
  {
    if n >= 10 {
      var s := NatDigits(n);
      assert s[..|s| - 1] == NatDigits(n / 10);
      ParseNatDigits(n / 10);
    }
  }

  /** The decimal rendering of an integer reads back as that integer. */
  lemma DecimalRoundTrip(n: int)
    ensures ParseDecimal(DecimalString(n)) == Some(n)
  {
    if n < 0 {
      assert DecimalString(n)[1..] == NatDigits(-n);
      ParseNatDigits(-n);
    } else {
      assert IsDigit(NatDigits(n)[0]);
      ParseNatDigits(n);
    }
  }

  /** Folds an ASCII upper-case letter to lower case, as PCRE's case-insensitive match does. */
  function AsciiLower(c: Byte): Byte
  {
    if 'A' <= c <= 'Z' then (c as int - 'A' as int + 'a' as int) as char else c
  }

  /** `preg_match('!^prefix!i', s)` for a literal prefix. */
  predicate StartsWithCaseless(s: PhpString, prefix: PhpString)
    ensures StartsWithCaseless(s, prefix) ==> |prefix| <= |s|
    ensures |prefix| <= |s| && s[..|prefix|] == prefix ==> StartsWithCaseless(s, prefix)
  {
    |prefix| <= |s| && forall i :: 0 <= i < |prefix| ==> AsciiLower(s[i]) == AsciiLower(prefix[i])
  }
}
