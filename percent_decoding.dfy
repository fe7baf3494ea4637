/**
 * `urllib.parse.unquote`, restricted to escapes of ASCII characters as
 * section 2.1 of RFC 3986 defines them: "%" followed by two hexadecimal
 * digits, in either case, stands for the octet they spell. An escape of an
 * octet of 0x80 or more is kept as it is written (see README, "Left out").
 */
module PercentDecoding {
  import opened Wrappers

  /** The value of a hexadecimal digit, upper or lower case. */
  function HexValue(c: char): (r: Option<nat>)
    ensures r.Some? ==> r.value < 16
  {
    if '0' <= c <= '9' then Some(c as nat - '0' as nat)
    else if 'a' <= c <= 'f' then Some(c as nat - 'a' as nat + 10)
    else if 'A' <= c <= 'F' then Some(c as nat - 'A' as nat + 10)
    else None
  }

  /** The ASCII character `s[..3]` stands for, when it is an escape of one. */
  function Escape(s: string): (r: Option<char>)
    ensures r.Some? ==> |s| >= 3 && s[0] == '%' && r.value < 128 as char
  {
    if |s| >= 3 && s[0] == '%' && HexValue(s[1]).Some? && HexValue(s[2]).Some?
       && 16 * HexValue(s[1]).value + HexValue(s[2]).value < 128
    then Some((16 * HexValue(s[1]).value + HexValue(s[2]).value) as char)
    else None
  }

  /** `unquote(s)`: every escape replaced by its character, everything else kept. */
  function Unquote(s: string): (r: string)
    ensures |r| <= |s|
    ensures r == [] <==> s == []
    decreases |s|
  {
    if s == [] then []
    else
      match Escape(s)
      case Some(c) => [c] + Unquote(s[3..])
      case None => [s[0]] + Unquote(s[1..])
  }

  /** Text without "%" is left unchanged. */
  lemma {:induction false} UnquoteWithoutPercent(s: string)
    requires forall i :: 0 <= i < |s| ==> s[i] != '%'
    ensures Unquote(s) == s
    decreases |s|
  {
    if s != [] {
      UnquoteWithoutPercent(s[1..]);
    }
  }

  /** The upper-case hexadecimal digit of `d`. */
  function HexDigit(d: nat): (c: char)
    requires d < 16
    ensures HexValue(c) == Some(d)
  {
    if d < 10 then ('0' as nat + d) as char else ('A' as nat + d - 10) as char
  }

  /** Whether `Quote` writes `c` as an escape: "%" always, another ASCII character unless `safe` keeps it. */
  predicate Escaped(c: char, safe: char -> bool) {
    c == '%' || (c < 128 as char && !safe(c))
  }

  /**
   * An independent reference encoder in the manner of `quote(s, safe)`,
   * restricted to ASCII: every escaped character becomes "%" and its two
   * upper-case hexadecimal digits, every other character, non-ASCII ones
   * included, stays as it is. Unlike Python's `quote`, it escapes "%" even
   * when `safe` keeps it.
   */
  function Quote(s: string, safe: char -> bool): (r: string)
    ensures |r| >= |s|
    decreases |s|
  {
    if s == [] then []
    else
      var c := s[0];
      (if Escaped(c, safe) then ['%', HexDigit(c as nat / 16), HexDigit(c as nat % 16)] else [c])
      + Quote(s[1..], safe)
  }

  /** Decoding undoes any ASCII escaping: every text survives a quote-unquote round trip. */
  lemma {:induction false} UnquoteQuote(s: string, safe: char -> bool)
    ensures Unquote(Quote(s, safe)) == s
    decreases |s|
  {
    if s != [] {
      var c, q := s[0], Quote(s, safe);
      UnquoteQuote(s[1..], safe);
      if Escaped(c, safe) {
        var n := c as nat;
        assert q[..3] == ['%', HexDigit(n / 16), HexDigit(n % 16)] && q[3..] == Quote(s[1..], safe);
        assert 16 * (n / 16) + n % 16 == n < 128;
        assert Escape(q) == Some(c);
      } else {
        assert q[0] == c && q[1..] == Quote(s[1..], safe);
        assert Escape(q) == None;
      }
    }
  }

  /** `unquote(unquote(x))` recovers a text that was quoted twice, with any safe sets. */
  lemma DoubleUnquote(s: string, inner: char -> bool, outer: char -> bool)
    ensures Unquote(Unquote(Quote(Quote(s, inner), outer))) == s
  {
    UnquoteQuote(Quote(s, inner), outer);
    UnquoteQuote(s, inner);
  }
}
