/**
 * The pieces of Rust's standard library that the status parser relies on:
 * `char::is_digit(10)`, `char::is_whitespace` and `str::trim`,
 * `str::split_once`, `str::strip_suffix`, `str::parse` into `i32` and
 * `usize`, and the decimal text that `Display` writes for those integers.
 * Strings are sequences of Unicode scalar values, as Rust's `char`s are.
 */
module RustStr {
  import opened Wrappers

  /** Rust's `i32`. */
  type i32 = x: int | -0x8000_0000 <= x < 0x8000_0000

  /** Rust's `usize` on a 64-bit target. */
  type usize = x: int | 0 <= x < 0x1_0000_0000_0000_0000

  /** `char::is_digit(10)`: only the ASCII digits have a radix-10 value. */
  predicate IsDigit(c: char) {
    '0' <= c <= '9'
  }

  predicate AllDigits(s: string) {
    forall i :: 0 <= i < |s| ==> IsDigit(s[i])
  }

  /**
   * `char::is_whitespace`: the characters with the Unicode White_Space
   * property, tab to carriage return, space, NEL, NBSP, OGHAM SPACE MARK,
   * EN QUAD to HAIR SPACE, the line and paragraph separators, NNBSP, MMSP
   * and IDEOGRAPHIC SPACE.
   */
  predicate IsWhitespace(c: char) {
    || '\t' <= c <= '\r'
    || c == ' '
    || c == '\U{85}'
    || c == '\U{A0}'
    || c == '\U{1680}'
    || '\U{2000}' <= c <= '\U{200A}'
    || c == '\U{2028}'
    || c == '\U{2029}'
    || c == '\U{202F}'
    || c == '\U{205F}'
    || c == '\U{3000}'
  }

  /** `s` neither starts nor ends with whitespace, so `Trim` leaves it alone. */
  predicate NoSurroundingWhitespace(s: string) {
    s == [] || (!IsWhitespace(s[0]) && !IsWhitespace(s[|s| - 1]))
  }

  predicate AllWhitespace(s: string) {
    forall i :: 0 <= i < |s| ==> IsWhitespace(s[i])
  }

  /** The length of the whitespace run at the start of `s`. */
  function LeadingWhitespace(s: string): (k: nat)
    ensures k <= |s|
    ensures forall i :: 0 <= i < k ==> IsWhitespace(s[i])
    ensures k < |s| ==> !IsWhitespace(s[k])
  {
    if s != [] && IsWhitespace(s[0]) then 1 + LeadingWhitespace(s[1..]) else 0
  }

  /** The length of the whitespace run at the end of `s`. */
  function TrailingWhitespace(s: string): (k: nat)
    ensures k <= |s|
    ensures forall i :: |s| - k <= i < |s| ==> IsWhitespace(s[i])
    ensures k < |s| ==> !IsWhitespace(s[|s| - 1 - k])
  {
    if s != [] && IsWhitespace(s[|s| - 1]) then 1 + TrailingWhitespace(s[..|s| - 1]) else 0
  }

  /** A whitespace prefix adds its own length to the leading run. */
  lemma {:induction false} LeadingWhitespaceAfter(w: string, y: string)
    requires AllWhitespace(w)
    ensures LeadingWhitespace(w + y) == |w| + LeadingWhitespace(y)
  {
    if w == [] {
      assert w + y == y;
    } else {
      assert (w + y)[0] == w[0] && IsWhitespace(w[0]);
      assert (w + y)[1..] == w[1..] + y;
      LeadingWhitespaceAfter(w[1..], y);
    }
  }

  /** A whitespace suffix adds its own length to the trailing run. */
  lemma {:induction false} TrailingWhitespaceBefore(y: string, w: string)
    requires AllWhitespace(w)
    ensures TrailingWhitespace(y + w) == |w| + TrailingWhitespace(y)
  {
    var s := y + w;
    if w == [] {
      assert s == y;
    } else {
      assert s[|s| - 1] == w[|w| - 1] && IsWhitespace(w[|w| - 1]);
      assert s[..|s| - 1] == y + w[..|w| - 1];
      TrailingWhitespaceBefore(y, w[..|w| - 1]);
    }
  }

  /**
   * `str::trim`: `s` without its leading and trailing whitespace. The result
   * is a slice of `s` that neither starts nor ends with whitespace, and what
   * was cut off on either side is whitespace only.
   */
  function Trim(s: string): (r: string)
    ensures NoSurroundingWhitespace(r)
    ensures LeadingWhitespace(s) + |r| <= |s|
    ensures r == s[LeadingWhitespace(s)..LeadingWhitespace(s) + |r|]
    ensures forall i :: 0 <= i < LeadingWhitespace(s) ==> IsWhitespace(s[i])
    ensures forall i :: LeadingWhitespace(s) + |r| <= i < |s| ==> IsWhitespace(s[i])
  {
    var start := LeadingWhitespace(s);
    var t := s[start..];
    t[..|t| - TrailingWhitespace(t)]
  }

  /** Surrounding `x` with whitespace changes nothing once it is trimmed. */
  lemma TrimPadded(before: string, x: string, after: string)
    requires AllWhitespace(before) && AllWhitespace(after)
    requires NoSurroundingWhitespace(x)
    ensures Trim(before + x + after) == x
  {
    var s := before + x + after;
    assert s == before + (x + after);
    LeadingWhitespaceAfter(before, x + after);
    if x == [] {
      LeadingWhitespaceAfter(after, []);
      assert after + [] == after;
    } else {
      assert LeadingWhitespace(x + after) == 0 by {
        assert (x + after)[0] == x[0];
      }
      assert s[|before|..] == x + after;
      TrailingWhitespaceBefore(x, after);
    }
  }

  /**
   * `str::split_once(c)`: the text before and after the FIRST occurrence of
   * `c`, or `None` when `c` does not occur.
   */
  function SplitOnce(s: string, c: char): (r: Option<(string, string)>)
    ensures r.None? <==> c !in s
    ensures r.Some? ==> s == r.value.0 + [c] + r.value.1 && c !in r.value.0
  {
    if s == [] then None
    else if s[0] == c then Some(([], s[1..]))
    else
      match SplitOnce(s[1..], c)
      case None => None
      case Some((before, after)) =>
        assert s == [s[0]] + s[1..];
        Some(([s[0]] + before, after))
  }

  /** Splitting `k + [c] + v` where `k` has no `c` gives back `k` and `v`. */
  lemma {:induction false} SplitOnceAt(k: string, c: char, v: string)
    requires c !in k
    ensures SplitOnce(k + [c] + v, c) == Some((k, v))
  {
    var s := k + [c] + v;
    if k != [] {
      assert s[0] == k[0];
      assert s[1..] == k[1..] + [c] + v;
      SplitOnceAt(k[1..], c, v);
      assert [k[0]] + k[1..] == k;
    }
  }

  /** `str::strip_suffix`: the text before `suffix` when `s` ends with it. */
  function StripSuffix(s: string, suffix: string): (r: Option<string>)
    ensures r.Some? ==> s == r.value + suffix
  {
    if |suffix| <= |s| && s[|s| - |suffix|..] == suffix then Some(s[..|s| - |suffix|])
    else None
  }

  /**
   * `strip_suffix` undoes appending the suffix. With the ensures of
   * `StripSuffix` this is the whole story: the result is `Some(p)` exactly
   * when `s == p + suffix`.
   */
  lemma StripSuffixOf(s: string, suffix: string)
    ensures forall p :: s == p + suffix ==> StripSuffix(s, suffix) == Some(p)
  {
    forall p | s == p + suffix ensures StripSuffix(s, suffix) == Some(p) {
      assert s[|s| - |suffix|..] == suffix;
      assert s[..|s| - |suffix|] == p;
    }
  }

  /** The number a string of decimal digits denotes, most significant first. */
  function DecimalValue(digits: string): nat
    requires AllDigits(digits)
  {
    if digits == [] then 0
    else DecimalValue(digits[..|digits| - 1]) * 10 + (digits[|digits| - 1] as int - '0' as int)
  }

  /**
   * The decimal text `Display` writes for a non-negative integer: no sign
   * and no leading zero. It reads back as the same number.
   */
  function FormatNat(n: nat): (s: string)
    ensures s != [] && AllDigits(s)
    ensures s[0] == '0' ==> n == 0
    ensures DecimalValue(s) == n
  {
    if n < 10 then [('0' as int + n) as char]
    else
      var s := FormatNat(n / 10) + [('0' as int + n % 10) as char];
      assert s[..|s| - 1] == FormatNat(n / 10);
      s
  }

  /** The decimal text `Display` writes for an integer. */
  function FormatInt(n: int): (s: string)
    ensures s != [] && NoSurroundingWhitespace(s)
    ensures forall i :: 0 <= i < |s| ==> s[i] == '-' || IsDigit(s[i])
  {
    if n < 0 then "-" + FormatNat(-n) else FormatNat(n)
  }

  /**
   * `<i32 as FromStr>::from_str`: an optional `+` or `-`, then one or more
   * ASCII digits, whose value must lie in the `i32` range. Anything else,
   * including the empty string and a lone sign, is a `ParseIntError`.
   */
  function ParseI32(s: string): (r: Option<i32>)
    ensures s == [] || s == "+" || s == "-" ==> r.None?
    ensures r.Some? ==>
              var digits := if s[0] == '+' || s[0] == '-' then s[1..] else s;
              digits != [] && AllDigits(digits) &&
              r.value == if s[0] == '-' then 0 - DecimalValue(digits) else DecimalValue(digits)
  {
    if s == [] then None
    else if (s[0] == '+' || s[0] == '-') && |s| == 1 then None
    else
      var negative := s[0] == '-';
      var digits := if s[0] == '+' || negative then s[1..] else s;
      if !AllDigits(digits) then None
      else
        var magnitude: int := DecimalValue(digits);
        if negative && magnitude <= 0x8000_0000 then Some(-magnitude)
        else if !negative && magnitude < 0x8000_0000 then Some(magnitude)
        else None
  }

  /**
   * `<usize as FromStr>::from_str`: an optional `+`, then one or more ASCII
   * digits, whose value must fit in 64 bits. A `-` is never accepted, not
   * even in `-0`.
   */
  function ParseUsize(s: string): (r: Option<usize>)
    ensures s == [] || s == "+" || s[0] == '-' ==> r.None?
    ensures r.Some? ==>
              var digits := if s[0] == '+' then s[1..] else s;
              digits != [] && AllDigits(digits) && r.value == DecimalValue(digits)
  {
    if s == [] then None
    else if s[0] == '+' && |s| == 1 then None
    else
      var digits := if s[0] == '+' then s[1..] else s;
      if !AllDigits(digits) then None
      else
        var magnitude := DecimalValue(digits);
        if magnitude < 0x1_0000_0000_0000_0000 then Some(magnitude) else None
  }

  /** How `ParseI32` reads a sign followed by a non-empty run of digits. */
  lemma ParseI32Signed(sign: char, digits: string)
    requires sign == '-' || sign == '+'
    requires digits != [] && AllDigits(digits)
    ensures ParseI32([sign] + digits) ==
              if sign == '-' && DecimalValue(digits) <= 0x8000_0000 then Some(0 - DecimalValue(digits))
              else if sign == '+' && DecimalValue(digits) < 0x8000_0000 then Some(DecimalValue(digits))
              else None
  {
    assert ([sign] + digits)[1..] == digits;
  }

  /** How `ParseI32` reads a non-empty run of digits without a sign. */
  lemma ParseI32Unsigned(digits: string)
    requires digits != [] && AllDigits(digits)
    ensures ParseI32(digits) == if DecimalValue(digits) < 0x8000_0000 then Some(DecimalValue(digits)) else None
  {
    assert IsDigit(digits[0]);
  }

  /** Every `i32` survives printing and parsing, `i32::MIN` included. */
  lemma ParseI32OfFormat(n: i32)
    ensures ParseI32(FormatInt(n)) == Some(n)
  {
    if n < 0 {
      ParseI32Signed('-', FormatNat(-(n as int)));
    } else {
      ParseI32Unsigned(FormatNat(n));
    }
  }

  /** Decimal text outside the `i32` range is rejected, not wrapped. */
  lemma ParseI32OutOfRange(n: nat)
    ensures n >= 0x8000_0000 ==> ParseI32(FormatNat(n)) == None
    ensures n > 0x8000_0000 ==> ParseI32("-" + FormatNat(n)) == None
  {
    ParseI32Unsigned(FormatNat(n));
    ParseI32Signed('-', FormatNat(n));
  }

  /**
   * How `ParseUsize` reads any non-empty run of digits, with or without a
   * `+` in front, leading zeros included: its value when that is below 2^64,
   * and a rejection otherwise.
   */
  lemma ParseUsizeDigits(digits: string)
    requires digits != [] && AllDigits(digits)
    ensures ParseUsize(digits) == ParseUsize("+" + digits) ==
              if DecimalValue(digits) < 0x1_0000_0000_0000_0000 then Some(DecimalValue(digits)) else None
  {
    assert IsDigit(digits[0]);
    assert ("+" + digits)[1..] == digits;
  }

  /** Every `usize` survives printing and parsing, with or without a `+`. */
  lemma ParseUsizeOfFormat(n: usize)
    ensures ParseUsize(FormatNat(n)) == Some(n)
    ensures ParseUsize("+" + FormatNat(n)) == Some(n)
  {
    assert IsDigit(FormatNat(n)[0]);
    assert ("+" + FormatNat(n))[1..] == FormatNat(n);
  }

  /** Decimal text beyond `usize::MAX` is rejected, not wrapped. */
  lemma ParseUsizeOutOfRange(n: nat)
    requires n >= 0x1_0000_0000_0000_0000
    ensures ParseUsize(FormatNat(n)) == None
  {
    assert IsDigit(FormatNat(n)[0]);
  }
}
