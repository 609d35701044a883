/*
 * The pieces of Rust's string and integer library that position.rs leans
 * on when it reads and writes Forsyth-Edwards Notation: `split_whitespace`,
 * `split('/')`, `u32::to_string` and `str::parse::<u32>`.
 */
module Text {
  import opened Wrappers

  /** The range of a `u32`: values are below 2^32. */
  const Word32: nat := 0x1_0000_0000

  /** A `u32` value. */
  type U32 = n: nat | n < Word32

  /** `n += 1` on a `u32` as a release build computes it: 2^32 - 1 wraps to 0. */
  function IncU32(n: U32): (r: U32)
    ensures n + 1 < Word32 ==> r == n + 1
  {
    (n + 1) % Word32
  }

  /** `n -= 1` on a `u32` as a release build computes it: 0 wraps to 2^32 - 1. */
  function DecU32(n: U32): (r: U32)
    ensures n > 0 ==> r == n - 1
  {
    (n + Word32 - 1) % Word32
  }

  /** Wrapping increment and decrement undo each other. */
  lemma IncDecU32(n: U32)
    ensures DecU32(IncU32(n)) == n && IncU32(DecU32(n)) == n
  {
  }

  // ---------------------------------------------------------------------
  // split_whitespace
  // ---------------------------------------------------------------------

  /** char::is_whitespace: the characters with the Unicode White_Space property. */
  predicate IsWhitespace(c: char)
  {
    c == ' ' || ('\t' <= c <= '\r') || c == '\U{0085}' || c == '\U{00A0}' || c == '\U{1680}'
    || ('\U{2000}' <= c <= '\U{200A}') || c == '\U{2028}' || c == '\U{2029}' || c == '\U{202F}'
    || c == '\U{205F}' || c == '\U{3000}'
  }

  /** A string with no whitespace character in it. */
  predicate NoWhitespace(s: string)
  {
    forall i :: 0 <= i < |s| ==> !IsWhitespace(s[i])
  }

  /** The length of the run of non-whitespace characters `s` starts with. */
  function WordLen(s: string): (n: nat)
    ensures n <= |s| && NoWhitespace(s[..n])
    ensures n < |s| ==> IsWhitespace(s[n])
  {
    if |s| == 0 || IsWhitespace(s[0]) then 0
    else
      var n := 1 + WordLen(s[1..]);
      assert s[..n] == [s[0]] + s[1..][..n - 1];
      n
  }

  /**
   * split_whitespace: the maximal runs of non-whitespace characters, in
   * order; leading, trailing and repeated whitespace yields no empty word.
   */
  function Words(s: string): (r: seq<string>)
    ensures forall i :: 0 <= i < |r| ==> |r[i]| > 0 && NoWhitespace(r[i])
    decreases |s|
  {
    if |s| == 0 then []
    else if IsWhitespace(s[0]) then Words(s[1..])
    else
      var n := WordLen(s);
      [s[..n]] + Words(s[n..])
  }

  /** A word followed by a space splits off as the first word. */
  lemma WordsCons(w: string, rest: string)
    requires |w| > 0 && NoWhitespace(w)
    ensures Words(w + " " + rest) == [w] + Words(rest)
  {
    var s := w + " " + rest;
    var n := WordLen(s);
    assert forall i :: 0 <= i < |w| ==> s[i] == w[i];
    assert s[|w|] == ' ';
    assert n == |w|;
    assert s[..n] == w;
    assert s[n..] == " " + rest;
    assert (" " + rest)[1..] == rest;
  }

  /** A single word with nothing around it is one word. */
  lemma WordsSingle(w: string)
    requires |w| > 0 && NoWhitespace(w)
    ensures Words(w) == [w]
  {
    var n := WordLen(w);
    assert n == |w|;
    assert w[..n] == w;
    assert w[n..] == [];
  }

  // ---------------------------------------------------------------------
  // split on one character
  // ---------------------------------------------------------------------

  /**
   * str::split(c): the pieces between occurrences of `c`, empty pieces
   * included, so `k` separators always give `k + 1` pieces.
   */
  function Split(s: string, c: char): (r: seq<string>)
    ensures |r| >= 1
  {
    if |s| == 0 then [""]
    else
      var rest := Split(s[1..], c);
      if s[0] == c then [""] + rest else [[s[0]] + rest[0]] + rest[1..]
  }

  /** A string without the separator is one piece. */
  lemma {:induction false} SplitNone(a: string, c: char)
    requires c !in a
    ensures Split(a, c) == [a]
  {
    if |a| > 0 {
      assert c !in a[1..];
      SplitNone(a[1..], c);
      assert [a[0]] + a[1..] == a;
    }
  }

  /** A piece without the separator, then the separator, splits off as the first piece. */
  lemma {:induction false} SplitCons(a: string, rest: string, c: char)
    requires c !in a
    ensures Split(a + [c] + rest, c) == [a] + Split(rest, c)
  {
    var s := a + [c] + rest;
    if |a| == 0 {
      assert s[0] == c && s[1..] == rest;
    } else {
      assert c !in a[1..];
      SplitCons(a[1..], rest, c);
      assert s[0] == a[0] && s[1..] == a[1..] + [c] + rest;
      assert [a[0]] + a[1..] == a;
    }
  }

  // ---------------------------------------------------------------------
  // Decimal numbers
  // ---------------------------------------------------------------------

  /** An ASCII decimal digit. */
  predicate IsDigit(c: char)
  {
    '0' <= c <= '9'
  }

  /** Every character of `s` is a digit. */
  predicate AllDigits(s: string)
  {
    forall i :: 0 <= i < |s| ==> IsDigit(s[i])
  }

  /** The value of a digit (`char::to_digit(10)`). */
  function DigitValue(c: char): (d: nat)
    requires IsDigit(c)
    ensures d < 10
  {
    c as int - '0' as int
  }

  /** The digit of a value below 10. */
  function DigitChar(d: nat): (c: char)
    requires d < 10
    ensures IsDigit(c) && DigitValue(c) == d
  {
    ('0' as int + d) as char
  }

  /** u32::to_string: the decimal digits of `n`, most significant first, without leading zeros. */
  function NatToString(n: nat): (r: string)
    ensures |r| >= 1 && AllDigits(r)
    ensures n < 10 ==> r == [DigitChar(n)]
    decreases n
  {
    if n < 10 then [DigitChar(n)] else NatToString(n / 10) + [DigitChar(n % 10)]
  }

  /** The number a string of digits denotes, read left to right. */
  function DecimalValue(s: string): nat
    requires AllDigits(s)
  {
    if |s| == 0 then 0 else DecimalValue(s[..|s| - 1]) * 10 + DigitValue(s[|s| - 1])
  }

  /** Reading back the digits of `n` gives `n`. */
  lemma {:induction false} DecimalOfString(n: nat)
    ensures DecimalValue(NatToString(n)) == n
    decreases n
  {
    if n >= 10 {
      DecimalOfString(n / 10);
      var s := NatToString(n);
      assert s[..|s| - 1] == NatToString(n / 10);
    }
  }

  /**
   * str::parse::<u32>: an optional '+' and then at least one ASCII digit,
   * the value below 2^32.  The empty string, a lone sign, a '-' or any
   * other character, and an overflowing value are all rejected.
   */
  function ParseU32(s: string): (r: Option<nat>)
    ensures r.Some? ==> r.value < Word32
  {
    if |s| == 0 then None
    else
      var digits := if s[0] == '+' then s[1..] else s;
      if |digits| == 0 || !AllDigits(digits) then None
      else if DecimalValue(digits) < Word32 then Some(DecimalValue(digits))
      else None
  }

  /** Every u32 survives printing and parsing back. */
  lemma ParseU32RoundTrip(n: nat)
    requires n < Word32
    ensures ParseU32(NatToString(n)) == Some(n)
  {
    DecimalOfString(n);
  }

  /** A leading zero does not change the value of a digit string. */
  lemma {:induction false} DecimalLeadingZero(s: string)
    requires AllDigits(s)
    ensures AllDigits("0" + s) && DecimalValue("0" + s) == DecimalValue(s)
    decreases |s|
  {
    var t := "0" + s;
    assert AllDigits(t) by {
      forall i | 0 <= i < |t| ensures IsDigit(t[i]) {
        if i > 0 { assert t[i] == s[i - 1]; }
      }
    }
    if |s| > 0 {
      var p := s[..|s| - 1];
      DecimalLeadingZero(p);
      assert t[..|t| - 1] == "0" + p;
      assert t[|t| - 1] == s[|s| - 1];
    }
  }

  /** The parser accepts a leading '+' and leading zeros. */
  lemma ParseU32Lenient(n: nat)
    requires n < Word32
    ensures ParseU32("+" + NatToString(n)) == Some(n)
    ensures ParseU32("0" + NatToString(n)) == Some(n)
  {
    var s := NatToString(n);
    DecimalOfString(n);
    assert ("+" + s)[0] == '+' && ("+" + s)[1..] == s;
    DecimalLeadingZero(s);
    assert ("0" + s)[0] != '+';
  }

  /** The parser rejects the empty string, a sign alone and a negative number. */
  lemma ParseU32Rejects(s: string)
    ensures ParseU32("").None? && ParseU32("+").None?
    ensures ParseU32("-" + s).None?
  {
    assert ("-" + s)[0] == '-';
    assert ("+")[1..] == "";
  }

  /** The parser rejects every value that does not fit in a u32. */
  lemma ParseU32Overflow(n: nat)
    requires n >= Word32
    ensures ParseU32(NatToString(n)).None?
  {
    DecimalOfString(n);
    var s := NatToString(n);
    assert s[0] != '+' by { assert IsDigit(s[0]); }
  }
}
