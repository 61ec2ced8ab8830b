/** Character classes and small string operations of Python's `str` that the
    metadata pipeline relies on: whitespace as `str.isspace`/`\s` see it,
    trimming as `str.strip` does it, `str.lower` on the characters that can
    matter, and `str()` of an integer. */
module Text {
  import opened Wrappers

  /** Python's `str.isspace` (and the `\s` class of a `str` pattern):
      the ASCII whitespace 0x09-0x0D, 0x1C-0x1F, 0x20 and the Unicode
      whitespace code points. */
  predicate IsSpace(c: char)
  {
    ('\U{9}' <= c <= '\U{D}') || ('\U{1C}' <= c <= ' ') ||
    c == '\U{85}' || c == '\U{A0}' || c == '\U{1680}' ||
    ('\U{2000}' <= c <= '\U{200A}') || c == '\U{2028}' || c == '\U{2029}' ||
    c == '\U{202F}' || c == '\U{205F}' || c == '\U{3000}'
  }

  predicate IsAscii(c: char)
  {
    c < '\U{80}'
  }

  /** Drops the longest prefix of `s` whose characters all satisfy `p`. */
  function TrimStart(s: string, p: char -> bool): (r: string)
    ensures |r| <= |s|
  {
    if s != [] && p(s[0]) then TrimStart(s[1..], p) else s
  }

  /** Drops the longest suffix of `s` whose characters all satisfy `p`. */
  function TrimEnd(s: string, p: char -> bool): (r: string)
    ensures |r| <= |s|
  {
    if s != [] && p(s[|s| - 1]) then TrimEnd(s[..|s| - 1], p) else s
  }

  /** TrimStart keeps a suffix of `s`, which does not start with a
      character satisfying `p`, and every dropped character satisfies `p`:
      so the dropped prefix is the longest such prefix. */
  lemma {:induction false} TrimStartSpec(s: string, p: char -> bool)
    ensures var r := TrimStart(s, p);
      && r == s[|s| - |r|..]
      && (r == [] || !p(r[0]))
      && forall i :: 0 <= i < |s| - |r| ==> p(s[i])
  {
    if s != [] && p(s[0]) {
      TrimStartSpec(s[1..], p);
    }
  }

  /** TrimEnd keeps a prefix of `s`, which does not end with a character
      satisfying `p`, and every dropped character satisfies `p`. */
  lemma {:induction false} TrimEndSpec(s: string, p: char -> bool)
    ensures var r := TrimEnd(s, p);
      && r == s[..|r|]
      && (r == [] || !p(r[|r| - 1]))
      && forall i :: |r| <= i < |s| ==> p(s[i])
  {
    if s != [] && p(s[|s| - 1]) {
      TrimEndSpec(s[..|s| - 1], p);
    }
  }

  /** `s.find(c)`: the index of the first occurrence of `c`, if any. */
  function IndexOf(s: string, c: char): (r: Option<nat>)
    ensures r.Some? ==> r.value < |s| && s[r.value] == c
    ensures r.Some? ==> forall i :: 0 <= i < r.value ==> s[i] != c
    ensures r.None? ==> forall i :: 0 <= i < |s| ==> s[i] != c
  {
    if s == [] then None
    else if s[0] == c then Some(0)
    else match IndexOf(s[1..], c)
      case None => None
      case Some(j) => Some(j + 1)
  }

  /** `s.strip(chars)`: both ends, as one contiguous slice of `s`. */
  function Trim(s: string, p: char -> bool): (r: string)
  {
    TrimEnd(TrimStart(s, p), p)
  }

  /** Python's `str.strip()` with no argument. */
  function Strip(s: string): string
  {
    Trim(s, IsSpace)
  }

  /** Python's `str.lower()` on one character, exact for every character
      whose lower-case form is a single ASCII character: the ASCII capitals
      and the KELVIN SIGN (U+212A), which lowers to 'k'. Every other
      character is returned as it is. */
  function LowerChar(c: char): char
  {
    if 'A' <= c <= 'Z' then (c as int + 32) as char
    else if c == '\U{212A}' then 'k'
    else c
  }

  function Lower(s: string): (r: string)
    ensures |r| == |s|
  {
    seq(|s|, i requires 0 <= i < |s| => LowerChar(s[i]))
  }

  // ---------------------------------------------------------------------
  // Decimal text, as Python's str() of an int and int() of a digit string

  predicate IsDigit(c: char)
  {
    '0' <= c <= '9'
  }

  predicate IsDigits(s: string)
  {
    forall i :: 0 <= i < |s| ==> IsDigit(s[i])
  }

  /** A decimal numeral as `str()` of a non-negative int prints it:
      non-empty and without a leading zero. */
  predicate IsCanonical(s: string)
  {
    |s| > 0 && IsDigits(s) && (|s| > 1 ==> s[0] != '0')
  }

  function DigitChar(d: nat): char
    requires d < 10
  {
    ('0' as int + d) as char
  }

  function DigitValue(c: char): nat
    requires IsDigit(c)
  {
    c as int - '0' as int
  }

  /** The value of a string of decimal digits. */
  function DigitsValue(s: string): nat
    requires IsDigits(s)
  {
    if s == [] then 0 else DigitsValue(s[..|s| - 1]) * 10 + DigitValue(s[|s| - 1])
  }

  /** `str(n)` for a non-negative int. */
  function NatToString(n: nat): string
  {
    if n < 10 then [DigitChar(n)] else NatToString(n / 10) + [DigitChar(n % 10)]
  }

  /** `str(i)` for any int. */
  function IntToString(i: int): string
  {
    if i < 0 then "-" + NatToString(-i) else NatToString(i)
  }

  /** The inverse of IntToString: an optional minus sign and a canonical
      numeral, as Python's `int()` reads what `str()` printed. */
  function ParseInt(s: string): Option<int>
  {
    if |s| > 1 && s[0] == '-' && IsCanonical(s[1..]) && s[1..] != "0" then Some(-(DigitsValue(s[1..]) as int))
    else if IsCanonical(s) then Some(DigitsValue(s))
    else None
  }

  /** `str(n)` is a canonical numeral whose value is `n`. */
  lemma {:induction false} NatToStringCanonical(n: nat)
    ensures IsCanonical(NatToString(n)) && DigitsValue(NatToString(n)) == n
  {
    if n >= 10 {
      NatToStringCanonical(n / 10);
      var p := NatToString(n / 10);
      var s := NatToString(n);
      assert s[..|s| - 1] == p;
    }
  }

  lemma {:induction false} LeadingDigitPositive(s: string)
    requires IsDigits(s) && |s| > 0 && s[0] != '0'
    ensures DigitsValue(s) > 0
  {
    if |s| > 1 {
      var p := s[..|s| - 1];
      assert p[0] == s[0];
      LeadingDigitPositive(p);
    }
  }

  /** Every canonical numeral is what `str()` prints for its value. */
  lemma {:induction false} CanonicalIsNatToString(s: string)
    requires IsCanonical(s)
    ensures NatToString(DigitsValue(s)) == s
  {
    var p := s[..|s| - 1];
    var d := DigitValue(s[|s| - 1]);
    if |s| == 1 {
      assert p == [];
    } else {
      assert p[0] == s[0];
      LeadingDigitPositive(p);
      CanonicalIsNatToString(p);
      var v := DigitsValue(s);
      assert v == DigitsValue(p) * 10 + d;
      assert v / 10 == DigitsValue(p) && v % 10 == d;
      assert s == p + [s[|s| - 1]];
    }
  }

  /** `int(str(i)) == i` for every int. */
  lemma IntToStringRoundTrip(i: int)
    ensures ParseInt(IntToString(i)) == Some(i)
  {
    if i < 0 {
      NatToStringCanonical(-i);
      var s := IntToString(i);
      assert s[1..] == NatToString(-i);
      assert NatToString(-i) != "0";
    } else {
      NatToStringCanonical(i);
      assert IntToString(i)[0] != '-';
    }
  }

  /** ParseInt accepts only what IntToString prints. */
  lemma ParseIntOnlyCanonical(s: string, i: int)
    requires ParseInt(s) == Some(i)
    ensures IntToString(i) == s
  {
    if |s| > 1 && s[0] == '-' && IsCanonical(s[1..]) && s[1..] != "0" {
      CanonicalIsNatToString(s[1..]);
      LeadingDigitPositive(s[1..]);
      assert s == "-" + s[1..];
    } else {
      CanonicalIsNatToString(s);
    }
  }
}
