/** `re.search(r"\b(19|20)\d{2}\b", text)`: the first four-digit token that
    starts with 19 or 20 and has no word character on either side. The
    digit class and the word characters are taken as ASCII: digits,
    letters and the underscore. */
module YearScan {
  import opened Wrappers
  import opened Text

  predicate IsWordChar(c: char)
  {
    ('a' <= c <= 'z') || ('A' <= c <= 'Z') || ('0' <= c <= '9') || c == '_'
  }

  /** The pattern matches at index `i` of `s`. */
  predicate YearAt(s: string, i: nat)
  {
    && i + 4 <= |s|
    && ((s[i] == '1' && s[i + 1] == '9') || (s[i] == '2' && s[i + 1] == '0'))
    && IsDigit(s[i + 2]) && IsDigit(s[i + 3])
    && (i == 0 || !IsWordChar(s[i - 1]))
    && (i + 4 == |s| || !IsWordChar(s[i + 4]))
  }

  /** The leftmost index at or after `from` where the pattern matches. */
  function SearchFrom(s: string, from: nat): (r: Option<nat>)
    requires from <= |s|
    ensures r.Some? ==> from <= r.value && YearAt(s, r.value)
    ensures r.Some? ==> forall j :: from <= j < r.value ==> !YearAt(s, j)
    ensures r.None? ==> forall j :: from <= j <= |s| ==> !YearAt(s, j)
    decreases |s| - from
  {
    if from + 4 > |s| then None
    else if YearAt(s, from) then Some(from)
    else SearchFrom(s, from + 1)
  }

  /** `match.group(0)` of the search, if it matched. */
  function FindYear(s: string): (r: Option<string>)
    ensures r.Some? <==> exists i :: 0 <= i <= |s| && YearAt(s, i)
    ensures r.Some? ==> exists i :: (0 <= i <= |s| && YearAt(s, i) && r.value == s[i..i + 4]
      && forall j :: 0 <= j < i ==> !YearAt(s, j))
  {
    match SearchFrom(s, 0)
    case None => None
    case Some(i) => Some(s[i..i + 4])
  }

  /** What the search returns is a year of the 1900s or 2000s, written
      with four digits. */
  lemma FoundYearIsYear(s: string)
    requires FindYear(s).Some?
    ensures var y := FindYear(s).value;
      |y| == 4 && IsDigits(y) && 1900 <= DigitsValue(y) <= 2099
  {
    var i := SearchFrom(s, 0).value;
    var y := s[i..i + 4];
    assert y[..3][..2][..1][..0] == [];
    assert DigitsValue(y[..3][..2][..1]) == DigitValue(y[0]);
    assert DigitsValue(y[..3][..2]) == DigitValue(y[0]) * 10 + DigitValue(y[1]);
    assert DigitsValue(y[..3]) == DigitsValue(y[..3][..2]) * 10 + DigitValue(y[2]);
  }

  /** The year in running text is found. */
  lemma ExampleInText()
    ensures FindYear("Released in 2019 worldwide") == Some("2019")
  {
    var s := "Released in 2019 worldwide";
    assert s[11] == ' ' && s[12..16] == "2019" && s[16] == ' ';
    assert YearAt(s, 12);
    assert forall j :: 0 <= j < 12 ==> !YearAt(s, j);
  }

  /** A digit or letter next to the token spoils the word boundary. */
  lemma ExampleNoBoundary()
    ensures FindYear("12019") == None
    ensures FindYear("2019s") == None
  {
    assert !YearAt("12019", 1);
  }

  /** The leftmost match wins. */
  lemma ExampleLeftmost()
    ensures FindYear("live 1999, remastered 2021") == Some("1999")
  {
    var t := "live 1999, remastered 2021";
    assert t[4] == ' ' && t[5..9] == "1999" && t[9] == ',';
    assert YearAt(t, 5);
    assert forall j :: 0 <= j < 5 ==> !YearAt(t, j);
  }
}
