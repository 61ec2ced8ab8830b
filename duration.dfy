/** `YouTubeAudioScraper._format_duration`: a number of seconds printed as
    `H:MM:SS`, or as `M:SS` below an hour, with `0:00` for zero.

    Python's `//` and `%` floor, and so do Dafny's `/` and `%` when the
    divisor is positive, so the function below is exact for every int,
    negative ones included. */
module Duration {
  import opened Wrappers
  import opened Text

  /** `f"{n:02d}"` for 0 <= n < 100. */
  function Pad2(n: nat): (r: string)
    requires n < 100
    ensures |r| == 2 && IsDigits(r) && DigitsValue(r) == n
  {
    var r := [DigitChar(n / 10), DigitChar(n % 10)];
    assert r[..1][..0] == [];
    assert DigitsValue(r[..1]) == n / 10;
    assert DigitsValue(r) == DigitsValue(r[..1]) * 10 + n % 10;
    r
  }

  /** `_format_duration(d)`. */
  function FormatDuration(d: int): string
  {
    if d == 0 then "0:00"
    else
      var hours := d / 3600;
      var minutes := (d % 3600) / 60;
      var seconds := d % 60;
      if hours > 0 then NatToString(hours) + ":" + Pad2(minutes) + ":" + Pad2(seconds)
      else NatToString(minutes) + ":" + Pad2(seconds)
  }

  /** A two-digit minutes or seconds field. */
  predicate IsClockField(s: string)
  {
    |s| == 2 && IsDigits(s) && DigitsValue(s) < 60
  }

  /** Reads back what FormatDuration prints for a non-negative duration:
      `M:SS` with M < 60, or `H:MM:SS` with H > 0, every number written
      as str() and the `:02d` format write it. */
  function ParseDuration(s: string): (r: Option<nat>)
    ensures r.Some? ==> ':' in s
  {
    match IndexOf(s, ':')
    case None => None
    case Some(i) => ParseAfterLead(s[..i], s[i + 1..])
  }

  /** The rest of ParseDuration, once the text before the first colon is
      split off. */
  function ParseAfterLead(lead: string, tail: string): Option<nat>
  {
    if !IsCanonical(lead) then None
    else match IndexOf(tail, ':')
      case None => ParseMinutesFields(lead, tail)
      case Some(j) => ParseHoursFields(lead, tail[..j], tail[j + 1..])
  }

  function ParseMinutesFields(lead: string, secs: string): Option<nat>
    requires IsCanonical(lead)
  {
    if IsClockField(secs) && DigitsValue(lead) < 60
    then Some(DigitsValue(lead) * 60 + DigitsValue(secs))
    else None
  }

  function ParseHoursFields(lead: string, mins: string, secs: string): Option<nat>
    requires IsCanonical(lead)
  {
    if IsClockField(mins) && IsClockField(secs) && DigitsValue(lead) > 0
    then Some(DigitsValue(lead) * 3600 + DigitsValue(mins) * 60 + DigitsValue(secs))
    else None
  }

  // ---------------------------------------------------------------------
  // What the formatter promises

  /** Floor division splits a duration into hours, minutes below 60 and
      seconds below 60, and that split is the only one. */
  lemma ClockSplit(d: int, h: int, m: int, s: int)
    requires 0 <= m < 60 && 0 <= s < 60 && d == h * 3600 + m * 60 + s
    ensures d / 3600 == h && (d % 3600) / 60 == m && d % 60 == s
  {
    var e := m * 60 + s;
    assert 0 <= e < 3600;
    assert d / 3600 == h && d % 3600 == e;
    assert e / 60 == m && e % 60 == s;
    assert d == (h * 60 + m) * 60 + s;
  }

  /** Zero prints as `0:00`; below an hour the text is minutes and two-digit
      seconds; from an hour on it is hours, two-digit minutes and two-digit
      seconds; and the printed numbers add up to the duration. */
  lemma DurationShape(d: nat)
    ensures d == 0 ==> FormatDuration(d) == "0:00"
    ensures 0 < d < 3600 ==> exists m: nat, s: nat :: (m < 60 && s < 60 && m * 60 + s == d
      && FormatDuration(d) == NatToString(m) + ":" + Pad2(s))
    ensures 3600 <= d ==> exists h: nat, m: nat, s: nat :: (h > 0 && m < 60 && s < 60
      && h * 3600 + m * 60 + s == d
      && FormatDuration(d) == NatToString(h) + ":" + Pad2(m) + ":" + Pad2(s))
  {
    if 0 < d < 3600 {
      var m, s := d / 60, d % 60;
      ClockSplit(d, 0, m, s);
      assert FormatDuration(d) == NatToString(m) + ":" + Pad2(s);
    } else if 3600 <= d {
      var h, m, s := d / 3600, (d % 3600) / 60, d % 60;
      assert d == h * 3600 + (d % 3600) && d % 3600 == m * 60 + s;
      assert FormatDuration(d) == NatToString(h) + ":" + Pad2(m) + ":" + Pad2(s);
    }
  }

  /** A string of digits holds no colon. */
  lemma NoColonInDigits(s: string)
    requires IsDigits(s)
    ensures IndexOf(s, ':') == None
  {
    assert forall i :: 0 <= i < |s| ==> s[i] != ':' by {
      forall i | 0 <= i < |s|
        ensures s[i] != ':'
      {
        assert IsDigit(s[i]);
      }
    }
  }

  /** The first colon after a run of digits is the one that follows it. */
  lemma ColonAfterDigits(a: string, rest: string)
    requires IsDigits(a)
    ensures IndexOf(a + ":" + rest, ':') == Some(|a|)
    ensures (a + ":" + rest)[..|a|] == a && (a + ":" + rest)[|a| + 1..] == rest
  {
    var s := a + ":" + rest;
    var r := IndexOf(s, ':');
    assert s[|a|] == ':';
    forall i | 0 <= i < |a|
      ensures s[i] != ':'
    {
      assert s[i] == a[i] && IsDigit(a[i]);
    }
    assert r.Some? && r.value <= |a|;
  }

  /** `int()` of the padded field gives the number back. */
  lemma Pad2Inverse(f: string)
    requires IsClockField(f)
    ensures Pad2(DigitsValue(f)) == f
  {
    assert f[..1][..0] == [];
    assert DigitsValue(f) == DigitValue(f[0]) * 10 + DigitValue(f[1]);
  }

  /** The text before the first colon is the leading number. */
  lemma SplitAtLead(a: string, tail: string)
    requires IsDigits(a)
    ensures ParseDuration(a + ":" + tail) == ParseAfterLead(a, tail)
  {
    ColonAfterDigits(a, tail);
  }

  /** `M:SS` parses when M is a canonical numeral below 60. */
  lemma ParseMinutes(a: string, b: string)
    requires IsCanonical(a) && DigitsValue(a) < 60 && IsClockField(b)
    ensures ParseDuration(a + ":" + b) == Some(DigitsValue(a) * 60 + DigitsValue(b))
  {
    SplitAtLead(a, b);
    NoColonInDigits(b);
  }

  /** After the leading number, `MM:SS` splits at its colon. */
  lemma SplitMinutesSeconds(a: string, b: string, c: string)
    requires IsCanonical(a) && IsDigits(b)
    ensures ParseAfterLead(a, b + ":" + c) == ParseHoursFields(a, b, c)
  {
    ColonAfterDigits(b, c);
  }

  /** `H:MM:SS` parses when H is a positive canonical numeral. */
  lemma HoursFieldsValue(a: string, b: string, c: string)
    requires IsCanonical(a) && DigitsValue(a) > 0 && IsClockField(b) && IsClockField(c)
    ensures ParseHoursFields(a, b, c) == Some(DigitsValue(a) * 3600 + DigitsValue(b) * 60 + DigitsValue(c))
  {
  }

  lemma ParseHours(a: string, b: string, c: string)
    requires IsCanonical(a) && DigitsValue(a) > 0 && IsClockField(b) && IsClockField(c)
    ensures ParseDuration(a + ":" + (b + ":" + c)) ==
      Some(DigitsValue(a) * 3600 + DigitsValue(b) * 60 + DigitsValue(c))
  {
    HoursFieldsValue(a, b, c);
    SplitAtLead(a, b + ":" + c);
    SplitMinutesSeconds(a, b, c);
  }

  /** Below an hour, and above zero, the text is minutes and seconds. */
  lemma FormatMinutes(d: int, m: nat, s: nat)
    requires m < 60 && s < 60 && d == m * 60 + s && d > 0
    ensures FormatDuration(d) == NatToString(m) + ":" + Pad2(s)
  {
    ClockSplit(d, 0, m, s);
  }

  /** From an hour on the text is hours, minutes and seconds. */
  lemma FormatHours(d: int, h: nat, m: nat, s: nat)
    requires h > 0 && m < 60 && s < 60 && d == h * 3600 + m * 60 + s
    ensures FormatDuration(d) == NatToString(h) + ":" + Pad2(m) + ":" + Pad2(s)
  {
    ClockSplit(d, h, m, s);
  }

  /** Every non-negative duration is zero, or minutes and seconds below an
      hour, or hours, minutes and seconds. */
  lemma Split(d: nat) returns (h: nat, m: nat, s: nat)
    ensures m < 60 && s < 60 && d == h * 3600 + m * 60 + s
    ensures d < 3600 <==> h == 0
  {
    h, m, s := d / 3600, (d % 3600) / 60, d % 60;
    ClockSplit(d, h, m, s);
  }

  /** Parsing what was printed gives the duration back. */
  lemma FormatThenParse(d: nat)
    ensures ParseDuration(FormatDuration(d)) == Some(d)
  {
    var h, m, s := Split(d);
    if d == 0 {
      ZeroRoundTrip();
    } else if h == 0 {
      assert d == m * 60 + s;
      MinutesRoundTrip(d, m, s);
    } else {
      HoursRoundTrip(d, h, m, s);
    }
  }

  lemma ZeroRoundTrip()
    ensures ParseDuration(FormatDuration(0)) == Some(0)
  {
    assert "0:00" == "0" + ":" + "00";
    assert "00"[..1][..0] == [];
    ParseMinutes("0", "00");
  }

  lemma MinutesRoundTrip(d: nat, m: nat, s: nat)
    requires m < 60 && s < 60 && d == m * 60 + s && d > 0
    ensures ParseDuration(FormatDuration(d)) == Some(d)
  {
    var a, b := NatToString(m), Pad2(s);
    assert ParseDuration(a + ":" + b) == Some(d) by {
      NatToStringCanonical(m);
      ParseMinutes(a, b);
    }
    assert FormatDuration(d) == a + ":" + b by {
      FormatMinutes(d, m, s);
    }
  }

  lemma Regroup(a: string, b: string, c: string)
    ensures a + ":" + b + ":" + c == a + ":" + (b + ":" + c)
  {
  }

  lemma HoursRoundTrip(d: nat, h: nat, m: nat, s: nat)
    requires h > 0 && m < 60 && s < 60 && d == h * 3600 + m * 60 + s
    ensures ParseDuration(FormatDuration(d)) == Some(d)
  {
    var a, b, c := NatToString(h), Pad2(m), Pad2(s);
    HoursTextParses(d, h, m, s);
    assert FormatDuration(d) == a + ":" + (b + ":" + c) by {
      FormatHours(d, h, m, s);
      Regroup(a, b, c);
    }
  }

  /** The text printed for hours, minutes and seconds parses back to the
      duration. */
  lemma HoursTextParses(d: nat, h: nat, m: nat, s: nat)
    requires h > 0 && m < 60 && s < 60 && d == h * 3600 + m * 60 + s
    ensures ParseDuration(NatToString(h) + ":" + (Pad2(m) + ":" + Pad2(s))) == Some(d)
  {
    NatToStringCanonical(h);
    ParseHours(NatToString(h), Pad2(m), Pad2(s));
  }

  /** Only what FormatDuration prints parses: parsing never accepts a
      second spelling of a duration. */
  lemma ParseThenFormat(s: string, d: nat)
    requires ParseDuration(s) == Some(d)
    ensures FormatDuration(d) == s
  {
    var i := IndexOf(s, ':').value;
    var lead := s[..i];
    var tail := s[i + 1..];
    assert s == lead + ":" + tail;
    assert ParseAfterLead(lead, tail) == Some(d);
    match IndexOf(tail, ':')
    case None =>
      MinutesFieldsFormat(lead, tail, d);
    case Some(j) =>
      var mid := tail[..j];
      var last := tail[j + 1..];
      assert tail == mid + ":" + last;
      assert s == lead + ":" + mid + ":" + last;
      HoursFieldsFormat(lead, mid, last, d);
  }

  lemma MinutesFieldsFormat(lead: string, secs: string, d: nat)
    requires IsCanonical(lead) && ParseMinutesFields(lead, secs) == Some(d)
    ensures FormatDuration(d) == lead + ":" + secs
  {
    CanonicalIsNatToString(lead);
    Pad2Inverse(secs);
    var m, s := DigitsValue(lead), DigitsValue(secs);
    assert d == m * 60 + s;
    if d == 0 {
      assert m == 0 && s == 0;
      assert lead + ":" + secs == NatToString(0) + ":" + Pad2(0);
    } else {
      FormatMinutes(m * 60 + s, m, s);
    }
  }

  lemma HoursFieldsFormat(lead: string, mins: string, secs: string, d: nat)
    requires IsCanonical(lead) && ParseHoursFields(lead, mins, secs) == Some(d)
    ensures FormatDuration(d) == lead + ":" + mins + ":" + secs
  {
    CanonicalIsNatToString(lead);
    Pad2Inverse(mins);
    Pad2Inverse(secs);
    FormatHours(d, DigitsValue(lead), DigitsValue(mins), DigitsValue(secs));
  }

  /** A negative duration prints as the non-negative one with the same
      minutes and seconds, since floor division leaves it no hours. */
  lemma NegativeDuration(d: int)
    requires d < 0
    ensures FormatDuration(d) == FormatDuration(d % 3600)
  {
    var e := d % 3600;
    var m, s := e / 60, e % 60;
    ClockSplit(e, 0, m, s);
    ClockSplit(d, d / 3600, m, s);
    if e == 0 {
      assert NatToString(0) == "0";
    }
  }

  /** 65 seconds is `1:05`. */
  lemma ExampleMinutes()
    ensures FormatDuration(65) == "1:05"
  {
    FormatMinutes(65, 1, 5);
    assert NatToString(1) == "1" && Pad2(5) == "05";
  }

  /** 3725 seconds is `1:02:05`. */
  lemma ExampleHours()
    ensures FormatDuration(3725) == "1:02:05"
  {
    FormatHours(3725, 1, 2, 5);
    assert NatToString(1) == "1" && Pad2(2) == "02" && Pad2(5) == "05";
  }

  /** -1 floors to the last second of an hour: `59:59`. */
  lemma ExampleNegative()
    ensures FormatDuration(-1) == "59:59"
  {
    NegativeDuration(-1);
    assert -1 % 3600 == 3599;
    FormatMinutes(3599, 59, 59);
    assert NatToString(59) == "59" && Pad2(59) == "59";
  }
}
