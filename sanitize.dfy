/** `YouTubeAudioScraper._sanitize_filename`: three passes over the file
    name — delete the characters of the class `[\/<>:*?"|\x00-\x1f]`, strip
    dots and spaces from both ends, then replace every run of whitespace
    with one space.

    In the raw string of that class `\/` is an escaped slash, so the
    backslash is not in it and survives, although the function's docstring
    lists it among the removed characters. Because the strip pass runs
    before the collapse pass and strips only the space U+0020, a
    non-ASCII whitespace character at either end becomes a space that
    stays there, so the function is not idempotent on every input. */
module Sanitize {
  import opened Text

  /** The deleted class: / < > : * ? " | and U+0000 through U+001F. */
  predicate IsInvalid(c: char)
  {
    c == '/' || c == '<' || c == '>' || c == ':' || c == '*' ||
    c == '?' || c == '"' || c == '|' || c < ' '
  }

  predicate IsDotOrSpace(c: char)
  {
    c == '.' || c == ' '
  }

  /** `re.sub(invalid_chars, "", s)`. */
  function RemoveInvalid(s: string): (r: string)
    ensures forall i :: 0 <= i < |r| ==> !IsInvalid(r[i])
    ensures (forall i :: 0 <= i < |s| ==> !IsInvalid(s[i])) ==> r == s
  {
    if s == [] then []
    else
      assert s == [s[0]] + s[1..];
      (if IsInvalid(s[0]) then [] else [s[0]]) + RemoveInvalid(s[1..])
  }

  /** The deletion pass keeps every other character as often as it
      occurs. */
  lemma {:induction false} RemoveInvalidCounts(s: string)
    ensures forall c :: !IsInvalid(c) ==> multiset(RemoveInvalid(s))[c] == multiset(s)[c]
  {
    if s != [] {
      RemoveInvalidCounts(s[1..]);
      var head := if IsInvalid(s[0]) then [] else [s[0]];
      assert s == [s[0]] + s[1..];
      assert multiset(s) == multiset([s[0]]) + multiset(s[1..]);
      assert multiset(RemoveInvalid(s)) == multiset(head) + multiset(RemoveInvalid(s[1..]));
    }
  }

  /** `s.strip(". ")`. */
  function StripDotsAndSpaces(s: string): string
  {
    Trim(s, IsDotOrSpace)
  }

  /** `re.sub(r"\s+", " ", s)`: every maximal run of whitespace becomes one
      space. */
  function CollapseWhitespace(s: string): (r: string)
    ensures |r| == 0 <==> |s| == 0
    decreases |s|
  {
    if s == [] then []
    else if IsSpace(s[0]) then [' '] + CollapseWhitespace(TrimStart(s[1..], IsSpace))
    else [s[0]] + CollapseWhitespace(s[1..])
  }

  /** A string of whitespace holds no other character. */
  lemma OnlySpacesIn(s: string)
    requires forall i :: 0 <= i < |s| ==> IsSpace(s[i])
    ensures forall c :: !IsSpace(c) ==> multiset(s)[c] == 0
  {
    forall c | !IsSpace(c)
      ensures multiset(s)[c] == 0
    {
      assert c !in s;
    }
  }

  /** A leading run of whitespace holds no other character. */
  lemma SpaceRunCounts(s: string)
    requires s != [] && IsSpace(s[0])
    ensures forall c :: !IsSpace(c) ==> multiset(s)[c] == multiset(TrimStart(s[1..], IsSpace))[c]
  {
    var t := s[1..];
    var rest := TrimStart(t, IsSpace);
    TrimStartSpec(t, IsSpace);
    var w := s[..|s| - |rest|];
    assert s == w + rest;
    forall i | 0 <= i < |w|
      ensures IsSpace(w[i])
    {
      if i > 0 {
        assert w[i] == t[i - 1];
      }
    }
    OnlySpacesIn(w);
    assert multiset(s) == multiset(w) + multiset(rest);
  }

  /** Collapsing keeps every character that is not whitespace, as often as
      it occurs, and removes every whitespace character but the space. */
  lemma {:induction false} CollapseCounts(s: string)
    ensures forall c :: !IsSpace(c) ==> multiset(CollapseWhitespace(s))[c] == multiset(s)[c]
    ensures forall c :: IsSpace(c) && c != ' ' ==> multiset(CollapseWhitespace(s))[c] == 0
    decreases |s|
  {
    if s != [] {
      if IsSpace(s[0]) {
        var rest := TrimStart(s[1..], IsSpace);
        SpaceRunCounts(s);
        CollapseCounts(rest);
        assert CollapseWhitespace(s) == [' '] + CollapseWhitespace(rest);
        assert multiset(CollapseWhitespace(s)) == multiset([' ']) + multiset(CollapseWhitespace(rest));
      } else {
        assert s == [s[0]] + s[1..];
        CollapseCounts(s[1..]);
        assert multiset(CollapseWhitespace(s)) == multiset([s[0]]) + multiset(CollapseWhitespace(s[1..]));
      }
    }
  }

  /** After collapsing, the only whitespace is the space, never two in a
      row, and the first character is a space exactly when the input
      started with whitespace. */
  lemma {:induction false} CollapseShape(s: string)
    ensures var r := CollapseWhitespace(s);
      && (forall i :: 0 <= i < |r| && IsSpace(r[i]) ==> r[i] == ' ')
      && (forall i :: 0 <= i < |r| - 1 ==> !(r[i] == ' ' && r[i + 1] == ' '))
      && (|s| > 0 ==> if IsSpace(s[0]) then r[0] == ' ' else r[0] == s[0])
    decreases |s|
  {
    if s != [] {
      if IsSpace(s[0]) {
        var rest := TrimStart(s[1..], IsSpace);
        TrimStartSpec(s[1..], IsSpace);
        CollapseShape(rest);
      } else {
        CollapseShape(s[1..]);
      }
    }
  }

  /** The last character is a space exactly when the input ended with
      whitespace, and is the input's last character otherwise. */
  lemma {:induction false} CollapseLast(s: string)
    requires |s| > 0
    ensures var r := CollapseWhitespace(s);
      if IsSpace(s[|s| - 1]) then r[|r| - 1] == ' ' else r[|r| - 1] == s[|s| - 1]
    decreases |s|
  {
    if IsSpace(s[0]) {
      var rest := TrimStart(s[1..], IsSpace);
      TrimStartSpec(s[1..], IsSpace);
      if rest != [] {
        CollapseLast(rest);
        assert rest[|rest| - 1] == s[|s| - 1];
      } else if |s| > 1 {
        assert IsSpace(s[1..][|s| - 2]);
      }
    } else if |s| > 1 {
      CollapseLast(s[1..]);
    }
  }

  /** `_sanitize_filename(s)`. */
  function Sanitize(s: string): string
  {
    CollapseWhitespace(StripDotsAndSpaces(RemoveInvalid(s)))
  }

  // ---------------------------------------------------------------------
  // What the sanitizer promises

  /** The result holds none of / < > : * ? " | nor a control character. */
  lemma NoInvalidCharacters(s: string)
    ensures forall i :: 0 <= i < |Sanitize(s)| ==> !IsInvalid(Sanitize(s)[i])
  {
    var u := RemoveInvalid(s);
    var t := StripDotsAndSpaces(u);
    var r := Sanitize(s);
    SliceCounts(u, IsDotOrSpace);
    CollapseCounts(t);
    forall c | IsInvalid(c)
      ensures multiset(r)[c] == 0
    {
      assert c !in u;
    }
    forall i | 0 <= i < |r|
      ensures !IsInvalid(r[i])
    {
      assert r[i] in multiset(r);
    }
  }

  /** Stripping keeps a slice of its input, so no character is counted more
      often in the result, and one that is not stripped is counted as
      often. */
  lemma SliceCounts(u: string, p: char -> bool)
    ensures forall c :: multiset(Trim(u, p))[c] <= multiset(u)[c]
    ensures forall c :: !p(c) ==> multiset(Trim(u, p))[c] == multiset(u)[c]
  {
    var a := TrimStart(u, p);
    TrimStartSpec(u, p);
    DropCounts(u, |u| - |a|, p);
    var t := TrimEnd(a, p);
    TrimEndSpec(a, p);
    KeepCounts(a, |t|, p);
  }

  /** Dropping a prefix whose characters all satisfy `p`. */
  lemma DropCounts(u: string, i: nat, p: char -> bool)
    requires i <= |u| && forall k :: 0 <= k < i ==> p(u[k])
    ensures forall c :: multiset(u[i..])[c] <= multiset(u)[c]
    ensures forall c :: !p(c) ==> multiset(u[i..])[c] == multiset(u)[c]
  {
    assert u == u[..i] + u[i..];
    assert multiset(u) == multiset(u[..i]) + multiset(u[i..]);
    forall c | !p(c)
      ensures multiset(u[..i])[c] == 0
    {
      assert c !in u[..i] by {
        assert forall k :: 0 <= k < i ==> u[..i][k] == u[k];
      }
    }
  }

  /** Keeping a prefix when the characters after it all satisfy `p`. */
  lemma KeepCounts(a: string, n: nat, p: char -> bool)
    requires n <= |a| && forall k :: n <= k < |a| ==> p(a[k])
    ensures forall c :: multiset(a[..n])[c] <= multiset(a)[c]
    ensures forall c :: !p(c) ==> multiset(a[..n])[c] == multiset(a)[c]
  {
    assert a == a[..n] + a[n..];
    assert multiset(a) == multiset(a[..n]) + multiset(a[n..]);
    forall c | !p(c)
      ensures multiset(a[n..])[c] == 0
    {
      assert c !in a[n..] by {
        assert forall k :: 0 <= k < |a| - n ==> a[n..][k] == a[n + k];
      }
    }
  }

  /** Every character other than the deleted ones, whitespace and the dot
      is kept, as often as it occurs: the backslash, and `- _ ( ) [ ] { }
      & + =` among them. */
  lemma KeepsOrdinaryCharacters(s: string, c: char)
    requires !IsInvalid(c) && !IsSpace(c) && c != '.'
    ensures multiset(Sanitize(s))[c] == multiset(s)[c]
  {
    RemoveInvalidCounts(s);
    SliceCounts(RemoveInvalid(s), IsDotOrSpace);
    CollapseCounts(StripDotsAndSpaces(RemoveInvalid(s)));
  }

  lemma KeepsBackslash(s: string)
    ensures multiset(Sanitize(s))['\\'] == multiset(s)['\\']
  {
    KeepsOrdinaryCharacters(s, '\\');
  }

  /** A name with one ordinary character never sanitizes to the empty
      string. */
  lemma NonEmptyWhenOrdinary(s: string, i: nat)
    requires i < |s| && !IsInvalid(s[i]) && !IsSpace(s[i]) && s[i] != '.'
    ensures Sanitize(s) != ""
  {
    KeepsOrdinaryCharacters(s, s[i]);
    assert s[i] in multiset(s);
  }

  /** A whitespace character the strip pass does not know as a space. */
  predicate NoWideSpace(s: string)
  {
    forall i :: 0 <= i < |s| && IsSpace(s[i]) ==> IsAscii(s[i])
  }

  /** What a sanitized name looks like: no deleted character, no
      whitespace but the space, no two spaces in a row, and neither a space
      nor a dot at either end. */
  predicate IsClean(s: string)
  {
    && (forall i :: 0 <= i < |s| ==> !IsInvalid(s[i]))
    && (forall i :: 0 <= i < |s| && IsSpace(s[i]) ==> s[i] == ' ')
    && (forall i :: 0 <= i < |s| - 1 ==> !(s[i] == ' ' && s[i + 1] == ' '))
    && (|s| > 0 ==> !IsDotOrSpace(s[0]) && !IsDotOrSpace(s[|s| - 1]))
  }

  /** The only whitespace that survives the deletion pass on a name without
      non-ASCII whitespace is the space itself. */
  lemma RemoveInvalidLeavesOnlySpaces(s: string)
    requires NoWideSpace(s)
    ensures forall i :: 0 <= i < |RemoveInvalid(s)| && IsSpace(RemoveInvalid(s)[i]) ==> RemoveInvalid(s)[i] == ' '
  {
    var u := RemoveInvalid(s);
    RemoveInvalidCounts(s);
    forall i | 0 <= i < |u| && IsSpace(u[i])
      ensures u[i] == ' '
    {
      var c := u[i];
      assert c in multiset(u);
      assert c in multiset(s);
      assert c in s;
    }
  }

  /** On a name without non-ASCII whitespace the result is clean. */
  lemma {:induction false} SanitizeIsClean(s: string)
    requires NoWideSpace(s)
    ensures IsClean(Sanitize(s))
  {
    var u := RemoveInvalid(s);
    RemoveInvalidLeavesOnlySpaces(s);
    var a := TrimStart(u, IsDotOrSpace);
    var t := TrimEnd(a, IsDotOrSpace);
    TrimStartSpec(u, IsDotOrSpace);
    TrimEndSpec(a, IsDotOrSpace);
    var r := Sanitize(s);
    NoInvalidCharacters(s);
    CollapseShape(t);
    assert a == u[|u| - |a|..];
    if |t| > 0 {
      CollapseLast(t);
      assert t[0] == a[0] == u[|u| - |a|];
      assert t[|t| - 1] == a[|t| - 1] == u[|u| - |a| + |t| - 1];
      assert !IsSpace(t[0]) && !IsSpace(t[|t| - 1]);
    }
  }

  /** Collapsing leaves a string alone that has single spaces only. */
  lemma {:induction false} CollapseFixes(s: string)
    requires forall i :: 0 <= i < |s| && IsSpace(s[i]) ==> s[i] == ' '
    requires forall i :: 0 <= i < |s| - 1 ==> !(s[i] == ' ' && s[i + 1] == ' ')
    ensures CollapseWhitespace(s) == s
  {
    if s != [] {
      CollapseFixes(s[1..]);
      if IsSpace(s[0]) {
        assert s[1..] == [] || !IsSpace(s[1..][0]);
        assert TrimStart(s[1..], IsSpace) == s[1..];
        assert CollapseWhitespace(s) == [' '] + CollapseWhitespace(s[1..]);
      } else {
        assert CollapseWhitespace(s) == [s[0]] + CollapseWhitespace(s[1..]);
      }
    }
  }

  /** A clean name is its own sanitized form. */
  lemma CleanIsFixpoint(s: string)
    requires IsClean(s)
    ensures Sanitize(s) == s
  {
    assert RemoveInvalid(s) == s;
    assert TrimStart(s, IsDotOrSpace) == s;
    assert TrimEnd(s, IsDotOrSpace) == s;
    CollapseFixes(s);
  }

  /** Sanitizing twice is sanitizing once, for names without non-ASCII
      whitespace (so for every ASCII name). */
  lemma Idempotent(s: string)
    requires NoWideSpace(s)
    ensures Sanitize(Sanitize(s)) == Sanitize(s)
  {
    SanitizeIsClean(s);
    CleanIsFixpoint(Sanitize(s));
  }

  /** With a NO-BREAK SPACE at the end, the first pass leaves a trailing
      space that only the second pass strips. */
  lemma NotIdempotentOnNoBreakSpace()
    ensures Sanitize("a\U{A0}") == "a "
    ensures Sanitize(Sanitize("a\U{A0}")) == "a"
  {
    FirstPassKeepsSpace('a');
    SecondPassStripsSpace('a');
  }

  lemma FirstPassKeepsSpace(x: char)
    requires !IsInvalid(x) && !IsSpace(x) && x != '.'
    ensures Sanitize([x, '\U{A0}']) == [x, ' ']
  {
    var s := [x, '\U{A0}'];
    assert RemoveInvalid(s) == s by {
      assert forall i :: 0 <= i < |s| ==> !IsInvalid(s[i]);
    }
    var a := TrimStart(s, IsDotOrSpace);
    TrimStartSpec(s, IsDotOrSpace);
    assert !IsDotOrSpace(s[0]);
    assert |a| == 2;
    assert a == s;
    var t := TrimEnd(s, IsDotOrSpace);
    TrimEndSpec(s, IsDotOrSpace);
    assert !IsDotOrSpace(s[1]);
    assert |t| == 2;
    assert t == s;
    assert s[1..] == ['\U{A0}'];
    assert TrimStart(s[1..][1..], IsSpace) == [];
    assert CollapseWhitespace(s[1..]) == [' '];
  }

  lemma SecondPassStripsSpace(x: char)
    requires !IsInvalid(x) && !IsSpace(x) && x != '.'
    ensures Sanitize([x, ' ']) == [x]
  {
    var s := [x, ' '];
    assert RemoveInvalid(s) == s by {
      assert forall i :: 0 <= i < |s| ==> !IsInvalid(s[i]);
    }
    var a := TrimStart(s, IsDotOrSpace);
    TrimStartSpec(s, IsDotOrSpace);
    assert !IsDotOrSpace(s[0]);
    assert |a| == 2;
    assert a == s;
    var t := TrimEnd(s, IsDotOrSpace);
    TrimEndSpec(s, IsDotOrSpace);
    assert |t| == 1;
    assert t == [x];
    assert CollapseWhitespace(t) == [x] + CollapseWhitespace([]);
  }

  /** A name that is only an extension loses its leading dot. */
  lemma ExtensionOnly()
    ensures Sanitize(".mp3") == "mp3"
  {
    var s := ".mp3";
    var name := "mp3";
    assert CollapseWhitespace(name) == name by {
      assert name == ['m', 'p', '3'];
      CollapseFixes(name);
    }
    assert StripDotsAndSpaces(s) == name by {
      assert s[1..] == name;
      assert TrimStart(s, IsDotOrSpace) == TrimStart(name, IsDotOrSpace) == name;
      assert TrimEnd(name, IsDotOrSpace) == name;
    }
    assert RemoveInvalid(s) == s by {
      assert forall i :: 0 <= i < |s| ==> !IsInvalid(s[i]);
    }
  }
}
