/** The cover-art cascade of `YouTubeAudioScraper._add_cover_art`: the
    thumbnail URL and three lower resolutions of it, made with
    `str.replace("maxresdefault", …)`, are fetched in order until one
    answers with a non-empty body.

    The network is a parameter: `fetch(url)` is None when `requests.get`
    or `raise_for_status` raises (a connection error, a timeout, a 4xx or
    5xx status) and `Some(body)` with the response's content otherwise. */
module Cover {
  import opened Wrappers

  type Bytes = seq<bv8>

  const MaxRes: string := "maxresdefault"

  /** The file names of the fallbacks, best first. */
  const Fallbacks: seq<string> := ["sddefault", "hqdefault", "default"]

  /** `pat` occurs in `s` starting at index `i`. */
  predicate OccursAt(s: string, pat: string, i: nat)
  {
    i + |pat| <= |s| && s[i..i + |pat|] == pat
  }

  /** `s.replace(pat, rep)`: every occurrence, scanning left to right and
      resuming after each replaced one. */
  function Replace(s: string, pat: string, rep: string): string
    requires pat != []
    decreases |s|
  {
    if |s| < |pat| then s
    else if s[..|pat|] == pat then rep + Replace(s[|pat|..], pat, rep)
    else [s[0]] + Replace(s[1..], pat, rep)
  }

  /** The URLs tried, in order. */
  function Candidates(url: string): (r: seq<string>)
    ensures |r| == 4 && r[0] == url
  {
    [url, Replace(url, MaxRes, Fallbacks[0]), Replace(url, MaxRes, Fallbacks[1]),
     Replace(url, MaxRes, Fallbacks[2])]
  }

  /** A fetch that ends the cascade: a response with a non-empty body. */
  predicate Hit(r: Option<Bytes>)
  {
    r.Some? && r.value != []
  }

  /** The index of the first candidate, at or after `from`, whose fetch is
      a hit. */
  function FirstHit(urls: seq<string>, fetch: string -> Option<Bytes>, from: nat): (r: Option<nat>)
    requires from <= |urls|
    ensures r.Some? ==> from <= r.value < |urls| && Hit(fetch(urls[r.value]))
    ensures r.Some? ==> forall i :: from <= i < r.value ==> !Hit(fetch(urls[i]))
    ensures r.None? ==> forall i :: from <= i < |urls| ==> !Hit(fetch(urls[i]))
    decreases |urls| - from
  {
    if from == |urls| then None
    else if Hit(fetch(urls[from])) then Some(from)
    else FirstHit(urls, fetch, from + 1)
  }

  /** The candidate loop: returns the body of the first hit (empty when
      there is none, and the caller then raises) and the URLs requested,
      in order. */
  method FetchCover(url: string, fetch: string -> Option<Bytes>) returns (content: Bytes, requested: seq<string>)
    ensures var urls := Candidates(url);
      match FirstHit(urls, fetch, 0)
      case Some(k) => content == fetch(urls[k]).value && requested == urls[..k + 1]
      case None => content == [] && requested == urls
  {
    var urls := Candidates(url);
    content := [];
    requested := [];
    var i := 0;
    while i < |urls|
      invariant 0 <= i <= |urls|
      invariant requested == urls[..i]
      invariant forall j :: 0 <= j < i ==> !Hit(fetch(urls[j]))
      invariant content == []
    {
      requested := requested + [urls[i]];
      var response := fetch(urls[i]);
      if response.Some? {
        content := response.value;
        if content != [] {
          assert FirstHit(urls, fetch, i) == Some(i);
          FirstHitFrom(urls, fetch, i);
          return;
        }
      }
      i := i + 1;
    }
    FirstHitFrom(urls, fetch, i);
  }

  /** When the first `i` candidates all miss, searching from 0 finds what
      searching from `i` finds. */
  lemma {:induction false} FirstHitFrom(urls: seq<string>, fetch: string -> Option<Bytes>, i: nat)
    requires i <= |urls|
    requires forall j :: 0 <= j < i ==> !Hit(fetch(urls[j]))
    ensures FirstHit(urls, fetch, 0) == FirstHit(urls, fetch, i)
    decreases i
  {
    if i > 0 {
      FirstHitFrom(urls, fetch, i - 1);
    }
  }

  // ---------------------------------------------------------------------
  // What the cascade promises

  /** Without an occurrence of the pattern, `replace` changes nothing. */
  lemma {:induction false} ReplaceAbsent(s: string, pat: string, rep: string)
    requires pat != []
    requires forall i :: 0 <= i <= |s| ==> !OccursAt(s, pat, i)
    ensures Replace(s, pat, rep) == s
    decreases |s|
  {
    if |s| >= |pat| {
      assert !OccursAt(s, pat, 0);
      forall i | 0 <= i <= |s[1..]|
        ensures !OccursAt(s[1..], pat, i)
      {
        assert !OccursAt(s, pat, i + 1);
        if i + |pat| <= |s[1..]| {
          assert s[1..][i..i + |pat|] == s[i + 1..i + 1 + |pat|];
        }
      }
      ReplaceAbsent(s[1..], pat, rep);
      assert s == [s[0]] + s[1..];
    }
  }

  /** A thumbnail URL without `maxresdefault` gives four equal candidates,
      so the same URL is fetched up to four times. */
  lemma CandidatesWithoutMaxRes(url: string)
    requires forall i :: 0 <= i <= |url| ==> !OccursAt(url, MaxRes, i)
    ensures Candidates(url) == [url, url, url, url]
  {
    ReplaceAbsent(url, MaxRes, Fallbacks[0]);
    ReplaceAbsent(url, MaxRes, Fallbacks[1]);
    ReplaceAbsent(url, MaxRes, Fallbacks[2]);
  }

  /** Text that holds no occurrence starting before its end is copied
      before the rest is replaced. */
  lemma {:induction false} ReplaceKeepsPrefix(a: string, b: string, pat: string, rep: string)
    requires pat != []
    requires forall i :: 0 <= i < |a| ==> !OccursAt(a + b, pat, i)
    ensures Replace(a + b, pat, rep) == a + Replace(b, pat, rep)
    decreases |a|
  {
    if a != [] {
      var s := a + b;
      assert s[1..] == a[1..] + b;
      NoOccurrenceAfterFirst(s, pat, |a|);
      ReplaceKeepsPrefix(a[1..], b, pat, rep);
      ReplaceSkipsFirst(s, pat, rep);
      assert a == [a[0]] + a[1..];
    } else {
      assert a + b == b;
    }
  }

  /** Dropping the first character shifts the occurrence-free indices. */
  lemma NoOccurrenceAfterFirst(s: string, pat: string, n: nat)
    requires 0 < n <= |s|
    requires forall i :: 0 <= i < n ==> !OccursAt(s, pat, i)
    ensures forall i :: 0 <= i < n - 1 ==> !OccursAt(s[1..], pat, i)
  {
    forall i | 0 <= i < n - 1
      ensures !OccursAt(s[1..], pat, i)
    {
      assert !OccursAt(s, pat, i + 1);
      if i + |pat| <= |s[1..]| {
        assert s[1..][i..i + |pat|] == s[i + 1..i + 1 + |pat|];
      }
    }
  }

  /** Without an occurrence at the start, the first character is copied. */
  lemma ReplaceSkipsFirst(s: string, pat: string, rep: string)
    requires pat != [] && s != []
    requires !OccursAt(s, pat, 0)
    ensures Replace(s, pat, rep) == [s[0]] + Replace(s[1..], pat, rep)
  {
    if |s| < |pat| {
      ShortUnchanged(s[1..], pat, rep);
      assert s == [s[0]] + s[1..];
    }
  }

  /** Text shorter than the pattern is left as it is. */
  lemma ShortUnchanged(s: string, pat: string, rep: string)
    requires pat != [] && |s| < |pat|
    ensures Replace(s, pat, rep) == s
  {
  }

  /** Replacing at the very start of the text. */
  lemma ReplaceAtStart(pat: string, rest: string, rep: string)
    requires pat != []
    ensures Replace(pat + rest, pat, rep) == rep + Replace(rest, pat, rep)
  {
    assert (pat + rest)[..|pat|] == pat;
    assert (pat + rest)[|pat|..] == rest;
  }

  /** The thumbnail URL of a video, as the download step builds it, when
      the part before `maxresdefault.jpg` ends with `/` and does not hold
      the pattern itself: its candidates are the four resolutions in
      order. */
  lemma CanonicalCandidates(base: string)
    requires |base| > 0 && base[|base| - 1] == '/'
    requires forall i :: 0 <= i <= |base| ==> !OccursAt(base, MaxRes, i)
    ensures Candidates(base + "maxresdefault.jpg") ==
      [base + "maxresdefault.jpg", base + "sddefault.jpg", base + "hqdefault.jpg", base + "default.jpg"]
  {
    var s := base + (MaxRes + ".jpg");
    assert base + "maxresdefault.jpg" == s;
    forall i | 0 <= i < |base|
      ensures !OccursAt(s, MaxRes, i)
    {
      if i + |MaxRes| <= |base| {
        assert s[i..i + |MaxRes|] == base[i..i + |MaxRes|];
        assert !OccursAt(base, MaxRes, i);
      } else if i + |MaxRes| <= |s| {
        assert s[i..i + |MaxRes|][|base| - 1 - i] == '/';
        assert '/' !in MaxRes;
      }
    }
    assert Replace(s, MaxRes, "sddefault") == base + "sddefault.jpg" by {
      ReplaceFileName(base, "sddefault");
      assert base + ("sddefault" + ".jpg") == base + "sddefault.jpg";
    }
    assert Replace(s, MaxRes, "hqdefault") == base + "hqdefault.jpg" by {
      ReplaceFileName(base, "hqdefault");
      assert base + ("hqdefault" + ".jpg") == base + "hqdefault.jpg";
    }
    assert Replace(s, MaxRes, "default") == base + "default.jpg" by {
      ReplaceFileName(base, "default");
      assert base + ("default" + ".jpg") == base + "default.jpg";
    }
  }

  /** When the pattern starts nowhere in `base`, nor across its end, only
      the `maxresdefault` of the file name is replaced. */
  lemma ReplaceFileName(base: string, rep: string)
    requires forall i :: 0 <= i < |base| ==> !OccursAt(base + (MaxRes + ".jpg"), MaxRes, i)
    ensures Replace(base + (MaxRes + ".jpg"), MaxRes, rep) == base + (rep + ".jpg")
  {
    var tail := ".jpg";
    assert forall i :: 0 <= i <= |tail| ==> !OccursAt(tail, MaxRes, i);
    ReplaceAbsent(tail, MaxRes, rep);
    ReplaceAtStart(MaxRes, tail, rep);
    ReplaceKeepsPrefix(base, MaxRes + tail, MaxRes, rep);
  }

  /** The fetches stop at the first hit: when the k-th candidate is the
      first hit, exactly k URLs are requested and its body is the cover. */
  lemma StopsAtFirstHit(urls: seq<string>, fetch: string -> Option<Bytes>, k: nat)
    requires k < |urls| && Hit(fetch(urls[k]))
    requires forall j :: 0 <= j < k ==> !Hit(fetch(urls[j]))
    ensures FirstHit(urls, fetch, 0) == Some(k)
  {
    FirstHitFrom(urls, fetch, k);
  }
}
