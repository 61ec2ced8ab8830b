/** The part of `YouTubeAudioScraper.download_audio` that is not yt-dlp or
    the file system: the metadata record built from yt-dlp's info dict, and
    the output file name made from the title. */
module Download {
  import opened Wrappers
  import opened Text
  import opened Values
  import Sanitize
  import Cover
  import UrlCheck

  /** A date field that is truthy but not a string: slicing or splitting
      it raises, and the exception leaves `download_audio`. */
  datatype DownloadError = DateNotText(field: string)

  /** `s[:4]`. */
  function FirstFour(s: string): (r: string)
    ensures |r| == if |s| < 4 then |s| else 4
    ensures r == s[..|r|]
  {
    if |s| <= 4 then s else s[..4]
  }

  /** `s.split("-")[0]`: everything before the first '-'. */
  function BeforeDash(s: string): (r: string)
    ensures '-' !in r
    ensures |r| <= |s| && r == s[..|r|]
    ensures |r| < |s| ==> s[|r|] == '-'
  {
    match IndexOf(s, '-')
    case Some(i) => s[..i]
    case None => s
  }

  /** The year: the first four characters of `upload_date` (YYYYMMDD)
      when that is truthy, else the part of `release_date` (YYYY-MM-DD)
      before the first '-' when that is truthy, else None. */
  function YearOf(info: Record): Result<Value, DownloadError>
  {
    var upload := Get(info, "upload_date");
    var release := Get(info, "release_date");
    if Truthy(upload) then
      if upload.Str? then Ok(Str(FirstFour(upload.s))) else Err(DateNotText("upload_date"))
    else if Truthy(release) then
      if release.Str? then Ok(Str(BeforeDash(release.s))) else Err(DateNotText("release_date"))
    else Ok(NoneVal)
  }

  const ThumbnailPrefix: string := "https://img.youtube.com/vi/"
  const WatchPrefix: string := "https://www.youtube.com/watch?v="

  /** The thumbnail URL for a video id, None without one. */
  function ThumbnailUrl(id: Value): Value
  {
    if Truthy(id) then Str(ThumbnailPrefix + ToStr(id) + "/maxresdefault.jpg") else NoneVal
  }

  /** The watch-page URL for a video id, None without one. */
  function WatchUrl(id: Value): Value
  {
    if Truthy(id) then Str(WatchPrefix + ToStr(id)) else NoneVal
  }

  /** The record `download_audio` returns, from the info dict. */
  function BuildRecord(info: Record): Result<Record, DownloadError>
  {
    match YearOf(info)
    case Err(e) => Err(e)
    case Ok(year) =>
      var id := Get(info, "id");
      Ok(map[
        "title" := GetOr(info, "title", Str("Unknown")),
        "artist" := GetOr(info, "uploader", Str("Unknown")),
        "thumbnail" := ThumbnailUrl(id),
        "year" := year,
        "duration" := Get(info, "duration"),
        "view_count" := Get(info, "view_count"),
        "description" := GetOr(info, "description", Str("")),
        "video_url" := WatchUrl(id),
        "video_id" := id
      ])
  }

  /** The output file name: `f"{title}.mp3"` through the sanitizer. */
  function OutputFilename(rec: Record): string
    requires "title" in rec
  {
    Sanitize.Sanitize(ToStr(rec["title"]) + ".mp3")
  }

  // ---------------------------------------------------------------------
  // What the record promises

  const RecordKeys: set<string> :=
    {"title", "artist", "thumbnail", "year", "duration", "view_count", "description", "video_url", "video_id"}

  /** The record has exactly the nine keys (no album: the tag falls back
      to the artist); a missing title or uploader reads "Unknown", and the
      year, when set, is a prefix of the date it came from with no '-'
      in it when it came from the release date. */
  lemma RecordShape(info: Record)
    requires BuildRecord(info).Ok?
    ensures var r := BuildRecord(info).value;
      && r.Keys == RecordKeys
      && ("title" !in info ==> r["title"] == Str("Unknown"))
      && ("uploader" !in info ==> r["artist"] == Str("Unknown"))
      && (Truthy(Get(info, "upload_date")) ==>
            r["year"].Str? && |r["year"].s| <= 4 && r["year"].s == info["upload_date"].s[..|r["year"].s|])
      && (!Truthy(Get(info, "upload_date")) && Truthy(Get(info, "release_date")) ==>
            r["year"].Str? && '-' !in r["year"].s && r["year"].s == info["release_date"].s[..|r["year"].s|])
      && (!Truthy(Get(info, "upload_date")) && !Truthy(Get(info, "release_date")) ==> r["year"] == NoneVal)
  {
  }

  /** An upload date (YYYYMMDD) gives its first four characters; one that
      is not text is refused. */
  lemma UploadDateYear()
    ensures YearOf(map["upload_date" := Str("20190415")]) == Ok(Str("2019"))
    ensures YearOf(map["upload_date" := Int(20190415)]) == Err(DateNotText("upload_date"))
  {
    assert FirstFour("20190415") == "20190415"[..4] == "2019";
  }

  /** A release date (YYYY-MM-DD) gives the same year, also when the upload
      date is present but empty. */
  lemma ReleaseDateYear()
    ensures YearOf(map["release_date" := Str("2019-04-15")]) == Ok(Str("2019"))
    ensures YearOf(map["upload_date" := Str(""), "release_date" := Str("2019-04-15")]) == Ok(Str("2019"))
  {
    assert "upload_date" != "release_date";
    var r := "2019-04-15";
    assert BeforeDash(r) == "2019" by {
      assert r[4] == '-' && '-' !in r[..4];
      assert IndexOf(r, '-') == Some(4);
      assert r[..4] == "2019";
    }
  }

  /** The thumbnail of a video whose id is shorter than the pattern
      `maxresdefault` (YouTube ids have 11 characters) holds the pattern
      only at its end, so the cover candidates are the four resolutions of
      that thumbnail, in order. */
  lemma ThumbnailCandidates(id: string)
    requires 0 < |id| < 13
    ensures var base := ThumbnailPrefix + id + "/";
      && ThumbnailUrl(Str(id)) == Str(base + "maxresdefault.jpg")
      && Cover.Candidates(base + "maxresdefault.jpg") ==
           [base + "maxresdefault.jpg", base + "sddefault.jpg", base + "hqdefault.jpg", base + "default.jpg"]
  {
    var base := ThumbnailPrefix + id + "/";
    assert ThumbnailPrefix + id + "/maxresdefault.jpg" == base + "maxresdefault.jpg";
    forall i | 0 <= i <= |base|
      ensures !Cover.OccursAt(base, Cover.MaxRes, i)
    {
      NoMaxResAt(id, i);
    }
    Cover.CanonicalCandidates(base);
  }

  /** The pattern starts nowhere in the thumbnail URL before its
      file name: a window of 13 characters either lies in the fixed prefix,
      where it does not match, or covers one of the slashes around the id. */
  lemma NoMaxResAt(id: string, i: nat)
    requires 0 < |id| < 13
    ensures !Cover.OccursAt(ThumbnailPrefix + id + "/", Cover.MaxRes, i)
  {
    var base := ThumbnailPrefix + id + "/";
    var n := |ThumbnailPrefix|;
    assert n == 27;
    if i + 13 <= |base| {
      var w := base[i..i + 13];
      if i + 13 <= n {
        assert w == ThumbnailPrefix[i..i + 13];
        if i == 9 {
          assert w[1] == 'g' != Cover.MaxRes[1];
        } else {
          assert w[0] == ThumbnailPrefix[i] != 'm' == Cover.MaxRes[0];
        }
      } else if i < n {
        assert w[n - 1 - i] == base[n - 1] == '/';
        assert '/' !in Cover.MaxRes;
      } else {
        assert w[|base| - 1 - i] == base[|base| - 1] == '/';
        assert '/' !in Cover.MaxRes;
      }
    }
  }

  /** What `urlparse` gives for an `https` URL without a fragment: the
      network location runs up to the first '/', '?' or '#', the path up to
      the first '?', and the query is the rest. Only the properties the
      proof below needs are stated. */
  predicate SplitsAs(url: string, u: UrlCheck.UrlParts)
  {
    && url == "https://" + u.netloc + u.path + (if u.query == "" then "" else "?" + u.query)
    && (forall i :: 0 <= i < |u.netloc| ==> u.netloc[i] != '/' && u.netloc[i] != '?' && u.netloc[i] != '#')
    && (u.path == "" || u.path[0] == '/')
  }

  /** The watch-page URL written into the tag passes the URL check, read
      through any split of it that has urlparse's shape. */
  lemma WatchUrlIsValid(id: string, u: UrlCheck.UrlParts)
    requires id != ""
    requires SplitsAs(WatchPrefix + id, u)
    ensures WatchUrl(Str(id)) == Str(WatchPrefix + id)
    ensures u.netloc == "www.youtube.com"
    ensures UrlCheck.ValidateYoutubeUrl(Some(u))
  {
    var tail := u.path + (if u.query == "" then "" else "?" + u.query);
    var rest := "www.youtube.com/watch?v=" + id;
    DropScheme(WatchPrefix + id, rest, u.netloc, u.path, if u.query == "" then "" else "?" + u.query);
    assert tail == [] || tail[0] == '/' || tail[0] == '?';
    HostBeforeSlash(rest, u.netloc, tail);
    assert u.path != "" || u.query != "";
    assert Lower(u.netloc) == UrlCheck.YoutubeHosts[1];
  }

  /** The text after `https://`. */
  lemma DropScheme(url: string, rest: string, a: string, b: string, c: string)
    requires url == "https://" + rest && url == "https://" + a + b + c
    ensures rest == a + (b + c)
  {
    assert url[8..] == rest;
    assert url == "https://" + (a + (b + c));
    assert url[8..] == a + (b + c);
  }

  /** A network location free of '/' and '?', followed by nothing or by a
      '/' or '?', is everything before the first '/' of the text. */
  lemma HostBeforeSlash(rest: string, netloc: string, tail: string)
    requires |rest| > 15 && rest[..16] == "www.youtube.com/"
    requires rest == netloc + tail
    requires forall i :: 0 <= i < |netloc| ==> netloc[i] != '/' && netloc[i] != '?'
    requires tail == [] || tail[0] == '/' || tail[0] == '?'
    ensures netloc == "www.youtube.com" && tail != []
  {
    assert rest[15] == '/';
    assert forall i :: 0 <= i < 15 ==> rest[i] != '/' && rest[i] != '?' by {
      assert rest[..16] == "www.youtube.com/";
      forall i | 0 <= i < 15
        ensures rest[i] != '/' && rest[i] != '?'
      {
        assert rest[i] == rest[..16][i];
      }
    }
    assert |netloc| < |rest| ==> rest[|netloc|] in "/?";
    assert netloc == rest[..15];
    assert tail == rest[15..];
  }

  /** The watch URL of a video id splits into the www.youtube.com host, the
      `/watch` path and the `v=` query. */
  lemma WatchUrlSplit(id: string)
    requires id != "" && '#' !in id
    ensures SplitsAs(WatchPrefix + id, UrlCheck.UrlParts("www.youtube.com", "/watch", "v=" + id))
  {
  }

  // ---------------------------------------------------------------------
  // What the file name promises

  /** The file name never holds a character the sanitizer deletes. */
  lemma FilenameIsValid(rec: Record)
    requires "title" in rec
    ensures forall i :: 0 <= i < |OutputFilename(rec)| ==> !Sanitize.IsInvalid(OutputFilename(rec)[i])
  {
    Sanitize.NoInvalidCharacters(ToStr(rec["title"]) + ".mp3");
  }

  /** A title that is already a clean name keeps its name and gets the
      `.mp3` extension. */
  lemma CleanTitleKept(rec: Record)
    requires "title" in rec && Sanitize.IsClean(ToStr(rec["title"]) + ".mp3")
    ensures OutputFilename(rec) == ToStr(rec["title"]) + ".mp3"
  {
    Sanitize.CleanIsFixpoint(ToStr(rec["title"]) + ".mp3");
  }

  /** An empty title loses the dot with the leading dots: the file is
      named `mp3`, without an extension. */
  lemma EmptyTitle(rec: Record)
    requires "title" in rec && rec["title"] == Str("")
    ensures OutputFilename(rec) == "mp3"
  {
    assert ToStr(rec["title"]) + ".mp3" == ".mp3";
    Sanitize.ExtensionOnly();
  }
}
