/** `YouTubeAudioScraper.add_metadata`: the file's old ID3 tag is removed,
    a new tag is filled frame by frame from the record and saved as ID3v2.3.

    Frames (ID3v2.3.0): TIT2 title, TPE1 lead artist, TALB album and TYER
    year are text frames (section 4.2.1); TXXX user-defined text (section
    4.2.2) carries "View Count" and "Duration"; WOAR (section 4.3.1) the
    video's page; COMM (section 4.11) the description, language "eng" and
    an empty content descriptor; APIC (section 4.15) the cover, MIME type
    "image/jpeg", picture type 3 (front cover), empty description. Every
    text frame is created with text encoding 3.

    An ID3 tag is a map from hash key (the frame id, plus the description
    for TXXX and APIC, the URL for WOAR, description and language for
    COMM) to frame. `add_metadata` never adds two frames with the same key,
    so what mutagen does with a second frame under a key never arises. */
module Tags {
  import opened Wrappers
  import opened Values
  import Duration
  import Cover

  datatype TextId = TIT2 | TPE1 | TALB | TYER

  datatype Frame =
    | TextFrame(id: TextId, text: string)
    | UserText(desc: string, text: string)
    | Webpage(url: string)
    | Comment(lang: string, desc: string, text: string)
    | Picture(mime: string, picType: nat, desc: string, data: Cover.Bytes)

  /** A frame's hash key, kept as its parts: the frame id, with the
      description for TXXX and APIC, the URL for WOAR, and description and
      language for COMM. Two frames share a key exactly when their key
      strings ("TIT2", UserTextKey("View Count"), CommentKey("", "eng"), ...) are equal. */
  datatype Key =
    | TextKey(id: TextId)
    | UserTextKey(desc: string)
    | WebpageKey(url: string)
    | CommentKey(desc: string, lang: string)
    | PictureKey(desc: string)

  /** The key under which the tag stores the frame. */
  function HashKey(f: Frame): Key
  {
    match f
    case TextFrame(id, _) => TextKey(id)
    case UserText(desc, _) => UserTextKey(desc)
    case Webpage(url) => WebpageKey(url)
    case Comment(lang, desc, _) => CommentKey(desc, lang)
    case Picture(_, _, desc, _) => PictureKey(desc)
  }

  type Tag = map<Key, Frame>

  /** The ID3 tag being built. */
  class Id3 {
    var frames: Tag

    constructor()
      ensures frames == map[]
    {
      frames := map[];
    }

    /** `id3.add(frame)`. */
    method Add(f: Frame)
      modifies this
      ensures frames == old(frames)[HashKey(f) := f]
    {
      frames := frames[HashKey(f) := f];
    }

    /** `id3.save(path, v2_version=3)`: the file's tag becomes this one;
        the audio is not touched. */
    method Save(file: Mp3File)
      modifies file
      ensures file.tag == Some(frames) && file.audio == old(file.audio)
    {
      file.tag := Some(frames);
    }
  }

  /** An MP3 file: its audio frames and its ID3 tag, if it has one. */
  class Mp3File {
    var audio: Cover.Bytes
    var tag: Option<Tag>

    constructor(audio: Cover.Bytes, tag: Option<Tag>)
      ensures this.audio == audio && this.tag == tag
    {
      this.audio := audio;
      this.tag := tag;
    }
  }

  /** `ID3(path).delete()`, with any failure (a file without a tag)
      ignored: afterwards the file has no tag. */
  method DeleteTag(file: Mp3File)
    modifies file
    ensures file.tag == None && file.audio == old(file.audio)
  {
    file.tag := None;
  }

  // ---------------------------------------------------------------------
  // Which frames a record yields

  /** Why `add_metadata` raises RuntimeError: a frame given a text value
      that is not a string, a duration that is not a number, or (while
      logging, after the tag is saved) a view count that is a string,
      which the `,` format refuses. */
  datatype MetadataError = NotText(field: string) | DurationNotNumber | ViewCountNotNumber

  /** `metadata.get("album") or metadata.get("artist", "Unknown")`. */
  function AlbumValue(rec: Record): Value
  {
    if Truthy(Get(rec, "album")) then rec["album"] else GetOr(rec, "artist", Str("Unknown"))
  }

  /** A field's value that is truthy but not a string: the frame
      constructor refuses it. */
  predicate BadText(v: Value)
  {
    Truthy(v) && !v.Str?
  }

  /** The first failure while building the four text frames. */
  function TextFault(rec: Record): (r: Option<MetadataError>)
    ensures r.None? <==>
      && !BadText(Get(rec, "title")) && !BadText(Get(rec, "artist"))
      && !BadText(AlbumValue(rec)) && !BadText(Get(rec, "year"))
  {
    if BadText(Get(rec, "title")) then Some(NotText("title"))
    else if BadText(Get(rec, "artist")) then Some(NotText("artist"))
    else if BadText(AlbumValue(rec)) then Some(NotText("album"))
    else if BadText(Get(rec, "year")) then Some(NotText("year"))
    else None
  }

  /** The first failure while building the other frames. */
  function OtherFault(rec: Record): (r: Option<MetadataError>)
    ensures r.None? <==>
      && !BadText(Get(rec, "description")) && !BadText(Get(rec, "video_url"))
      && !(Truthy(Get(rec, "duration")) && !Get(rec, "duration").Int?)
  {
    if BadText(Get(rec, "description")) then Some(NotText("description"))
    else if BadText(Get(rec, "video_url")) then Some(NotText("video_url"))
    else if Truthy(Get(rec, "duration")) && !Get(rec, "duration").Int? then Some(DurationNotNumber)
    else None
  }

  /** The first failure while building the frames, in the order they are
      built. */
  function Fault(rec: Record): Option<MetadataError>
  {
    if TextFault(rec).Some? then TextFault(rec) else OtherFault(rec)
  }

  function TextOf(v: Value, id: TextId): Option<Frame>
  {
    if Truthy(v) && v.Str? then Some(TextFrame(id, v.s)) else None
  }

  function CommentOf(v: Value): Option<Frame>
  {
    if Truthy(v) && v.Str? then Some(Comment("eng", "", v.s)) else None
  }

  function WebpageOf(v: Value): Option<Frame>
  {
    if Truthy(v) && v.Str? then Some(Webpage(v.s)) else None
  }

  function ViewsOf(v: Value): Option<Frame>
  {
    if Truthy(v) then Some(UserText("View Count", ToStr(v))) else None
  }

  function DurationOf(v: Value): Option<Frame>
  {
    if Truthy(v) && v.Int? then Some(UserText("Duration", Duration.FormatDuration(v.i))) else None
  }

  /** The tag after adding an optional frame. */
  function Put(t: Tag, f: Option<Frame>): Tag
  {
    if f.Some? then t[HashKey(f.value) := f.value] else t
  }

  /** The text frames, added in order to `t`. */
  function WithText(t: Tag, rec: Record): Tag
  {
    Put(Put(Put(Put(t, TextOf(Get(rec, "title"), TIT2)), TextOf(Get(rec, "artist"), TPE1)),
      TextOf(AlbumValue(rec), TALB)), TextOf(Get(rec, "year"), TYER))
  }

  /** The other frames, added in order to `t`. */
  function WithOthers(t: Tag, rec: Record): Tag
  {
    Put(Put(Put(Put(t, CommentOf(Get(rec, "description"))), WebpageOf(Get(rec, "video_url"))),
      ViewsOf(Get(rec, "view_count"))), DurationOf(Get(rec, "duration")))
  }

  /** Every frame taken from the record, in the order they are added. */
  function RecordTag(rec: Record): Tag
  {
    WithOthers(WithText(map[], rec), rec)
  }

  const CoverKey: Key := PictureKey("")

  /** The cover frame made from a downloaded image. */
  function CoverFrame(data: Cover.Bytes): (r: Frame)
    ensures HashKey(r) == CoverKey
  {
    Picture("image/jpeg", 3, "", data)
  }

  /** What the cover step downloads and which URLs it requests: nothing for
      a falsy thumbnail, and nothing for one that is not a string (its
      `replace` raises, and the warning is logged). */
  function CoverPlan(rec: Record, fetch: string -> Option<Cover.Bytes>): (Option<Cover.Bytes>, seq<string>)
  {
    var t := Get(rec, "thumbnail");
    if !(Truthy(t) && t.Str?) then (None, [])
    else
      var urls := Cover.Candidates(t.s);
      match Cover.FirstHit(urls, fetch, 0)
      case Some(k) => (Some(fetch(urls[k]).value), urls[..k + 1])
      case None => (None, urls)
  }

  function WithCover(t: Tag, cover: Option<Cover.Bytes>): Tag
  {
    if cover.Some? then t[CoverKey := CoverFrame(cover.value)] else t
  }

  // ---------------------------------------------------------------------
  // The operations

  /** `_add_cover_art(id3, url)`: on success the APIC frame is added;
      without a hit it raises, which the caller logs as a warning. */
  method AddCoverArt(id3: Id3, url: string, fetch: string -> Option<Cover.Bytes>) returns (added: bool, requested: seq<string>)
    modifies id3
    ensures var urls := Cover.Candidates(url);
      match Cover.FirstHit(urls, fetch, 0)
      case Some(k) =>
        && added && requested == urls[..k + 1]
        && id3.frames == old(id3.frames)[CoverKey := CoverFrame(fetch(urls[k]).value)]
      case None => !added && requested == urls && id3.frames == old(id3.frames)
  {
    var content;
    content, requested := Cover.FetchCover(url, fetch);
    if content == [] {
      return false, requested;
    }
    id3.Add(CoverFrame(content));
    added := true;
  }

  /** The title, artist, album and year steps of `add_metadata`. */
  method AddTextFrames(id3: Id3, rec: Record) returns (fault: Option<MetadataError>)
    modifies id3
    ensures fault == TextFault(rec)
    ensures fault.None? ==> id3.frames == WithText(old(id3.frames), rec)
  {
    var title := Get(rec, "title");
    if Truthy(title) {
      if !title.Str? {
        return Some(NotText("title"));
      }
      id3.Add(TextFrame(TIT2, title.s));
    }
    var artist := Get(rec, "artist");
    if Truthy(artist) {
      if !artist.Str? {
        return Some(NotText("artist"));
      }
      id3.Add(TextFrame(TPE1, artist.s));
    }
    var album := if Truthy(Get(rec, "album")) then rec["album"] else GetOr(rec, "artist", Str("Unknown"));
    if Truthy(album) {
      if !album.Str? {
        return Some(NotText("album"));
      }
      id3.Add(TextFrame(TALB, album.s));
    }
    var year := Get(rec, "year");
    if Truthy(year) {
      if !year.Str? {
        return Some(NotText("year"));
      }
      id3.Add(TextFrame(TYER, year.s));
    }
    fault := None;
  }

  /** The description, video URL, view count and duration steps of
      `add_metadata`. */
  method AddOtherFrames(id3: Id3, rec: Record) returns (fault: Option<MetadataError>)
    modifies id3
    ensures fault == OtherFault(rec)
    ensures fault.None? ==> id3.frames == WithOthers(old(id3.frames), rec)
  {
    var description := Get(rec, "description");
    if Truthy(description) {
      if !description.Str? {
        return Some(NotText("description"));
      }
      id3.Add(Comment("eng", "", description.s));
    }
    var videoUrl := Get(rec, "video_url");
    if Truthy(videoUrl) {
      if !videoUrl.Str? {
        return Some(NotText("video_url"));
      }
      id3.Add(Webpage(videoUrl.s));
    }
    var views := Get(rec, "view_count");
    if Truthy(views) {
      id3.Add(UserText("View Count", ToStr(views)));
    }
    var duration := Get(rec, "duration");
    if Truthy(duration) {
      if !duration.Int? {
        return Some(DurationNotNumber);
      }
      id3.Add(UserText("Duration", Duration.FormatDuration(duration.i)));
    }
    fault := None;
  }

  /** `add_metadata(path, metadata)`: returns Ok(whether a cover was
      added) or the error of the RuntimeError raised, and the thumbnail
      URLs requested. A failure while building the frames leaves the file
      without any tag. */
  method AddMetadata(file: Mp3File, rec: Record, fetch: string -> Option<Cover.Bytes>)
    returns (outcome: Result<bool, MetadataError>, requested: seq<string>)
    modifies file
    ensures file.audio == old(file.audio)
    ensures Fault(rec).Some? ==> outcome == Err(Fault(rec).value) && file.tag == None && requested == []
    ensures Fault(rec).None? ==>
      var (cover, urls) := CoverPlan(rec, fetch);
      var views := Get(rec, "view_count");
      && requested == urls
      && file.tag == Some(WithCover(RecordTag(rec), cover))
      && outcome == (if Truthy(views) && views.Str? then Err(ViewCountNotNumber) else Ok(cover.Some?))
  {
    DeleteTag(file);
    var id3 := new Id3();
    requested := [];
    var fault := AddTextFrames(id3, rec);
    if fault.Some? {
      return Err(fault.value), [];
    }
    fault := AddOtherFrames(id3, rec);
    if fault.Some? {
      return Err(fault.value), [];
    }
    assert id3.frames == RecordTag(rec);

    var coverAdded := false;
    var thumbnail := Get(rec, "thumbnail");
    if Truthy(thumbnail) && thumbnail.Str? {
      coverAdded, requested := AddCoverArt(id3, thumbnail.s, fetch);
    }
    id3.Save(file);

    var views := Get(rec, "view_count");
    if Truthy(views) && views.Str? {
      return Err(ViewCountNotNumber), requested;
    }
    outcome := Ok(coverAdded);
  }

  // ---------------------------------------------------------------------
  // What the saved tag holds

  /** The four text frames: each is present exactly when its value is
      truthy, and holds that value. */
  lemma TextFramesOfRecord(rec: Record)
    requires TextFault(rec).None?
    ensures var m := WithText(map[], rec);
      && m.Keys <= TextKeys
      && (TextKey(TIT2) in m <==> Truthy(Get(rec, "title")))
      && (TextKey(TIT2) in m ==> m[TextKey(TIT2)] == TextFrame(TIT2, Get(rec, "title").s))
      && (TextKey(TPE1) in m <==> Truthy(Get(rec, "artist")))
      && (TextKey(TPE1) in m ==> m[TextKey(TPE1)] == TextFrame(TPE1, Get(rec, "artist").s))
      && (TextKey(TALB) in m <==> Truthy(AlbumValue(rec)))
      && (TextKey(TALB) in m ==> m[TextKey(TALB)] == TextFrame(TALB, AlbumValue(rec).s))
      && (TextKey(TYER) in m <==> Truthy(Get(rec, "year")))
      && (TextKey(TYER) in m ==> m[TextKey(TYER)] == TextFrame(TYER, Get(rec, "year").s))
  {
  }

  /** The album frame: the album when it is truthy; otherwise the artist,
      or "Unknown" only when the record has no artist key at all. A record
      whose artist is present but empty or None gets no album frame. */
  lemma AlbumFallback(rec: Record)
    requires TextFault(rec).None?
    ensures var m := WithText(map[], rec);
      && (Truthy(Get(rec, "album")) ==> m[TextKey(TALB)].text == rec["album"].s)
      && (!Truthy(Get(rec, "album")) && "artist" !in rec ==> m[TextKey(TALB)].text == "Unknown")
      && (!Truthy(Get(rec, "album")) && Truthy(Get(rec, "artist")) ==> m[TextKey(TALB)].text == rec["artist"].s)
      && (!Truthy(Get(rec, "album")) && "artist" in rec && !Truthy(rec["artist"]) ==> TextKey(TALB) !in m)
  {
    TextFramesOfRecord(rec);
  }

  const TextKeys: set<Key> := {TextKey(TIT2), TextKey(TPE1), TextKey(TALB), TextKey(TYER)}

  /** The record's frames added after the text frames, one stage at a
      time. */
  lemma OtherStages(rec: Record) returns (m1: Tag, m2: Tag, m3: Tag)
    ensures m1 == Put(WithText(map[], rec), CommentOf(Get(rec, "description")))
    ensures m2 == Put(m1, WebpageOf(Get(rec, "video_url")))
    ensures m3 == Put(m2, ViewsOf(Get(rec, "view_count")))
    ensures RecordTag(rec) == Put(m3, DurationOf(Get(rec, "duration")))
  {
    m1 := Put(WithText(map[], rec), CommentOf(Get(rec, "description")));
    m2 := Put(m1, WebpageOf(Get(rec, "video_url")));
    m3 := Put(m2, ViewsOf(Get(rec, "view_count")));
  }

  /** The tag taken from the record has no frame besides the four text
      frames, the comment, the two TXXX frames and the URL frame. */
  lemma RecordTagKeys(rec: Record)
    requires Fault(rec).None?
    ensures forall k :: k in RecordTag(rec) ==>
      || k in TextKeys + {CommentKey("", "eng"), UserTextKey("View Count"), UserTextKey("Duration")}
      || (Get(rec, "video_url").Str? && k == WebpageKey(Get(rec, "video_url").s))
  {
    assert WithText(map[], rec).Keys <= TextKeys by {
      TextFramesOfRecord(rec);
    }
    var m1, m2, m3 := OtherStages(rec);
  }

  /** The frames added after the text frames leave the text frames as
      they were. */
  lemma TextFramesKept(rec: Record)
    requires Fault(rec).None?
    ensures forall k :: k in TextKeys ==>
      (k in RecordTag(rec) <==> k in WithText(map[], rec)) && (k in RecordTag(rec) ==> RecordTag(rec)[k] == WithText(map[], rec)[k])
  {
    var m1, m2, m3 := OtherStages(rec);
    forall k | k in TextKeys
      ensures (k in RecordTag(rec) <==> k in WithText(map[], rec)) && (k in RecordTag(rec) ==> RecordTag(rec)[k] == WithText(map[], rec)[k])
    {
      PutKeepsTextKey(WithText(map[], rec), CommentOf(Get(rec, "description")), k);
      PutKeepsTextKey(m1, WebpageOf(Get(rec, "video_url")), k);
      PutKeepsTextKey(m2, ViewsOf(Get(rec, "view_count")), k);
      PutKeepsTextKey(m3, DurationOf(Get(rec, "duration")), k);
    }
  }

  /** Adding a frame other than a text frame leaves a text key as it was. */
  lemma PutKeepsTextKey(t: Tag, f: Option<Frame>, k: Key)
    requires k.TextKey? && (f.Some? ==> !f.value.TextFrame?)
    ensures k in Put(t, f) <==> k in t
    ensures k in t ==> Put(t, f)[k] == t[k]
  {
  }

  /** The comment frame is present exactly when the description is truthy
      and holds the description. */
  lemma CommentFrameOfRecord(rec: Record)
    requires Fault(rec).None?
    ensures CommentKey("", "eng") in RecordTag(rec) <==> Truthy(Get(rec, "description"))
    ensures CommentKey("", "eng") in RecordTag(rec) ==> RecordTag(rec)[CommentKey("", "eng")] == Comment("eng", "", Get(rec, "description").s)
  {
    assert CommentKey("", "eng") !in WithText(map[], rec) by {
      TextFramesOfRecord(rec);
    }
    var m1, m2, m3 := OtherStages(rec);
  }

  /** The URL frame is present exactly when the video URL is truthy and
      holds the URL. */
  lemma WebpageFrameOfRecord(rec: Record)
    requires Fault(rec).None?
    ensures Truthy(Get(rec, "video_url")) <==> Get(rec, "video_url").Str? && WebpageKey(Get(rec, "video_url").s) in RecordTag(rec)
    ensures Truthy(Get(rec, "video_url")) ==> RecordTag(rec)[WebpageKey(Get(rec, "video_url").s)] == Webpage(Get(rec, "video_url").s)
  {
    var v := Get(rec, "video_url");
    assert v.Str? ==> WebpageKey(v.s) !in WithText(map[], rec) by {
      TextFramesOfRecord(rec);
    }
    var m1, m2, m3 := OtherStages(rec);
  }

  /** The view-count frame is present exactly when the view count is
      truthy and holds it as `str()` prints it. */
  lemma ViewsFrameOfRecord(rec: Record)
    requires Fault(rec).None?
    ensures UserTextKey("View Count") in RecordTag(rec) <==> Truthy(Get(rec, "view_count"))
    ensures UserTextKey("View Count") in RecordTag(rec) ==> RecordTag(rec)[UserTextKey("View Count")] == UserText("View Count", ToStr(Get(rec, "view_count")))
  {
    assert UserTextKey("View Count") !in WithText(map[], rec) by {
      TextFramesOfRecord(rec);
    }
    assert "View Count" != "Duration";
    var m1, m2, m3 := OtherStages(rec);
  }

  /** The duration frame is present exactly when the duration is truthy
      and holds it formatted. */
  lemma DurationFrameOfRecord(rec: Record)
    requires Fault(rec).None?
    ensures UserTextKey("Duration") in RecordTag(rec) <==> Truthy(Get(rec, "duration"))
    ensures UserTextKey("Duration") in RecordTag(rec) ==>
      RecordTag(rec)[UserTextKey("Duration")] == UserText("Duration", Duration.FormatDuration(Get(rec, "duration").i))
  {
    assert UserTextKey("Duration") !in WithText(map[], rec) by {
      TextFramesOfRecord(rec);
    }
    assert "View Count" != "Duration";
    var m1, m2, m3 := OtherStages(rec);
  }

  /** The tag keeps every record frame when a cover is added: the cover has
      a key of its own. */
  lemma CoverKeepsRecordFrames(rec: Record, data: Cover.Bytes)
    requires Fault(rec).None?
    ensures var m := WithCover(RecordTag(rec), Some(data));
      && m.Keys == RecordTag(rec).Keys + {CoverKey}
      && m[CoverKey] == Picture("image/jpeg", 3, "", data)
      && forall k :: k in RecordTag(rec) ==> m[k] == RecordTag(rec)[k]
  {
    RecordTagKeys(rec);
    assert CoverKey !in RecordTag(rec);
  }

  /** A view count of 0 is falsy and leaves no TXXX frame; a negative
      duration is written as Python's floor division gives it. */
  lemma ZeroCountsOmitted(rec: Record)
    requires Fault(rec).None?
    requires Get(rec, "view_count") == Int(0) && Get(rec, "duration") == Int(-1)
    ensures UserTextKey("View Count") !in RecordTag(rec)
    ensures UserTextKey("Duration") in RecordTag(rec) && RecordTag(rec)[UserTextKey("Duration")] == UserText("Duration", "59:59")
  {
    ViewsFrameOfRecord(rec);
    DurationFrameOfRecord(rec);
    Duration.ExampleNegative();
  }
}
