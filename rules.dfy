/** `MetadataEditor.apply_tagging_rules`: a fixed sequence of rewrites over a
    copy of the record — album source, artist prefix, title suffix,
    description template, year extraction — each seeing the output of the
    ones before it. The record is a value here, so the caller's record can
    never be changed by the rules. */
module Rules {
  import opened Wrappers
  import opened Text
  import opened Values
  import opened Template
  import opened YearScan

  /** The rules document: a key that is absent is a rule that is off. */
  datatype RuleSet = RuleSet(
    albumSource: Option<string>,
    artistPrefix: Option<string>,
    titleSuffix: Option<string>,
    descriptionTemplate: Option<string>,
    autoExtractYear: Option<bool>)

  /** The document `--save-rules` writes. */
  function ShippedRules(): RuleSet
  {
    RuleSet(Some("artist"), Some(""), Some(""), Some("{artist} - {title}"), Some(false))
  }

  /** An exception that escapes `apply_tagging_rules`. */
  datatype RuleError =
    /** TypeError: `str + int` on a field holding a number, or a regex
        search over one. */
    | TypeMismatch(field: string)
    /** ValueError or IndexError raised by `str.format`. */
    | TemplateMalformed
    /** A template field with syntax the model does not interpret. */
    | TemplateUnsupported

  /** The warning logged for a template naming an unknown field. */
  datatype Warning = UnknownTemplateField(name: string)

  datatype Applied = Applied(record: Record, warnings: seq<Warning>)

  /** `a` and `b` agree on every key outside `keys`. */
  ghost predicate SameOutside(a: Record, b: Record, keys: set<string>)
  {
    forall k :: k !in keys ==> (k in a <==> k in b) && Get(a, k) == Get(b, k)
  }

  // ---------------------------------------------------------------------
  // The five steps

  /** album_source: "artist", "title" or "custom:<album>". */
  function ApplyAlbumSource(rec: Record, rule: Option<string>): (r: Record)
    ensures SameOutside(r, rec, {"album"})
  {
    match rule
    case None => rec
    case Some(source) =>
      if source == "artist" then rec["album" := GetOr(rec, "artist", Str("Unknown"))]
      else if source == "title" then rec["album" := GetOr(rec, "title", Str("Unknown"))]
      else if |source| >= 7 && source[..7] == "custom:" then rec["album" := Str(source[7..])]
      else rec
  }

  /** artist_prefix: prepended when the artist is truthy. */
  function ApplyArtistPrefix(rec: Record, prefix: Option<string>): (r: Result<Record, RuleError>)
    ensures r.Ok? ==> SameOutside(r.value, rec, {"artist"})
  {
    if prefix.Some? && Truthy(Get(rec, "artist")) then
      match rec["artist"]
      case Str(a) => Ok(rec["artist" := Str(prefix.value + a)])
      case _ => Err(TypeMismatch("artist"))
    else Ok(rec)
  }

  /** title_suffix: appended when the title is truthy. */
  function ApplyTitleSuffix(rec: Record, suffix: Option<string>): (r: Result<Record, RuleError>)
    ensures r.Ok? ==> SameOutside(r.value, rec, {"title"})
  {
    if suffix.Some? && Truthy(Get(rec, "title")) then
      match rec["title"]
      case Str(t) => Ok(rec["title" := Str(t + suffix.value)])
      case _ => Err(TypeMismatch("title"))
    else Ok(rec)
  }

  /** description_template: formatted over the record as it is now; an
      unknown field is logged and leaves the description alone. */
  function ApplyDescriptionTemplate(rec: Record, template: Option<string>): (r: Result<Applied, RuleError>)
    ensures r.Ok? ==> SameOutside(r.value.record, rec, {"description"})
  {
    match template
    case None => Ok(Applied(rec, []))
    case Some(t) =>
      match Format(t, rec)
      case Formatted(text) => Ok(Applied(rec["description" := Str(text)], []))
      case MissingKey(name) => Ok(Applied(rec, [UnknownTemplateField(name)]))
      case Malformed => Err(TemplateMalformed)
      case Unsupported => Err(TemplateUnsupported)
  }

  /** auto_extract_year: only when the rule is on, the year is falsy and
      the description truthy. */
  function ApplyYearExtraction(rec: Record, enabled: Option<bool>): (r: Result<Record, RuleError>)
    ensures r.Ok? ==> SameOutside(r.value, rec, {"year"})
  {
    if enabled == Some(true) && !Truthy(Get(rec, "year")) && Truthy(Get(rec, "description")) then
      match rec["description"]
      case Str(d) =>
        (match FindYear(d)
         case Some(y) => Ok(rec["year" := Str(y)])
         case None => Ok(rec))
      case _ => Err(TypeMismatch("description"))
    else Ok(rec)
  }

  // ---------------------------------------------------------------------
  // The engine

  /** The record after the album, prefix and suffix steps: what the
      description template is formatted over. */
  function BeforeTemplate(rec: Record, rules: RuleSet): Result<Record, RuleError>
  {
    match ApplyArtistPrefix(ApplyAlbumSource(rec, rules.albumSource), rules.artistPrefix)
    case Err(e) => Err(e)
    case Ok(r2) => ApplyTitleSuffix(r2, rules.titleSuffix)
  }

  /** The record after the description template, with the warnings it
      logged. */
  function AfterTemplate(rec: Record, rules: RuleSet): Result<Applied, RuleError>
  {
    match BeforeTemplate(rec, rules)
    case Err(e) => Err(e)
    case Ok(r3) => ApplyDescriptionTemplate(r3, rules.descriptionTemplate)
  }

  /** `apply_tagging_rules(record, rules)`. */
  function ApplyRules(rec: Record, rules: RuleSet): Result<Applied, RuleError>
  {
    match AfterTemplate(rec, rules)
    case Err(e) => Err(e)
    case Ok(Applied(r4, warnings)) =>
      match ApplyYearExtraction(r4, rules.autoExtractYear)
      case Err(e) => Err(e)
      case Ok(r5) => Ok(Applied(r5, warnings))
  }

  // ---------------------------------------------------------------------
  // What the engine promises

  /** Keys no rule writes are carried over untouched. */
  lemma OtherKeysUnchanged(rec: Record, rules: RuleSet, k: string)
    requires ApplyRules(rec, rules).Ok?
    requires k !in {"album", "artist", "title", "description", "year"}
    ensures var out := ApplyRules(rec, rules).value.record;
      (k in out <==> k in rec) && Get(out, k) == Get(rec, k)
  {
  }

  /** A rule that is absent is a no-op: without a prefix the artist, without
      a suffix the title, and without a template the description come out
      as they went in, and no warning is logged. */
  lemma AbsentRulesKeepTheirFields(rec: Record, rules: RuleSet)
    requires ApplyRules(rec, rules).Ok?
    ensures var out := ApplyRules(rec, rules).value;
      rules.artistPrefix == None ==>
        ("artist" in out.record <==> "artist" in rec) && Get(out.record, "artist") == Get(rec, "artist")
    ensures var out := ApplyRules(rec, rules).value;
      rules.titleSuffix == None ==>
        ("title" in out.record <==> "title" in rec) && Get(out.record, "title") == Get(rec, "title")
    ensures var out := ApplyRules(rec, rules).value;
      rules.descriptionTemplate == None ==>
        ("description" in out.record <==> "description" in rec)
        && Get(out.record, "description") == Get(rec, "description") && out.warnings == []
  {
    var r1 := ApplyAlbumSource(rec, rules.albumSource);
    var r2 := ApplyArtistPrefix(r1, rules.artistPrefix);
    assert r2.Ok?;
    var r3 := ApplyTitleSuffix(r2.value, rules.titleSuffix);
    assert r3.Ok?;
  }

  /** album_source: "artist" copies the artist as it was before the prefix
      ("Unknown" only when the key is absent), "title" likewise the title
      before the suffix, "custom:X" writes X, and anything else leaves the
      album as it was. */
  lemma AlbumSourceOutcome(rec: Record, rules: RuleSet)
    requires ApplyRules(rec, rules).Ok?
    ensures rules.albumSource == Some("artist") ==>
      ApplyRules(rec, rules).value.record["album"] == (if "artist" in rec then rec["artist"] else Str("Unknown"))
    ensures rules.albumSource == Some("title") ==>
      ApplyRules(rec, rules).value.record["album"] == (if "title" in rec then rec["title"] else Str("Unknown"))
    ensures (exists x :: rules.albumSource == Some("custom:" + x)) ==>
      ApplyRules(rec, rules).value.record["album"] == Str(rules.albumSource.value[7..])
    ensures (rules.albumSource == None || (rules.albumSource.value != "artist" && rules.albumSource.value != "title"
              && !(exists x :: rules.albumSource.value == "custom:" + x))) ==>
      var out := ApplyRules(rec, rules).value.record;
      ("album" in out <==> "album" in rec) && Get(out, "album") == Get(rec, "album")
  {
    var r1 := ApplyAlbumSource(rec, rules.albumSource);
    var out := ApplyRules(rec, rules).value.record;
    assert ("album" in out <==> "album" in r1) && Get(out, "album") == Get(r1, "album");
    if rules.albumSource.Some? {
      var src := rules.albumSource.value;
      if |src| >= 7 && src[..7] == "custom:" {
        assert src == "custom:" + src[7..];
        assert src != "artist" && src != "title" by {
          assert |src| >= 7;
        }
      }
    }
  }

  /** artist_prefix is applied exactly when the artist is truthy; a truthy
      artist that is not a string makes the engine fail. */
  lemma ArtistPrefixOutcome(rec: Record, rules: RuleSet)
    requires rules.artistPrefix.Some?
    ensures var artist := Get(rec, "artist");
      (artist.Int? && Truthy(artist)) ==> ApplyRules(rec, rules) == Err(TypeMismatch("artist"))
    ensures ApplyRules(rec, rules).Ok? ==>
      var out := ApplyRules(rec, rules).value.record;
      match Get(rec, "artist")
      case Str(a) => if a != "" then out["artist"] == Str(rules.artistPrefix.value + a)
                     else Get(out, "artist") == Str(a)
      case _ => ("artist" in out <==> "artist" in rec) && Get(out, "artist") == Get(rec, "artist")
  {
    var r1 := ApplyAlbumSource(rec, rules.albumSource);
    assert Get(r1, "artist") == Get(rec, "artist") && ("artist" in r1 <==> "artist" in rec);
  }

  /** title_suffix is applied exactly when the title is truthy, after the
      album source has copied the title. */
  lemma TitleSuffixOutcome(rec: Record, rules: RuleSet)
    requires rules.titleSuffix.Some?
    ensures ApplyRules(rec, rules).Ok? ==>
      var out := ApplyRules(rec, rules).value.record;
      match Get(rec, "title")
      case Str(t) => if t != "" then out["title"] == Str(t + rules.titleSuffix.value)
                     else Get(out, "title") == Str(t)
      case _ => ("title" in out <==> "title" in rec) && Get(out, "title") == Get(rec, "title")
  {
    var r1 := ApplyAlbumSource(rec, rules.albumSource);
    assert Get(r1, "title") == Get(rec, "title") && ("title" in r1 <==> "title" in rec);
    var r2 := ApplyArtistPrefix(r1, rules.artistPrefix);
    if r2.Ok? {
      assert Get(r2.value, "title") == Get(rec, "title") && ("title" in r2.value <==> "title" in rec);
    }
  }

  /** description_template is formatted over the record the first three
      steps produced; a KeyError leaves the description as it was and logs
      exactly one warning naming the field; any other format error makes
      the engine fail. The year step that follows never touches the
      description or the warnings. */
  lemma DescriptionTemplateOutcome(rec: Record, rules: RuleSet, t: string)
    requires rules.descriptionTemplate == Some(t)
    requires BeforeTemplate(rec, rules).Ok?
    ensures var mid := BeforeTemplate(rec, rules).value;
      var after := AfterTemplate(rec, rules);
      match Format(t, mid)
      case Formatted(text) => after == Ok(Applied(mid["description" := Str(text)], []))
      case MissingKey(name) => after == Ok(Applied(mid, [UnknownTemplateField(name)])) &&
        ("description" in mid <==> "description" in rec) &&
        Get(mid, "description") == Get(rec, "description")
      case Malformed => after == Err(TemplateMalformed)
      case Unsupported => after == Err(TemplateUnsupported)
    ensures ApplyRules(rec, rules).Ok? ==>
      var out := ApplyRules(rec, rules).value;
      var after := AfterTemplate(rec, rules).value;
      out.warnings == after.warnings &&
      ("description" in out.record <==> "description" in after.record) &&
      Get(out.record, "description") == Get(after.record, "description")
  {
    var r1 := ApplyAlbumSource(rec, rules.albumSource);
    var r2 := ApplyArtistPrefix(r1, rules.artistPrefix).value;
    assert Get(r2, "description") == Get(rec, "description");
    assert "description" in r2 <==> "description" in rec;
  }

  /** auto_extract_year fires only when the rule is on, the year is falsy
      and the description truthy; it then takes the first year token of
      the description, and otherwise leaves the year as it was. */
  lemma YearExtractionOutcome(rec: Record, rules: RuleSet)
    requires AfterTemplate(rec, rules).Ok?
    ensures var mid := AfterTemplate(rec, rules).value.record;
      var out := ApplyRules(rec, rules);
      if rules.autoExtractYear == Some(true) && !Truthy(Get(mid, "year")) && Truthy(Get(mid, "description")) then
        match mid["description"]
        case Str(d) => out.Ok? &&
          (match FindYear(d)
           case Some(y) => out.value.record == mid["year" := Str(y)]
           case None => out.value.record == mid)
        case _ => out == Err(TypeMismatch("description"))
      else out.Ok? && out.value.record == mid
  {
  }

  lemma ArtistAndTitleArePlain()
    ensures IsPlainName("artist") && IsPlainName("title")
  {
    assert IsAscii("artist"[0]) && !IsDigit("artist"[0]);
    assert IsAscii("title"[0]) && !IsDigit("title"[0]);
  }

  lemma ShippedTemplateShape()
    ensures "{artist} - {title}" == "{" + "artist" + "} - {" + "title" + "}"
  {
  }

  /** `"{artist} - {title}".format(**rec)`. */
  lemma ArtistTitleTemplate(rec: Record)
    requires "artist" in rec && "title" in rec
    ensures Format("{artist} - {title}", rec) == Formatted(ToStr(rec["artist"]) + " - " + ToStr(rec["title"]))
  {
    ArtistAndTitleArePlain();
    TwoFieldTemplate("artist", "title", rec);
    ShippedTemplateShape();
  }

  /** The rules file `--save-rules` writes, applied to a record with title
      b and artist a: album a, artist a, title b, description "a - b" (for
      a = "A", b = "B": "A - B"). */
  lemma ShippedRulesExample(a: string, b: string)
    ensures var rec := map["title" := Str(b), "artist" := Str(a)];
      ApplyRules(rec, ShippedRules()) == Ok(Applied(
        map["title" := Str(b), "artist" := Str(a), "album" := Str(a), "description" := Str(a + " - " + b)], []))
  {
    var rec := map["title" := Str(b), "artist" := Str(a)];
    var rules := ShippedRules();
    var mid := rec["album" := Str(a)];
    assert ApplyAlbumSource(rec, rules.albumSource) == mid;
    assert "" + a == a && b + "" == b;
    assert mid["artist" := Str("" + a)] == mid;
    assert ApplyArtistPrefix(mid, rules.artistPrefix) == Ok(mid);
    assert mid["title" := Str(b + "")] == mid;
    assert ApplyTitleSuffix(mid, rules.titleSuffix) == Ok(mid);
    assert BeforeTemplate(rec, rules) == Ok(mid);
    ArtistTitleTemplate(mid);
    assert AfterTemplate(rec, rules) == Ok(Applied(mid["description" := Str(a + " - " + b)], []));
  }

  /** The template sees the artist after the prefix, while the album,
      chosen first, keeps the artist from before it. */
  lemma PrefixBeforeTemplateExample(p: string, a: string, b: string)
    requires a != ""
    ensures var rec := map["title" := Str(b), "artist" := Str(a)];
      var rules := RuleSet(Some("artist"), Some(p), None, Some("{artist} - {title}"), None);
      ApplyRules(rec, rules) == Ok(Applied(
        map["title" := Str(b), "artist" := Str(p + a), "album" := Str(a), "description" := Str(p + a + " - " + b)], []))
  {
    var rec := map["title" := Str(b), "artist" := Str(a)];
    var rules := RuleSet(Some("artist"), Some(p), None, Some("{artist} - {title}"), None);
    var r1 := rec["album" := Str(a)];
    var mid := r1["artist" := Str(p + a)];
    var out := mid["description" := Str(p + a + " - " + b)];
    assert BeforeTemplate(rec, rules) == Ok(mid) by {
      assert ApplyAlbumSource(rec, rules.albumSource) == r1;
      assert ApplyArtistPrefix(r1, rules.artistPrefix) == Ok(mid);
    }
    assert AfterTemplate(rec, rules) == Ok(Applied(out, [])) by {
      ArtistTitleTemplate(mid);
      assert ToStr(mid["artist"]) + " - " + ToStr(mid["title"]) == p + a + " - " + b;
    }
    assert ApplyYearExtraction(out, rules.autoExtractYear) == Ok(out);
    assert out == map["title" := Str(b), "artist" := Str(p + a), "album" := Str(a), "description" := Str(p + a + " - " + b)];
  }

  /** A template naming a field the record lacks leaves the record as it
      was and logs one warning. */
  lemma UnknownFieldExample(rec: Record)
    requires "artist" in rec && "genre" !in rec
    ensures var rules := RuleSet(None, None, None, Some("{artist} - {genre}"), None);
      ApplyRules(rec, rules) == Ok(Applied(rec, [UnknownTemplateField("genre")]))
  {
    var rules := RuleSet(None, None, None, Some("{artist} - {genre}"), None);
    assert BeforeTemplate(rec, rules) == Ok(rec);
    GenreTemplate(rec);
  }

  lemma GenreTemplate(rec: Record)
    requires "artist" in rec && "genre" !in rec
    ensures Format("{artist} - {genre}", rec) == MissingKey("genre")
  {
    assert Format("{" + "artist" + "} - {" + "genre" + "}", rec) == MissingKey("genre") by {
      ArtistAndTitleArePlain();
      GenreIsPlain();
      TwoFieldTemplate("artist", "genre", rec);
    }
    GenreTemplateShape();
  }

  lemma GenreTemplateShape()
    ensures "{artist} - {genre}" == "{" + "artist" + "} - {" + "genre" + "}"
  {
  }

  lemma GenreIsPlain()
    ensures IsPlainName("genre")
  {
    assert IsAscii("genre"[0]) && !IsDigit("genre"[0]);
  }
}
