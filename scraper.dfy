/** `YouTubeAudioScraper` and its `scrape` method: validate the URL,
    download and build the record, apply the tagging rules when there are
    any, let the user edit the record when asked to, then tag the file.

    yt-dlp, the file system and the console are parameters: the info dict
    yt-dlp returns (None when the download fails), the MP3 file it left,
    the lines typed and the thumbnail oracle. */
module Scraper {
  import opened Wrappers
  import opened Values
  import Rules
  import Editor
  import Tags
  import Download
  import UrlCheck
  import Cover
  import Sanitize

  /** Why `scrape` ends the process with status 1: through `sys.exit(1)`
      for ValueError and RuntimeError, and as an uncaught exception for the
      rest. */
  datatype Failure =
    | InvalidUrl
    | DownloadFailed
    | BadInfo(error: Download.DownloadError)
    | RulesFailed(ruleError: Rules.RuleError)
    | EditInterrupted
    | MetadataFailed(metadataError: Tags.MetadataError)

  datatype ScrapeResult = Saved(path: string) | Failed(failure: Failure)

  /** The empty rules dict: no rule present. */
  const NoRules: Rules.RuleSet := Rules.RuleSet(None, None, None, None, None)

  /** The record handed to `add_metadata`: the downloaded record, through
      the rules when there are any, then through the editor when it is on. */
  function Prepare(info: Record, rules: Rules.RuleSet, edit: bool, input: seq<string>): (r: Result<Record, Failure>)
    ensures r.Ok? ==> Download.BuildRecord(info).Ok?
  {
    match Download.BuildRecord(info)
    case Err(e) => Err(BadInfo(e))
    case Ok(downloaded) =>
      var ruled :=
        if rules == NoRules then Ok(downloaded)
        else match Rules.ApplyRules(downloaded, rules)
          case Err(e) => Err(RulesFailed(e))
          case Ok(applied) => Ok(applied.record);
      match ruled
      case Err(f) => Err(f)
      case Ok(r) =>
        if !edit then Ok(r)
        else if |input| < 5 then Err(EditInterrupted)
        else Ok(Editor.EditAll(r, Editor.Answers(input)))
  }

  /** `str(output_dir / name)`. */
  function JoinPath(dir: string, name: string): string
  {
    dir + "/" + name
  }

  class YouTubeAudioScraper {
    var outputDir: string
    var interactiveEdit: bool
    var taggingRules: Rules.RuleSet
    var postprocStarted: bool

    /** `YouTubeAudioScraper(output_dir, interactive_edit, rules_file)`:
        `loaded` is what reading the rules file gave, None when there was
        no file or it was missing or not valid JSON. */
    constructor(outputDir: string, interactiveEdit: bool, loaded: Option<Rules.RuleSet>)
      ensures this.outputDir == (if outputDir == "" then "." else outputDir)
      ensures this.interactiveEdit == interactiveEdit
      ensures taggingRules == (if loaded.Some? then loaded.value else NoRules)
      ensures !postprocStarted
    {
      this.outputDir := if outputDir == "" then "." else outputDir;
      this.interactiveEdit := interactiveEdit;
      postprocStarted := false;
      taggingRules := if loaded.Some? then loaded.value else NoRules;
    }

    /** `scrape(url)`. */
    method Scrape(url: Option<UrlCheck.UrlParts>, info: Option<Record>, mp3: Tags.Mp3File,
                  input: seq<string>, fetch: string -> Option<Cover.Bytes>) returns (result: ScrapeResult)
      modifies this, mp3
      ensures outputDir == old(outputDir) && interactiveEdit == old(interactiveEdit)
      ensures taggingRules == old(taggingRules)
      ensures mp3.audio == old(mp3.audio)
      ensures !UrlCheck.ValidateYoutubeUrl(url) ==>
        result == Failed(InvalidUrl) && mp3.tag == old(mp3.tag) && postprocStarted == old(postprocStarted)
      ensures UrlCheck.ValidateYoutubeUrl(url) ==> !postprocStarted
      ensures UrlCheck.ValidateYoutubeUrl(url) && info.None? ==>
        result == Failed(DownloadFailed) && mp3.tag == old(mp3.tag)
      ensures UrlCheck.ValidateYoutubeUrl(url) && info.Some? ==>
        match Prepare(info.value, taggingRules, interactiveEdit, input)
        case Err(f) => result == Failed(f) && mp3.tag == old(mp3.tag)
        case Ok(rec) =>
          var fault := Tags.Fault(rec);
          var views := Get(rec, "view_count");
          && (fault.Some? ==> result == Failed(MetadataFailed(fault.value)) && mp3.tag == None)
          && (fault.None? ==> mp3.tag == Some(Tags.WithCover(Tags.RecordTag(rec), Tags.CoverPlan(rec, fetch).0)))
          && (fault.None? && Truthy(views) && views.Str? ==> result == Failed(MetadataFailed(Tags.ViewCountNotNumber)))
          && (fault.None? && !(Truthy(views) && views.Str?) ==>
                result == Saved(JoinPath(outputDir, Download.OutputFilename(Download.BuildRecord(info.value).value))))
    {
      if !UrlCheck.ValidateYoutubeUrl(url) {
        return Failed(InvalidUrl);
      }
      postprocStarted := false;
      if info.None? {
        return Failed(DownloadFailed);
      }
      var built := Download.BuildRecord(info.value);
      if built.Err? {
        return Failed(BadInfo(built.error));
      }
      var metadata := built.value;
      var outputPath := JoinPath(outputDir, Download.OutputFilename(metadata));

      if taggingRules != NoRules {
        var applied := Rules.ApplyRules(metadata, taggingRules);
        if applied.Err? {
          return Failed(RulesFailed(applied.error));
        }
        metadata := applied.value.record;
      }

      if interactiveEdit {
        var editable := new Editor.Metadata(metadata);
        var prompts, finished := Editor.InteractiveEdit(editable, input);
        if !finished {
          return Failed(EditInterrupted);
        }
        metadata := editable.rec;
      }

      var outcome, requested := Tags.AddMetadata(mp3, metadata, fetch);
      if outcome.Err? {
        return Failed(MetadataFailed(outcome.error));
      }
      result := Saved(outputPath);
    }
  }

  // ---------------------------------------------------------------------
  // What the pipeline promises

  /** Skipping the rules when the rules dict is empty changes nothing:
      with no rule present the engine returns the record as it is. */
  lemma NoRulesChangeNothing(rec: Record)
    ensures Rules.ApplyRules(rec, NoRules) == Ok(Rules.Applied(rec, []))
  {
    assert Rules.BeforeTemplate(rec, NoRules) == Ok(rec);
  }

  /** The file name is made from the downloaded title, before any rule or
      edit, and is never empty: it always holds the "mp3" of the
      extension. */
  lemma FilenameNeverEmpty(rec: Record)
    requires "title" in rec
    ensures Download.OutputFilename(rec) != ""
  {
    var s := ToStr(rec["title"]) + ".mp3";
    var i := |ToStr(rec["title"])| + 1;
    assert s[i] == 'm';
    Sanitize.NonEmptyWhenOrdinary(s, i);
  }
}
