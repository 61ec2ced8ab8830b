# YouTube audio scraper: the metadata path, in Dafny

`youtube_scraper.py` downloads the audio of a YouTube video with yt-dlp and
saves it as an MP3 file. It tags the file with ID3v2.3 frames built from the
video's metadata. This project models the part of that program that is
logic, not tools:

- **Record.** Building the metadata record from yt-dlp's info dict, and
  deriving the output file name from the title.
- **Rule engine.** `MetadataEditor.apply_tagging_rules` applies the five
  steps in a fixed order: album source, artist prefix, title suffix,
  description template, year extraction. Python's `str.format` is
  modelled for literal text, doubled braces and `{name}` fields, and the
  regex `\b(19|20)\d{2}\b` over ASCII digits and word characters.
- **Editor.** `MetadataEditor.interactive_edit` is the in-place editing
  loop. It reads five input lines and changes the caller's dict.
- **Sanitizer.** `_sanitize_filename` runs three passes.
- **Duration.** `_format_duration` formats a number of seconds as a clock.
- **URL check.** `validate_youtube_url` decides whether a URL is a
  YouTube URL.
- **Tagging.** `add_metadata` selects the frames: which ones the saved tag
  holds and what each one holds. The tag is a map from each frame's hash
  key to the frame, and `add_metadata` never adds two frames with the same
  key.
- **Cover art.** `_add_cover_art` tries four thumbnail URLs in order and
  stops at the first non-empty image.
- **Pipeline.** `YouTubeAudioScraper.scrape` runs validate, download,
  rules, edit and tag, and says which failure ends it.

Where the code and its docstrings disagree, the model follows the code:

- The backslash is not in the sanitizer's character class, so it survives.
- The sanitizer strips only the ASCII space before collapsing whitespace,
  so it is not idempotent on names that end in non-ASCII whitespace.
- An empty title gives the file name `mp3`.
- `music.youtube.com` is refused.
- The album is "Unknown" only when the record has no artist key at all.

Values in the record are strings, ints or None (`Values.Value`). Python's
truthiness, `dict.get` and `str()` are written out.

Outside effects are parameters:

- The network is an oracle from URL to an optional body.
- yt-dlp's result is an optional info dict.
- The console is the list of lines typed.
- `urlparse` is an optional triple of network location, path and query.

The modules and their files:

| module | file |
|---|---|
| `Wrappers` | `wrappers.dfy` |
| `Text` | `text.dfy` |
| `Values` | `values.dfy` |
| `Template` | `template.dfy` |
| `YearScan` | `yearscan.dfy` |
| `Rules` | `rules.dfy` |
| `Sanitize` | `sanitize.dfy` |
| `Duration` | `duration.dfy` |
| `Editor` | `editor.dfy` |
| `Cover` | `cover.dfy` |
| `Tags` | `tags.dfy` |
| `UrlCheck` | `urlcheck.dfy` |
| `Download` | `download.dfy` |
| `Scraper` | `scraper.dfy` |

## Model

| member | source | states |
|---|---|---|
| Values.ToStrIntReadsBack | youtube_scraper.py:407 | `str()` of an int reads back as the same int and never prints as `str(None)` |
| Template.EscapeFormatsToItself | youtube_scraper.py:116 | text with doubled braces formats to itself, whatever the record holds (`{{` and `}}` are literal braces) |
| Template.FieldThenRest | youtube_scraper.py:116 | a leading `{name}` prints `str()` of the record's value and goes on with the rest, or stops with a KeyError naming the field when the key is absent |
| Template.LiteralThenRest | youtube_scraper.py:116 | literal text without braces is copied unchanged ahead of the rest |
| Template.TwoFieldTemplate | youtube_scraper.py:116 | `"{a} - {b}"` gives `str(a) + " - " + str(b)`, or a KeyError for the first missing field, in template order |
| Template.NonAsciiFieldName | youtube_scraper.py:116-117 | a field name of non-ASCII letters such as `{日本}` is looked up as a key, so a missing one is a KeyError |
| Template.BraceErrors | youtube_scraper.py:114-118 | a lone `}`, an unclosed `{`, `{}` and `{0}` are errors other than KeyError, so the engine does not recover from them |
| YearScan.FindYear | youtube_scraper.py:124-126 | a match exists exactly when some index starts a year token with word boundaries, and the match is the leftmost one |
| YearScan.FoundYearIsYear | youtube_scraper.py:124-126 | what the search returns is four digits whose value lies between 1900 and 2099 |
| YearScan.ExampleInText | youtube_scraper.py:124 | "Released in 2019 worldwide" yields "2019" |
| YearScan.ExampleNoBoundary | youtube_scraper.py:124 | "12019" and "2019s" yield no match |
| YearScan.ExampleLeftmost | youtube_scraper.py:124 | the leftmost of two years is taken |
| Rules.ApplyAlbumSource | youtube_scraper.py:94-102 | the album step changes no key but "album" |
| Rules.ApplyArtistPrefix | youtube_scraper.py:104-106 | the prefix step changes no key but "artist" |
| Rules.ApplyTitleSuffix | youtube_scraper.py:108-110 | the suffix step changes no key but "title" |
| Rules.ApplyDescriptionTemplate | youtube_scraper.py:112-118 | the template step changes no key but "description" |
| Rules.ApplyYearExtraction | youtube_scraper.py:120-126 | the year step changes no key but "year" |
| Rules.OtherKeysUnchanged | youtube_scraper.py:92-128 | the engine works on a copy: every key outside album, artist, title, description and year comes out as it went in |
| Rules.AbsentRulesKeepTheirFields | youtube_scraper.py:104-118 | a rule that is absent is a no-op: no prefix keeps the artist, no suffix keeps the title, no template keeps the description and logs no warning |
| Rules.AlbumSourceOutcome | youtube_scraper.py:94-102 | "artist" copies the artist as it was before the prefix, and writes "Unknown" only when the key is absent; "title" does the same with the title; "custom:X" writes X; any other rule leaves the album as it was |
| Rules.ArtistPrefixOutcome | youtube_scraper.py:104-106 | the prefix is prepended exactly when the artist is a non-empty string; a non-zero int artist makes the engine fail; otherwise the artist is unchanged |
| Rules.TitleSuffixOutcome | youtube_scraper.py:108-110 | the suffix is appended exactly when the title is a non-empty string; otherwise the title is unchanged |
| Rules.DescriptionTemplateOutcome | youtube_scraper.py:112-118 | the template is formatted over the record after album, prefix and suffix; a missing field logs one warning and keeps the original description; other format errors fail; the year step keeps description and warnings |
| Rules.YearExtractionOutcome | youtube_scraper.py:120-126 | the year is set to the first year token of the description only when the rule is on, the year is falsy and the description truthy; otherwise the record is unchanged |
| Rules.ArtistTitleTemplate | youtube_scraper.py:112-118 | `"{artist} - {title}"` formats to the artist, " - " and the title |
| Rules.ShippedRulesExample | youtube_scraper.py:558-564 | the template rules file, applied to title b and artist a, gives album a, artist a, title b, description "a - b" and no warning |
| Rules.PrefixBeforeTemplateExample | youtube_scraper.py:94-118 | the template sees the prefixed artist, while the album keeps the artist from before the prefix |
| Rules.UnknownFieldExample | youtube_scraper.py:112-118 | a template naming an absent field returns the record unchanged with one warning naming that field |
| Rules.GenreTemplate | youtube_scraper.py:116-117 | formatting `"{artist} - {genre}"` without a genre key is a KeyError for "genre" |
| Sanitize.RemoveInvalid | youtube_scraper.py:359-360 | the deletion pass leaves no character of the class, keeps every other character as often as it occurs, and changes nothing when none is present |
| Sanitize.CollapseWhitespace | youtube_scraper.py:364 | collapsing makes a string empty only when it was empty |
| Sanitize.CollapseCounts | youtube_scraper.py:364 | collapsing keeps every character that is not whitespace, as often as it occurs, and leaves no whitespace but the space |
| Sanitize.CollapseShape | youtube_scraper.py:364 | after collapsing, the only whitespace is single spaces, and the first character is a space exactly when the input began with whitespace |
| Sanitize.CollapseLast | youtube_scraper.py:364 | the last character is a space exactly when the input ended with whitespace |
| Sanitize.CollapseFixes | youtube_scraper.py:364 | a string with single spaces only is left as it is |
| Sanitize.SliceCounts | youtube_scraper.py:362 | stripping never adds a character, and keeps every character it does not strip as often as it occurs |
| Sanitize.NoInvalidCharacters | youtube_scraper.py:352-365 | the sanitized name holds no slash, `<`, `>`, colon, `*`, `?`, double quote or pipe, and no U+0000 to U+001F |
| Sanitize.KeepsOrdinaryCharacters | youtube_scraper.py:352-365 | every other character apart from whitespace and the dot keeps its number of occurrences |
| Sanitize.KeepsBackslash | youtube_scraper.py:356-360 | the backslash is kept, as often as it occurs, although the docstring lists it as removed |
| Sanitize.NonEmptyWhenOrdinary | youtube_scraper.py:352-365 | a name with one ordinary character never sanitizes to the empty string |
| Sanitize.SanitizeIsClean | youtube_scraper.py:352-365 | for names without non-ASCII whitespace: no space or dot at either end, no two spaces in a row, no whitespace but the space |
| Sanitize.CleanIsFixpoint | youtube_scraper.py:352-365 | a clean name sanitizes to itself |
| Sanitize.Idempotent | youtube_scraper.py:352-365 | sanitizing twice equals sanitizing once, for names without non-ASCII whitespace |
| Sanitize.NotIdempotentOnNoBreakSpace | youtube_scraper.py:362-364 | "a" followed by NO-BREAK SPACE sanitizes to "a ", which sanitizes again to "a" |
| Sanitize.ExtensionOnly | youtube_scraper.py:362 | ".mp3" loses its dot with the leading dots and becomes "mp3" |
| Duration.Pad2 | youtube_scraper.py:348-349 | `:02d` prints two digits whose value is the number |
| Duration.ClockSplit | youtube_scraper.py:344-346 | floor division splits a duration into the unique hours, minutes below 60 and seconds below 60 |
| Duration.DurationShape | youtube_scraper.py:340-349 | 0 prints "0:00"; below an hour the text is M:SS; from an hour on it is H:MM:SS with H > 0; minutes and seconds are below 60 and h*3600 + m*60 + s equals the duration |
| Duration.FormatMinutes | youtube_scraper.py:347-349 | below an hour, minutes and seconds print as M:SS |
| Duration.FormatHours | youtube_scraper.py:347-348 | from an hour on, the text is H:MM:SS |
| Duration.FormatThenParse | youtube_scraper.py:340-349 | the printed text reads back as the duration, so no two durations print alike |
| Duration.ParseThenFormat | youtube_scraper.py:340-349 | every clock text that reads back as a duration is exactly what the formatter prints for it |
| Duration.NegativeDuration | youtube_scraper.py:344-349 | a negative duration prints as its remainder modulo one hour, as floor division gives it |
| Duration.ExampleMinutes | youtube_scraper.py:347-349 | 65 seconds prints "1:05" |
| Duration.ExampleHours | youtube_scraper.py:347-348 | 3725 seconds prints "1:02:05" |
| Duration.ExampleNegative | youtube_scraper.py:344-349 | -1 prints "59:59", as floor division gives it |
| Editor.KeysDistinct | youtube_scraper.py:45-51 | the five edited keys are distinct |
| Editor.DisplayValue | youtube_scraper.py:54-65 | a falsy value shows "(not set)"; a value longer than 60 characters shows its first 57 characters and "..."; the shown text never exceeds 60 characters |
| Editor.EditField | youtube_scraper.py:70-75 | one prompt keeps every key, changes no key but its own, and adds its key only with a truthy value |
| Editor.ApplyAnswer | youtube_scraper.py:68-75 | one prompt updates the dict in place exactly as EditField describes, from the stripped line |
| Editor.InteractiveEdit | youtube_scraper.py:36-78 | the loop answers prompts while lines remain, and finishes exactly when five lines were typed; the dict is the first n edits in prompt order, and the prompts shown are the prompts for those fields (one more when input ran out) |
| Editor.StepsKeep | youtube_scraper.py:53-75 | prompts for other keys leave a key as it was |
| Editor.StepsGrow | youtube_scraper.py:53-75 | no key is dropped, and a key the editor adds holds a truthy value |
| Editor.EditAllFields | youtube_scraper.py:53-75 | a non-blank stripped line replaces its field and a blank one keeps it; a blank album line copies the just-edited artist when that is truthy, even over an existing album |
| Editor.EditAllOthers | youtube_scraper.py:53-75 | keys other than the five are not added, removed or changed |
| Editor.EditAllIdempotent | youtube_scraper.py:53-75 | typing the same five lines again changes nothing more |
| Editor.BlankInput | youtube_scraper.py:70-75 | five blank lines keep the record, except that the album becomes the artist when the artist is truthy |
| Editor.EarlyEndOfInput | youtube_scraper.py:68-71 | when input ends after the artist line, title and artist stay edited and three prompts were shown |
| Cover.Candidates | youtube_scraper.py:451-456 | four candidates, the first being the thumbnail URL itself |
| Cover.FirstHit | youtube_scraper.py:458-470 | the index found answers with a non-empty body and every earlier candidate misses; none is found only when every candidate misses |
| Cover.FetchCover | youtube_scraper.py:458-473 | the loop requests candidates in order and stops at the first hit: if that is candidate k, exactly the first k+1 URLs are requested and its body is returned; without a hit all four are requested and the content is empty |
| Cover.FirstHitFrom | youtube_scraper.py:458-470 | skipping candidates that miss does not change the first hit |
| Cover.StopsAtFirstHit | youtube_scraper.py:458-470 | the first hit is the first candidate with a non-empty body |
| Cover.ReplaceAbsent | youtube_scraper.py:453-455 | `replace` changes nothing when the pattern does not occur |
| Cover.ReplaceKeepsPrefix | youtube_scraper.py:453-455 | text with no occurrence starting in it is copied before the rest is replaced |
| Cover.ReplaceAtStart | youtube_scraper.py:453-455 | an occurrence at the start is replaced |
| Cover.CandidatesWithoutMaxRes | youtube_scraper.py:451-456 | a URL without `maxresdefault` gives four equal candidates |
| Cover.CanonicalCandidates | youtube_scraper.py:451-456 | for a URL ending in `/maxresdefault.jpg` with no earlier occurrence, the candidates are the maxres, sd, hq and default images, in that order |
| Tags.Id3.constructor | youtube_scraper.py:378 | a new tag holds no frame |
| Tags.Id3.Add | youtube_scraper.py:382 | adding a frame stores it under its hash key and keeps every other frame |
| Tags.Id3.Save | youtube_scraper.py:423 | saving makes the file's tag this one and keeps the audio |
| Tags.DeleteTag | youtube_scraper.py:370-375 | afterwards the file has no tag, and its audio is unchanged |
| Tags.CoverFrame | youtube_scraper.py:476-484 | the cover frame is stored under the APIC key with an empty description |
| Tags.AddTextFrames | youtube_scraper.py:380-395 | reports the first failure in frame order; without one, the tag gains the four text frames of the record |
| Tags.AddOtherFrames | youtube_scraper.py:397-412 | reports the first failure in frame order; without one, the tag gains the comment, URL, view-count and duration frames |
| Tags.AddCoverArt | youtube_scraper.py:448-484 | on the first hit, exactly one APIC frame with that body is added; without a hit nothing is added and all four URLs were requested |
| Tags.AddMetadata | youtube_scraper.py:367-446 | the old tag is always removed; a bad field leaves the file untagged with that error; otherwise the saved tag is the record's frames plus the cover when one was found; a failed cover is only a warning; a string view count fails after the save |
| Tags.TextFramesOfRecord | youtube_scraper.py:380-395 | TIT2, TPE1, TALB and TYER are each present exactly when the value is truthy, and hold that value |
| Tags.AlbumFallback | youtube_scraper.py:388-391 | TALB is the album when truthy; otherwise the artist, or "Unknown" only when the artist key is absent; a present but falsy artist gives no TALB |
| Tags.RecordTagKeys | youtube_scraper.py:378-412 | the record's tag has no frame besides the four text frames, COMM, WOAR and the two TXXX frames |
| Tags.TextFramesKept | youtube_scraper.py:396-412 | the frames added after the text frames leave TIT2, TPE1, TALB and TYER as they were |
| Tags.CommentFrameOfRecord | youtube_scraper.py:397-399 | COMM (lang "eng", empty description) is present exactly when the description is truthy, and holds it |
| Tags.WebpageFrameOfRecord | youtube_scraper.py:401-403 | WOAR is present exactly when the video URL is truthy, and holds it |
| Tags.ViewsFrameOfRecord | youtube_scraper.py:405-407 | TXXX "View Count" is present exactly when the view count is truthy, and holds `str(view_count)` |
| Tags.DurationFrameOfRecord | youtube_scraper.py:409-412 | TXXX "Duration" is present exactly when the duration is truthy, and holds the formatted duration |
| Tags.CoverKeepsRecordFrames | youtube_scraper.py:414-423 | adding the cover adds exactly one APIC frame (image/jpeg, type 3, empty description) and keeps every other frame |
| Tags.ZeroCountsOmitted | youtube_scraper.py:406-412 | view count 0 gives no TXXX frame; duration -1 is written as "59:59" |
| UrlCheck.CaseInsensitive | youtube_scraper.py:175 | the decision is the same as for the lower-cased network location |
| UrlCheck.PortOrUserRefused | youtube_scraper.py:175-189 | a network location with a port or user information is refused |
| UrlCheck.Examples | youtube_scraper.py:171-198 | mixed-case hosts, youtu.be and the KELVIN SIGN spelling are accepted; no path and no query, music.youtube.com, and an unparsable URL are refused |
| Download.FirstFour | youtube_scraper.py:241 | `s[:4]` is the first min(4, len) characters |
| Download.BeforeDash | youtube_scraper.py:244 | `split("-")[0]` is the longest prefix without '-', followed by '-' when shorter than the text |
| Download.RecordShape | youtube_scraper.py:237-269 | the record has exactly the nine keys; a missing title or uploader reads "Unknown"; the year is a prefix of upload_date of at most four characters, else the release_date part before '-', else None |
| Download.UploadDateYear | youtube_scraper.py:237-240 | the upload date "20190415" gives "2019"; a non-string upload date fails |
| Download.ReleaseDateYear | youtube_scraper.py:237-244 | the release date "2019-04-15" gives "2019", also when the upload date is empty |
| Download.ThumbnailCandidates | youtube_scraper.py:249 | the thumbnail URL of a video id is `…/vi/<id>/maxresdefault.jpg`, and its cover candidates are the four resolutions in order |
| Download.WatchUrlIsValid | youtube_scraper.py:257 | any split of the watch-page URL with urlparse's shape has the network location www.youtube.com and a path or query, so the URL written to WOAR passes the URL check |
| Download.WatchUrlSplit | youtube_scraper.py:257 | the watch-page URL of an id without '#' does split that way, into www.youtube.com, /watch and v=<id> |
| Download.FilenameIsValid | youtube_scraper.py:278-280 | the output file name holds no deleted character |
| Download.CleanTitleKept | youtube_scraper.py:278-280 | a title that is already clean gives exactly title + ".mp3" |
| Download.EmptyTitle | youtube_scraper.py:278-280 | an empty title gives the file name "mp3" |
| Scraper.YouTubeAudioScraper.constructor | youtube_scraper.py:157-169 | an empty output directory becomes "."; the rules are the loaded ones, or none when nothing was loaded; the post-processing flag is off |
| Scraper.YouTubeAudioScraper.Scrape | youtube_scraper.py:486-508 | an invalid URL fails before any change; a failed download, bad info, failing rules or interrupted edit fail with the tag untouched; a bad field leaves the file untagged; otherwise the tag is the prepared record's frames plus the cover; the path is the output directory joined with the name from the downloaded title |
| Scraper.NoRulesChangeNothing | youtube_scraper.py:492-494 | skipping the engine when no rule is present is the same as running it |
| Scraper.FilenameNeverEmpty | youtube_scraper.py:278-281 | the output file name is never empty |

## Left out

- yt-dlp is not modelled: the download, the MP3 conversion, the temporary directory, the glob for the MP3 file and the rename. `Scrape` takes yt-dlp's info dict (None when the download fails) and the MP3 file it left. A missing MP3 and a failing rename are not modelled.
- Scraper.YouTubeAudioScraper.constructor: creating the output directory (`mkdir(parents=True, exist_ok=True)`) is file-system work and is not modelled; the directory is only a string, and a failing `mkdir` is not an outcome of the model.
- `_progress_hook` is not modelled: it is terminal output with float percentages. Its only state change, setting `postproc_started`, happens inside yt-dlp's run.
- `requests.get` is replaced by an oracle from URL to an optional body. The timeout, streaming and HTTP status codes collapse into None. The oracle gives the same answer each time it is asked for the same URL, so a retry that succeeds after a time-out is not modelled. This matters only for a thumbnail URL without `maxresdefault`, whose four candidates are the same URL; the URL the download step builds has four distinct candidates (`Download.ThumbnailCandidates`).
- mutagen is not modelled beyond a map from hash key to frame: no byte layout, no v2.3 encoding conversion, no multi-valued text frames. What `add` does with a second frame under a key it already holds is not modelled (`Tags.Id3.Add` overwrites); `add_metadata` never does that. A failing `id3.save` (youtube_scraper.py:423), which the source turns into a RuntimeError at lines 444-446, is not modelled: `Tags.Id3.Save` always succeeds.
- Tags.AddMetadata: mutagen is taken to reject a text value that is not a string. Such a value makes the method fail with `NotText` instead of being stored.
- `MetadataEditor.load_rules_from_file` and `save_rules_to_file` (file and JSON I/O) are not modelled. The constructor takes the loaded rules, or None when the file was missing or not valid JSON (the source then uses `{}`). `--save-rules` appears only as the constant `Rules.ShippedRules`.
- Rules.RuleSet: only string rule values are modelled, and a boolean for `auto_extract_year`. Rule values of other JSON types are left out, and so are the errors they raise.
- `urlparse` is a parameter, and so are `argparse`, `main`, the logging text and `sys.exit`. `Scrape` returns the failure instead of exiting.
- YearScan.FindYear: `\d` and `\b` are taken over ASCII. Unicode digits and word characters are left out.
- Template.Format: conversions, format specs, attribute access and index access (`{x!r}`, `{x:>9}`, `{x.y}`, `{x[0]}`) yield `Unsupported` instead of being interpreted.
- Template.Format: only ASCII digits make a field name a positional index. A name made of digits with at least one non-ASCII decimal digit (`{٣}`) is an IndexError in Python, which the engine does not catch; the model reads it as a key, so a missing one becomes a recovered KeyError.
- Text.LowerChar: only lowerings that can produce a host name are exact (the ASCII capitals and the KELVIN SIGN). Every other character is kept as it is.
- Duration.FormatDuration: float durations from yt-dlp are left out; durations are ints.
- Editor.InteractiveEdit: the editor's header and footer lines are not modelled. End of input stands for the EOFError that `input()` raises.
- Scraper.JoinPath: `Path` normalisation is left out, for example `./name` being printed as `name`. An output directory of None is modelled as the empty string.
