/** `YouTubeAudioScraper.validate_youtube_url`: the URL's network location,
    lower-cased, must be one of seven YouTube hosts, and the URL must have a
    path or a query. Splitting the URL is `urlparse`'s work and is a
    parameter here: None when it raises, which the check turns into False. */
module UrlCheck {
  import opened Wrappers
  import opened Text

  const YoutubeHosts: seq<string> := [
    "youtube.com", "www.youtube.com", "youtu.be", "www.youtu.be",
    "m.youtube.com", "youtube-nocookie.com", "www.youtube-nocookie.com"
  ]

  /** The parts of `urlparse(url)` the check reads. */
  datatype UrlParts = UrlParts(netloc: string, path: string, query: string)

  /** Whether the URL is accepted. `Lower` is exact here: every character
      whose lower-case form is an ASCII character is lowered as Python
      lowers it, and no other character can end up in a host name. */
  function ValidateYoutubeUrl(parsed: Option<UrlParts>): bool
  {
    match parsed
    case None => false
    case Some(u) =>
      var netloc := Lower(u.netloc);
      if netloc !in YoutubeHosts then false
      else if u.path == "" && u.query == "" then false
      else true
  }

  lemma LowerCharIdempotent(c: char)
    ensures LowerChar(LowerChar(c)) == LowerChar(c)
  {
  }

  /** The host comparison ignores case: the URL is judged as if its
      network location were already lower-cased. */
  lemma CaseInsensitive(u: UrlParts)
    ensures ValidateYoutubeUrl(Some(u)) == ValidateYoutubeUrl(Some(u.(netloc := Lower(u.netloc))))
  {
    forall i | 0 <= i < |u.netloc|
      ensures Lower(Lower(u.netloc))[i] == Lower(u.netloc)[i]
    {
      LowerCharIdempotent(u.netloc[i]);
    }
    assert Lower(Lower(u.netloc)) == Lower(u.netloc);
  }

  /** No host holds ':' or '@'. */
  lemma HostsHaveNoPortOrUser()
    ensures forall k :: 0 <= k < |YoutubeHosts| ==> ':' !in YoutubeHosts[k] && '@' !in YoutubeHosts[k]
  {
  }

  /** Lowering keeps ':' and '@', and no host holds them: a network
      location with a port or with user information is refused. */
  lemma PortOrUserRefused(u: UrlParts, i: nat)
    requires i < |u.netloc| && (u.netloc[i] == ':' || u.netloc[i] == '@')
    ensures !ValidateYoutubeUrl(Some(u))
  {
    var low := Lower(u.netloc);
    assert low[i] == u.netloc[i] && low[i] in low;
    HostsHaveNoPortOrUser();
    assert low !in YoutubeHosts;
  }

  /** Accepted and refused URLs. */
  lemma Examples()
    ensures ValidateYoutubeUrl(Some(UrlParts("WWW.YouTube.com", "/watch", "v=abc")))
    ensures ValidateYoutubeUrl(Some(UrlParts("youtu.be", "/abc", "")))
    // The KELVIN SIGN lowers to 'k'.
    ensures ValidateYoutubeUrl(Some(UrlParts("youtube-nocoo\U{212A}ie.com", "/embed/abc", "")))
    ensures !ValidateYoutubeUrl(Some(UrlParts("youtube.com", "", "")))
    ensures !ValidateYoutubeUrl(Some(UrlParts("music.youtube.com", "/watch", "v=abc")))
    ensures !ValidateYoutubeUrl(None)
  {
    assert Lower("WWW.YouTube.com") == YoutubeHosts[1];
    assert Lower("youtu.be") == YoutubeHosts[2];
    assert Lower("youtube-nocoo\U{212A}ie.com") == YoutubeHosts[5];
    assert Lower("youtube.com") == YoutubeHosts[0];
    var m := Lower("music.youtube.com");
    assert m == "music.youtube.com";
    assert forall k :: 0 <= k < |YoutubeHosts| ==> m != YoutubeHosts[k] by {
      assert |m| == 17;
      assert m[0] == 'm' && m[1] == 'u';
    }
  }
}
