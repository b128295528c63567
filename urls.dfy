/** YouTube URL acceptance and canonicalisation. */
module Urls {
  import opened Wrappers
  import opened Strings

  // ---------------------------------------------------------------------------
  // isValidYouTubeUrl: /^(https?:\/\/(www\.)?)?(youtube\.com|youtu\.be)\/.+/i

  /** The characters `.` does not match in a JavaScript regular expression. */
  predicate IsLineTerminator(c: char) {
    c == '\n' || c == '\r' || c == '\U{2028}' || c == '\U{2029}'
  }

  /** `rest` starts with `host` (which ends in '/'), followed by at least one character
      that `.` matches. Nothing is required of what follows. */
  predicate HostThenPath(rest: string, host: string) {
    HasPrefixIgnoringCase(rest, host) && |rest| > |host| && !IsLineTerminator(rest[|host|])
  }

  /** `(youtube\.com|youtu\.be)\/.+` at the start of `rest`. */
  predicate HostAndPath(rest: string) {
    HostThenPath(rest, "youtube.com/") || HostThenPath(rest, "youtu.be/")
  }

  /** `url` starts with `prefix` and the host and path follow it. */
  predicate MatchesAfter(url: string, prefix: string) {
    HasPrefixIgnoringCase(url, prefix) && HostAndPath(url[|prefix|..])
  }

  /** The regular expression's verdict: the optional group `(https?:\/\/(www\.)?)?` is
      empty or one of four scheme prefixes ("www." never stands without a scheme), then
      host, slash and one more character; letters compare case-insensitively, and the
      match is anchored only at the start. */
  predicate IsValidYouTubeUrl(url: string) {
    MatchesAfter(url, "") || MatchesAfter(url, "http://") || MatchesAfter(url, "https://") ||
    MatchesAfter(url, "http://www.") || MatchesAfter(url, "https://www.")
  }

  // ---------------------------------------------------------------------------
  // normalizeYouTubeUrl

  /** The parts of a URL that `new URL(url)` exposes and the service reads; the query is
      the list of decoded name/value pairs in order. */
  datatype ParsedUrl = ParsedUrl(hostname: string, pathname: string, query: seq<(string, string)>)

  /** The position of the first pair called `name`. */
  function FirstIndex(query: seq<(string, string)>, name: string): (k: Option<nat>)
    ensures k.None? ==> forall i :: 0 <= i < |query| ==> query[i].0 != name
    ensures k.Some? ==> k.value < |query| && query[k.value].0 == name &&
                        forall j :: 0 <= j < k.value ==> query[j].0 != name
  {
    if query == [] then None
    else if query[0].0 == name then Some(0)
    else
      match FirstIndex(query[1..], name)
      case None => None
      case Some(k) => Some(k + 1)
  }

  /** `searchParams.get(name)`: the value of the first pair with that name. */
  function QueryGet(query: seq<(string, string)>, name: string): Option<string> {
    match FirstIndex(query, name)
    case None => None
    case Some(k) => Some(query[k].1)
  }

  /** The video id: the path without its first character on a short link, otherwise the
      `v` query parameter, or "" when there is none. */
  function VideoId(u: ParsedUrl): string {
    if Contains(u.hostname, "youtu.be") then
      (if u.pathname == "" then "" else u.pathname[1..])
    else QueryGet(u.query, "v").GetOr("")
  }

  const WatchPrefix := "https://www.youtube.com/watch?v="

  function Canonical(id: string): string {
    WatchPrefix + id
  }

  /** `normalizeYouTubeUrl`. `parse` stands for `new URL(...)`; `None` is the exception
      it throws on malformed input, which the function catches. */
  function NormalizeYouTubeUrl(url: string, parse: string -> Option<ParsedUrl>): (r: string)
    ensures parse(url).None? ==> r == url
    ensures parse(url).Some? && VideoId(parse(url).value) == "" ==> r == url
    ensures parse(url).Some? && VideoId(parse(url).value) != "" ==>
            r == Canonical(VideoId(parse(url).value))
  {
    match parse(url)
    case None => url
    case Some(u) =>
      var id := VideoId(u);
      if id == "" then url else Canonical(id)
  }

  // ---------------------------------------------------------------------------
  // Properties

  /** Every canonical watch URL matches the URL pattern, whatever the id. */
  lemma CanonicalAccepted(id: string)
    ensures IsValidYouTubeUrl(Canonical(id))
  {
    var c := Canonical(id);
    WatchPrefixParts();
    assert c[..12] == WatchPrefix[..12];
    var rest := c[12..];
    assert rest[..12] == WatchPrefix[12..24];
    assert rest[12] == WatchPrefix[24];
    assert HostThenPath(rest, "youtube.com/");
    assert MatchesAfter(c, "https://www.");
  }

  lemma WatchPrefixParts()
    ensures |WatchPrefix| == 32
    ensures WatchPrefix[..12] == "https://www." && WatchPrefix[12..24] == "youtube.com/"
    ensures WatchPrefix[24] == 'w'
  {
  }

  /** Normalisation never turns an accepted URL into a rejected one. */
  lemma NormalizeKeepsAccepted(url: string, parse: string -> Option<ParsedUrl>)
    requires IsValidYouTubeUrl(url)
    ensures IsValidYouTubeUrl(NormalizeYouTubeUrl(url, parse))
  {
    if parse(url).Some? && VideoId(parse(url).value) != "" {
      CanonicalAccepted(VideoId(parse(url).value));
    }
  }

  /** Normalising twice is normalising once, provided the parser reads the canonical URL
      of this URL's id back as host www.youtube.com with that id as its only `v`. */
  lemma NormalizeIdempotent(url: string, parse: string -> Option<ParsedUrl>)
    requires parse(url).Some? && VideoId(parse(url).value) != "" ==>
             parse(Canonical(VideoId(parse(url).value))) ==
             Some(ParsedUrl("www.youtube.com", "/watch", [("v", VideoId(parse(url).value))]))
    ensures NormalizeYouTubeUrl(NormalizeYouTubeUrl(url, parse), parse) == NormalizeYouTubeUrl(url, parse)
  {
    if parse(url).Some? && VideoId(parse(url).value) != "" {
      var id := VideoId(parse(url).value);
      CanonicalHostIsNotShort();
      assert VideoId(ParsedUrl("www.youtube.com", "/watch", [("v", id)])) == id;
    }
  }

  /** The proviso is needed: `https://youtube.com/watch?v=a%26v%3Db` has the id "a&v=b",
      whose canonical URL is written without escaping, so that a second normalisation
      reads the id "a" from it. */
  lemma AmpersandIdNotIdempotent(url: string, parse: string -> Option<ParsedUrl>)
    requires parse(url) == Some(ParsedUrl("youtube.com", "/watch", [("v", "a&v=b")]))
    requires parse(Canonical("a&v=b")) == Some(ParsedUrl("www.youtube.com", "/watch", [("v", "a"), ("v", "b")]))
    ensures NormalizeYouTubeUrl(url, parse) == Canonical("a&v=b")
    ensures NormalizeYouTubeUrl(NormalizeYouTubeUrl(url, parse), parse) == Canonical("a")
    ensures NormalizeYouTubeUrl(NormalizeYouTubeUrl(url, parse), parse) != NormalizeYouTubeUrl(url, parse)
  {
    CanonicalHostIsNotShort();
    HostTailIsNotShort("youtube.com");
    assert VideoId(ParsedUrl("youtube.com", "/watch", [("v", "a&v=b")])) == "a&v=b";
    assert VideoId(ParsedUrl("www.youtube.com", "/watch", [("v", "a"), ("v", "b")])) == "a";
    assert |Canonical("a")| != |Canonical("a&v=b")|;
  }

  lemma CanonicalHostIsNotShort()
    ensures !Contains("www.youtube.com", "youtu.be")
  {
    var s := "www.youtube.com";
    var t := "youtu.be";
    PrefixMismatch(s, t, 0);
    PrefixMismatch(s[1..], t, 0);
    PrefixMismatch(s[2..], t, 0);
    PrefixMismatch(s[3..], t, 0);
    assert s[1..][1..] == s[2..];
    assert s[2..][1..] == s[3..];
    assert s[3..][1..] == s[4..];
    HostTailIsNotShort(s[4..]);
  }

  lemma HostTailIsNotShort(s: string)
    requires s == "youtube.com"
    ensures !Contains(s, "youtu.be")
  {
    var t := "youtu.be";
    ShortNotContains(s[4..], t);
    assert s[3..][1..] == s[4..];
    PrefixMismatch(s[3..], t, 0);
    assert !Contains(s[3..], t);
    assert s[2..][1..] == s[3..];
    PrefixMismatch(s[2..], t, 0);
    assert !Contains(s[2..], t);
    assert s[1..][1..] == s[2..];
    PrefixMismatch(s[1..], t, 0);
    assert !Contains(s[1..], t);
    PrefixMismatch(s, t, 5);
  }

  /** A short link yields the canonical URL of its path. */
  lemma ShortLinkId(url: string, parse: string -> Option<ParsedUrl>, id: string)
    requires id != ""
    requires parse(url) == Some(ParsedUrl("youtu.be", "/" + id, []))
    ensures NormalizeYouTubeUrl(url, parse) == Canonical(id)
  {
    assert Contains("youtu.be", "youtu.be") by {
      assert HasPrefix("youtu.be", "youtu.be");
    }
    assert ("/" + id)[1..] == id;
  }

  /** The check anchors only at the start: anything may follow an accepted URL. */
  lemma AcceptedExtends(url: string, suffix: string)
    requires IsValidYouTubeUrl(url)
    ensures IsValidYouTubeUrl(url + suffix)
  {
    MatchesAfterExtends(url, suffix, "");
    MatchesAfterExtends(url, suffix, "http://");
    MatchesAfterExtends(url, suffix, "https://");
    MatchesAfterExtends(url, suffix, "http://www.");
    MatchesAfterExtends(url, suffix, "https://www.");
  }

  lemma MatchesAfterExtends(url: string, suffix: string, prefix: string)
    ensures MatchesAfter(url, prefix) ==> MatchesAfter(url + suffix, prefix)
  {
    if MatchesAfter(url, prefix) {
      var n := |prefix|;
      assert (url + suffix)[..n] == url[..n];
      var rest := url[n..];
      assert (url + suffix)[n..] == rest + suffix;
      HostThenPathExtends(rest, suffix, "youtube.com/");
      HostThenPathExtends(rest, suffix, "youtu.be/");
    }
  }

  lemma HostThenPathExtends(rest: string, suffix: string, host: string)
    ensures HostThenPath(rest, host) ==> HostThenPath(rest + suffix, host)
  {
    if HostThenPath(rest, host) {
      assert (rest + suffix)[..|host|] == rest[..|host|];
      assert (rest + suffix)[|host|] == rest[|host|];
    }
  }

  /** Letter case does not matter to the check. */
  lemma AcceptedIgnoresCase(url: string)
    ensures IsValidYouTubeUrl(url) <==> IsValidYouTubeUrl(ToLower(url))
  {
    MatchesAfterIgnoresCase(url, "");
    MatchesAfterIgnoresCase(url, "http://");
    MatchesAfterIgnoresCase(url, "https://");
    MatchesAfterIgnoresCase(url, "http://www.");
    MatchesAfterIgnoresCase(url, "https://www.");
  }

  lemma MatchesAfterIgnoresCase(url: string, prefix: string)
    ensures MatchesAfter(url, prefix) <==> MatchesAfter(ToLower(url), prefix)
  {
    var low := ToLower(url);
    var n := |prefix|;
    if n <= |url| {
      assert low[..n] == ToLower(url[..n]);
      assert low[n..] == ToLower(url[n..]);
      HostThenPathIgnoresCase(url[n..], "youtube.com/");
      HostThenPathIgnoresCase(url[n..], "youtu.be/");
    }
  }

  lemma HostThenPathIgnoresCase(rest: string, host: string)
    ensures HostThenPath(rest, host) <==> HostThenPath(ToLower(rest), host)
  {
    var low := ToLower(rest);
    if |host| <= |rest| {
      assert low[..|host|] == ToLower(rest[..|host|]);
    }
    if |rest| > |host| {
      assert low[|host|] == Lower(rest[|host|]);
    }
  }

  /** One differing character rules out a case-insensitive prefix. */
  lemma MismatchAt(s: string, lit: string, k: nat)
    requires k < |lit| && (k < |s| ==> Lower(s[k]) != Lower(lit[k]))
    ensures !HasPrefixIgnoringCase(s, lit)
  {
    if |lit| <= |s| {
      assert s[..|lit|][k] == s[k];
    }
  }

  lemma AcceptShortLink()
    ensures IsValidYouTubeUrl("youtu.be/abc")
  {
    var s := "youtu.be/abc";
    assert s[..0] == "" && s[0..] == s;
    assert s[..9] == "youtu.be/";
    assert HostThenPath(s, "youtu.be/");
    assert MatchesAfter(s, "");
  }

  lemma RejectWwwWithoutScheme()
    ensures !IsValidYouTubeUrl("www.youtube.com/watch?v=abc")
  {
    var s := "www.youtube.com/watch?v=abc";
    assert s[0..] == s;
    MismatchAt(s, "youtube.com/", 0);
    MismatchAt(s, "youtu.be/", 0);
    MismatchAt(s, "http://", 0);
    MismatchAt(s, "https://", 0);
    MismatchAt(s, "http://www.", 0);
    MismatchAt(s, "https://www.", 0);
  }

  /** "https://youtube.com/", with nothing after the slash, is rejected. */
  lemma RejectEmptyPath()
    ensures !IsValidYouTubeUrl("https://youtube.com/")
  {
    var s := "https://youtube.com/";
    EmptyPathWithoutScheme(s);
    EmptyPathOtherSchemes(s);
    EmptyPathAfterScheme(s);
  }

  lemma EmptyPathOtherSchemes(s: string)
    requires s == "https://youtube.com/"
    ensures !MatchesAfter(s, "http://") && !MatchesAfter(s, "http://www.") && !MatchesAfter(s, "https://www.")
  {
    MismatchAt(s, "http://", 4);
    MismatchAt(s, "http://www.", 4);
    MismatchAt(s, "https://www.", 8);
  }

  lemma EmptyPathWithoutScheme(s: string)
    requires s == "https://youtube.com/"
    ensures !MatchesAfter(s, "")
  {
    assert s[0..] == s;
    MismatchAt(s, "youtube.com/", 0);
    MismatchAt(s, "youtu.be/", 0);
  }

  lemma EmptyPathAfterScheme(s: string)
    requires s == "https://youtube.com/"
    ensures !MatchesAfter(s, "https://")
  {
    var rest := s[8..];
    assert rest == "youtube.com/";
    MismatchAt(rest, "youtu.be/", 5);
    assert !HostThenPath(rest, "youtube.com/");
  }
}
