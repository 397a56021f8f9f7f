/** Auction URLs (app/domain/validation.py). The regular expression is written as a direct recognizer and,
    separately, as the relation it denotes. */
module Validation {
  import opened AuctionTypes

  const MAX_URL_LEN: nat := 2048
  const HOST: string := "auctions.yahoo.co.jp/jp/auction/"

  datatype UrlResult = Accepted(text: string) | TooLong | NotAnAuctionUrl

  /** The characters that Python's `str.strip` removes. */
  predicate IsSpace(c: char) {
    var n := c as int;
    || 9 <= n <= 13 || 28 <= n <= 32 || n == 0x85 || n == 0xA0 || n == 0x1680 || 0x2000 <= n <= 0x200A
    || n == 0x2028 || n == 0x2029 || n == 0x202F || n == 0x205F || n == 0x3000
  }

  function Strip(s: string): string {
    if s == [] then []
    else if IsSpace(s[0]) then Strip(s[1..])
    else if IsSpace(s[|s| - 1]) then Strip(s[..|s| - 1])
    else s
  }

  predicate IsIdChar(c: char) {
    'a' <= c <= 'z' || 'A' <= c <= 'Z' || '0' <= c <= '9'
  }

  predicate IsId(id: string) {
    id != [] && forall k :: 0 <= k < |id| ==> IsIdChar(id[k])
  }

  /** `(?:\?.*)?` up to the end of the text; `.` does not match a line feed. */
  predicate IsQuery(q: string) {
    q == [] || (q[0] == '?' && '\n' !in q)
  }

  predicate Optional(written: string, part: string) {
    written == [] || written == part
  }

  /** `https?://` and the rest. */
  predicate SchemeSpelled(url: string, s: string, rest: string) {
    Optional(s, "s") && url == "http" + (s + ("://" + rest))
  }

  /** `(?:www\.)?(?:page\.)?`, the host with the fixed path, and the rest. */
  predicate HostSpelled(text: string, www: string, page: string, host: string, path: string) {
    Optional(www, "www.") && Optional(page, "page.") && text == www + (page + (host + path))
  }

  /** `([a-zA-Z0-9]+)/?(?:\?.*)?$` */
  predicate PathSpelled(path: string, id: string, slash: string, query: string) {
    IsId(id) && Optional(slash, "/") && IsQuery(query) && path == id + (slash + query)
  }

  ghost predicate Spelled(url: string, s: string, rest: string, www: string, page: string, path: string, id: string,
                          slash: string, query: string)
  {
    SchemeSpelled(url, s, rest) && HostSpelled(rest, www, page, HOST, path) && PathSpelled(path, id, slash, query)
  }

  /** The texts that the regular expression matches, with the group it captures. */
  ghost predicate Matches(url: string, id: string) {
    exists s: string, rest: string, www: string, page: string, path: string, slash: string, query: string ::
      Spelled(url, s, rest, www, page, path, id, slash, query)
  }

  predicate StartsWith(s: string, prefix: string) {
    |prefix| <= |s| && s[..|prefix|] == prefix
  }

  function Skip(s: string, optional: string): string {
    if StartsWith(s, optional) then s[|optional|..] else s
  }

  function IdLength(s: string): (n: nat)
    ensures n <= |s|
  {
    if s == [] || !IsIdChar(s[0]) then 0 else 1 + IdLength(s[1..])
  }

  /** The id at the start of what follows the fixed part, if a slash and a query are all that follow it. */
  function IdIn(path: string): Option<string> {
    var n := IdLength(path);
    if n > 0 && IsQuery(Skip(path[n..], "/")) then Some(path[..n]) else None
  }

  function AfterScheme(url: string): Option<string> {
    if !StartsWith(url, "http") then None
    else
      var a := Skip(url[4..], "s");
      if StartsWith(a, "://") then Some(a[3..]) else None
  }

  function AfterHost(text: string, host: string): Option<string> {
    var b := Skip(Skip(text, "www."), "page.");
    if StartsWith(b, host) then Some(b[|host|..]) else None
  }

  function Recognize(url: string): Option<string> {
    match AfterScheme(url)
    case None => None
    case Some(rest) =>
      match AfterHost(rest, HOST)
      case None => None
      case Some(path) => IdIn(path)
  }

  function Canonical(id: string): string {
    "http" + ("s" + ("://" + ([] + ("page." + (HOST + (id + ([] + [])))))))
  }

  function ValidateAuctionUrl(url: string): UrlResult {
    var stripped := Strip(url);
    if |stripped| > MAX_URL_LEN then TooLong
    else
      match Recognize(stripped)
      case None => NotAnAuctionUrl
      case Some(id) => Accepted(Canonical(id))
  }

  function ExtractAuctionId(url: string): UrlResult {
    match Recognize(Strip(url))
    case None => NotAnAuctionUrl
    case Some(id) => Accepted(id)
  }

  // ---------------------------------------------------------------- the recognizer is the relation

  lemma SkipPresent(optional: string, rest: string)
    ensures StartsWith(optional + rest, optional) && (optional + rest)[|optional|..] == rest
    ensures Skip(optional + rest, optional) == rest
  {
  }

  lemma SkipAbsent(s: string, optional: string)
    requires s != [] && optional != [] && s[0] != optional[0]
    ensures !StartsWith(s, optional) && Skip(s, optional) == s
  {
    if |optional| <= |s| {
      assert s[..|optional|][0] == s[0];
    }
  }

  lemma SkipOptional(written: string, part: string, rest: string)
    requires part != [] && Optional(written, part) && rest != [] && rest[0] != part[0]
    ensures Skip(written + rest, part) == rest
  {
    if written == [] {
      assert written + rest == rest;
      SkipAbsent(rest, part);
    } else {
      SkipPresent(part, rest);
    }
  }

  /** What `Skip` removed, so that it can be put back. */
  lemma SkipRemoves(s: string, part: string) returns (written: string)
    ensures Optional(written, part) && s == written + Skip(s, part)
  {
    written := if StartsWith(s, part) then part else [];
  }

  lemma {:induction false} IdLengthIs(id: string, rest: string)
    requires forall k :: 0 <= k < |id| ==> IsIdChar(id[k])
    requires rest == [] || !IsIdChar(rest[0])
    ensures IdLength(id + rest) == |id|
  {
    if id != [] {
      assert (id + rest)[1..] == id[1..] + rest;
      IdLengthIs(id[1..], rest);
    } else {
      assert id + rest == rest;
    }
  }

  lemma {:induction false} IdLengthCounts(s: string)
    ensures forall k :: 0 <= k < IdLength(s) ==> IsIdChar(s[k])
    ensures IdLength(s) < |s| ==> !IsIdChar(s[IdLength(s)])
  {
    if s != [] && IsIdChar(s[0]) {
      IdLengthCounts(s[1..]);
    }
  }

  lemma PathRecognized(path: string, id: string, slash: string, query: string)
    requires PathSpelled(path, id, slash, query)
    ensures IdIn(path) == Some(id)
  {
    var rest := slash + query;
    if rest == [] {
    } else if slash != [] {
      SkipPresent("/", query);
    } else {
      assert rest == query;
      SkipAbsent(query, "/");
    }
    IdLengthIs(id, rest);
    assert path[|id|..] == rest && path[..|id|] == id;
  }

  lemma PathParts(path: string, id: string) returns (slash: string, query: string)
    requires IdIn(path) == Some(id)
    ensures PathSpelled(path, id, slash, query)
  {
    var rest := path[IdLength(path)..];
    slash := SkipRemoves(rest, "/");
    query := Skip(rest, "/");
    IdLengthCounts(path);
    assert path == id + rest;
  }

  lemma HostRecognized(text: string, www: string, page: string, host: string, path: string)
    requires host != [] && host[0] == 'a' && HostSpelled(text, www, page, host, path)
    ensures AfterHost(text, host) == Some(path)
  {
    var b := host + path;
    SkipPresent(host, path);
    SkipOptional(page, "page.", b);
    SkipOptional(www, "www.", page + b);
  }

  lemma HostParts(text: string, host: string, path: string) returns (www: string, page: string)
    requires AfterHost(text, host) == Some(path)
    ensures HostSpelled(text, www, page, host, path)
  {
    var a := Skip(text, "www.");
    www := SkipRemoves(text, "www.");
    page := SkipRemoves(a, "page.");
    assert Skip(a, "page.") == host + path;
  }

  lemma SchemeRecognized(url: string, s: string, rest: string)
    requires SchemeSpelled(url, s, rest)
    ensures AfterScheme(url) == Some(rest)
  {
    var a := "://" + rest;
    SkipPresent("://", rest);
    SkipOptional(s, "s", a);
    SkipPresent("http", s + a);
  }

  lemma SchemeParts(url: string, rest: string) returns (s: string)
    requires AfterScheme(url) == Some(rest)
    ensures SchemeSpelled(url, s, rest)
  {
    s := SkipRemoves(url[4..], "s");
    assert Skip(url[4..], "s") == "://" + rest;
  }

  lemma RecognizedIsSpelled(url: string, id: string)
    returns (s: string, rest: string, www: string, page: string, path: string, slash: string, query: string)
    requires Recognize(url) == Some(id)
    ensures Spelled(url, s, rest, www, page, path, id, slash, query)
  {
    rest := AfterScheme(url).value;
    path := AfterHost(rest, HOST).value;
    s := SchemeParts(url, rest);
    www, page := HostParts(rest, HOST, path);
    slash, query := PathParts(path, id);
    hide SchemeSpelled, HostSpelled, PathSpelled, AfterScheme, AfterHost, IdIn;
  }

  lemma SpelledIsRecognized(url: string, s: string, rest: string, www: string, page: string, path: string, id: string,
                            slash: string, query: string)
    requires Spelled(url, s, rest, www, page, path, id, slash, query)
    ensures Recognize(url) == Some(id)
  {
    SchemeRecognized(url, s, rest);
    HostRecognized(rest, www, page, HOST, path);
    PathRecognized(path, id, slash, query);
    hide SchemeSpelled, HostSpelled, PathSpelled, AfterScheme, AfterHost, IdIn;
  }

  /** The recognizer accepts exactly what the expression matches and captures the same id; in particular the
      id of an accepted URL is unique. */
  lemma RecognizeIffMatches(url: string, id: string)
    ensures Recognize(url) == Some(id) <==> Matches(url, id)
  {
    if Recognize(url) == Some(id) {
      var s, rest, www, page, path, slash, query := RecognizedIsSpelled(url, id);
    }
    if Matches(url, id) {
      var s, rest, www, page, path, slash, query :| Spelled(url, s, rest, www, page, path, id, slash, query);
      SpelledIsRecognized(url, s, rest, www, page, path, id, slash, query);
    }
    hide Spelled, Recognize;
  }

  // ---------------------------------------------------------------- canonical form

  predicate EndsWith(text: string, id: string) { |id| <= |text| && text[|text| - |id|..] == id }

  lemma EndIsKept(front: string, text: string, id: string)
    requires EndsWith(text, id)
    ensures EndsWith(front + text, id) && |front + text| == |front| + |text|
  {
  }

  /** A URL without `www.`, slash and query, in terms of its parts. */
  predicate PlainlySpelled(url: string, s: string, rest: string, page: string, path: string, id: string) {
    SchemeSpelled(url, s, rest) && HostSpelled(rest, [], page, HOST, path) && PathSpelled(path, id, [], [])
  }

  lemma PlainIsRecognized(url: string, s: string, rest: string, page: string, path: string, id: string)
    requires PlainlySpelled(url, s, rest, page, path, id)
    ensures Recognize(url) == Some(id)
  {
    PathRecognized(path, id, [], []);
    HostRecognized(rest, [], page, HOST, path);
    SchemeRecognized(url, s, rest);
  }

  lemma PlainEnds(url: string, s: string, rest: string, page: string, path: string, id: string)
    requires PlainlySpelled(url, s, rest, page, path, id)
    ensures EndsWith(url, id) && |url| == 39 + |s| + |page| + |id| && url[0] == 'h'
  {
    assert path == id;
    EndIsKept(HOST, path, id);
    EndIsKept(page, HOST + path, id);
    assert rest == page + (HOST + path);
    EndIsKept("://", rest, id);
    EndIsKept(s, "://" + rest, id);
    EndIsKept("http", s + ("://" + rest), id);
  }

  lemma SpelledOut(s: string, page: string, id: string)
    requires Optional(s, "s") && Optional(page, "page.") && IsId(id)
    ensures
      var url := "http" + (s + ("://" + ([] + (page + (HOST + (id + ([] + [])))))));
      Recognize(url) == Some(id) && Strip(url) == url && |url| == 39 + |s| + |page| + |id|
  {
    var path := id + ([] + []);
    var rest := [] + (page + (HOST + path));
    var url := "http" + (s + ("://" + rest));
    PlainIsRecognized(url, s, rest, page, path, id);
    PlainEnds(url, s, rest, page, path, id);
    NotStripped(url, id);
  }

  lemma IdCharIsNoSpace(c: char)
    requires IsIdChar(c)
    ensures !IsSpace(c)
  {
  }

  lemma StripKeeps(url: string)
    requires url != [] && !IsSpace(url[0]) && !IsSpace(url[|url| - 1])
    ensures Strip(url) == url
  {
  }

  lemma NotStripped(url: string, id: string)
    requires IsId(id) && EndsWith(url, id) && url[0] == 'h'
    ensures Strip(url) == url
  {
    assert url[|url| - 1] == url[|url| - |id|..][|id| - 1];
    IdCharIsNoSpace(url[0]);
    IdCharIsNoSpace(url[|url| - 1]);
    StripKeeps(url);
  }

  lemma AcceptedHasId(url: string, canonical: string) returns (id: string)
    requires ValidateAuctionUrl(url) == Accepted(canonical)
    ensures IsId(id) && Recognize(Strip(url)) == Some(id) && canonical == Canonical(id)
  {
    id := Recognize(Strip(url)).value;
    RecognizeIffMatches(Strip(url), id);
  }

  lemma CanonicalIsPlain(id: string)
    requires IsId(id)
    ensures Recognize(Canonical(id)) == Some(id) && Strip(Canonical(id)) == Canonical(id)
  {
    SpelledOut("s", "page.", id);
  }

  lemma RecognizedIsAccepted(url: string, id: string)
    requires Recognize(url) == Some(id) && Strip(url) == url && |url| <= MAX_URL_LEN
    ensures ValidateAuctionUrl(url) == Accepted(Canonical(id)) && ExtractAuctionId(url) == Accepted(id)
  {
  }

  /** Canonicalization keeps the auction id. */
  lemma CanonicalFormKeepsId(url: string, canonical: string)
    requires ValidateAuctionUrl(url) == Accepted(canonical)
    ensures ExtractAuctionId(url).Accepted? && ExtractAuctionId(canonical) == ExtractAuctionId(url)
  {
    var id := AcceptedHasId(url, canonical);
    SpelledOut("s", "page.", id);
  }

  /** It is idempotent exactly as long as the canonical form itself is not too long. */
  lemma CanonicalFormIsFixedIff(url: string, canonical: string)
    requires ValidateAuctionUrl(url) == Accepted(canonical)
    ensures ValidateAuctionUrl(canonical) == Accepted(canonical) <==> |canonical| <= MAX_URL_LEN
  {
    var id := AcceptedHasId(url, canonical);
    SpelledOut("s", "page.", id);
  }

  /** The longest accepted short spelling has a canonical form that is refused. */
  lemma LongestUrlIsNotFixed() returns (url: string, canonical: string)
    ensures |url| == MAX_URL_LEN && ValidateAuctionUrl(url) == Accepted(canonical)
    ensures ValidateAuctionUrl(canonical) == TooLong
  {
    var id := seq(2009, _ => 'a');
    url := "http" + ([] + ("://" + ([] + ([] + (HOST + (id + ([] + [])))))));
    canonical := Canonical(id);
    SpelledOut([], [], id);
    SpelledOut("s", "page.", id);
    GrowsTooLong(url, canonical, id);
    hide *;
  }

  lemma GrowsTooLong(url: string, canonical: string, id: string)
    requires Recognize(url) == Some(id) && Strip(url) == url && |url| <= MAX_URL_LEN
    requires canonical == Canonical(id) && Strip(canonical) == canonical && |canonical| > MAX_URL_LEN
    ensures ValidateAuctionUrl(url) == Accepted(canonical) && ValidateAuctionUrl(canonical) == TooLong
  {
    hide Recognize, Strip, Canonical;
  }

  // ---------------------------------------------------------------- the accepted URLs, spelled out

  /** White space, character by character. */
  lemma SpaceIsOneOf(c: char)
    ensures IsSpace(c) <==> c as int in {
      9, 10, 11, 12, 13, 28, 29, 30, 31, 32, 133, 160, 5760,
      8192, 8193, 8194, 8195, 8196, 8197, 8198, 8199, 8200, 8201, 8202, 8232, 8233, 8239, 8287, 12288}
  {
  }

  /** `text` is `t` between white space. */
  predicate Padded(text: string, front: string, t: string, back: string) {
    Blank(front) && Blank(back) && text == front + t + back
  }

  predicate Blank(text: string) { forall k :: 0 <= k < |text| ==> IsSpace(text[k]) }

  lemma {:induction false} StripTrims(text: string) returns (front: string, back: string)
    ensures Padded(text, front, Strip(text), back)
    ensures Strip(text) == "" || (!IsSpace(Strip(text)[0]) && !IsSpace(Strip(text)[|Strip(text)| - 1]))
    decreases |text|
  {
    front, back := "", "";
    if text != [] && IsSpace(text[0]) {
      front, back := StripTrims(text[1..]);
      front := [text[0]] + front;
    } else if text != [] && IsSpace(text[|text| - 1]) {
      var n := |text| - 1;
      front, back := StripTrims(text[..n]);
      PaddedMore(text, front, Strip(text[..n]), back);
      back := back + [text[n]];
    }
  }

  lemma PaddedMore(text: string, front: string, t: string, back: string)
    requires text != [] && IsSpace(text[|text| - 1]) && Padded(text[..|text| - 1], front, t, back)
    ensures Padded(text, front, t, back + [text[|text| - 1]])
  {
    assert front + t + (back + [text[|text| - 1]]) == text[..|text| - 1] + [text[|text| - 1]];
  }

  /** `t` is a page of the auction `id`, in one of the spellings that are allowed. */
  predicate PageOf(t: string, id: string, s: string, www: string, page: string, slash: string, query: string) {
    && id != "" && (forall k :: 0 <= k < |id| ==> 'a' <= id[k] <= 'z' || 'A' <= id[k] <= 'Z' || '0' <= id[k] <= '9')
    && s in ["", "s"] && www in ["", "www."] && page in ["", "page."] && slash in ["", "/"]
    && (query == "" || (query[0] == '?' && '\n' !in query))
    && t == "http" + (s + ("://" + (www + (page + ("auctions.yahoo.co.jp/jp/auction/" + (id + (slash + query)))))))
  }

  lemma PageParts(t: string, id: string, s: string, www: string, page: string, slash: string, query: string,
                  rest: string, path: string)
    requires path == id + (slash + query) && rest == www + (page + (HOST + path))
    ensures PageOf(t, id, s, www, page, slash, query) <==> Spelled(t, s, rest, www, page, path, id, slash, query)
  {
  }

  lemma PageIsSpelled(t: string, id: string, s: string, www: string, page: string, slash: string, query: string)
    requires PageOf(t, id, s, www, page, slash, query)
    ensures Recognize(t) == Some(id)
  {
    var path := id + (slash + query);
    var rest := www + (page + (HOST + path));
    PageParts(t, id, s, www, page, slash, query, rest, path);
    SpelledIsRecognized(t, s, rest, www, page, path, id, slash, query);
    hide *;
  }

  lemma RecognizedIsPage(t: string, id: string)
    returns (s: string, www: string, page: string, slash: string, query: string)
    requires Recognize(t) == Some(id)
    ensures PageOf(t, id, s, www, page, slash, query)
  {
    var rest, path;
    s, rest, www, page, path, slash, query := RecognizedIsSpelled(t, id);
    PageParts(t, id, s, www, page, slash, query, rest, path);
    hide PageOf, Recognize;
  }

  /** A text is accepted exactly if, without the white space around it, it has at most 2048 characters and is a page of
      an auction in one of the allowed spellings, and what is made of it is the one canonical form of that page. */
  lemma AcceptedIff(text: string, canonical: string)
    ensures ValidateAuctionUrl(text) == Accepted(canonical) <==>
      && |Strip(text)| <= 2048
      && exists id: string, s: string, www: string, page: string, slash: string, query: string ::
           && PageOf(Strip(text), id, s, www, page, slash, query)
           && canonical == "https://" + ("page." + ("auctions.yahoo.co.jp/jp/auction/" + id))
    ensures |Strip(text)| > 2048 <==> ValidateAuctionUrl(text) == TooLong
  {
    var t := Strip(text);
    if |t| <= 2048 && Recognize(t).Some? {
      var id := Recognize(t).value;
      var s, www, page, slash, query := RecognizedIsPage(t, id);
      CanonicalSpelled(id);
    }
    forall id, s, www, page, slash, query | PageOf(t, id, s, www, page, slash, query)
      ensures Recognize(t) == Some(id)
      ensures Canonical(id) == "https://" + ("page." + ("auctions.yahoo.co.jp/jp/auction/" + id))
    {
      PageIsSpelled(t, id, s, www, page, slash, query);
      CanonicalSpelled(id);
    }
    hide Strip, Recognize, PageOf, Canonical;
  }

  lemma CanonicalSpelled(id: string)
    ensures Canonical(id) == "https://" + ("page." + ("auctions.yahoo.co.jp/jp/auction/" + id))
  {
    NothingAround(id);
    Regroup("http", "s", "://", "page." + (HOST + id));
    assert "http" + ("s" + "://") == "https://";
    hide Canonical;
  }

  lemma NothingAround(id: string)
    ensures Canonical(id) == "http" + ("s" + ("://" + ("page." + (HOST + id))))
  {
    assert id + ([] + []) == id;
    assert [] + ("page." + (HOST + id)) == "page." + (HOST + id);
  }

  lemma Regroup(a: string, b: string, c: string, d: string)
    ensures a + (b + (c + d)) == (a + (b + c)) + d
  {
  }
}
