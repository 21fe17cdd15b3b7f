/** The Confluence space connector of the collector: it classifies a space
    URL into one of three shapes, derives the REST base address from it,
    asks the page loader for every page of the space and writes one
    document per non-empty page into a fresh destination folder.

    The page loader, the clock, `uuid`, `slugify`, the tokenizer and the
    file writes are outside this module: the loader and the helpers are
    parameters, and the writes are returned as the sequence of entries the
    connector hands to the document store, in order. */
module Confluence {

  import opened Common
  import opened Text
  import opened UrlPattern

  const Https := "https://"
  /** What follows the subdomain in an Atlassian-hosted space URL. */
  const AtlassianPath := ".atlassian.net/wiki/spaces/"
  /** What follows the host in a custom-domain space URL. */
  const WikiSpacesPath := "/wiki/spaces/"
  /** What follows the host in a human-readable space URL. */
  const DisplayPath := "/display/"

  const CredentialsReason := "You need either a username and access token, or a personal access token (PAT), to use the Confluence connector."
  const FormatReason := "Confluence space URL is not in the expected format of one of https://domain.atlassian.net/wiki/space/~SPACEID/* or https://customDomain/wiki/space/~SPACEID/* or https://customDomain/display/~SPACEID/*"
  const NoPagesReason := "No pages found for that Confluence space."
  /** The framing the page loader puts around the messages of its errors. */
  const ErrorMarker := "Error:"

  // ---------------------------------------------------------------------
  // Space URL shapes

  /** The captures of a space URL pattern (`wildcard` is what `*` matched)
      and, for the two custom-domain shapes, the host they compose. */
  datatype SpaceMatch = SpaceMatch(
    subdomain: Option<string>,
    domain: Option<string>,
    tld: Option<string>,
    spaceKey: Option<string>,
    wildcard: string,
    customDomain: Option<string>)

  /** What `validSpaceUrl` returns; `humanReadable` is absent for the
      Atlassian shape, false for `/wiki/spaces/` and true for `/display/`. */
  datatype SpaceValidation = SpaceValidation(
    valid: bool,
    result: Option<SpaceMatch>,
    humanReadable: Option<bool>)

  /** The host of a custom-domain space URL: `(:subdomain.):domain.:tld`. */
  datatype Host = Host(subdomain: Option<string>, domain: string, tld: string)

  /** Captures a matcher can produce: each part is a run of value characters. */
  predicate WellFormedHost(h: Host)
  {
    IsCapture(h.subdomain) && IsSegmentValue(h.domain) && IsSegmentValue(h.tld)
  }

  /** `generateCustomDomain`: `domain.tld`, with `subdomain.` in front when
      there is a subdomain. */
  function GenerateCustomDomain(subdomain: Option<string>, domain: Option<string>, tld: Option<string>): (host: string)
    ensures var domainTld := Interpolate(domain) + "." + Interpolate(tld);
      && |host| == |domainTld| + (if Truthy(subdomain) then |subdomain.value| + 1 else 0)
      && host[|host| - |domainTld|..] == domainTld
      && (Truthy(subdomain) ==> subdomain.value + "." <= host)
  {
    (if Truthy(subdomain) then subdomain.value + "." else "") + (Interpolate(domain) + "." + Interpolate(tld))
  }

  /** The text of a host. */
  function HostText(h: Host): string
  {
    GenerateCustomDomain(h.subdomain, Some(h.domain), Some(h.tld))
  }

  /** The host name splits on its dots back into the parts it was built from. */
  lemma CustomDomainSplitsIntoParts(h: Host)
    requires WellFormedHost(h)
    ensures SplitOn(HostText(h), ".") ==
      (if h.subdomain.Some? then [h.subdomain.value] else []) + [h.domain, h.tld]
  {
    DotFree(h.domain);
    DotFree(h.tld);
    match h.subdomain
    case None =>
      DomainTldSplits(h.domain, h.tld);
    case Some(sub) =>
      DotFree(sub);
      SubdomainSplitsOff(sub, h.domain, h.tld);
  }

  /** `domain.tld` splits into its two parts. */
  lemma DomainTldSplits(domain: string, tld: string)
    requires '.' !in domain && '.' !in tld
    ensures SplitOn(GenerateCustomDomain(None, Some(domain), Some(tld)), ".") == [domain, tld]
  {
    assert GenerateCustomDomain(None, Some(domain), Some(tld)) == domain + ("." + tld);
    SplitPair(domain, '.', tld);
  }

  /** `subdomain.domain.tld` splits into its three parts (a subdomain that
      is empty text is falsy and left out of the host). */
  lemma SubdomainSplitsOff(sub: string, domain: string, tld: string)
    requires sub != "" && '.' !in sub && '.' !in domain && '.' !in tld
    ensures SplitOn(GenerateCustomDomain(Some(sub), Some(domain), Some(tld)), ".") == [sub, domain, tld]
  {
    var domainTld := domain + ("." + tld);
    assert GenerateCustomDomain(Some(sub), Some(domain), Some(tld)) == sub + ("." + domainTld);
    SplitPair(domain, '.', tld);
    SplitAfterFree(sub, '.', domainTld);
  }

  /** A segment value has no dot. */
  lemma DotFree(part: string)
    requires IsSegmentValue(part)
    ensures '.' !in part
  {
    forall i | 0 <= i < |part| ensures part[i] != '.' {
      assert IsValueChar(part[i]);
    }
  }

  /** `https\://(:subdomain).atlassian.net/wiki/spaces/(:spaceKey)*` */
  function MatchAtlassian(url: string): (r: Option<SpaceMatch>)
    ensures r.Some? ==> Https <= url
    ensures r.Some? ==> r.value.domain.None? && r.value.tld.None? && r.value.customDomain.None?
    ensures r.Some? ==> IsCapture(r.value.subdomain) && IsCapture(r.value.spaceKey) && LineFree(r.value.wildcard)
  {
    var afterScheme :- Strip(Https, url);
    var (subdomain, afterSubdomain) := OptionalSegment(afterScheme);
    var afterPath :- Strip(AtlassianPath, afterSubdomain);
    var (spaceKey, tail) := OptionalSegment(afterPath);
    if LineFree(tail) then Some(SpaceMatch(subdomain, None, None, spaceKey, tail, None)) else None
  }

  /** `(:subdomain.):domain.:tld` at the front of `s`, and what follows the host. */
  function ParseHost(s: string): (r: Option<(Host, string)>)
    ensures r.Some? ==> WellFormedHost(r.value.0) && StopsCapture(r.value.1)
  {
    var (first, afterFirst) := OptionalSegment(s);
    if first.None? then None
    else
      var afterDot :- Strip(".", afterFirst);
      var (second, afterSecond) := OptionalSegment(afterDot);
      if second.None? then None
      else if Strip(".", afterSecond).Some? then
        var (third, afterThird) := OptionalSegment(afterSecond[1..]);
        if third.None? then None
        else Some((Host(first, second.value, third.value), afterThird))
      else Some((Host(None, first.value, second.value), afterSecond))
  }

  /** `https\://(:subdomain.):domain.:tld` at the front of `url`, and what follows. */
  function SchemeAndHost(url: string): Option<(Host, string)>
  {
    var afterScheme :- Strip(Https, url);
    ParseHost(afterScheme)
  }

  /** `https\://(:subdomain.):domain.:tld<path>(:spaceKey)*` */
  function MatchHosted(url: string, path: string): (r: Option<SpaceMatch>)
    ensures r.Some? ==> Https <= url
    ensures r.Some? ==> r.value.domain.Some? && r.value.tld.Some? && r.value.customDomain.None?
    ensures r.Some? ==>
      && WellFormedHost(Host(r.value.subdomain, r.value.domain.value, r.value.tld.value))
      && IsCapture(r.value.spaceKey) && LineFree(r.value.wildcard)
  {
    var parsed :- SchemeAndHost(url);
    var afterPath :- Strip(path, parsed.1);
    var (spaceKey, tail) := OptionalSegment(afterPath);
    var host := parsed.0;
    if LineFree(tail) then Some(SpaceMatch(host.subdomain, Some(host.domain), Some(host.tld), spaceKey, tail, None)) else None
  }

  /** The space URL the Atlassian pattern reads the given captures from. */
  function AtlassianUrl(subdomain: Option<string>, spaceKey: Option<string>, tail: string): string
  {
    Https + (TextOf(subdomain) + (AtlassianPath + (TextOf(spaceKey) + tail)))
  }

  /** The space URL a custom-domain pattern reads the given captures from. */
  function HostedUrl(h: Host, path: string, spaceKey: Option<string>, tail: string): string
  {
    Https + (HostText(h) + (path + (TextOf(spaceKey) + tail)))
  }

  /** What the Atlassian pattern matches is a URL built from its captures. */
  lemma AtlassianMatchIsUrl(url: string)
    requires MatchAtlassian(url).Some?
    ensures var m := MatchAtlassian(url).value;
      && IsCapture(m.subdomain) && IsCapture(m.spaceKey) && StopsCapture(m.wildcard) && LineFree(m.wildcard)
      && m.domain.None? && m.tld.None? && m.customDomain.None?
      && url == AtlassianUrl(m.subdomain, m.spaceKey, m.wildcard)
  {
    var afterScheme := Strip(Https, url).value;
    var (subdomain, afterSubdomain) := OptionalSegment(afterScheme);
    var afterPath := Strip(AtlassianPath, afterSubdomain).value;
    var (spaceKey, tail) := OptionalSegment(afterPath);
    assert MatchAtlassian(url) == Some(SpaceMatch(subdomain, None, None, spaceKey, tail, None));
    assert url == Https + afterScheme;
    assert afterScheme == TextOf(subdomain) + afterSubdomain;
    assert afterSubdomain == AtlassianPath + afterPath;
    assert afterPath == TextOf(spaceKey) + tail;
    assert url == Https + (TextOf(subdomain) + (AtlassianPath + (TextOf(spaceKey) + tail)));
  }

  /** Every URL built from well-formed captures and a wildcard text without
      line terminators matches the Atlassian pattern with exactly those
      captures. */
  lemma AtlassianUrlMatches(subdomain: Option<string>, spaceKey: Option<string>, tail: string)
    requires IsCapture(subdomain) && IsCapture(spaceKey) && StopsCapture(tail) && LineFree(tail)
    ensures MatchAtlassian(AtlassianUrl(subdomain, spaceKey, tail)) ==
      Some(SpaceMatch(subdomain, None, None, spaceKey, tail, None))
  {
    var afterPath := TextOf(spaceKey) + tail;
    var afterSubdomain := AtlassianPath + afterPath;
    var afterScheme := TextOf(subdomain) + afterSubdomain;
    StripFront(Https, afterScheme);
    assert StopsCapture(afterSubdomain) by {
      assert afterSubdomain[0] == '.';
    }
    OptionalSegmentOf(subdomain, afterSubdomain);
    StripFront(AtlassianPath, afterPath);
    OptionalSegmentOf(spaceKey, tail);
  }

  /** The text of a host followed by more text, grouped from the right. */
  lemma HostTextThen(h: Host, rest: string)
    requires IsCapture(h.subdomain)
    ensures var tldRest := h.domain + ("." + (h.tld + rest));
      HostText(h) + rest == if h.subdomain.Some? then h.subdomain.value + ("." + tldRest) else tldRest
  {
    var domainTld := h.domain + "." + h.tld;
    assert domainTld + rest == h.domain + ("." + (h.tld + rest));
    if h.subdomain.Some? {
      assert HostText(h) + rest == h.subdomain.value + ("." + (domainTld + rest));
    } else {
      assert HostText(h) + rest == "" + (domainTld + rest);
    }
  }

  /** What `ParseHost` reads is a well-formed host followed by the rest. */
  lemma ParseHostIsHost(s: string)
    requires ParseHost(s).Some?
    ensures var (h, rest) := ParseHost(s).value;
      WellFormedHost(h) && StopsCapture(rest) && s == HostText(h) + rest
  {
    var (first, afterFirst) := OptionalSegment(s);
    var afterDot := Strip(".", afterFirst).value;
    var (second, afterSecond) := OptionalSegment(afterDot);
    assert s == first.value + ("." + (second.value + afterSecond));
    if Strip(".", afterSecond).Some? {
      var (third, afterThird) := OptionalSegment(afterSecond[1..]);
      var h := Host(first, second.value, third.value);
      assert ParseHost(s) == Some((h, afterThird));
      assert afterSecond == "." + (third.value + afterThird);
      HostTextThen(h, afterThird);
    } else {
      var h := Host(None, first.value, second.value);
      assert ParseHost(s) == Some((h, afterSecond));
      HostTextThen(h, afterSecond);
    }
  }

  /** A well-formed host followed by text that starts neither a capture nor a
      dot is read back by `ParseHost` as that host. */
  lemma ParseHostOf(h: Host, rest: string)
    requires WellFormedHost(h) && StopsCapture(rest) && (rest == [] || rest[0] != '.')
    ensures ParseHost(HostText(h) + rest) == Some((h, rest))
  {
    HostTextThen(h, rest);
    var tldRest := h.tld + rest;
    var afterDomain := "." + tldRest;
    StripFront(".", tldRest);
    assert afterDomain[1..] == tldRest;
    OptionalSegmentOf(Some(h.domain), afterDomain);
    OptionalSegmentOf(Some(h.tld), rest);
    assert Strip(".", rest).None?;
    match h.subdomain
    case None =>
    case Some(sub) =>
      var domainRest := h.domain + afterDomain;
      OptionalSegmentOf(Some(sub), "." + domainRest);
      StripFront(".", domainRest);
  }

  /** What a custom-domain pattern matches is a URL built from its captures. */
  lemma HostedMatchIsUrl(url: string, path: string)
    requires MatchHosted(url, path).Some?
    ensures var m := MatchHosted(url, path).value;
      && m.domain.Some? && m.tld.Some? && m.customDomain.None?
      && var h := Host(m.subdomain, m.domain.value, m.tld.value);
      && WellFormedHost(h) && IsCapture(m.spaceKey) && StopsCapture(m.wildcard) && LineFree(m.wildcard)
      && url == HostedUrl(h, path, m.spaceKey, m.wildcard)
  {
    var afterScheme := Strip(Https, url).value;
    ParseHostIsHost(afterScheme);
    var (h, afterHost) := ParseHost(afterScheme).value;
    var afterPath := Strip(path, afterHost).value;
    var (spaceKey, tail) := OptionalSegment(afterPath);
    assert url == Https + (HostText(h) + (path + (TextOf(spaceKey) + tail)));
  }

  /** Every URL built from well-formed captures, a path that starts with a
      slash and a wildcard text without line terminators matches that
      custom-domain pattern with exactly those captures. */
  lemma HostedUrlMatches(h: Host, path: string, spaceKey: Option<string>, tail: string)
    requires WellFormedHost(h) && IsCapture(spaceKey) && StopsCapture(tail) && LineFree(tail)
    requires path != [] && path[0] == '/'
    ensures MatchHosted(HostedUrl(h, path, spaceKey, tail), path) ==
      Some(SpaceMatch(h.subdomain, Some(h.domain), Some(h.tld), spaceKey, tail, None))
  {
    var afterPath := TextOf(spaceKey) + tail;
    var afterHost := path + afterPath;
    StripFront(Https, HostText(h) + afterHost);
    assert afterHost[0] == '/';
    ParseHostOf(h, afterHost);
    StripFront(path, afterPath);
    OptionalSegmentOf(spaceKey, tail);
  }

  /** `validSpaceUrl`: the Atlassian shape is tried first, then the custom
      `/wiki/spaces/` shape, then the human-readable `/display/` shape; the
      first that matches wins. */
  function ValidSpaceUrl(spaceUrl: string): (v: SpaceValidation)
    ensures v.valid <==> v.result.Some?
    ensures v.valid <==>
      MatchAtlassian(spaceUrl).Some? || MatchHosted(spaceUrl, WikiSpacesPath).Some? || MatchHosted(spaceUrl, DisplayPath).Some?
    ensures v.result.Some? ==> (Truthy(v.result.value.customDomain) <==> v.humanReadable.Some?)
    ensures v.result.Some? ==> spaceUrl == SpaceUrlOf(v.result.value, v.humanReadable)
  {
    var atlassian := MatchAtlassian(spaceUrl);
    if atlassian.Some? then
      AtlassianMatchIsUrl(spaceUrl);
      SpaceValidation(true, atlassian, None)
    else
      var custom := MatchHosted(spaceUrl, WikiSpacesPath);
      if custom.Some? then
        HostedMatchIsUrl(spaceUrl, WikiSpacesPath);
        SpaceValidation(true, Some(WithCustomDomain(custom.value)), Some(false))
      else
        var humanReadable := MatchHosted(spaceUrl, DisplayPath);
        if humanReadable.Some? then
          HostedMatchIsUrl(spaceUrl, DisplayPath);
          SpaceValidation(true, Some(WithCustomDomain(humanReadable.value)), Some(true))
        else SpaceValidation(false, None, None)
  }

  /** The match with `customDomain` set from its own captures. */
  function WithCustomDomain(m: SpaceMatch): SpaceMatch
  {
    m.(customDomain := Some(GenerateCustomDomain(m.subdomain, m.domain, m.tld)))
  }

  /** The space URL a validation result was read from. */
  function SpaceUrlOf(m: SpaceMatch, humanReadable: Option<bool>): string
  {
    match humanReadable
    case None => AtlassianUrl(m.subdomain, m.spaceKey, m.wildcard)
    case Some(display) =>
      var path := if display then DisplayPath else WikiSpacesPath;
      Https + (TextOf(m.customDomain) + (path + (TextOf(m.spaceKey) + m.wildcard)))
  }

  /** The shapes overlap: an Atlassian-hosted URL with a subdomain also fits
      the custom `/wiki/spaces/` shape (domain `atlassian`, tld `net`), and
      because the Atlassian shape is tried first the result carries no
      custom domain. */
  lemma AtlassianShapeWinsOverCustom(subdomain: string, spaceKey: Option<string>, tail: string)
    requires IsSegmentValue(subdomain) && IsCapture(spaceKey) && StopsCapture(tail) && LineFree(tail)
    ensures var url := AtlassianUrl(Some(subdomain), spaceKey, tail);
      && MatchHosted(url, WikiSpacesPath).Some?
      && ValidSpaceUrl(url) == SpaceValidation(true, Some(SpaceMatch(Some(subdomain), None, None, spaceKey, tail, None)), None)
  {
    var h := Host(Some(subdomain), "atlassian", "net");
    AtlassianUrlIsHostedUrl(subdomain, spaceKey, tail);
    HostedUrlMatches(h, WikiSpacesPath, spaceKey, tail);
    AtlassianUrlMatches(Some(subdomain), spaceKey, tail);
  }

  /** An Atlassian-hosted URL with a subdomain, read as a custom-domain URL. */
  lemma AtlassianUrlIsHostedUrl(subdomain: string, spaceKey: Option<string>, tail: string)
    requires IsSegmentValue(subdomain)
    ensures WellFormedHost(Host(Some(subdomain), "atlassian", "net"))
    ensures HostedUrl(Host(Some(subdomain), "atlassian", "net"), WikiSpacesPath, spaceKey, tail)
         == AtlassianUrl(Some(subdomain), spaceKey, tail)
  {
    AtlassianIsSegment();
    AtlassianPathParts();
    var h := Host(Some(subdomain), "atlassian", "net");
    var rest := WikiSpacesPath + (TextOf(spaceKey) + tail);
    HostTextThen(h, rest);
    assert HostText(h) + rest == subdomain + ("." + ("atlassian" + ("." + ("net" + rest))));
    assert "." + ("atlassian" + ("." + ("net" + rest))) == AtlassianPath + (TextOf(spaceKey) + tail);
  }

  /** The Atlassian path starts with the host `.atlassian.net`. */
  lemma AtlassianPathParts()
    ensures AtlassianPath == "." + ("atlassian" + ("." + ("net" + WikiSpacesPath)))
  {
  }

  /** `atlassian` and `net` are segment values: a domain and a tld. */
  lemma AtlassianIsSegment()
    ensures IsSegmentValue("atlassian") && IsSegmentValue("net")
  {
    var d := "atlassian";
    assert forall i :: 0 <= i < |d| ==> 'a' <= d[i] <= 'z';
  }

  /** No URL fits both the custom `/wiki/spaces/` shape and the
      human-readable `/display/` shape. */
  lemma WikiAndDisplayShapesAreDisjoint(url: string)
    ensures !(MatchHosted(url, WikiSpacesPath).Some? && MatchHosted(url, DisplayPath).Some?)
  {
    HostedMatchNeedsPath(url, WikiSpacesPath);
    HostedMatchNeedsPath(url, DisplayPath);
    SlashPathsDiffer(SchemeAndHost(url));
  }

  /** Text after a host cannot start with both paths. */
  lemma SlashPathsDiffer(parsed: Option<(Host, string)>)
    ensures parsed.Some? ==> !(WikiSpacesPath <= parsed.value.1 && DisplayPath <= parsed.value.1)
  {
    if parsed.Some? {
      PathsDifferAt(WikiSpacesPath, DisplayPath, parsed.value.1, 1);
    }
  }

  /** A custom-domain match has the path right after the host. */
  lemma HostedMatchNeedsPath(url: string, path: string)
    ensures MatchHosted(url, path).Some? ==>
      SchemeAndHost(url).Some? && path <= SchemeAndHost(url).value.1
  {
  }

  /** No text starts with two literals that differ at some position. */
  lemma PathsDifferAt(a: string, b: string, s: string, i: nat)
    requires i < |a| && i < |b| && a[i] != b[i]
    ensures !(a <= s && b <= s)
  {
  }

  /** A space URL with a line terminator anywhere in it is refused: the
      captures and literals have none, and the trailing wildcard matches none. */
  lemma ValidUrlIsLineFree(url: string)
    requires ValidSpaceUrl(url).valid
    ensures LineFree(url)
  {
    if MatchAtlassian(url).Some? {
      var m := MatchAtlassian(url).value;
      AtlassianMatchIsUrl(url);
      CaptureIsLineFree(m.subdomain);
      CaptureIsLineFree(m.spaceKey);
      LiteralsAreLineFree();
      LineFreeConcat(TextOf(m.spaceKey), m.wildcard);
      LineFreeConcat(AtlassianPath, TextOf(m.spaceKey) + m.wildcard);
      LineFreeConcat(TextOf(m.subdomain), AtlassianPath + (TextOf(m.spaceKey) + m.wildcard));
      LineFreeConcat(Https, TextOf(m.subdomain) + (AtlassianPath + (TextOf(m.spaceKey) + m.wildcard)));
    } else if MatchHosted(url, WikiSpacesPath).Some? {
      HostedUrlIsLineFree(url, WikiSpacesPath);
    } else {
      HostedUrlIsLineFree(url, DisplayPath);
    }
  }

  /** A URL a custom-domain pattern matches has no line terminator. */
  lemma HostedUrlIsLineFree(url: string, path: string)
    requires path == WikiSpacesPath || path == DisplayPath
    requires MatchHosted(url, path).Some?
    ensures LineFree(url)
  {
    var m := MatchHosted(url, path).value;
    var h := Host(m.subdomain, m.domain.value, m.tld.value);
    HostedMatchIsUrl(url, path);
    HostTextIsLineFree(h);
    CaptureIsLineFree(m.spaceKey);
    LiteralsAreLineFree();
    LineFreeConcat(TextOf(m.spaceKey), m.wildcard);
    LineFreeConcat(path, TextOf(m.spaceKey) + m.wildcard);
    LineFreeConcat(HostText(h), path + (TextOf(m.spaceKey) + m.wildcard));
    LineFreeConcat(Https, HostText(h) + (path + (TextOf(m.spaceKey) + m.wildcard)));
  }

  /** A host built from captures has no line terminator. */
  lemma HostTextIsLineFree(h: Host)
    requires WellFormedHost(h)
    ensures LineFree(HostText(h))
  {
    LiteralsAreLineFree();
    CaptureIsLineFree(h.subdomain);
    CaptureIsLineFree(Some(h.domain));
    CaptureIsLineFree(Some(h.tld));
    LineFreeConcat(h.domain, ".");
    LineFreeConcat(h.domain + ".", h.tld);
    if Truthy(h.subdomain) {
      LineFreeConcat(h.subdomain.value, ".");
      LineFreeConcat(h.subdomain.value + ".", h.domain + "." + h.tld);
      assert HostText(h) == h.subdomain.value + "." + (h.domain + "." + h.tld);
    } else {
      assert HostText(h) == "" + (h.domain + "." + h.tld);
    }
  }

  /** The literal parts of the three patterns have no line terminator. */
  lemma LiteralsAreLineFree()
    ensures LineFree(Https) && LineFree(AtlassianPath) && LineFree(WikiSpacesPath)
    ensures LineFree(DisplayPath) && LineFree(".")
  {
  }

  /** The result of `validSpaceUrl` is the match of the first pattern that
      matches, in the order Atlassian, custom `/wiki/spaces/`, `/display/`;
      the two custom shapes carry the generated custom domain. */
  lemma ValidSpaceUrlTakesFirstMatch(url: string)
    ensures MatchAtlassian(url).Some? ==>
      ValidSpaceUrl(url) == SpaceValidation(true, MatchAtlassian(url), None)
    ensures MatchAtlassian(url).None? && MatchHosted(url, WikiSpacesPath).Some? ==>
      ValidSpaceUrl(url) == SpaceValidation(true, Some(WithCustomDomain(MatchHosted(url, WikiSpacesPath).value)), Some(false))
    ensures MatchAtlassian(url).None? && MatchHosted(url, WikiSpacesPath).None? && MatchHosted(url, DisplayPath).Some? ==>
      ValidSpaceUrl(url) == SpaceValidation(true, Some(WithCustomDomain(MatchHosted(url, DisplayPath).value)), Some(true))
    ensures MatchAtlassian(url).None? && MatchHosted(url, WikiSpacesPath).None? && MatchHosted(url, DisplayPath).None? ==>
      ValidSpaceUrl(url) == SpaceValidation(false, None, None)
  {
  }

  /** A validated space URL is the human-readable shape exactly when it fits
      the `/display/` pattern and neither of the two patterns tried before it. */
  lemma HumanReadableOnlyForDisplay(url: string)
    ensures ValidSpaceUrl(url).humanReadable == Some(true) <==>
      MatchAtlassian(url).None? && MatchHosted(url, WikiSpacesPath).None? && MatchHosted(url, DisplayPath).Some?
  {
  }

  // ---------------------------------------------------------------------
  // Base address

  /** The base address the page loader is given: for the custom shapes the
      custom domain, otherwise the Atlassian host of the subdomain; `/wiki`
      after it unless the URL is human-readable. */
  function BaseUrl(m: SpaceMatch, humanReadable: Option<bool>): (base: string)
    ensures Https <= base
    ensures humanReadable != Some(true) ==> |base| >= 5 && base[|base| - 5..] == "/wiki"
  {
    var subpath := if humanReadable == Some(true) then "" else "/wiki";
    if Truthy(m.customDomain) then Https + m.customDomain.value + subpath
    else Https + Interpolate(m.subdomain) + ".atlassian.net" + subpath
  }

  /** The base address by shape: `https://{subdomain}.atlassian.net/wiki`,
      `https://{customDomain}/wiki` and `https://{customDomain}`; and the
      space URL is that base address followed by the space path, whenever
      the subdomain of an Atlassian URL is present. */
  lemma BaseUrlLocatesSpace(url: string)
    requires ValidSpaceUrl(url).valid
    ensures var v := ValidSpaceUrl(url);
      var m := v.result.value;
      && (v.humanReadable == None ==>
            BaseUrl(m, None) == Https + Interpolate(m.subdomain) + ".atlassian.net/wiki")
      && (v.humanReadable == Some(false) ==>
            BaseUrl(m, v.humanReadable) == Https + GenerateCustomDomain(m.subdomain, m.domain, m.tld) + "/wiki")
      && (v.humanReadable == Some(true) ==>
            BaseUrl(m, v.humanReadable) == Https + GenerateCustomDomain(m.subdomain, m.domain, m.tld))
      && (v.humanReadable.Some? || m.subdomain.Some? ==>
            url == BaseUrl(m, v.humanReadable) + (if v.humanReadable == Some(true) then DisplayPath else "/spaces/")
                     + TextOf(m.spaceKey) + m.wildcard)
  {
    var v := ValidSpaceUrl(url);
    BaseUrlThenSpacePath(v.result.value, v.humanReadable);
  }

  /** The subdomain of the Atlassian shape is optional: a URL without one is
      accepted, and the template literal then writes `undefined` into the
      base address. */
  lemma MissingSubdomainRendersUndefined(spaceKey: Option<string>, tail: string)
    requires IsCapture(spaceKey) && StopsCapture(tail) && LineFree(tail)
    ensures var v := ValidSpaceUrl(AtlassianUrl(None, spaceKey, tail));
      && v.valid && v.humanReadable.None? && v.result.value.subdomain.None?
      && BaseUrl(v.result.value, None) == "https://undefined.atlassian.net/wiki"
  {
    AtlassianUrlMatches(None, spaceKey, tail);
    var m := SpaceMatch(None, None, None, spaceKey, tail, None);
    assert ValidSpaceUrl(AtlassianUrl(None, spaceKey, tail)) == SpaceValidation(true, Some(m), None);
    UndefinedSubdomainBase(m);
  }

  /** The base address of an Atlassian match without a subdomain. */
  lemma UndefinedSubdomainBase(m: SpaceMatch)
    requires m.subdomain.None? && m.customDomain.None?
    ensures BaseUrl(m, None) == "https://undefined.atlassian.net/wiki"
  {
    assert Interpolate(m.subdomain) == "undefined";
  }

  /** The space URL of a match is its base address followed by the space path. */
  lemma BaseUrlThenSpacePath(m: SpaceMatch, humanReadable: Option<bool>)
    requires Truthy(m.customDomain) <==> humanReadable.Some?
    ensures humanReadable == None ==>
      BaseUrl(m, None) == Https + Interpolate(m.subdomain) + ".atlassian.net/wiki"
    ensures humanReadable.Some? ==>
      BaseUrl(m, humanReadable) == Https + m.customDomain.value + (if humanReadable == Some(true) then "" else "/wiki")
    ensures humanReadable.Some? || m.subdomain.Some? ==>
      SpaceUrlOf(m, humanReadable) == BaseUrl(m, humanReadable) + (if humanReadable == Some(true) then DisplayPath else "/spaces/")
        + TextOf(m.spaceKey) + m.wildcard
  {
    var rest := TextOf(m.spaceKey) + m.wildcard;
    match humanReadable
    case None =>
      if m.subdomain.Some? {
        SplitAtlassianPath(m.subdomain.value, rest);
      }
    case Some(true) =>
      Regroup(Https, m.customDomain.value, DisplayPath, rest);
    case Some(false) =>
      SplitWikiSpacesPath(Https + m.customDomain.value, rest);
  }

  /** The custom `/wiki/spaces/` URL split after its base address. */
  lemma SplitWikiSpacesPath(base: string, rest: string)
    ensures base + (WikiSpacesPath + rest) == base + "/wiki" + "/spaces/" + rest
  {
    assert WikiSpacesPath == "/wiki" + "/spaces/";
    Regroup(base, "/wiki", "/spaces/", rest);
  }

  /** Concatenation regrouped from the right to the left. */
  lemma Regroup(a: string, b: string, c: string, d: string)
    ensures a + (b + (c + d)) == a + b + c + d
  {
  }

  /** The Atlassian space URL split after its base address. */
  lemma SplitAtlassianPath(subdomain: string, rest: string)
    ensures Https + (subdomain + (AtlassianPath + rest))
         == Https + subdomain + ".atlassian.net/wiki" + "/spaces/" + rest
  {
    assert AtlassianPath == ".atlassian.net/wiki" + "/spaces/";
    Regroup(Https, subdomain, AtlassianPath, rest);
  }

  // ---------------------------------------------------------------------
  // Loader error messages

  /** `e.message?.split("Error:")?.[1] || e.message`: the text after the
      first marker, up to the next one, if that text is non-empty; otherwise
      the whole message. */
  function ErrorText(message: Option<string>): (reason: Option<string>)
    ensures reason.None? <==> message.None?
    ensures reason.Some? && reason.value == "" ==> message == Some("")
  {
    match message
    case None => None
    case Some(m) =>
      var pieces := SplitOn(m, ErrorMarker);
      if |pieces| > 1 && pieces[1] != "" then Some(pieces[1]) else Some(m)
  }

  /** Without a marker the reason is the whole message. */
  lemma ErrorTextWithoutMarker(m: string)
    requires Find(m, ErrorMarker).None?
    ensures ErrorText(Some(m)) == Some(m)
  {
  }

  /** With a marker at `i` and the next one `d` characters after its end, the
      reason is the text between the two markers, or the whole message when
      the markers are adjacent. */
  lemma ErrorTextUpToNextMarker(m: string, i: nat, d: nat)
    requires Find(m, ErrorMarker) == Some(i)
    requires Find(m[i + |ErrorMarker|..], ErrorMarker) == Some(d)
    ensures i + |ErrorMarker| + d <= |m|
    ensures ErrorText(Some(m)) == Some(if d > 0 then m[i + |ErrorMarker|..i + |ErrorMarker| + d] else m)
  {
    SecondPieceBetween(m, ErrorMarker, i, d);
  }

  /** With one marker at `i` and none after it, the reason is the rest of the
      message after the marker, or the whole message when nothing follows. */
  lemma ErrorTextToEnd(m: string, i: nat)
    requires Find(m, ErrorMarker) == Some(i)
    requires Find(m[i + |ErrorMarker|..], ErrorMarker).None?
    ensures i + |ErrorMarker| <= |m|
    ensures ErrorText(Some(m)) == Some(if i + |ErrorMarker| < |m| then m[i + |ErrorMarker|..] else m)
  {
    SecondPieceToEnd(m, ErrorMarker, i);
  }

  /** The failure reason: the loader's error text when there is one, the
      no-pages reason otherwise (`error ?? ...`). */
  function FailureReason(error: Option<string>): (reason: string)
    ensures error.Some? ==> reason == error.value
    ensures error.None? ==> reason == NoPagesReason
  {
    match error
    case Some(e) => e
    case None => NoPagesReason
  }

  // ---------------------------------------------------------------------
  // Pages and documents

  datatype PageMetadata = PageMetadata(title: string, url: string, source: Option<string>)
  datatype Page = Page(pageContent: string, metadata: PageMetadata)

  /** What the page loader is constructed with. */
  datatype LoaderConfig = LoaderConfig(baseUrl: string, spaceKey: Option<string>, username: string, accessToken: string)

  /** What awaiting the page loader gives: the pages, or a thrown error with
      its (possibly missing) message. */
  datatype LoadOutcome = Loaded(docs: seq<Page>) | Threw(message: Option<string>)

  /** The request: the space URL and the credentials, each possibly missing. */
  datatype ConfluenceArgs = ConfluenceArgs(pageUrl: Option<string>, username: Option<string>, accessToken: Option<string>)

  /** The collaborators: `uuid(n)` is what the n-th call of `v4()` returns,
      `clock(n)` the n-th timestamp, and `slugify` and the tokenizer's token
      count are taken as given. */
  datatype Env = Env(
    uuid: nat -> string,
    clock: nat -> string,
    slugify: string -> string,
    tokenCount: string -> nat)

  /** The record written for one page. */
  datatype Document = Document(
    id: string,
    url: string,
    title: Option<string>,
    docAuthor: Option<string>,
    description: string,
    docSource: string,
    chunkSource: string,
    published: string,
    wordCount: nat,
    pageContent: string,
    tokenCountEstimate: nat)

  /** One call of the document store: the record, its file name and its folder. */
  datatype Write = Write(folder: string, filename: string, document: Document)

  datatype SpaceData = SpaceData(spaceKey: Option<string>, destination: string)

  /** The result envelope: a failure carries a reason, a success its data. */
  datatype Envelope = Envelope(success: bool, reason: Option<string>, data: Option<SpaceData>)

  function Failed(reason: string): Envelope
  {
    Envelope(false, Some(reason), None)
  }

  function Succeeded(spaceKey: Option<string>, destination: string): Envelope
  {
    Envelope(true, None, Some(SpaceData(spaceKey, destination)))
  }

  predicate HasCredentials(args: ConfluenceArgs)
  {
    Truthy(args.pageUrl) && Truthy(args.username) && Truthy(args.accessToken)
  }

  /** The destination folder: the lower-cased slug of
      `{subdomain}-confluence-{first four characters of the first uuid}`. */
  function Destination(subdomain: Option<string>, env: Env): (folder: string)
    ensures forall i :: 0 <= i < |folder| ==> !IsUpperAscii(folder[i])
  {
    ToLower(env.slugify(Interpolate(subdomain) + "-confluence-" + Prefix(env.uuid(0), 4)))
  }

  /** Number of pieces of `content.split(" ")`. */
  function WordCount(content: string): (n: nat)
    ensures n == Occurrences(content, ' ') + 1
  {
    SplitCount(content, ' ');
    |SplitOn(content, " ")|
  }

  /** The record for a page that is the `k`-th one written (from 0): it takes
      the `(k+1)`-th uuid, since the first one named the folder. */
  function NormalizePage(page: Page, k: nat, subdomain: Option<string>, folder: string, env: Env): (w: Write)
    ensures w.folder == folder
    ensures w.document.id == env.uuid(k + 1) && w.document.published == env.clock(k)
    ensures |w.filename| > |w.document.id| && w.filename[|w.filename| - |w.document.id| - 1..] == "-" + w.document.id
  {
    var id := env.uuid(k + 1);
    var document := Document(
      id := id,
      url := page.metadata.url + ".page",
      title := if page.metadata.title != "" then Some(page.metadata.title) else page.metadata.source,
      docAuthor := subdomain,
      description := page.metadata.title,
      docSource := Interpolate(subdomain) + " Confluence",
      chunkSource := "confluence://" + page.metadata.url,
      published := env.clock(k),
      wordCount := WordCount(page.pageContent),
      pageContent := page.pageContent,
      tokenCountEstimate := env.tokenCount(page.pageContent));
    Write(folder, env.slugify(page.metadata.title) + "-" + id, document)
  }

  /** The pages the write loop does not skip: those with non-empty content,
      in page order. */
  function Kept(docs: seq<Page>): (kept: seq<Page>)
    ensures |kept| <= |docs|
    ensures forall i :: 0 <= i < |kept| ==> kept[i].pageContent != ""
  {
    if docs == [] then []
    else
      var last := docs[|docs| - 1];
      Kept(docs[..|docs| - 1]) + (if last.pageContent == "" then [] else [last])
  }

  /** The writes for the kept pages, the `k`-th with the `k`-th record. */
  function Normalized(kept: seq<Page>, subdomain: Option<string>, folder: string, env: Env): seq<Write>
  {
    seq(|kept|, k requires 0 <= k < |kept| => NormalizePage(kept[k], k, subdomain, folder, env))
  }

  /** Keeping pages distributes over concatenation: each page is kept or
      dropped on its own, and kept pages stay in page order. */
  lemma {:induction false} KeptConcat(a: seq<Page>, b: seq<Page>)
    ensures Kept(a + b) == Kept(a) + Kept(b)
    decreases |b|
  {
    if b == [] {
      assert a + b == a;
    } else {
      var init := b[..|b| - 1];
      KeptConcat(a, init);
      assert (a + b)[..|a + b| - 1] == a + init;
      assert (a + b)[|a + b| - 1] == b[|b| - 1];
    }
  }

  /** Exactly the non-empty pages are kept: a page is kept if and only if
      it is non-empty, and kept pages are pages of the space. */
  lemma {:induction false} KeptAreTheNonEmptyPages(docs: seq<Page>)
    ensures forall p :: p in Kept(docs) ==> p in docs && p.pageContent != ""
    ensures forall i :: 0 <= i < |docs| && docs[i].pageContent != "" ==> docs[i] in Kept(docs)
    decreases |docs|
  {
    if docs != [] {
      var init := docs[..|docs| - 1];
      KeptAreTheNonEmptyPages(init);
      forall i | 0 <= i < |docs| - 1 ensures docs[i] == init[i] { }
    }
  }

  /** A space whose pages are all empty keeps nothing, so nothing is written. */
  lemma {:induction false} AllEmptyPagesKeepNothing(docs: seq<Page>)
    requires forall i :: 0 <= i < |docs| ==> docs[i].pageContent == ""
    ensures Kept(docs) == []
    decreases |docs|
  {
    if docs != [] {
      AllEmptyPagesKeepNothing(docs[..|docs| - 1]);
    }
  }

  /** The pieces the word count counts, joined by single spaces, give back
      the content: no character is lost or counted twice. */
  lemma WordsRejoinToContent(content: string)
    ensures JoinOn(SplitOn(content, " "), " ") == content
  {
    JoinSplitOn(content, " ");
  }

  /** The record of a page keeps the page's content and points back at it:
      `chunkSource` is the `confluence://` URI of the page URL and `url` is
      that page URL marked `.page`. */
  lemma DocumentTracesPage(page: Page, k: nat, subdomain: Option<string>, folder: string, env: Env)
    ensures var d := NormalizePage(page, k, subdomain, folder, env).document;
      && d.pageContent == page.pageContent
      && "confluence://" <= d.chunkSource
      && d.chunkSource[|"confluence://"|..] == page.metadata.url
      && d.url == d.chunkSource[|"confluence://"|..] + ".page"
      && d.wordCount == Occurrences(page.pageContent, ' ') + 1
      && (page.metadata.title != "" ==> d.title == Some(page.metadata.title))
      && (page.metadata.title == "" ==> d.title == page.metadata.source)
      && d.docAuthor == subdomain
      && d.docSource == Interpolate(subdomain) + " Confluence"
  {
  }

  /** One more page is kept exactly when it has content. */
  lemma KeptStep(docs: seq<Page>, i: nat)
    requires i < |docs|
    ensures Kept(docs[..i + 1]) == Kept(docs[..i]) + (if docs[i].pageContent == "" then [] else [docs[i]])
  {
    assert docs[..i + 1][..i] == docs[..i];
  }

  /** One more kept page adds one record, numbered after the earlier ones. */
  lemma NormalizedStep(kept: seq<Page>, page: Page, subdomain: Option<string>, folder: string, env: Env)
    ensures Normalized(kept + [page], subdomain, folder, env)
         == Normalized(kept, subdomain, folder, env) + [NormalizePage(page, |kept|, subdomain, folder, env)]
  {
  }

  /** The write loop of `loadConfluence`: every page with content, in page
      order, becomes the next record in the destination folder. */
  method WriteDocuments(docs: seq<Page>, subdomain: Option<string>, folder: string, env: Env)
    returns (writes: seq<Write>)
    ensures writes == Normalized(Kept(docs), subdomain, folder, env)
  {
    writes := [];
    var i := 0;
    while i < |docs|
      invariant 0 <= i <= |docs|
      invariant writes == Normalized(Kept(docs[..i]), subdomain, folder, env)
    {
      var doc := docs[i];
      KeptStep(docs, i);
      if doc.pageContent != "" {
        NormalizedStep(Kept(docs[..i]), doc, subdomain, folder, env);
        writes := writes + [NormalizePage(doc, |writes|, subdomain, folder, env)];
      }
      i := i + 1;
    }
    assert docs[..i] == docs;
  }

  // ---------------------------------------------------------------------
  // The connector

  /** `loadConfluence`. The requests made to the page loader and the writes
      to the document store are returned in order. */
  method LoadConfluence(args: ConfluenceArgs, fetch: LoaderConfig -> LoadOutcome, env: Env)
    returns (result: Envelope, requests: seq<LoaderConfig>, writes: seq<Write>)
    ensures result.success <==> result.data.Some?
    ensures result.success <==> result.reason.None?
    ensures !result.success ==> writes == []
    ensures !HasCredentials(args) ==> result == Failed(CredentialsReason) && requests == []
    ensures HasCredentials(args) && !ValidSpaceUrl(args.pageUrl.value).valid ==>
      result == Failed(FormatReason) && requests == []
    ensures HasCredentials(args) && ValidSpaceUrl(args.pageUrl.value).valid ==>
      var v := ValidSpaceUrl(args.pageUrl.value);
      var m := v.result.value;
      var config := LoaderConfig(BaseUrl(m, v.humanReadable), m.spaceKey, args.username.value, args.accessToken.value);
      && requests == [config]
      && match fetch(config)
         case Threw(message) => result == Failed(FailureReason(ErrorText(message)))
         case Loaded(docs) =>
           if docs == [] then result == Failed(NoPagesReason)
           else
             var destination := Destination(m.subdomain, env);
             && result == Succeeded(m.spaceKey, destination)
             && writes == Normalized(Kept(docs), m.subdomain, destination, env)
  {
    requests, writes := [], [];
    if !Truthy(args.pageUrl) || !Truthy(args.username) || !Truthy(args.accessToken) {
      return Failed(CredentialsReason), requests, writes;
    }
    var validSpace := ValidSpaceUrl(args.pageUrl.value);
    if validSpace.result.None? {
      return Failed(FormatReason), requests, writes;
    }
    result, requests, writes := LoadSpace(validSpace.result.value, validSpace.humanReadable,
                                          args.username.value, args.accessToken.value, fetch, env);
  }

  /** The part of `loadConfluence` after the space URL is accepted: build the
      loader's base address, load the pages and write the non-empty ones. */
  method LoadSpace(space: SpaceMatch, humanReadable: Option<bool>, username: string, accessToken: string,
                   fetch: LoaderConfig -> LoadOutcome, env: Env)
    returns (result: Envelope, requests: seq<LoaderConfig>, writes: seq<Write>)
    ensures result.success <==> result.data.Some?
    ensures result.success <==> result.reason.None?
    ensures !result.success ==> writes == []
    ensures var config := LoaderConfig(BaseUrl(space, humanReadable), space.spaceKey, username, accessToken);
      && requests == [config]
      && match fetch(config)
         case Threw(message) => result == Failed(FailureReason(ErrorText(message)))
         case Loaded(docs) =>
           if docs == [] then result == Failed(NoPagesReason)
           else
             var destination := Destination(space.subdomain, env);
             && result == Succeeded(space.spaceKey, destination)
             && writes == Normalized(Kept(docs), space.subdomain, destination, env)
  {
    requests, writes := [], [];
    var subpath := if humanReadable == Some(true) then "" else "/wiki";
    var baseUrl := Https + Interpolate(space.subdomain) + ".atlassian.net" + subpath;
    if Truthy(space.customDomain) {
      baseUrl := Https + space.customDomain.value + subpath;
    }

    var config := LoaderConfig(baseUrl, space.spaceKey, username, accessToken);
    requests := requests + [config];
    var docs: seq<Page>, error: Option<string>;
    match fetch(config) {
      case Loaded(pages) =>
        docs, error := pages, None;
      case Threw(message) =>
        docs, error := [], ErrorText(message);
    }

    if |docs| == 0 || Truthy(error) {
      return Failed(FailureReason(error)), requests, writes;
    }
    var outFolder := Destination(space.subdomain, env);
    writes := WriteDocuments(docs, space.subdomain, outFolder, env);
    return Succeeded(space.spaceKey, outFolder), requests, writes;
  }
}
