/**
 * The crawler's view of URLs: the parsed seed, the www-toggled alternate base
 * URL, the substring scope test, and how an anchor's href is resolved and
 * admitted. URL parsing itself is done by a foreign library; its results are
 * taken as given (the `protocol` and `hostname` of a `Seed`, the `parsed`
 * field of an `Anchor`).
 */
module Urls {
  import opened Text

  /**
   * The command-line URL together with what the URL parser makes of it.
   * A missing part is the empty string, as the parser reports it.
   */
  datatype Seed = Seed(url: string, protocol: string, hostname: string)

  /**
   * A parsed href. `protocol` carries its trailing colon (`"http:"`) and is
   * empty for a relative link; `path` is everything the parser keeps after
   * the host (port, path, query and fragment).
   */
  datatype Href = Href(protocol: string, hostname: string, path: string)

  /** One anchor element: its raw `href` attribute (empty when absent) and its parse. */
  datatype Anchor = Anchor(href: string, parsed: Href)

  predicate IsWebProtocol(protocol: string) {
    protocol == "http:" || protocol == "https:"
  }

  /** The start-up check on the command-line URL. */
  predicate ValidSeed(seed: Seed) {
    seed.url != [] && seed.protocol != [] && seed.hostname != [] && IsWebProtocol(seed.protocol)
  }

  /** `protocol + '//' + hostname` of the seed. */
  function BaseUrl(seed: Seed): string {
    seed.protocol + "//" + seed.hostname
  }

  /**
   * The base URL with its first `www.` removed when it has one, and
   * otherwise with `www.` inserted after its first `://`.
   */
  function AltBaseUrl(baseUrl: string): string {
    if Includes(baseUrl, "www.") then ReplaceFirst(baseUrl, "www.", "")
    else ReplaceFirst(baseUrl, "://", "://www.")
  }

  /** A URL is crawled only when it contains the base URL or its alternate as a substring. */
  predicate InScope(url: string, baseUrl: string, altBaseUrl: string) {
    Includes(url, baseUrl) || Includes(url, altBaseUrl)
  }

  /**
   * The parser's serialisation. Special schemes (http, https) always get
   * `//`; what other schemes would print is never used by the crawler.
   */
  function HrefString(h: Href): string {
    h.protocol + "//" + h.hostname + h.path
  }

  /** An href without a protocol takes the seed's protocol and hostname. */
  function Resolve(h: Href, seed: Seed): Href {
    if h.protocol == [] then h.(protocol := seed.protocol, hostname := seed.hostname) else h
  }

  /** The full URL an anchor leads to. */
  function LinkUrl(a: Anchor, seed: Seed): string {
    HrefString(Resolve(a.parsed, seed))
  }

  /** A non-empty href whose resolved protocol is http or https. */
  predicate Followable(a: Anchor, seed: Seed) {
    a.href != [] && IsWebProtocol(Resolve(a.parsed, seed).protocol)
  }

  /** The admission test for an outbound link: followable and not yet visited. */
  predicate Admits(a: Anchor, visited: seq<string>, seed: Seed) {
    Followable(a, seed) && LinkUrl(a, seed) !in visited
  }

  /** The scheme part of a web base URL, up to its colon, never holds a `w` or a `:`. */
  lemma SchemeLetters(protocol: string)
    requires IsWebProtocol(protocol)
    ensures |protocol| >= 1 && protocol[|protocol| - 1] == ':'
    ensures forall j :: 0 <= j < |protocol| - 1 ==> protocol[j] != 'w' && protocol[j] != ':'
  {
  }

  /** A web base URL has a `www.` only if its host has one. */
  lemma PlainBaseWithoutWww(protocol: string, host: string)
    requires IsWebProtocol(protocol)
    requires !Includes(host, "www.")
    ensures !Includes(protocol + "//" + host, "www.")
  {
    SchemeLetters(protocol);
    IncludesPastPrefix(protocol + "//", host, "www.");
  }

  /** In `scheme://host`, with no colon in the scheme, the first `://` is the one after the scheme. */
  lemma InsertAfterFirstSeparator(scheme: string, host: string)
    requires forall j :: 0 <= j < |scheme| ==> scheme[j] != ':'
    ensures ReplaceFirst(scheme + "://" + host, "://", "://www.") == scheme + "://www." + host
  {
    IncludesPastPrefix(scheme, "://" + host, "://");
    assert scheme + ("://" + host) == scheme + "://" + host;
    ReplaceFirstAt(scheme, "://", host, "://www.");
  }

  /** The same, with the scheme's colon written as part of the protocol. */
  lemma InsertAfterProtocol(protocol: string, scheme: string, host: string)
    requires protocol == scheme + ":"
    requires forall j :: 0 <= j < |scheme| ==> scheme[j] != ':'
    ensures ReplaceFirst(protocol + "//" + host, "://", "://www.") == protocol + "//www." + host
  {
    InsertAfterFirstSeparator(scheme, host);
    assert protocol + "//" + host == scheme + "://" + host;
    assert scheme + "://www." + host == protocol + "//www." + host;
  }

  /** The first `://` of a web base URL is the one that follows the scheme. */
  lemma InsertAfterScheme(protocol: string, host: string)
    requires IsWebProtocol(protocol)
    ensures ReplaceFirst(protocol + "//" + host, "://", "://www.") == protocol + "//www." + host
  {
    var scheme := if protocol == "http:" then "http" else "https";
    assert protocol == scheme + ":";
    assert forall j :: 0 <= j < |scheme| ==> scheme[j] != ':';
    InsertAfterProtocol(protocol, scheme, host);
  }

  /** Adding `www.`: the base has none, so `www.` goes in after the first `://`. */
  lemma AltOfPlainBase(protocol: string, host: string)
    requires IsWebProtocol(protocol)
    requires !Includes(host, "www.")
    ensures AltBaseUrl(protocol + "//" + host) == protocol + "//www." + host
  {
    PlainBaseWithoutWww(protocol, host);
    InsertAfterScheme(protocol, host);
  }

  /** After a prefix without any `w`, the first `www.` is the one that follows the prefix. */
  lemma DropWwwAfter(head: string, host: string)
    requires forall j :: 0 <= j < |head| ==> head[j] != 'w'
    ensures Includes(head + "www." + host, "www.")
    ensures ReplaceFirst(head + "www." + host, "www.", "") == head + host
  {
    var s := head + "www." + host;
    assert s == head + ("www." + host);
    IncludesPastPrefix(head, "www." + host, "www.");
    assert ("www." + host)[..4] == "www.";
    assert OccursAt("www." + host, "www.", 0);
    IncludesMeansOccurs("www." + host, "www.");
    ReplaceFirstAt(head, "www.", host, "");
    assert head + "" + host == head + host;
  }

  /** Removing `www.`: the first `www.` is the one right after `//`. */
  lemma AltOfWwwBase(protocol: string, host: string)
    requires IsWebProtocol(protocol)
    ensures AltBaseUrl(protocol + "//www." + host) == protocol + "//" + host
  {
    SchemeLetters(protocol);
    var head := protocol + "//";
    assert forall j :: 0 <= j < |head| ==> head[j] != 'w';
    DropWwwAfter(head, host);
    assert protocol + "//www." + host == head + "www." + host;
  }

  /**
   * For a web base URL `protocol//host` whose host holds no `www.`, the
   * alternate is `protocol//www.host`, and the alternate of that is the base
   * again: the toggle is an involution on both spellings of the host.
   */
  lemma AltBaseUrlToggles(protocol: string, host: string)
    requires IsWebProtocol(protocol)
    requires !Includes(host, "www.")
    ensures AltBaseUrl(protocol + "//" + host) == protocol + "//www." + host
    ensures AltBaseUrl(protocol + "//www." + host) == protocol + "//" + host
  {
    AltOfPlainBase(protocol, host);
    AltOfWwwBase(protocol, host);
  }

  /**
   * For a valid seed whose host is `www.`-free, or has a single `www.` at its
   * start, toggling twice gives the base URL back.
   */
  lemma SeedAltRoundTrip(seed: Seed)
    requires ValidSeed(seed)
    requires !Includes(seed.hostname, "www.")
             || (|seed.hostname| >= 4 && seed.hostname[..4] == "www." && !Includes(seed.hostname[4..], "www."))
    ensures AltBaseUrl(AltBaseUrl(BaseUrl(seed))) == BaseUrl(seed)
  {
    var p, h := seed.protocol, seed.hostname;
    if !Includes(h, "www.") {
      AltBaseUrlToggles(p, h);
    } else {
      var rest := h[4..];
      assert h == "www." + rest;
      assert BaseUrl(seed) == p + "//www." + rest;
      AltBaseUrlToggles(p, rest);
    }
  }

  /**
   * A link seen with or without `www.` in front of the seed's host (and with
   * the seed's scheme) is in scope.
   */
  lemma WwwEquivalence(seed: Seed, tail: string)
    requires ValidSeed(seed) && !Includes(seed.hostname, "www.")
    ensures InScope(BaseUrl(seed) + tail, BaseUrl(seed), AltBaseUrl(BaseUrl(seed)))
    ensures InScope(seed.protocol + "//www." + seed.hostname + tail, BaseUrl(seed), AltBaseUrl(BaseUrl(seed)))
  {
    var base := BaseUrl(seed);
    AltBaseUrlToggles(seed.protocol, seed.hostname);
    var alt := seed.protocol + "//www." + seed.hostname;
    assert (base + tail)[..|base|] == base;
    assert OccursAt(base + tail, base, 0);
    assert (alt + tail)[..|alt|] == alt;
    assert OccursAt(alt + tail, alt, 0);
  }

  /**
   * A seed given with `www.` in front of its host, such as
   * `http://www.example.com`, admits URLs on that host both with and
   * without the `www.`.
   */
  lemma WwwEquivalenceOfWwwSeed(seed: Seed, host: string, tail: string)
    requires ValidSeed(seed) && seed.hostname == "www." + host
    ensures InScope(BaseUrl(seed) + tail, BaseUrl(seed), AltBaseUrl(BaseUrl(seed)))
    ensures InScope(seed.protocol + "//" + host + tail, BaseUrl(seed), AltBaseUrl(BaseUrl(seed)))
  {
    var base := BaseUrl(seed);
    assert base == seed.protocol + "//www." + host;
    AltOfWwwBase(seed.protocol, host);
    PrefixIncluded(base, tail);
    PrefixIncluded(seed.protocol + "//" + host, tail);
  }

  /**
   * The scope test looks for the base URL anywhere in the URL, not at its
   * start: a URL on any host that carries the base URL in its path or query
   * is in scope.
   */
  lemma ScopeIsSubstringOnly(seed: Seed, before: string, after: string, alt: string)
    ensures InScope(before + BaseUrl(seed) + after, BaseUrl(seed), alt)
  {
    var base := BaseUrl(seed);
    var u := before + base + after;
    assert u[|before|..|before| + |base|] == base;
    assert OccursAt(u, base, |before|);
    IncludesMeansOccurs(u, base);
  }

  /**
   * A relative href resolves to the seed's base URL followed by its path, so
   * a valid seed's relative links are always followable (when non-empty) and
   * always in scope.
   */
  lemma RelativeLinkStaysOnSeed(a: Anchor, seed: Seed)
    requires a.parsed.protocol == []
    ensures LinkUrl(a, seed) == BaseUrl(seed) + a.parsed.path
    ensures ValidSeed(seed) ==> (Followable(a, seed) <==> a.href != [])
    ensures forall alt :: InScope(LinkUrl(a, seed), BaseUrl(seed), alt)
  {
    var u := LinkUrl(a, seed);
    var base := BaseUrl(seed);
    assert u == base + a.parsed.path;
    assert u[..|base|] == base;
    assert OccursAt(u, base, 0);
  }

  /** An href with a protocol is left as the parser gave it. */
  lemma AbsoluteLinkUnchanged(a: Anchor, seed: Seed)
    requires a.parsed.protocol != []
    ensures LinkUrl(a, seed) == HrefString(a.parsed)
    ensures Followable(a, seed) <==> a.href != [] && IsWebProtocol(a.parsed.protocol)
  {
  }
}
