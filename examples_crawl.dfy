/**
 * Concrete crawls of a small site rooted at `http://example.com`: which URLs
 * are in scope, how a relative href resolves, which seed is refused, and the
 * breadth-first order in which pages are written.
 */
module CrawlExamples {
  import opened Text
  import opened Urls
  import opened Schedule

  const home: string := "http://example.com"

  function HomeSeed(): Seed {
    Seed(home, "http:", "example.com")
  }

  /** The host `example.com` has no `www.` in it. */
  lemma HomeHostPlain()
    ensures !Includes("example.com", "www.")
  {
    IncludesPastPrefix("example.com", "", "www.");
    assert "example.com" + "" == "example.com";
  }

  /** For the seed `http://example.com` the alternate base URL is `http://www.example.com`. */
  lemma AltOfExampleCom()
    ensures BaseUrl(HomeSeed()) == home
    ensures AltBaseUrl(home) == "http://www.example.com"
  {
    assert "http:" + "//" + "example.com" == home;
    assert "http:" + "//www." + "example.com" == "http://www.example.com";
    HomeHostPlain();
    AltOfPlainBase("http:", "example.com");
  }

  /** `http://example.com/a` is in scope of `http://example.com`. */
  lemma PlainPageInScope()
    ensures InScope("http://example.com/a", home, "http://www.example.com")
  {
    PrefixIncluded(home, "/a");
    assert home + "/a" == "http://example.com/a";
  }

  /** `http://www.example.com/b` is in scope of `http://example.com`, through the alternate. */
  lemma WwwPageInScope()
    ensures InScope("http://www.example.com/b", home, "http://www.example.com")
  {
    PrefixIncluded("http://www.example.com", "/b");
    assert "http://www.example.com" + "/b" == "http://www.example.com/b";
  }

  /** `http://other.com/c` contains neither `http://example.com` nor `http://www.example.com`. */
  lemma OtherHostOutOfScope()
    ensures !InScope("http://other.com/c", home, "http://www.example.com")
  {
    var other := "http://other.com/c";
    assert other[7] == 'o' && home[7] == 'e';
    assert !OccursAt(other, home, 0);
    IndexOfFindsFirst(other, home);
    IndexOfFindsFirst(other, "http://www.example.com");
  }

  /**
   * For the seed `http://example.com`, `http://example.com/a` and
   * `http://www.example.com/b` are in scope and `http://other.com/c` is not.
   */
  lemma ScopeOfExampleCom()
    ensures var base := BaseUrl(HomeSeed());
      && InScope("http://example.com/a", base, AltBaseUrl(base))
      && InScope("http://www.example.com/b", base, AltBaseUrl(base))
      && !InScope("http://other.com/c", base, AltBaseUrl(base))
  {
    AltOfExampleCom();
    PlainPageInScope();
    WwwPageInScope();
    OtherHostOutOfScope();
  }

  /** The href `/foo` on any page of `http://example.com` leads to `http://example.com/foo`. */
  lemma RelativeFooResolves()
    ensures LinkUrl(Anchor("/foo", Href("", "", "/foo")), HomeSeed()) == "http://example.com/foo"
    ensures Followable(Anchor("/foo", Href("", "", "/foo")), HomeSeed())
  {
    RelativeLinkStaysOnSeed(Anchor("/foo", Href("", "", "/foo")), HomeSeed());
  }

  /** `not-a-url` parses to no protocol and no hostname, so it is refused. */
  lemma NotAUrlRefused()
    ensures !ValidSeed(Seed("not-a-url", "", ""))
  {
  }

  /** A relative link to `path`. */
  function Rel(path: string): Anchor {
    Anchor(path, Href("", "", path))
  }

  /** A seed whose URL is exactly its base URL, such as `http://example.com`. */
  predicate RootSeed(seed: Seed) {
    ValidSeed(seed) && seed.url == BaseUrl(seed)
  }

  /** Two distinct paths under the same base give two distinct URLs. */
  lemma DistinctPages(base: string, p: string, q: string)
    requires p != q
    ensures base + p != base + q
  {
    assert (base + p)[|base|..] == p;
    assert (base + q)[|base|..] == q;
  }

  /** The pages of the example site are four distinct, in-scope URLs, each a relative link's target. */
  lemma PagesOfExample(seed: Seed)
    requires RootSeed(seed)
    ensures var base, alt := BaseUrl(seed), AltBaseUrl(BaseUrl(seed));
      && base != base + "/b" && base != base + "/c" && base != base + "/d"
      && base + "/b" != base + "/c" && base + "/b" != base + "/d" && base + "/c" != base + "/d"
      && InScope(base, base, alt) && InScope(base + "/b", base, alt)
      && InScope(base + "/c", base, alt) && InScope(base + "/d", base, alt)
      && LinkUrl(Rel("/b"), seed) == base + "/b" && LinkUrl(Rel("/c"), seed) == base + "/c"
      && LinkUrl(Rel("/d"), seed) == base + "/d"
      && Followable(Rel("/b"), seed) && Followable(Rel("/c"), seed) && Followable(Rel("/d"), seed)
  {
    var base := BaseUrl(seed);
    assert base == base + "";
    DistinctPages(base, "", "/b");
    DistinctPages(base, "", "/c");
    DistinctPages(base, "", "/d");
    DistinctPages(base, "/b", "/c");
    DistinctPages(base, "/b", "/d");
    DistinctPages(base, "/c", "/d");
    PrefixIncluded(base, "");
    PrefixIncluded(base, "/b");
    PrefixIncluded(base, "/c");
    PrefixIncluded(base, "/d");
  }

  /** The first call fetches the root, writes its row and queues `/b` and `/c`. */
  lemma FirstCall(seed: Seed, fetch: string -> FetchResult)
    requires RootSeed(seed)
    requires fetch(seed.url) == Ok(200, "A", "", [Rel("/b"), Rel("/c")])
    ensures var base := seed.url;
      Next(Init(seed), SiteOf(seed), fetch)
      == Crawl([base + "/b", base + "/c"], [base], [Record(base, 200, "A", "")], 3, 1, false)
  {
    PagesOfExample(seed);
    var anchors := [Rel("/b"), Rel("/c")];
    assert anchors[..1] == [Rel("/b")];
    assert [Rel("/b")][..0] == [];
  }

  /** The second call fetches `/b`, writes its row and queues `/d` behind `/c`. */
  lemma SecondCall(seed: Seed, fetch: string -> FetchResult, rows: seq<Record>)
    requires RootSeed(seed)
    requires fetch(seed.url + "/b") == Ok(200, "B", "", [Rel("/d")])
    ensures var base := seed.url;
      Next(Crawl([base + "/b", base + "/c"], [base], rows, 3, 1, false), SiteOf(seed), fetch)
      == Crawl([base + "/c", base + "/d"], [base, base + "/b"], rows + [Record(base + "/b", 200, "B", "")], 4, 2, false)
  {
    PagesOfExample(seed);
    var base := seed.url;
    assert [Rel("/d")][..0] == [];
    assert Admits(Rel("/d"), [base, base + "/b"], seed);
    assert Admitted([Rel("/d")], [base, base + "/b"], seed) == [base + "/d"];
    assert [base + "/b", base + "/c"][1..] + [base + "/d"] == [base + "/c", base + "/d"];
  }

  /** The third call fetches `/c`: one row when the fetch succeeds with no links, none when it fails. */
  lemma ThirdCall(seed: Seed, fetch: string -> FetchResult, rows: seq<Record>)
    requires RootSeed(seed)
    requires fetch(seed.url + "/c") == Ok(200, "", "", []) || fetch(seed.url + "/c") == Error
    ensures var base := seed.url;
      Next(Crawl([base + "/c", base + "/d"], [base, base + "/b"], rows, 4, 2, false), SiteOf(seed), fetch)
      == Crawl([base + "/d"], [base, base + "/b", base + "/c"],
               rows + (if fetch(base + "/c").Ok? then [Record(base + "/c", 200, "", "")] else []), 4, 3, false)
  {
    PagesOfExample(seed);
  }

  /** The fourth call fetches `/d`, which links nowhere. */
  lemma FourthCall(seed: Seed, fetch: string -> FetchResult, rows: seq<Record>)
    requires RootSeed(seed)
    requires fetch(seed.url + "/d") == Ok(200, "", "", [])
    ensures var base := seed.url;
      Next(Crawl([base + "/d"], [base, base + "/b", base + "/c"], rows, 4, 3, false), SiteOf(seed), fetch)
      == Crawl([], [base, base + "/b", base + "/c", base + "/d"], rows + [Record(base + "/d", 200, "", "")], 4, 4, false)
  {
    PagesOfExample(seed);
  }

  /**
   * Breadth-first order: on a site whose root links to `/b` and `/c` and
   * whose `/b` links to `/d`, the pages are fetched in the order root, `/b`,
   * `/c`, `/d`, and the fifth call of `crawl()` closes the writer. When `/c`
   * fails to fetch it writes no row, but the crawl goes on and `/d` is still
   * written.
   */
  lemma BreadthFirstExample(seed: Seed, fetch: string -> FetchResult)
    requires RootSeed(seed)
    requires var base := seed.url;
      && fetch(base) == Ok(200, "A", "", [Rel("/b"), Rel("/c")])
      && fetch(base + "/b") == Ok(200, "B", "", [Rel("/d")])
      && (fetch(base + "/c") == Ok(200, "", "", []) || fetch(base + "/c") == Error)
      && fetch(base + "/d") == Ok(200, "", "", [])
    ensures var base := seed.url;
      var c := Iterate(Init(seed), SiteOf(seed), fetch, 5);
      && c.closed && c.queue == []
      && c.visited == [base, base + "/b", base + "/c", base + "/d"]
      && c.records == [Record(base, 200, "A", ""), Record(base + "/b", 200, "B", "")]
                      + (if fetch(base + "/c").Ok? then [Record(base + "/c", 200, "", "")] else [])
                      + [Record(base + "/d", 200, "", "")]
  {
    var base := seed.url;
    var site := SiteOf(seed);
    var s0 := Init(seed);
    FirstCall(seed, fetch);
    var s1 := Next(s0, site, fetch);
    var r1 := [Record(base, 200, "A", "")];
    SecondCall(seed, fetch, r1);
    var s2 := Next(s1, site, fetch);
    var r2 := r1 + [Record(base + "/b", 200, "B", "")];
    assert r2 == [Record(base, 200, "A", ""), Record(base + "/b", 200, "B", "")];
    ThirdCall(seed, fetch, r2);
    var s3 := Next(s2, site, fetch);
    var r3 := r2 + (if fetch(base + "/c").Ok? then [Record(base + "/c", 200, "", "")] else []);
    FourthCall(seed, fetch, r3);
    var s4 := Next(s3, site, fetch);
    assert s4.records == r3 + [Record(base + "/d", 200, "", "")];
    assert Iterate(s0, site, fetch, 4) == s4;
  }

  /** `http://example.com` is such a root seed, and its crawl of the example site is breadth-first. */
  lemma ExampleComIsRoot()
    ensures RootSeed(HomeSeed())
  {
  }
}
