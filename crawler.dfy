/**
 * The crawler as the program runs it: the queue, the visited list, the
 * output rows and the two progress counters are state that each call of
 * `crawl()` updates in place. `Step` is one call of `crawl()`, `Run` the
 * chain of calls that ends with the writer closed, `Start` the start-up
 * check and initialisation, and `CrawlSite` the whole program.
 */
module CrawlProgram {
  import opened Text
  import opened Urls
  import opened Schedule

  /** What the program leaves behind: no output at all, or the rows of the output file. */
  datatype Output = NoOutput | Csv(rows: seq<Record>)

  class Crawler {
    const seed: Seed
    const baseUrl: string
    var queue: seq<string>
    var visited: seq<string>
    var records: seq<Record>
    var totalLinks: nat
    var processedLinks: nat
    var closed: bool
    /** The URLs handed to the network so far, in order. */
    ghost var requests: seq<string>

    /** The scheduler's view of the site. */
    function Scope(): Site {
      Site(seed, baseUrl, AltBaseUrl(baseUrl))
    }

    /** The abstract state of the crawl. */
    function State(): Crawl
      reads this
    {
      Crawl(queue, visited, records, totalLinks, processedLinks, closed)
    }

    /**
     * The scheduler's invariant, plus: the URLs handed to the network are
     * distinct, all visited, and as many as `processedLinks` counts.
     */
    ghost predicate Valid()
      reads this
    {
      && baseUrl == BaseUrl(seed)
      && Inv(State(), Scope())
      && NoDups(requests)
      && (forall u :: u in requests ==> u in visited)
      && |requests| == processedLinks
    }

    /** The seed queued, the link counter at one, nothing visited, processed or written. */
    constructor (s: Seed)
      ensures Valid()
      ensures seed == s && State() == Init(s) && requests == []
    {
      seed := s;
      baseUrl := BaseUrl(s);
      queue := [s.url];
      visited := [];
      records := [];
      totalLinks := 1;
      processedLinks := 0;
      closed := false;
      requests := [];
    }

    /**
     * The loop over a fetched page's anchors: each non-empty href is resolved
     * against the seed, and its full URL is queued and counted when its
     * protocol is http or https and it has not been visited.
     */
    method EnqueueLinks(anchors: seq<Anchor>)
      modifies this`queue, this`totalLinks
      ensures queue == old(queue) + Admitted(anchors, visited, seed)
      ensures totalLinks == old(totalLinks) + |Admitted(anchors, visited, seed)|
    {
      var i := 0;
      while i < |anchors|
        invariant 0 <= i <= |anchors|
        invariant queue == old(queue) + Admitted(anchors[..i], visited, seed)
        invariant totalLinks == old(totalLinks) + |Admitted(anchors[..i], visited, seed)|
      {
        var link := anchors[i];
        if link.href != [] {
          var linkObj := link.parsed;
          if linkObj.protocol == [] {
            linkObj := linkObj.(protocol := seed.protocol, hostname := seed.hostname);
          }
          var fullUrl := HrefString(linkObj);
          if (linkObj.protocol == "http:" || linkObj.protocol == "https:") && fullUrl !in visited {
            queue := queue + [fullUrl];
            totalLinks := totalLinks + 1;
          }
        }
        assert anchors[..i + 1][..i] == anchors[..i];
        i := i + 1;
      }
      assert anchors[..i] == anchors;
    }

    /** One call of `crawl()`; `fetch` stands for the network and the HTML parser. */
    method Step(fetch: string -> FetchResult)
      requires Valid()
      modifies this
      ensures Valid()
      ensures State() == Next(old(State()), Scope(), fetch)
      ensures requests == old(requests) + Fetched(old(State()), Scope())
    {
      ghost var c, site := State(), Scope();
      if queue == [] {
        closed := true;
      } else {
        var currentUrl := queue[0];
        queue := queue[1..];
        if currentUrl !in visited {
          var altBaseUrl := if Includes(baseUrl, "www.") then ReplaceFirst(baseUrl, "www.", "")
                            else ReplaceFirst(baseUrl, "://", "://www.");
          if !Includes(currentUrl, baseUrl) && !Includes(currentUrl, altBaseUrl) {
            visited := visited + [currentUrl];
            OutOfScopeNotFetched(c, site, fetch);
          } else {
            visited := visited + [currentUrl];
            requests := requests + [currentUrl];
            var response := fetch(currentUrl);
            processedLinks := processedLinks + 1;
            if response.Ok? {
              records := records + [Record(currentUrl, response.status, response.title, response.description)];
              EnqueueLinks(response.anchors);
              FetchSuccessRecorded(c, site, fetch);
              StepIsFifo(c, site, fetch);
            } else {
              FetchErrorCounted(c, site, fetch);
            }
          }
        } else {
          VisitedHeadDropped(c, site, fetch);
        }
      }
      assert State() == Next(c, site, fetch);
      NextPreservesInv(c, site, fetch);
      FetchLogTracksStep(c, site, fetch, old(requests));
    }

    /**
     * Calls `crawl()` until the writer is closed. This ends when every
     * followable link of every in-scope page of a finite `universe` stays in
     * it and the queue starts inside it. The final state is `steps` calls of
     * `Next` away from the first, the URLs fetched are the fetch log of those
     * calls, and the rows written are those of the successful fetches, in
     * fetch order.
     */
    method Run(fetch: string -> FetchResult, ghost universe: set<string>) returns (ghost steps: nat)
      requires Valid()
      requires LinksStayIn(universe, Scope(), fetch)
      requires Elems(queue) <= universe
      modifies this
      ensures Valid() && closed && queue == []
      ensures State() == Iterate(old(State()), Scope(), fetch, steps)
      ensures requests == old(requests) + FetchLog(old(State()), Scope(), fetch, steps)
      ensures records == old(records) + RowsOf(FetchLog(old(State()), Scope(), fetch, steps), fetch)
    {
      ghost var c, site, log := State(), Scope(), requests;
      steps := 0;
      while !closed
        invariant Valid()
        invariant Elems(queue) <= universe
        invariant State() == Iterate(c, site, fetch, steps)
        invariant requests == log + FetchLog(c, site, fetch, steps)
        decreases if closed then 0 else 1, |universe - Elems(visited)|, |queue|
      {
        NextMakesProgress(State(), site, fetch, universe);
        Step(fetch);
        steps := steps + 1;
      }
      RowsFollowFetchLog(c, site, fetch, steps);
    }
  }

  /**
   * The start-up check: a URL that is empty, or lacks a protocol or a
   * hostname, or whose protocol is not http or https, creates no crawler.
   */
  method Start(seed: Seed) returns (c: Crawler?)
    ensures c == null <==> !ValidSeed(seed)
    ensures c != null ==> fresh(c) && c.Valid() && c.seed == seed && c.State() == Init(seed) && c.requests == []
  {
    if seed.url == [] || seed.protocol == [] || seed.hostname == []
       || (seed.protocol != "http:" && seed.protocol != "https:") {
      return null;
    }
    c := new Crawler(seed);
  }

  /**
   * The whole program: an invalid seed gives no output and no fetch; a valid
   * one, on a site whose in-scope pages link only within a finite
   * `universe`, gives the rows of a crawl that ran to completion from the
   * initial state: one row per successful fetch, in fetch order.
   */
  method CrawlSite(seed: Seed, fetch: string -> FetchResult, ghost universe: set<string>) returns (output: Output)
    requires ValidSeed(seed) ==> seed.url in universe && LinksStayIn(universe, SiteOf(seed), fetch)
    ensures output.NoOutput? <==> !ValidSeed(seed)
    ensures output.Csv? ==>
      exists n: nat :: Iterate(Init(seed), SiteOf(seed), fetch, n).closed
                    && output.rows == Iterate(Init(seed), SiteOf(seed), fetch, n).records
                    && output.rows == RowsOf(FetchLog(Init(seed), SiteOf(seed), fetch, n), fetch)
  {
    var c := Start(seed);
    if c == null {
      return NoOutput;
    }
    assert c.Scope() == SiteOf(seed);
    assert Elems(c.queue) <= universe;
    ghost var steps := c.Run(fetch, universe);
    output := Csv(c.records);
    assert [] + RowsOf(FetchLog(Init(seed), SiteOf(seed), fetch, steps), fetch)
        == RowsOf(FetchLog(Init(seed), SiteOf(seed), fetch, steps), fetch);
    assert Iterate(Init(seed), SiteOf(seed), fetch, steps).closed;
  }
}
