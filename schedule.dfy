/**
 * The crawl scheduler as a state-transition function: one call of `crawl()`
 * is one application of `Next`, and a run of the crawler is `Iterate`.
 * The network fetch and the HTML parse are an oracle `fetch`, a function from
 * a URL to what fetching and parsing that URL yields.
 */
module Schedule {
  import opened Text
  import opened Urls

  /** What fetching one URL gives: a transport error, or the status and the parsed page. */
  datatype FetchResult =
    | Error
    | Ok(status: int, title: string, description: string, anchors: seq<Anchor>)

  /** One output row: URL, Response, Title, Description. */
  datatype Record = Record(url: string, response: int, title: string, description: string)

  /**
   * The scheduler's whole state: the FIFO queue, the visited list, the rows
   * written so far, the two progress counters and whether the writer was
   * closed.
   */
  datatype Crawl = Crawl(
    queue: seq<string>,
    visited: seq<string>,
    records: seq<Record>,
    totalLinks: nat,
    processedLinks: nat,
    closed: bool)

  /**
   * What the scheduler knows of the site: the seed, its base URL and the
   * alternate base URL. Both are fixed for the whole crawl, so computing the
   * alternate once is the same as computing it on every call.
   */
  datatype Site = Site(seed: Seed, baseUrl: string, altBaseUrl: string)

  function SiteOf(seed: Seed): Site {
    Site(seed, BaseUrl(seed), AltBaseUrl(BaseUrl(seed)))
  }

  predicate NoDups(s: seq<string>) {
    forall i, j :: 0 <= i < j < |s| ==> s[i] != s[j]
  }

  function Elems(s: seq<string>): set<string> {
    set u | u in s
  }

  /** The state the crawl starts from: the seed URL queued, one link counted. */
  function Init(seed: Seed): Crawl {
    Crawl([seed.url], [], [], 1, 0, false)
  }

  /**
   * The links a fetched page adds to the tail of the queue, in document
   * order: each anchor the admission test accepts against `visited`.
   * `visited` does not grow while a page's anchors are scanned, so a link
   * the page repeats is queued once per repetition.
   */
  function Admitted(anchors: seq<Anchor>, visited: seq<string>, seed: Seed): (r: seq<string>)
    ensures |r| <= |anchors|
    ensures forall u :: u in r <==> exists a :: a in anchors && Admits(a, visited, seed) && LinkUrl(a, seed) == u
    decreases |anchors|
  {
    if anchors == [] then []
    else
      var last := anchors[|anchors| - 1];
      assert forall a :: a in anchors <==> a in anchors[..|anchors| - 1] || a == last;
      Admitted(anchors[..|anchors| - 1], visited, seed)
        + (if Admits(last, visited, seed) then [LinkUrl(last, seed)] else [])
  }

  /** The URL this step hands to the network: an unvisited, in-scope head of the queue. */
  function Fetched(c: Crawl, site: Site): seq<string> {
    if c.queue != [] && c.queue[0] !in c.visited && InScope(c.queue[0], site.baseUrl, site.altBaseUrl)
    then [c.queue[0]] else []
  }

  /** The URL this step takes off the head of the queue. */
  function Popped(c: Crawl): seq<string> {
    if c.queue == [] then [] else [c.queue[0]]
  }

  /** The links this step appends to the queue. */
  function Pushed(c: Crawl, site: Site, fetch: string -> FetchResult): seq<string> {
    if Fetched(c, site) == [] then []
    else
      match fetch(c.queue[0])
      case Error => []
      case Ok(_, _, _, anchors) => Admitted(anchors, c.visited + [c.queue[0]], site.seed)
  }

  /** One call of `crawl()`. */
  function Next(c: Crawl, site: Site, fetch: string -> FetchResult): Crawl {
    if c.queue == [] then
      c.(closed := true)
    else
      var currentUrl := c.queue[0];
      var rest := c.queue[1..];
      if currentUrl in c.visited then
        c.(queue := rest)
      else if !InScope(currentUrl, site.baseUrl, site.altBaseUrl) then
        c.(queue := rest, visited := c.visited + [currentUrl])
      else
        var visited := c.visited + [currentUrl];
        match fetch(currentUrl)
        case Error =>
          c.(queue := rest, visited := visited, processedLinks := c.processedLinks + 1)
        case Ok(status, title, description, anchors) =>
          var links := Admitted(anchors, visited, site.seed);
          Crawl(rest + links, visited, c.records + [Record(currentUrl, status, title, description)],
                c.totalLinks + |links|, c.processedLinks + 1, c.closed)
  }

  /** The state after `n` calls of `crawl()`. */
  function Iterate(c: Crawl, site: Site, fetch: string -> FetchResult, n: nat): Crawl
    decreases n
  {
    if n == 0 then c else Next(Iterate(c, site, fetch, n - 1), site, fetch)
  }

  /** The URLs fetched during those `n` calls, in order. */
  function FetchLog(c: Crawl, site: Site, fetch: string -> FetchResult, n: nat): seq<string>
    decreases n
  {
    if n == 0 then [] else FetchLog(c, site, fetch, n - 1) + Fetched(Iterate(c, site, fetch, n - 1), site)
  }

  /** The URLs taken off the queue during those `n` calls, in order. */
  function PopLog(c: Crawl, site: Site, fetch: string -> FetchResult, n: nat): seq<string>
    decreases n
  {
    if n == 0 then [] else PopLog(c, site, fetch, n - 1) + Popped(Iterate(c, site, fetch, n - 1))
  }

  /** The URLs appended to the queue during those `n` calls, in order. */
  function PushLog(c: Crawl, site: Site, fetch: string -> FetchResult, n: nat): seq<string>
    decreases n
  {
    if n == 0 then [] else PushLog(c, site, fetch, n - 1) + Pushed(Iterate(c, site, fetch, n - 1), site, fetch)
  }

  /** The row a fetch of `u` writes: one when it succeeds, none when it fails. */
  function RowOf(u: string, fetch: string -> FetchResult): seq<Record> {
    match fetch(u)
    case Error => []
    case Ok(status, title, description, _) => [Record(u, status, title, description)]
  }

  /** The rows a sequence of fetches writes, in fetch order. */
  function RowsOf(log: seq<string>, fetch: string -> FetchResult): (r: seq<Record>)
    ensures |r| <= |log|
    decreases |log|
  {
    if log == [] then [] else RowsOf(log[..|log| - 1], fetch) + RowOf(log[|log| - 1], fetch)
  }

  /**
   * The scheduler's invariant: no URL is visited twice; the processed count
   * plus what is still queued never exceeds the admitted count; every row is
   * for a distinct, visited, in-scope URL and stands for one processed
   * fetch; a closed writer means an empty queue.
   */
  ghost predicate Inv(c: Crawl, site: Site) {
    && NoDups(c.visited)
    && c.processedLinks + |c.queue| <= c.totalLinks
    && |c.records| <= c.processedLinks
    && (forall i :: 0 <= i < |c.records| ==> c.records[i].url in c.visited && InScope(c.records[i].url, site.baseUrl, site.altBaseUrl))
    && (forall i, j :: 0 <= i < j < |c.records| ==> c.records[i].url != c.records[j].url)
    && (c.closed ==> c.queue == [])
  }

  /**
   * Every followable link of every in-scope page of `universe` that fetches
   * successfully is in `universe`. Out-of-scope pages are never fetched, so
   * nothing is asked of their links.
   */
  ghost predicate LinksStayIn(universe: set<string>, site: Site, fetch: string -> FetchResult) {
    forall u, a ::
      (u in universe && InScope(u, site.baseUrl, site.altBaseUrl) && fetch(u).Ok? && a in fetch(u).anchors
       && Followable(a, site.seed)) ==> LinkUrl(a, site.seed) in universe
  }

  // ----- One step -----

  /** The crawl starts in a state that satisfies the invariant. */
  lemma InitSatisfiesInv(site: Site)
    ensures Inv(Init(site.seed), site)
    ensures Init(site.seed).queue == [site.seed.url] && Init(site.seed).totalLinks == 1 && Init(site.seed).processedLinks == 0
  {
  }

  /** Each step keeps the invariant. */
  lemma NextPreservesInv(c: Crawl, site: Site, fetch: string -> FetchResult)
    requires Inv(c, site)
    ensures Inv(Next(c, site, fetch), site)
  {
    var n := Next(c, site, fetch);
    if c.queue != [] && c.queue[0] !in c.visited {
      var u := c.queue[0];
      assert n.visited == c.visited + [u];
      assert NoDups(n.visited) by {
        forall i, j | 0 <= i < j < |n.visited| ensures n.visited[i] != n.visited[j] {
          if j == |c.visited| {
            assert n.visited[i] == c.visited[i];
          }
        }
      }
      if InScope(u, site.baseUrl, site.altBaseUrl) && fetch(u).Ok? {
        assert n.records == c.records + [Record(u, fetch(u).status, fetch(u).title, fetch(u).description)];
        forall i | 0 <= i < |n.records|
          ensures n.records[i].url in n.visited && InScope(n.records[i].url, site.baseUrl, site.altBaseUrl)
        {
          if i < |c.records| {
            assert n.records[i] == c.records[i];
          }
        }
      }
    }
  }

  /**
   * On an empty queue the crawl ends: the writer is closed and nothing else
   * changes, and from then on no step changes anything.
   */
  lemma EmptyQueueEndsCrawl(c: Crawl, site: Site, fetch: string -> FetchResult, n: nat)
    requires c.queue == []
    ensures Next(c, site, fetch).closed
    ensures Next(c, site, fetch).(closed := c.closed) == c
    ensures Iterate(Next(c, site, fetch), site, fetch, n) == Next(c, site, fetch)
  {
    if n > 0 {
      EmptyQueueEndsCrawl(c, site, fetch, n - 1);
    }
  }

  /**
   * Each step takes the head of the queue, which shrinks by exactly that
   * element, and appends what it admits at the tail.
   */
  lemma StepIsFifo(c: Crawl, site: Site, fetch: string -> FetchResult)
    requires c.queue != []
    ensures Popped(c) == [c.queue[0]]
    ensures Next(c, site, fetch).queue == c.queue[1..] + Pushed(c, site, fetch)
  {
  }

  /** A step only appends to `visited` (the URL it fetches, if any) and to the rows. */
  lemma StepOnlyAppends(c: Crawl, site: Site, fetch: string -> FetchResult)
    ensures c.visited <= Next(c, site, fetch).visited
    ensures c.records <= Next(c, site, fetch).records
    ensures Fetched(c, site) == [] || (|Fetched(c, site)| == 1 && Fetched(c, site)[0] !in c.visited
              && Next(c, site, fetch).visited == c.visited + Fetched(c, site))
  {
  }

  /** A step counts one processed link per fetch and one link per admission. */
  lemma StepCounts(c: Crawl, site: Site, fetch: string -> FetchResult)
    ensures Next(c, site, fetch).processedLinks == c.processedLinks + |Fetched(c, site)|
    ensures Next(c, site, fetch).totalLinks == c.totalLinks + |Pushed(c, site, fetch)|
  {
  }

  /** An already visited head is dropped and nothing else changes. */
  lemma VisitedHeadDropped(c: Crawl, site: Site, fetch: string -> FetchResult)
    requires c.queue != [] && c.queue[0] in c.visited
    ensures Fetched(c, site) == [] && Pushed(c, site, fetch) == []
    ensures Next(c, site, fetch) == c.(queue := c.queue[1..])
  {
  }

  /**
   * An unvisited head that contains neither the base URL nor its alternate is
   * marked visited, but not fetched, and yields no row and no count.
   */
  lemma OutOfScopeNotFetched(c: Crawl, site: Site, fetch: string -> FetchResult)
    requires c.queue != [] && c.queue[0] !in c.visited
    requires !Includes(c.queue[0], site.baseUrl) && !Includes(c.queue[0], site.altBaseUrl)
    ensures Fetched(c, site) == [] && Pushed(c, site, fetch) == []
    ensures Next(c, site, fetch) == c.(queue := c.queue[1..], visited := c.visited + [c.queue[0]])
  {
  }

  /**
   * A fetched URL is marked visited; a failed fetch only counts as
   * processed, writes no row and queues nothing.
   */
  lemma FetchErrorCounted(c: Crawl, site: Site, fetch: string -> FetchResult)
    requires Fetched(c, site) != [] && fetch(c.queue[0]).Error?
    ensures Pushed(c, site, fetch) == []
    ensures Next(c, site, fetch)
         == c.(queue := c.queue[1..], visited := c.visited + [c.queue[0]], processedLinks := c.processedLinks + 1)
  {
  }

  /**
   * A successful fetch writes exactly one row for the fetched URL, counts it
   * as processed, and queues each admitted link, counting each one.
   */
  lemma FetchSuccessRecorded(c: Crawl, site: Site, fetch: string -> FetchResult)
    requires Fetched(c, site) != [] && fetch(c.queue[0]).Ok?
    ensures var r := fetch(c.queue[0]);
      Next(c, site, fetch)
      == c.(queue := c.queue[1..] + Pushed(c, site, fetch),
            visited := c.visited + [c.queue[0]],
            records := c.records + [Record(c.queue[0], r.status, r.title, r.description)],
            totalLinks := c.totalLinks + |Pushed(c, site, fetch)|,
            processedLinks := c.processedLinks + 1)
    ensures forall u :: u in Pushed(c, site, fetch) ==> u !in Next(c, site, fetch).visited
  {
  }

  /**
   * A log of fetched URLs that is duplicate-free, inside `visited` and as long
   * as `processedLinks` stays so when the step's fetch is appended to it.
   */
  lemma FetchLogTracksStep(c: Crawl, site: Site, fetch: string -> FetchResult, log: seq<string>)
    requires NoDups(log) && (forall u :: u in log ==> u in c.visited) && |log| == c.processedLinks
    ensures var d := Next(c, site, fetch);
      && NoDups(log + Fetched(c, site))
      && (forall u :: u in log + Fetched(c, site) ==> u in d.visited)
      && |log + Fetched(c, site)| == d.processedLinks
  {
    StepOnlyAppends(c, site, fetch);
    StepCounts(c, site, fetch);
    var d := Next(c, site, fetch);
    FetchLogStep(log, Fetched(c, site), [], c.visited, d.visited);
  }

  // ----- Many steps -----

  /** The invariant holds after any number of steps from the initial state. */
  lemma {:induction false} IterateKeepsInv(c: Crawl, site: Site, fetch: string -> FetchResult, n: nat)
    requires Inv(c, site)
    ensures Inv(Iterate(c, site, fetch, n), site)
  {
    if n > 0 {
      IterateKeepsInv(c, site, fetch, n - 1);
      NextPreservesInv(Iterate(c, site, fetch, n - 1), site, fetch);
    }
  }

  /**
   * A seed URL that contains neither the base URL nor its alternate (one
   * whose host the parser rewrote, say) is dropped unfetched: the second call
   * closes the writer with no rows and nothing processed.
   */
  lemma SeedOutOfScopeFetchesNothing(seed: Seed, fetch: string -> FetchResult)
    requires !InScope(seed.url, BaseUrl(seed), AltBaseUrl(BaseUrl(seed)))
    ensures var c := Iterate(Init(seed), SiteOf(seed), fetch, 2);
      c.closed && c.records == [] && c.processedLinks == 0 && c.visited == [seed.url]
  {
    var s1 := Next(Init(seed), SiteOf(seed), fetch);
    assert s1 == Crawl([], [seed.url], [], 1, 0, false);
  }

  /** The progress bar's processed count never exceeds its total count. */
  lemma ProcessedNeverExceedsTotal(site: Site, fetch: string -> FetchResult, n: nat)
    ensures Iterate(Init(site.seed), site, fetch, n).processedLinks <= Iterate(Init(site.seed), site, fetch, n).totalLinks
  {
    IterateKeepsInv(Init(site.seed), site, fetch, n);
  }

  /** `visited` and the written rows only grow. */
  lemma {:induction false} IterateOnlyAppends(c: Crawl, site: Site, fetch: string -> FetchResult, n: nat)
    ensures c.visited <= Iterate(c, site, fetch, n).visited
    ensures c.records <= Iterate(c, site, fetch, n).records
  {
    if n > 0 {
      IterateOnlyAppends(c, site, fetch, n - 1);
      StepOnlyAppends(Iterate(c, site, fetch, n - 1), site, fetch);
    }
  }

  /**
   * FIFO order: what the crawl has taken off the queue, followed by what is
   * still queued, is the initial queue followed by everything admitted, in
   * admission order. So URLs are processed breadth-first.
   */
  lemma {:induction false} FifoOrder(c: Crawl, site: Site, fetch: string -> FetchResult, n: nat)
    ensures PopLog(c, site, fetch, n) + Iterate(c, site, fetch, n).queue == c.queue + PushLog(c, site, fetch, n)
  {
    if n > 0 {
      FifoOrder(c, site, fetch, n - 1);
      var prev := Iterate(c, site, fetch, n - 1);
      var pops, pushes := PopLog(c, site, fetch, n - 1), PushLog(c, site, fetch, n - 1);
      if prev.queue != [] {
        StepIsFifo(prev, site, fetch);
        QueueShift(pops, prev.queue, Pushed(prev, site, fetch), c.queue, pushes);
      }
    }
  }

  /** Moving the head of the queue to the end of the pop log keeps the FIFO equation. */
  lemma QueueShift(pops: seq<string>, queue: seq<string>, added: seq<string>, start: seq<string>, pushes: seq<string>)
    requires pops + queue == start + pushes
    requires queue != []
    ensures (pops + [queue[0]]) + (queue[1..] + added) == start + (pushes + added)
  {
    assert queue == [queue[0]] + queue[1..];
    calc {
      (pops + [queue[0]]) + (queue[1..] + added);
      (pops + ([queue[0]] + queue[1..])) + added;
      (start + pushes) + added;
    }
  }

  /** Appending a URL that is not yet in a duplicate-free list keeps it duplicate-free. */
  lemma AppendFresh(log: seq<string>, more: seq<string>)
    requires NoDups(log) && NoDups(more)
    requires forall u :: u in more ==> u !in log
    ensures NoDups(log + more)
  {
    forall i, j | 0 <= i < j < |log + more| ensures (log + more)[i] != (log + more)[j] {
      if j < |log| {
        assert (log + more)[i] == log[i] && (log + more)[j] == log[j];
      } else if i < |log| {
        assert (log + more)[i] == log[i] && (log + more)[j] == more[j - |log|];
        assert more[j - |log|] in more;
      } else {
        assert (log + more)[i] == more[i - |log|] && (log + more)[j] == more[j - |log|];
      }
    }
  }

  /**
   * No URL is fetched twice: the fetched URLs are distinct, none was visited
   * at the start, and each is visited afterwards.
   */
  lemma {:induction false} FetchedAtMostOnce(c: Crawl, site: Site, fetch: string -> FetchResult, n: nat)
    ensures NoDups(FetchLog(c, site, fetch, n))
    ensures forall u :: u in FetchLog(c, site, fetch, n) ==> u !in c.visited && u in Iterate(c, site, fetch, n).visited
  {
    if n > 0 {
      FetchedAtMostOnce(c, site, fetch, n - 1);
      FetchedAtMostOnceStep(c, site, fetch, n - 1);
    }
  }

  /** One more step keeps the fetch log duplicate-free, fresh at the start and visited at the end. */
  lemma FetchedAtMostOnceStep(c: Crawl, site: Site, fetch: string -> FetchResult, m: nat)
    requires NoDups(FetchLog(c, site, fetch, m))
    requires forall u :: u in FetchLog(c, site, fetch, m) ==> u !in c.visited && u in Iterate(c, site, fetch, m).visited
    ensures NoDups(FetchLog(c, site, fetch, m + 1))
    ensures forall u :: u in FetchLog(c, site, fetch, m + 1) ==> u !in c.visited && u in Iterate(c, site, fetch, m + 1).visited
  {
    var prev := Iterate(c, site, fetch, m);
    IterateOnlyAppends(c, site, fetch, m);
    StepOnlyAppends(prev, site, fetch);
    FetchLogStep(FetchLog(c, site, fetch, m), Fetched(prev, site), c.visited, prev.visited, Next(prev, site, fetch).visited);
  }

  /** The induction step of `FetchedAtMostOnce`, on the sequences alone. */
  lemma FetchLogStep(log: seq<string>, f: seq<string>, start: seq<string>, before: seq<string>, after: seq<string>)
    requires NoDups(log) && (forall u :: u in log ==> u !in start && u in before)
    requires start <= before && before <= after
    requires f == [] || (|f| == 1 && f[0] !in before && after == before + f)
    ensures NoDups(log + f)
    ensures forall u :: u in log + f ==> u !in start && u in after
  {
    AppendFresh(log, f);
  }

  /**
   * The progress counters count work: `processedLinks` grows by the number of
   * fetches, `totalLinks` by the number of admitted links.
   */
  lemma {:induction false} CountersCountWork(c: Crawl, site: Site, fetch: string -> FetchResult, n: nat)
    ensures Iterate(c, site, fetch, n).processedLinks == c.processedLinks + |FetchLog(c, site, fetch, n)|
    ensures Iterate(c, site, fetch, n).totalLinks == c.totalLinks + |PushLog(c, site, fetch, n)|
  {
    if n > 0 {
      CountersCountWork(c, site, fetch, n - 1);
      StepCounts(Iterate(c, site, fetch, n - 1), site, fetch);
    }
  }

  /** A step writes the row of the URL it fetches, if any, and no other. */
  lemma StepRows(c: Crawl, site: Site, fetch: string -> FetchResult)
    ensures Next(c, site, fetch).records == c.records + RowsOf(Fetched(c, site), fetch)
  {
    if Fetched(c, site) != [] {
      assert Fetched(c, site)[..0] == [];
    }
  }

  /** Appending at most one fetch to a log appends its row, if any. */
  lemma RowsOfAppend(log: seq<string>, f: seq<string>, fetch: string -> FetchResult)
    requires |f| <= 1
    ensures RowsOf(log + f, fetch) == RowsOf(log, fetch) + RowsOf(f, fetch)
  {
    if f == [] {
      assert log + f == log;
    } else {
      assert (log + f)[..|log + f| - 1] == log;
      assert f[..0] == [];
    }
  }

  /**
   * The rows are written in fetch order: after any number of calls, the
   * rows are the starting rows followed by one row for each fetched URL
   * whose fetch succeeded, in the order of the fetch log.
   */
  lemma {:induction false} RowsFollowFetchLog(c: Crawl, site: Site, fetch: string -> FetchResult, n: nat)
    ensures Iterate(c, site, fetch, n).records == c.records + RowsOf(FetchLog(c, site, fetch, n), fetch)
  {
    if n > 0 {
      var m := n - 1;
      RowsFollowFetchLog(c, site, fetch, m);
      RowsOneMoreCall(c, site, fetch, m);
      var more := RowsOf(Fetched(Iterate(c, site, fetch, m), site), fetch);
      AppendBoth(Iterate(c, site, fetch, m).records, c.records, RowsOf(FetchLog(c, site, fetch, m), fetch), more);
    }
  }

  /** The induction step of `RowsFollowFetchLog`, on the sequences alone. */
  lemma AppendBoth(records: seq<Record>, start: seq<Record>, rows: seq<Record>, more: seq<Record>)
    requires records == start + rows
    ensures records + more == start + (rows + more)
  {
  }

  /** One more call appends the same rows to the state and to the rows of the fetch log. */
  lemma RowsOneMoreCall(c: Crawl, site: Site, fetch: string -> FetchResult, m: nat)
    ensures var more := RowsOf(Fetched(Iterate(c, site, fetch, m), site), fetch);
      && Iterate(c, site, fetch, m + 1).records == Iterate(c, site, fetch, m).records + more
      && RowsOf(FetchLog(c, site, fetch, m + 1), fetch) == RowsOf(FetchLog(c, site, fetch, m), fetch) + more
  {
    var prev := Iterate(c, site, fetch, m);
    StepRows(prev, site, fetch);
    RowsOfAppend(FetchLog(c, site, fetch, m), Fetched(prev, site), fetch);
  }

  /**
   * When every followable link of every page in a finite `universe` stays in
   * it, a step either closes the crawl, visits a URL of `universe` not visited
   * before, or shortens the queue without visiting anything new.
   */
  lemma NextMakesProgress(c: Crawl, site: Site, fetch: string -> FetchResult, universe: set<string>)
    requires LinksStayIn(universe, site, fetch)
    requires Elems(c.queue) <= universe
    requires !c.closed
    ensures Elems(Next(c, site, fetch).queue) <= universe
    ensures var d := Next(c, site, fetch);
      || d.closed
      || |universe - Elems(d.visited)| < |universe - Elems(c.visited)|
      || (Elems(d.visited) == Elems(c.visited) && |d.queue| < |c.queue|)
  {
    var d := Next(c, site, fetch);
    if c.queue != [] {
      var u := c.queue[0];
      assert u in universe;
      if u !in c.visited {
        assert Elems(d.visited) == Elems(c.visited) + {u};
        assert universe - Elems(d.visited) == (universe - Elems(c.visited)) - {u};
        if Fetched(c, site) != [] && fetch(u).Ok? {
          var anchors := fetch(u).anchors;
          forall v | v in Admitted(anchors, c.visited + [u], site.seed) ensures v in universe {
            var a :| a in anchors && Admits(a, c.visited + [u], site.seed) && LinkUrl(a, site.seed) == v;
          }
        }
      }
    }
  }

  /**
   * Termination: when every followable link of every page in a finite
   * `universe` stays in it and the queue starts inside it, some number of
   * steps closes the crawl.
   */
  lemma {:induction false} CrawlReachesDone(c: Crawl, site: Site, fetch: string -> FetchResult, universe: set<string>)
    requires LinksStayIn(universe, site, fetch)
    requires Elems(c.queue) <= universe
    ensures exists n: nat :: Iterate(c, site, fetch, n).closed
    decreases if c.closed then 0 else 1, |universe - Elems(c.visited)|, |c.queue|
  {
    if c.closed {
      assert Iterate(c, site, fetch, 0).closed;
    } else {
      var d := Next(c, site, fetch);
      NextMakesProgress(c, site, fetch, universe);
      CrawlReachesDone(d, site, fetch, universe);
      var n: nat :| Iterate(d, site, fetch, n).closed;
      IterateFromNext(c, site, fetch, n);
      assert Iterate(c, site, fetch, n + 1).closed;
    }
  }

  /** Running `n` steps after one step is running `n + 1` steps. */
  lemma {:induction false} IterateFromNext(c: Crawl, site: Site, fetch: string -> FetchResult, n: nat)
    ensures Iterate(Next(c, site, fetch), site, fetch, n) == Iterate(c, site, fetch, n + 1)
  {
    if n > 0 {
      IterateFromNext(c, site, fetch, n - 1);
    }
  }
}
