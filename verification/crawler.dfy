/**
 The crawl of WebCrawler.java as a sequential state machine.

 `crawl` is `synchronized` on the crawler (line 34), so the bodies of all crawl
 tasks run one after another; the thread pool is therefore modelled as a
 worklist of pending URLs, any one of which may be the next to run. Fetching
 and parsing a page is outside the model: a page is given by the absolute URLs
 its image sources, head favicon links and anchors resolve to, and a fetch
 either yields such a page or fails with one of the checked exceptions the
 catch clause of line 58 handles (IOException, InterruptedException). An
 unchecked exception from `Jsoup.connect` on a malformed URL is not modelled;
 for a child task it leaves the state as `Failed` does.

 A submission made after `executorService.shutdown()` is rejected; `accepting`
 records whether the pool still takes new tasks.
 */
module Crawler {
  import opened Strings
  import Catalogue

  type Url = string

  /** What a fetched document offers the crawler, already resolved against its
      base: `img[src]` (lines 42, 66), the head favicon links (line 73) and
      `a[href]` (line 51). */
  datatype Page = Page(images: seq<Url>, favicons: seq<Url>, anchors: seq<Url>)

  /** The outcome of `fetchHTML` for one call; `Failed` stands for the checked
      exceptions of lines 38-39. */
  datatype Fetch = Fetched(page: Page) | Failed

  /** The crawler's fields `links` and `imageUrls`, the tasks waiting in the
      pool, and whether the pool still accepts submissions. */
  datatype State = State(links: set<Url>, imageUrls: set<string>, pending: seq<Url>, accepting: bool)

  /** A deterministic web: a URL that is not a key fails to fetch. */
  type Web = map<Url, Page>

  /** A freshly constructed crawler (lines 22-28). */
  const Initial := State({}, {}, [], true)

  function FetchFrom(web: Web, url: Url): Fetch
  {
    if url in web then Fetched(web[url]) else Failed
  }

  /** True iff `x` is an entry one page adds to `imageUrls`. */
  predicate Contributes(page: Page, x: string)
  {
    x in page.images || (Catalogue.IsFaviconEntry(x) && Catalogue.StripTag(x) in page.favicons)
  }

  /** `imageUrls` after one page: the image loop of lines 42-45, the same
      images again from `extractImages` (line 47), then the tagged favicons from
      `extractFavicons` (line 48). */
  function Record(imageUrls: set<string>, page: Page): (r: set<string>)
    ensures forall x :: x in r <==> x in imageUrls || Contributes(page, x)
  {
    var afterLoop := imageUrls + (set i | i in page.images);
    var afterExtractImages := afterLoop + (set i | i in page.images);
    afterExtractImages + (set h | h in page.favicons :: Catalogue.TagFavicon(h))
  }

  /** The anchors lines 51-57 submit, in page order: those that start with the
      current page's URL and are not yet in `links`. */
  function Children(url: Url, links: set<Url>, anchors: seq<Url>): (r: seq<Url>)
    ensures forall c :: c in r <==> c in anchors && StartsWith(c, url) && c !in links
    ensures |r| <= |anchors|
  {
    if anchors == [] then []
    else
      var rest := Children(url, links, anchors[1..]);
      if StartsWith(anchors[0], url) && anchors[0] !in links then [anchors[0]] + rest else rest
  }

  /** Submissions are not deduplicated: each occurrence of a qualifying anchor
      on the page is submitted as its own task (lines 52-56), so a URL can be
      queued several times. */
  lemma {:induction false} ChildrenCounts(url: Url, links: set<Url>, anchors: seq<Url>)
    ensures forall c ::
      multiset(Children(url, links, anchors))[c] == if StartsWith(c, url) && c !in links then multiset(anchors)[c] else 0
  {
    if anchors != [] {
      ChildrenCounts(url, links, anchors[1..]);
      assert anchors == [anchors[0]] + anchors[1..];
    }
  }

  /** One run of the body of `crawl(url)` (lines 34-63) with the given fetch
      outcome. */
  function Crawl(s: State, url: Url, fetched: Fetch): (r: State)
    ensures url in s.links ==> r == s
    ensures fetched.Failed? ==> r == s
    ensures url in r.links <==> url in s.links || fetched.Fetched?
    ensures s.links <= r.links && r.links - s.links <= {url}
    ensures s.imageUrls <= r.imageUrls
    ensures url !in s.links && fetched.Fetched? ==>
      forall x :: x in r.imageUrls <==> x in s.imageUrls || Contributes(fetched.page, x)
    ensures r.accepting == s.accepting
    ensures |s.pending| <= |r.pending| && r.pending[..|s.pending|] == s.pending
    ensures !s.accepting ==> r.pending == s.pending
    ensures forall k | |s.pending| <= k < |r.pending| ::
      fetched.Fetched? && r.pending[k] in fetched.page.anchors && StartsWith(r.pending[k], url) && r.pending[k] !in r.links
    ensures s.accepting && url !in s.links && fetched.Fetched? ==>
      forall a | a in fetched.page.anchors && StartsWith(a, url) && a !in r.links :: a in r.pending[|s.pending|..]
  {
    if url in s.links then s
    else
      match fetched
      case Failed => s
      case Fetched(page) =>
        var links := s.links + {url};
        var submitted := if s.accepting then Children(url, links, page.anchors) else [];
        State(links, Record(s.imageUrls, page), s.pending + submitted, s.accepting)
  }

  /** The pending list with its `i`-th task taken out. */
  function Without(pending: seq<Url>, i: nat): (r: seq<Url>)
    requires i < |pending|
    ensures |r| + 1 == |pending|
    ensures forall u | u in pending :: u in r || u == pending[i]
    ensures forall u | u in r :: u in pending
  {
    pending[..i] + pending[i + 1..]
  }

  /** The pool runs the `i`-th waiting task. */
  function Step(s: State, i: nat, web: Web): (r: State)
    requires i < |s.pending|
    ensures s.links <= r.links && s.imageUrls <= r.imageUrls
    ensures s.pending[i] in r.links <==> s.pending[i] in s.links || s.pending[i] in web
    ensures r.links - s.links <= {s.pending[i]}
  {
    Crawl(s.(pending := Without(s.pending, i)), s.pending[i], FetchFrom(web, s.pending[i]))
  }

  /** A step that visits a new page leaves fewer fetchable pages unvisited. */
  lemma UnvisitedShrinks(web: Web, links: set<Url>, url: Url)
    requires url in web && url !in links
    ensures |web.Keys - (links + {url})| < |web.Keys - links|
  {
    assert web.Keys - (links + {url}) == (web.Keys - links) - {url};
  }

  /** Run the pool, oldest task first, until no task is waiting. Termination
      holds because a web has finitely many fetchable pages, cyclic link graphs
      included: each step either visits a fetchable page never visited before
      or shortens the worklist. */
  function Drain(s: State, web: Web): (r: State)
    ensures r.pending == []
    ensures s.links <= r.links && s.imageUrls <= r.imageUrls
    ensures r.accepting == s.accepting
    decreases |web.Keys - s.links|, |s.pending|
  {
    if s.pending == [] then s
    else
      var url := s.pending[0];
      var next := Step(s, 0, web);
      if url in s.links || url !in web then
        assert next.links == s.links;
        Drain(next, web)
      else
        UnvisitedShrinks(web, s.links, url);
        Drain(next, web)
  }

  /** The call `crawl(startUrl)` of line 102, made on the calling thread of a
      fresh crawler while the pool still accepts submissions. */
  function SeedCrawl(seed: Url, web: Web): State
  {
    Crawl(Initial, seed, FetchFrom(web, seed))
  }

  /** `startCrawling` as written (lines 101-114): crawl the seed, shut the pool
      down, then wait for the queued tasks. */
  function StartCrawling(seed: Url, web: Web): State
  {
    Drain(SeedCrawl(seed, web).(accepting := false), web)
  }

  /** `startCrawling` with the shutdown moved after quiescence. */
  function StartCrawlingCorrected(seed: Url, web: Web): State
  {
    Drain(SeedCrawl(seed, web), web)
  }
}
