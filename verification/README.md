# imagefinder crawler core, modelled in Dafny

This project models the crawling core of the imagefinder web crawler (`WebCrawler.java`).
From a seed URL the crawler fetches pages. It collects the absolute URLs of every image and
favicon they reference. It follows anchors that start with the current page's URL, and
finally splits what it collected into an `"images"` list and a `"favicons"` list.

The model has five modules:

- `Strings` (`strings.dfy`): Java's `startsWith` as a literal prefix test on `seq<char>`.
- `Catalogue` (`catalogue.dfy`): the tagged-string encoding. Favicons are stored in the same
  set as images, with `"Favicon: "` in front. `getImageUrlsStructured` splits that set into a
  two-key map.
- `Crawler` (`crawler.dfy`): the crawl as a sequential state machine. `crawl` is
  `synchronized`, so the task bodies run one at a time. The thread pool therefore becomes a
  worklist of pending URLs. The state is `(links, imageUrls, pending, accepting)`, where
  `accepting` says whether the pool still takes submissions. A fetch is a parameter: either
  a `Page` (image sources, head favicon links and anchors, already absolute) or a failure.
  A whole crawl runs over a `Web`, a map from URL to page in which a missing key fails.
- `CrawlProperties` (`crawl_properties.dfy`): invariants of whole crawls. These cover scope,
  what `imageUrls` holds, closure at quiescence, and how deep `startCrawling` as written gets.
- `CrawlExample` (`example.dfy`): a two-page site crawled end to end and split into categories,
  and a three-level site on which the crawl as written stops one level short.

Termination of a whole crawl holds for every site with finitely many fetchable URLs, cyclic
link graphs included. `Drain` is proved to terminate on the measure (unvisited fetchable
pages, pending tasks). The crawl as written ends after one level of links whatever the site,
because the pool is shut down once the seed's page has been crawled.

Three behaviours of `WebCrawler.java` the model keeps:

- The scope test of line 54 uses the current page's URL, not the seed's, so the scope
  narrows as the crawl descends.
- There is no atomic claim when a task is submitted. A URL can be queued several times (`Crawler.ChildrenCounts`). It
  is checked against `links` when its task starts (line 35) and enters `links` only after a
  successful fetch (line 39). A URL whose fetch failed stays unclaimed and is fetched again
  if it is queued again.
- An unreachable seed (its fetch throws an `IOException`) is not reported separately: the result is simply empty.

## Model

| member | source | states |
|---|---|---|
| Catalogue.TagFavicon | src/main/java/com/eulerity/hackathon/imagefinder/WebCrawler.java:72-78 | a stored favicon entry starts with the tag, and what follows the tag is the favicon URL |
| Catalogue.StripTagAsWritten | src/main/java/com/eulerity/hackathon/imagefinder/WebCrawler.java:91-92 | `substring(8)` removes eight characters; for a tagged entry the result is a space followed by the favicon URL |
| Catalogue.StripTag | src/main/java/com/eulerity/hackathon/imagefinder/WebCrawler.java:91-92 | the intended decoding: re-tagging its result gives back the stored entry |
| Catalogue.AsWrittenFaviconGainsSpace | src/main/java/com/eulerity/hackathon/imagefinder/WebCrawler.java:76-92 | a favicon stored as the tag plus `h` decodes to `" " + h`, which is never `h` |
| Catalogue.FaviconRoundTrip | src/main/java/com/eulerity/hackathon/imagefinder/WebCrawler.java:76-92 | with the whole tag removed, decoding a stored favicon returns its URL exactly |
| Catalogue.StripTagAsWrittenInjective | src/main/java/com/eulerity/hackathon/imagefinder/WebCrawler.java:91-92 | two different favicon entries never decode to the same string |
| Catalogue.PartitionSizes | src/main/java/com/eulerity/hackathon/imagefinder/WebCrawler.java:90-96 | each stored entry lands in exactly one category, so the category sizes add up to the size of the stored set |
| Catalogue.AsWrittenCategorizePadsFavicons | src/main/java/com/eulerity/hackathon/imagefinder/WebCrawler.java:72-96 | splitting a stored set of images and favicons gives back the images unchanged and each favicon with a leading space, provided no image URL starts with the tag |
| Catalogue.CategorizeRoundTrip | src/main/java/com/eulerity/hackathon/imagefinder/WebCrawler.java:72-96 | with the intended decoding, splitting a stored set gives back exactly the stored images and favicons, provided no image URL starts with the tag |
| Catalogue.AppendFavicon | src/main/java/com/eulerity/hackathon/imagefinder/WebCrawler.java:91-92 | appending one decoded favicon keeps the favicon list free of duplicates and equal to the decodings of the entries seen so far |
| Catalogue.AppendImage | src/main/java/com/eulerity/hackathon/imagefinder/WebCrawler.java:93-94 | appending one untagged entry keeps the image list free of duplicates and equal to the untagged entries seen so far |
| Catalogue.GetImageUrlsStructured | src/main/java/com/eulerity/hackathon/imagefinder/WebCrawler.java:85-99 | the map has exactly the keys "images" and "favicons", even for an empty set. Each list is duplicate-free and holds exactly its category. The two lengths add up to the stored set's size. No image starts with the tag |
| Crawler.Record | src/main/java/com/eulerity/hackathon/imagefinder/WebCrawler.java:41-48 | after one page, `imageUrls` holds the old entries plus exactly that page's images and tagged favicons; the second insertion of the images adds nothing |
| Crawler.Children | src/main/java/com/eulerity/hackathon/imagefinder/WebCrawler.java:50-57 | an anchor is submitted iff it starts with the current page's URL and is not in `links` at that moment |
| Crawler.ChildrenCounts | src/main/java/com/eulerity/hackathon/imagefinder/WebCrawler.java:52-56 | every occurrence of a qualifying anchor is submitted as its own task, so an anchor repeated on a page is queued as often as it appears; a non-qualifying anchor is never submitted |
| Crawler.Crawl | src/main/java/com/eulerity/hackathon/imagefinder/WebCrawler.java:34-63 | a visited URL or a failed fetch leaves the whole state unchanged. A URL enters `links` only on a successful fetch. `links` and `imageUrls` only grow, and the pending tasks are only appended to. Once the pool is shut down nothing is appended. Every appended task is an in-scope anchor not yet visited, and every such anchor is appended |
| Crawler.Step | src/main/java/com/eulerity/hackathon/imagefinder/WebCrawler.java:34-39 | whichever waiting task runs, `links` and `imageUrls` only grow; the task's URL is visited afterwards iff it was visited before or can be fetched |
| Crawler.Drain | src/main/java/com/eulerity/hackathon/imagefinder/WebCrawler.java:103-105 | running the pool until it is idle leaves no waiting task and only grows `links` and `imageUrls` |
| CrawlProperties.StepKeepsScope | src/main/java/com/eulerity/hackathon/imagefinder/WebCrawler.java:53-55 | each step keeps every visited and waiting URL starting with the seed, because a child starts with its page's URL |
| CrawlProperties.DrainKeepsScope | src/main/java/com/eulerity/hackathon/imagefinder/WebCrawler.java:53-55 | a URL that does not start with the seed is never queued, so it is never fetched |
| CrawlProperties.StepKeepsCollected | src/main/java/com/eulerity/hackathon/imagefinder/WebCrawler.java:39-48 | each step keeps `imageUrls` equal to what the visited pages contribute |
| CrawlProperties.DrainKeepsCollected | src/main/java/com/eulerity/hackathon/imagefinder/WebCrawler.java:39-48 | after the pool is idle, `imageUrls` is exactly what the visited pages contribute |
| CrawlProperties.StepKeepsClosed | src/main/java/com/eulerity/hackathon/imagefinder/WebCrawler.java:50-57 | while the pool accepts tasks, each step keeps every in-scope anchor of a visited page visited, unfetchable or waiting |
| CrawlProperties.DrainKeepsClosed | src/main/java/com/eulerity/hackathon/imagefinder/WebCrawler.java:50-57 | while the pool accepts tasks, running it keeps every in-scope anchor of a visited page settled |
| CrawlProperties.DrainVisitsQueued | src/main/java/com/eulerity/hackathon/imagefinder/WebCrawler.java:103-105 | every waiting URL that can be fetched has been visited once the pool is idle |
| CrawlProperties.DrainAfterShutdownVisitsOnlyQueued | src/main/java/com/eulerity/hackathon/imagefinder/WebCrawler.java:101-105 | after shutdown only URLs already visited or waiting can end up visited |
| CrawlProperties.SeedCrawlQueues | src/main/java/com/eulerity/hackathon/imagefinder/WebCrawler.java:101-102 | the seed's own crawl visits the seed iff it can be fetched. It queues exactly the anchors of the seed's page that start with the seed and are not the seed |
| CrawlProperties.SeedCrawlCollects | src/main/java/com/eulerity/hackathon/imagefinder/WebCrawler.java:101-102 | the seed's own crawl collects exactly what the seed's page contributes and stays in the seed's scope |
| CrawlProperties.AsWrittenVisits | src/main/java/com/eulerity/hackathon/imagefinder/WebCrawler.java:101-114 | `startCrawling` as written visits exactly the fetchable seed and the fetchable anchors of the seed's page that start with the seed, and nothing deeper |
| CrawlProperties.AsWrittenCollects | src/main/java/com/eulerity/hackathon/imagefinder/WebCrawler.java:101-114 | after `startCrawling` as written, only fetched pages are visited and `imageUrls` is exactly what the visited pages contribute |
| CrawlProperties.AsWrittenInScope | src/main/java/com/eulerity/hackathon/imagefinder/WebCrawler.java:101-114 | everything `startCrawling` as written visits starts with the seed |
| CrawlProperties.CorrectedCollects | src/main/java/com/eulerity/hackathon/imagefinder/WebCrawler.java:101-114 | with shutdown after quiescence, only fetched pages are visited and `imageUrls` is exactly what the visited pages contribute |
| CrawlProperties.CorrectedInScope | src/main/java/com/eulerity/hackathon/imagefinder/WebCrawler.java:101-114 | with shutdown after quiescence, everything visited starts with the seed |
| CrawlProperties.CorrectedClosed | src/main/java/com/eulerity/hackathon/imagefinder/WebCrawler.java:101-114 | with shutdown after quiescence, the seed is visited iff it can be fetched, and every fetchable anchor of a visited page that starts with that page's URL is visited too |
| CrawlExample.ShutdownLosesDepthTwo | src/main/java/com/eulerity/hackathon/imagefinder/WebCrawler.java:101-105 | on the site a → ab → abc, the as-written crawl never visits abc; the corrected crawl does |
| CrawlExample.ExampleVisits | src/main/java/com/eulerity/hackathon/imagefinder/WebCrawler.java:101-105 | on a seed page linking to one in-scope sub-page, `startCrawling` visits exactly the two pages |
| CrawlExample.ExampleCollected | src/main/java/com/eulerity/hackathon/imagefinder/WebCrawler.java:39-48 | a crawl that visited exactly those two pages holds their two images and the tagged favicon |
| CrawlExample.ExampleCategories | src/main/java/com/eulerity/hackathon/imagefinder/WebCrawler.java:85-99 | splitting that stored set yields the two images, and the favicon URL preceded by a space |
| CrawlExample.ExampleSite | src/main/java/com/eulerity/hackathon/imagefinder/WebCrawler.java:101-114 | crawling the example site as written visits both pages. The images category then holds both images, and the favicons category holds ` http://ex.com/fav.ico` with its leading space |

## Findings

| source | as written | input that shows it | evidently intended | confidence | as-written member | corrected member |
|---|---|---|---|---|---|---|
| src/main/java/com/eulerity/hackathon/imagefinder/WebCrawler.java:92 | `url.substring(8)` strips eight characters of the nine-character tag `"Favicon: "` | a favicon `http://ex.com/fav.ico`, stored as `Favicon: http://ex.com/fav.ico`, decodes to ` http://ex.com/fav.ico` | strip the whole tag (`substring(9)`) so the favicon URL comes back unchanged | high; not executed | Catalogue.AsWrittenFaviconGainsSpace | Catalogue.FaviconRoundTrip |
| src/main/java/com/eulerity/hackathon/imagefinder/WebCrawler.java:101-105 | `shutdown()` runs right after the synchronous `crawl(startUrl)`. Each child task first sleeps one second, so its `submit` runs after shutdown and throws `RejectedExecutionException`, which the catch clause does not handle. No page two links below the seed is ever crawled | seed `a`, where `a` links to `ab` and `ab` links to `abc`; `abc` is never fetched | keep submitting until the pool is idle, then shut it down | high (it depends on thread timing: the main thread would have to stall for over a second between `crawl` and `shutdown` for it not to happen); not executed | CrawlExample.ShutdownLosesDepthTwo | CrawlProperties.CorrectedClosed |

The favicon categorisation in `Crawler.Contributes` uses the corrected decoding `Catalogue.StripTag`. `Catalogue.GetImageUrlsStructured` keeps the decoding as written.

## Left out

- Page fetching and HTML parsing (`fetchHTML`, the jsoup selectors, `abs:` resolution): a page is given directly by the absolute URLs its selectors would yield.
- The thread pool, its size, the one-second `Thread.sleep`, and the 60-minute and 60-second termination timeouts with `shutdownNow`: these are timing and concurrency. Because `crawl` is `synchronized`, the pool becomes a worklist. A crawl cut short by the timeout is not modelled.
- An `InterruptedException` from the sleep leaves the state as a failed fetch does. It is covered by the `Failed` outcome.
- A rejected submission ends its task without queuing anything. The exception is kept in the task's future and never observed, so the model treats it as "no children queued".
- Crawler.Drain: runs the oldest waiting task first. The per-step lemmas hold whichever task runs next, but whole-crawl results are proved for this schedule only.
- CrawlProperties.CorrectedClosed: the whole-crawl results take the web as a fixed map, so a URL that fails once fails every time. A single `Crawler.Crawl` call takes its fetch outcome as a parameter and does allow a later retry to succeed.
- The output order of the two lists comes from iterating a hash set. `GetImageUrlsStructured` picks entries in an arbitrary order and promises nothing about it.
- The site is a finite map of fetchable pages. A site that yields unboundedly many in-scope URLs (a page `a` linking to `a/n`, which links to `a/n/n`, and so on) is not modelled; on such a site the corrected crawl would not end before the 60-minute timeout.
- `classifyImages` is an empty placeholder.
- `ImageFinder.java` is servlet request handling and JSON serialisation with no crawl logic.
- A `null`, empty or malformed seed URL (one without a scheme, say) makes `Jsoup.connect` throw an unchecked exception. The catch clause of line 58 does not handle it, so it escapes `crawl(startUrl)` and `startCrawling` before `shutdown()`, and no two-key map is produced. This path is not modelled: `Crawler.FetchFrom` reports every fetch that yields no page as `Failed`. For a child task the unchecked exception ends the task with the state unchanged, which is what `Failed` does.
- The diagnostics written to `System.err` (lines 59, 108 and 111) have no effect on the state and are not modelled.
- CrawlProperties.CorrectedClosed: closure is stated one link deep: every fetchable in-scope anchor of a visited page is visited. Reachability along longer paths follows by repeating it, but is not stated as a separate lemma.
