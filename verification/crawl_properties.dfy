/**
 Properties of whole crawls: the scope rule, what ends up in `imageUrls`, the
 closure a crawl reaches when the pool stays open until quiescence, and how far
 the crawl of `startCrawling` as written actually gets.
 */
module CrawlProperties {
  import opened Strings
  import opened Crawler

  /** Every visited and every waiting URL starts with the seed. */
  ghost predicate InScope(s: State, seed: Url)
  {
    && (forall u | u in s.links :: StartsWith(u, seed))
    && (forall u | u in s.pending :: StartsWith(u, seed))
  }

  /** Only pages that were fetched are visited, and `imageUrls` holds exactly
      what the visited pages contribute. */
  ghost predicate Collected(s: State, web: Web)
  {
    && (forall u | u in s.links :: u in web)
    && (forall x :: x in s.imageUrls <==> exists u :: u in s.links && u in web && Contributes(web[u], x))
  }

  /** An anchor is settled once it is visited, cannot be fetched, or is waiting
      to be crawled. */
  ghost predicate Settled(s: State, web: Web, a: Url)
  {
    a in s.links || a !in web || a in s.pending
  }

  /** Every anchor of every visited page that lies in that page's scope is
      settled. */
  ghost predicate Closed(s: State, web: Web)
  {
    forall u | u in s.links :: u in web &&
      forall a | a in web[u].anchors && StartsWith(a, u) :: Settled(s, web, a)
  }

  /** Running any waiting task keeps the crawl within the seed's scope: a child
      starts with its page's URL, which itself starts with the seed. */
  lemma StepKeepsScope(s: State, i: nat, web: Web, seed: Url)
    requires i < |s.pending| && InScope(s, seed)
    ensures InScope(Step(s, i, web), seed)
  {
    var url := s.pending[i];
    var s' := s.(pending := Without(s.pending, i));
    var r := Crawl(s', url, FetchFrom(web, url));
    assert r == Step(s, i, web);
    forall u | u in r.pending
      ensures StartsWith(u, seed)
    {
      var k :| 0 <= k < |r.pending| && r.pending[k] == u;
      if k < |s'.pending| {
        assert r.pending[k] == r.pending[..|s'.pending|][k];
      } else {
        StartsWithTransitive(u, url, seed);
      }
    }
  }

  /** Running the pool keeps the crawl within the seed's scope. */
  lemma {:induction false} DrainKeepsScope(s: State, web: Web, seed: Url)
    requires InScope(s, seed)
    ensures InScope(Drain(s, web), seed)
    decreases |web.Keys - s.links|, |s.pending|
  {
    if s.pending != [] {
      var url := s.pending[0];
      StepKeepsScope(s, 0, web, seed);
      if url !in s.links && url in web {
        UnvisitedShrinks(web, s.links, url);
      }
      DrainKeepsScope(Step(s, 0, web), web, seed);
    }
  }

  /** Running any waiting task keeps `imageUrls` equal to what the visited
      pages contribute. */
  lemma StepKeepsCollected(s: State, i: nat, web: Web)
    requires i < |s.pending| && Collected(s, web)
    ensures Collected(Step(s, i, web), web)
  {
    var url := s.pending[i];
    var r := Step(s, i, web);
    if url !in s.links && url in web {
      var s' := s.(pending := Without(s.pending, i));
      assert r == Crawl(s', url, Fetched(web[url]));
      assert r.links == s.links + {url};
      forall x
        ensures x in r.imageUrls <==> exists u :: u in r.links && u in web && Contributes(web[u], x)
      {
        if x in r.imageUrls {
          if x !in s.imageUrls {
            assert Contributes(web[url], x);
          } else {
            var u :| u in s.links && u in web && Contributes(web[u], x);
            assert u in r.links;
          }
        }
        if exists u :: u in r.links && u in web && Contributes(web[u], x) {
          var u :| u in r.links && u in web && Contributes(web[u], x);
          if u != url {
            assert x in s.imageUrls;
          }
        }
      }
    }
  }

  /** Running the pool keeps `imageUrls` equal to what the visited pages
      contribute. */
  lemma {:induction false} DrainKeepsCollected(s: State, web: Web)
    requires Collected(s, web)
    ensures Collected(Drain(s, web), web)
    decreases |web.Keys - s.links|, |s.pending|
  {
    if s.pending != [] {
      var url := s.pending[0];
      StepKeepsCollected(s, 0, web);
      if url !in s.links && url in web {
        UnvisitedShrinks(web, s.links, url);
      }
      DrainKeepsCollected(Step(s, 0, web), web);
    }
  }

  /** While the pool accepts submissions, running any waiting task keeps every
      in-scope anchor of every visited page settled. */
  lemma StepKeepsClosed(s: State, i: nat, web: Web)
    requires i < |s.pending| && s.accepting && Closed(s, web)
    ensures Closed(Step(s, i, web), web)
  {
    var url := s.pending[i];
    var s' := s.(pending := Without(s.pending, i));
    var r := Crawl(s', url, FetchFrom(web, url));
    assert r == Step(s, i, web);
    assert forall a | a in s'.pending :: a in r.pending by {
      forall a | a in s'.pending
        ensures a in r.pending
      {
        var k :| 0 <= k < |s'.pending| && s'.pending[k] == a;
        assert r.pending[..|s'.pending|][k] == a;
      }
    }
    forall u, a | u in r.links && a in web[u].anchors && StartsWith(a, u)
      ensures Settled(r, web, a)
    {
      if u == url && url !in s.links {
        if a !in r.links {
          assert a in r.pending[|s'.pending|..];
        }
      } else {
        assert Settled(s, web, a);
      }
    }
  }

  /** While the pool accepts submissions, running it keeps every in-scope anchor
      of every visited page settled. */
  lemma {:induction false} DrainKeepsClosed(s: State, web: Web)
    requires s.accepting && Closed(s, web)
    ensures Closed(Drain(s, web), web)
    decreases |web.Keys - s.links|, |s.pending|
  {
    if s.pending != [] {
      var url := s.pending[0];
      StepKeepsClosed(s, 0, web);
      if url !in s.links && url in web {
        UnvisitedShrinks(web, s.links, url);
      }
      DrainKeepsClosed(Step(s, 0, web), web);
    }
  }

  /** Every waiting URL that can be fetched is visited by the time the pool is
      idle: a task is never dropped, whatever else happens. */
  lemma {:induction false} DrainVisitsQueued(s: State, web: Web)
    ensures forall u | u in s.pending && u in web :: u in Drain(s, web).links
    decreases |web.Keys - s.links|, |s.pending|
  {
    if s.pending != [] {
      var url := s.pending[0];
      var s' := s.(pending := Without(s.pending, 0));
      var next := Step(s, 0, web);
      assert next == Crawl(s', url, FetchFrom(web, url));
      assert forall u | u in s'.pending :: u in next.pending by {
        forall u | u in s'.pending
          ensures u in next.pending
        {
          var k :| 0 <= k < |s'.pending| && s'.pending[k] == u;
          assert next.pending[..|s'.pending|][k] == u;
        }
      }
      if url !in s.links && url in web {
        UnvisitedShrinks(web, s.links, url);
      }
      DrainVisitsQueued(next, web);
    }
  }

  /** Once the pool is shut down nothing new is queued, so the only URLs that
      can still be visited are those already waiting. */
  lemma {:induction false} DrainAfterShutdownVisitsOnlyQueued(s: State, web: Web)
    requires !s.accepting
    ensures forall u | u in Drain(s, web).links :: u in s.links || u in s.pending
    decreases |web.Keys - s.links|, |s.pending|
  {
    if s.pending != [] {
      var url := s.pending[0];
      var next := Step(s, 0, web);
      assert next.pending == Without(s.pending, 0);
      if url !in s.links && url in web {
        UnvisitedShrinks(web, s.links, url);
      }
      DrainAfterShutdownVisitsOnlyQueued(next, web);
    }
  }

  /** The seed's own crawl visits the seed iff it can be fetched and queues
      exactly the in-scope anchors of the seed's page other than the seed
      (none if the fetch failed). */
  lemma SeedCrawlQueues(seed: Url, web: Web)
    ensures var first := SeedCrawl(seed, web);
      && first.accepting
      && (forall u :: u in first.links <==> u == seed && seed in web)
      && (forall u | u in first.pending :: seed in web && u in web[seed].anchors && StartsWith(u, seed) && u != seed)
      && (forall u | seed in web && u in web[seed].anchors && StartsWith(u, seed) && u != seed :: u in first.pending)
  {
    var first := SeedCrawl(seed, web);
    forall u | u in first.pending
      ensures seed in web && u in web[seed].anchors && StartsWith(u, seed) && u != seed
    {
      var k :| 0 <= k < |first.pending| && first.pending[k] == u;
    }
    forall u | seed in web && u in web[seed].anchors && StartsWith(u, seed) && u != seed
      ensures u in first.pending
    {
      assert u in first.pending[|Initial.pending|..];
    }
  }

  /** The seed's own crawl collects exactly what the seed's page contributes
      and stays within the seed's scope. */
  lemma SeedCrawlCollects(seed: Url, web: Web)
    ensures Collected(SeedCrawl(seed, web), web) && InScope(SeedCrawl(seed, web), seed)
  {
    var first := SeedCrawl(seed, web);
    SeedCrawlQueues(seed, web);
    PrependedStartsWith(seed, []);
    assert seed + [] == seed;
    if seed in web {
      forall x
        ensures x in first.imageUrls <==> exists u :: u in first.links && u in web && Contributes(web[u], x)
      {
        if x in first.imageUrls {
          assert seed in first.links && Contributes(web[seed], x);
        }
      }
    }
  }

  /** `startCrawling` as written visits exactly the seed (when it can be
      fetched) and the fetchable anchors of the seed's page that start with the
      seed. It never gets any deeper, because every task that would submit a
      grandchild runs after the pool was shut down. */
  lemma AsWrittenVisits(seed: Url, web: Web)
    ensures forall u :: u in StartCrawling(seed, web).links <==>
      u in web && (u == seed || (seed in web && u in web[seed].anchors && StartsWith(u, seed)))
  {
    var first := SeedCrawl(seed, web);
    var closed := first.(accepting := false);
    var r := Drain(closed, web);
    assert r == StartCrawling(seed, web);
    SeedCrawlQueues(seed, web);
    AsWrittenCollects(seed, web);
    DrainAfterShutdownVisitsOnlyQueued(closed, web);
    DrainVisitsQueued(closed, web);
    forall u
      ensures u in r.links <==> u in web && (u == seed || (seed in web && u in web[seed].anchors && StartsWith(u, seed)))
    {
      if u in r.links {
        assert u in first.links || u in first.pending;
        assert u in web;
      }
      if u in web && u == seed {
        assert u in first.links;
      } else if u in web && seed in web && u in web[seed].anchors && StartsWith(u, seed) {
        assert u in closed.pending;
      }
    }
  }

  /** `startCrawling` as written ends with `imageUrls` equal to what the
      visited pages contribute. */
  lemma AsWrittenCollects(seed: Url, web: Web)
    ensures Collected(StartCrawling(seed, web), web)
  {
    SeedCrawlCollects(seed, web);
    DrainKeepsCollected(SeedCrawl(seed, web).(accepting := false), web);
  }

  /** Everything `startCrawling` as written visits starts with the seed. */
  lemma AsWrittenInScope(seed: Url, web: Web)
    ensures InScope(StartCrawling(seed, web), seed)
  {
    SeedCrawlCollects(seed, web);
    DrainKeepsScope(SeedCrawl(seed, web).(accepting := false), web, seed);
  }

  /** With the pool kept open until quiescence, `imageUrls` ends equal to what
      the visited pages contribute. */
  lemma CorrectedCollects(seed: Url, web: Web)
    ensures Collected(StartCrawlingCorrected(seed, web), web)
  {
    SeedCrawlCollects(seed, web);
    DrainKeepsCollected(SeedCrawl(seed, web), web);
  }

  /** With the pool kept open until quiescence, everything visited starts with
      the seed. */
  lemma CorrectedInScope(seed: Url, web: Web)
    ensures InScope(StartCrawlingCorrected(seed, web), seed)
  {
    SeedCrawlCollects(seed, web);
    DrainKeepsScope(SeedCrawl(seed, web), web, seed);
  }

  /** With the pool kept open until quiescence, the crawl visits the seed when
      it can be fetched and is closed: every fetchable anchor of a visited page
      that starts with that page's URL is visited too. */
  lemma CorrectedClosed(seed: Url, web: Web)
    ensures var r := StartCrawlingCorrected(seed, web);
      && (seed in r.links <==> seed in web)
      && (forall u, a | u in r.links && u in web && a in web[u].anchors && StartsWith(a, u) && a in web :: a in r.links)
  {
    var first := SeedCrawl(seed, web);
    var r := Drain(first, web);
    assert r == StartCrawlingCorrected(seed, web);
    SeedCrawlQueues(seed, web);
    assert Closed(first, web) by {
      forall u, a | u in first.links && a in web[u].anchors && StartsWith(a, u)
        ensures Settled(first, web, a)
      {
        assert u == seed;
      }
    }
    DrainKeepsClosed(first, web);
    assert r.pending == [];
    forall u, a | u in r.links && u in web && a in web[u].anchors && StartsWith(a, u) && a in web
      ensures a in r.links
    {
      assert Settled(r, web, a);
    }
  }
}
