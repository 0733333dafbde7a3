/**
 Worked examples: a two-page site crawled by `startCrawling` as written, then
 split into categories by `getImageUrlsStructured`; and a three-level site on
 which the crawl as written stops one level short of the corrected one.
 */
module CrawlExample {
  import opened Strings
  import opened Crawler
  import opened CrawlProperties
  import Catalogue

  const Seed: Url := "http://ex.com/"
  const Sub: Url := "http://ex.com/sub"

  /** The seed page has an image, a favicon and an anchor to a sub-page; the
      sub-page has one image and no anchors. */
  function ExampleWeb(): Web
  {
    map[Seed := Page(["http://ex.com/a.jpg"], ["http://ex.com/fav.ico"], [Sub]),
        Sub := Page(["http://ex.com/sub/b.jpg"], [], [])]
  }

  /** Both pages are visited: the sub-page is an in-scope anchor of the seed. */
  lemma ExampleVisits()
    ensures StartCrawling(Seed, ExampleWeb()).links == {Seed, Sub}
  {
    var web := ExampleWeb();
    AsWrittenVisits(Seed, web);
    assert StartsWith(Sub, Seed);
    assert Sub in web[Seed].anchors;
  }

  /** Any state that visited exactly the two pages, and collected what they
      contribute, holds the two images and the tagged favicon. */
  lemma ExampleCollected(r: State)
    requires r.links == {Seed, Sub} && Collected(r, ExampleWeb())
    ensures r.imageUrls == {"http://ex.com/a.jpg", "http://ex.com/sub/b.jpg", Catalogue.TagFavicon("http://ex.com/fav.ico")}
  {
    var web := ExampleWeb();
    var fav := Catalogue.TagFavicon("http://ex.com/fav.ico");
    assert fav in r.imageUrls by {
      assert Contributes(web[Seed], fav);
    }
    assert "http://ex.com/a.jpg" in r.imageUrls by {
      assert Contributes(web[Seed], "http://ex.com/a.jpg");
    }
    assert "http://ex.com/sub/b.jpg" in r.imageUrls by {
      assert Contributes(web[Sub], "http://ex.com/sub/b.jpg");
    }
    forall x | x in r.imageUrls
      ensures x in {"http://ex.com/a.jpg", "http://ex.com/sub/b.jpg", fav}
    {
      var u :| u in r.links && u in web && Contributes(web[u], x);
      if Catalogue.IsFaviconEntry(x) && Catalogue.StripTag(x) in web[u].favicons {
        assert u == Seed;
        assert x == Catalogue.TagFavicon(Catalogue.StripTag(x));
      }
    }
  }

  /** Splitting that stored set yields both images and the favicon URL with a
      leading space. */
  lemma ExampleCategories(stored: set<string>)
    requires stored == {"http://ex.com/a.jpg", "http://ex.com/sub/b.jpg", Catalogue.TagFavicon("http://ex.com/fav.ico")}
    ensures Catalogue.ImagesOf(stored) == {"http://ex.com/a.jpg", "http://ex.com/sub/b.jpg"}
    ensures Catalogue.FaviconsOf(stored) == {" http://ex.com/fav.ico"}
  {
    var images := {"http://ex.com/a.jpg", "http://ex.com/sub/b.jpg"};
    var favicons := {"http://ex.com/fav.ico"};
    forall i | i in images
      ensures !Catalogue.IsFaviconEntry(i)
    {
      assert i[..|Catalogue.FaviconTag|][0] == 'h' != Catalogue.FaviconTag[0];
    }
    assert stored == Catalogue.Store(images, favicons);
    Catalogue.AsWrittenCategorizePadsFavicons(images, favicons);
    assert " " + "http://ex.com/fav.ico" == " http://ex.com/fav.ico";
    assert (set h | h in favicons :: " " + h) == {" http://ex.com/fav.ico"};
  }

  /** The whole crawl of the example site, as written: both pages are visited,
      the image category holds both images, and the favicon category holds the
      favicon URL preceded by a space. */
  lemma ExampleSite()
    ensures StartCrawling(Seed, ExampleWeb()).links == {Seed, Sub}
    ensures Catalogue.ImagesOf(StartCrawling(Seed, ExampleWeb()).imageUrls) == {"http://ex.com/a.jpg", "http://ex.com/sub/b.jpg"}
    ensures Catalogue.FaviconsOf(StartCrawling(Seed, ExampleWeb()).imageUrls) == {" http://ex.com/fav.ico"}
  {
    ExampleVisits();
    AsWrittenCollects(Seed, ExampleWeb());
    ExampleCollected(StartCrawling(Seed, ExampleWeb()));
    ExampleCategories(StartCrawling(Seed, ExampleWeb()).imageUrls);
  }

  /** A three-level site: "a" links to "ab", which links to "abc". */
  function DepthTwoWeb(): Web
  {
    map["a" := Page([], [], ["ab"]), "ab" := Page([], [], ["abc"]), "abc" := Page(["abc/i.png"], [], [])]
  }

  /** The shutdown in `startCrawling` loses every page two links below the
      seed: "abc" is in scope and fetchable, yet only the corrected crawl
      visits it. */
  lemma ShutdownLosesDepthTwo()
    ensures "abc" !in StartCrawling("a", DepthTwoWeb()).links
    ensures "abc" in StartCrawlingCorrected("a", DepthTwoWeb()).links
  {
    var web := DepthTwoWeb();
    AsWrittenVisits("a", web);
    assert "abc" != "a" && "abc" !in web["a"].anchors;
    CorrectedClosed("a", web);
    var r := StartCrawlingCorrected("a", web);
    assert StartsWith("ab", "a") && StartsWith("abc", "ab");
    assert "ab" in web["a"].anchors && "abc" in web["ab"].anchors;
    assert "a" in r.links;
    assert "ab" in r.links;
  }
}
