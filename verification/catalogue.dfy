/**
 The crawler keeps every result in one set of strings. Images are stored as
 their absolute URL; favicons are stored with the tag "Favicon: " in front of
 their absolute URL (WebCrawler.java line 76). At the end the set is split into
 a map with the two keys "images" and "favicons" (getImageUrlsStructured,
 lines 85-99), which strips the tag with `substring(8)`.

 The tag is nine characters long, so stripping eight leaves its trailing space
 on every decoded favicon. `StripTagAsWritten` and `GetImageUrlsStructured`
 model the code as written; `StripTag` and `FaviconsOfCorrected` are the
 intended decoding, for which the round trip is proved.
 */
module Catalogue {
  import opened Strings

  /** The tag put in front of a favicon URL when it is stored (line 76). */
  const FaviconTag: string := "Favicon: "

  /** The number of characters `getImageUrlsStructured` removes (line 92). */
  const StripLength: nat := 8

  /** The two keys of the structured result (lines 87-88). */
  const ImagesKey: string := "images"
  const FaviconsKey: string := "favicons"

  /** The stored form of a favicon URL. */
  function TagFavicon(href: string): (entry: string)
    ensures StartsWith(entry, FaviconTag)
    ensures entry[|FaviconTag|..] == href
  {
    PrependedStartsWith(FaviconTag, href);
    FaviconTag + href
  }

  /** The test of line 91 that routes an entry to the favicon list. */
  predicate IsFaviconEntry(entry: string)
  {
    StartsWith(entry, FaviconTag)
  }

  /** `entry.substring(8)`, as line 92 decodes a favicon entry. */
  function StripTagAsWritten(entry: string): (r: string)
    requires StripLength <= |entry|
    ensures |r| + StripLength == |entry|
    ensures IsFaviconEntry(entry) ==> r == " " + entry[|FaviconTag|..]
  {
    entry[StripLength..]
  }

  /** The intended decoding: remove the whole nine-character tag. */
  function StripTag(entry: string): (href: string)
    requires IsFaviconEntry(entry)
    ensures TagFavicon(href) == entry
  {
    assert entry == entry[..|FaviconTag|] + entry[|FaviconTag|..];
    entry[|FaviconTag|..]
  }

  /** As written, decoding a stored favicon gives back its URL with a leading
      space, never the URL itself. */
  lemma AsWrittenFaviconGainsSpace(href: string)
    ensures StripTagAsWritten(TagFavicon(href)) == " " + href
    ensures StripTagAsWritten(TagFavicon(href)) != href
  {
    var entry := TagFavicon(href);
    assert |StripTagAsWritten(entry)| == |href| + 1;
  }

  /** With the whole tag removed, decoding undoes encoding. */
  lemma FaviconRoundTrip(href: string)
    ensures StripTag(TagFavicon(href)) == href
  {
  }

  /** Decoding as written loses no information: distinct stored favicons decode
      to distinct strings, so no favicon is merged with another in the output. */
  lemma StripTagAsWrittenInjective(a: string, b: string)
    requires IsFaviconEntry(a) && IsFaviconEntry(b)
    ensures StripTagAsWritten(a) == StripTagAsWritten(b) ==> a == b
  {
    if StripTagAsWritten(a) == StripTagAsWritten(b) {
      assert a[..StripLength] == a[..|FaviconTag|][..StripLength];
      assert b[..StripLength] == b[..|FaviconTag|][..StripLength];
      SamePrefixSameSuffix(a, b, StripLength);
    }
  }

  /** The elements of a list. */
  function Elements(s: seq<string>): set<string>
  {
    set x | x in s
  }

  /** A list in which no string appears twice. */
  predicate Distinct(s: seq<string>)
  {
    forall i, j | 0 <= i < j < |s| :: s[i] != s[j]
  }

  /** The stored entries that line 94 puts in the image list. */
  function ImagesOf(stored: set<string>): set<string>
  {
    set e | e in stored && !IsFaviconEntry(e)
  }

  /** The decoded entries that line 92 puts in the favicon list. */
  function FaviconsOf(stored: set<string>): set<string>
  {
    set e | e in stored && IsFaviconEntry(e) :: StripTagAsWritten(e)
  }

  /** The favicon list the intended decoding would produce. */
  function FaviconsOfCorrected(stored: set<string>): set<string>
  {
    set e | e in stored && IsFaviconEntry(e) :: StripTag(e)
  }

  /** The set the crawler stores for the given image and favicon URLs. */
  function Store(images: set<string>, favicons: set<string>): set<string>
  {
    images + set h | h in favicons :: TagFavicon(h)
  }

  /** Every stored entry lands in exactly one of the two categories, so the two
      category sizes add up to the size of the stored set. */
  lemma {:induction false} PartitionSizes(stored: set<string>)
    ensures |ImagesOf(stored)| + |FaviconsOf(stored)| == |stored|
    decreases stored
  {
    if stored != {} {
      var e :| e in stored;
      var rest := stored - {e};
      PartitionSizes(rest);
      if IsFaviconEntry(e) {
        assert ImagesOf(stored) == ImagesOf(rest);
        assert FaviconsOf(stored) == FaviconsOf(rest) + {StripTagAsWritten(e)};
        forall f | f in FaviconsOf(rest)
          ensures f != StripTagAsWritten(e)
        {
          var e' :| e' in rest && IsFaviconEntry(e') && f == StripTagAsWritten(e');
          StripTagAsWrittenInjective(e', e);
        }
      } else {
        assert ImagesOf(stored) == ImagesOf(rest) + {e};
        assert FaviconsOf(stored) == FaviconsOf(rest);
      }
    }
  }

  /** As written, decoding what the crawler stored returns the images unchanged
      but every favicon URL with a space in front of it. */
  lemma AsWrittenCategorizePadsFavicons(images: set<string>, favicons: set<string>)
    requires forall i | i in images :: !IsFaviconEntry(i)
    ensures ImagesOf(Store(images, favicons)) == images
    ensures FaviconsOf(Store(images, favicons)) == set h | h in favicons :: " " + h
  {
    var stored := Store(images, favicons);
    forall x | x in FaviconsOf(stored)
      ensures x in set h | h in favicons :: " " + h
    {
      var e :| e in stored && IsFaviconEntry(e) && x == StripTagAsWritten(e);
      var h :| h in favicons && e == TagFavicon(h);
      AsWrittenFaviconGainsSpace(h);
    }
    forall h | h in favicons
      ensures " " + h in FaviconsOf(stored)
    {
      AsWrittenFaviconGainsSpace(h);
      assert TagFavicon(h) in stored;
    }
  }

  /** With the intended decoding, splitting the stored set recovers exactly the
      image and favicon URLs that were stored, provided no image URL itself
      begins with the tag. */
  lemma CategorizeRoundTrip(images: set<string>, favicons: set<string>)
    requires forall i | i in images :: !IsFaviconEntry(i)
    ensures ImagesOf(Store(images, favicons)) == images
    ensures FaviconsOfCorrected(Store(images, favicons)) == favicons
  {
    var stored := Store(images, favicons);
    forall x | x in FaviconsOfCorrected(stored)
      ensures x in favicons
    {
      var e :| e in stored && IsFaviconEntry(e) && x == StripTag(e);
      var h :| h in favicons && e == TagFavicon(h);
      FaviconRoundTrip(h);
    }
    forall h | h in favicons
      ensures h in FaviconsOfCorrected(stored)
    {
      FaviconRoundTrip(h);
      assert TagFavicon(h) in stored;
    }
  }

  /** One favicon entry walked by the loop of lines 90-96: appending its
      decoding keeps the favicon list duplicate-free and in step with the
      entries walked so far. */
  lemma AppendFavicon(done: set<string>, entry: string, favicons: seq<string>)
    requires IsFaviconEntry(entry) && entry !in done
    requires Distinct(favicons) && Elements(favicons) == FaviconsOf(done)
    ensures Distinct(favicons + [StripTagAsWritten(entry)])
    ensures Elements(favicons + [StripTagAsWritten(entry)]) == FaviconsOf(done + {entry})
    ensures ImagesOf(done + {entry}) == ImagesOf(done)
  {
    var decoded := StripTagAsWritten(entry);
    forall k | 0 <= k < |favicons|
      ensures favicons[k] != decoded
    {
      assert favicons[k] in Elements(favicons);
      var e :| e in done && IsFaviconEntry(e) && favicons[k] == StripTagAsWritten(e);
      StripTagAsWrittenInjective(e, entry);
    }
    assert FaviconsOf(done + {entry}) == FaviconsOf(done) + {decoded};
  }

  /** One image entry walked by the loop of lines 90-96. */
  lemma AppendImage(done: set<string>, entry: string, images: seq<string>)
    requires !IsFaviconEntry(entry) && entry !in done
    requires Distinct(images) && Elements(images) == ImagesOf(done)
    ensures Distinct(images + [entry])
    ensures Elements(images + [entry]) == ImagesOf(done + {entry})
    ensures FaviconsOf(done + {entry}) == FaviconsOf(done)
  {
    assert forall k | 0 <= k < |images| :: images[k] in Elements(images);
    assert ImagesOf(done + {entry}) == ImagesOf(done) + {entry};
  }

  /** getImageUrlsStructured: walk the stored set (in whatever order the hash
      set yields) and append each entry to the list of its category. */
  method GetImageUrlsStructured(stored: set<string>) returns (categorized: map<string, seq<string>>)
    ensures categorized.Keys == {ImagesKey, FaviconsKey}
    ensures Distinct(categorized[ImagesKey]) && Elements(categorized[ImagesKey]) == ImagesOf(stored)
    ensures Distinct(categorized[FaviconsKey]) && Elements(categorized[FaviconsKey]) == FaviconsOf(stored)
    ensures |categorized[ImagesKey]| + |categorized[FaviconsKey]| == |stored|
    ensures forall k | 0 <= k < |categorized[ImagesKey]| :: !IsFaviconEntry(categorized[ImagesKey][k])
  {
    var images: seq<string> := [];
    var favicons: seq<string> := [];
    var remaining := stored;
    ghost var done: set<string> := {};
    while remaining != {}
      invariant done == stored - remaining && remaining <= stored
      invariant Distinct(images) && Elements(images) == ImagesOf(done)
      invariant Distinct(favicons) && Elements(favicons) == FaviconsOf(done)
      invariant |images| + |favicons| + |remaining| == |stored|
      decreases remaining
    {
      var url :| url in remaining;
      if IsFaviconEntry(url) {
        AppendFavicon(done, url, favicons);
        favicons := favicons + [StripTagAsWritten(url)];
      } else {
        AppendImage(done, url, images);
        images := images + [url];
      }
      remaining := remaining - {url};
      done := done + {url};
    }
    assert forall k | 0 <= k < |images| :: images[k] in Elements(images);
    categorized := map[ImagesKey := images, FaviconsKey := favicons];
  }
}
