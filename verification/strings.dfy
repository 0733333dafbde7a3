/**
 Literal string-prefix matching, as Java's `String.startsWith` performs it:
 character-by-character, with no normalisation of any kind. The crawler uses it
 both for its scope check and for recognising tagged favicon entries.
 */
module Strings {

  /** True iff `s` begins with `prefix` (every string begins with ""). */
  predicate StartsWith(s: string, prefix: string)
  {
    |prefix| <= |s| && s[..|prefix|] == prefix
  }

  /** A string always starts with whatever was prepended to it. */
  lemma PrependedStartsWith(prefix: string, rest: string)
    ensures StartsWith(prefix + rest, prefix)
  {
    assert (prefix + rest)[..|prefix|] == prefix;
  }

  /** Prefixes compose: a prefix of a prefix is a prefix. */
  lemma StartsWithTransitive(s: string, mid: string, prefix: string)
    requires StartsWith(s, mid) && StartsWith(mid, prefix)
    ensures StartsWith(s, prefix)
  {
    assert s[..|prefix|] == s[..|mid|][..|prefix|];
  }

  /** Two strings that share a prefix are equal iff what follows it is equal. */
  lemma SamePrefixSameSuffix(a: string, b: string, k: nat)
    requires k <= |a| && k <= |b|
    requires a[..k] == b[..k] && a[k..] == b[k..]
    ensures a == b
  {
    assert a == a[..k] + a[k..];
    assert b == b[..k] + b[k..];
  }
}
