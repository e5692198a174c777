/**
 Prefix handling on keys: the two string operations the store applies to a
 listed object key before it consults the index and opens a reader.
 */
module Strings {

  /** `p` is a prefix of `s` (Go's `strings.HasPrefix`). */
  predicate HasPrefix(s: string, p: string) {
    |p| <= |s| && s[..|p|] == p
  }

  /** Go's `strings.TrimPrefix`: `s` without its leading `p` when `s` starts
      with `p`, and `s` itself otherwise. Putting the prefix back in front of
      the result restores `s` exactly when the prefix was there. */
  function TrimPrefix(s: string, p: string): (r: string)
    ensures HasPrefix(s, p) ==> p + r == s
    ensures !HasPrefix(s, p) ==> r == s
    ensures |r| <= |s|
  {
    if HasPrefix(s, p) then s[|p|..] else s
  }

  /** The key the store reopens, `p + TrimPrefix(s, p)`, is the listed key
      `s` if and only if `s` starts with `p`: a key outside the prefix is
      reopened under a different name. */
  lemma ReaderKeyRoundTrip(s: string, p: string)
    ensures p + TrimPrefix(s, p) == s <==> HasPrefix(s, p)
  {
  }

  /** Stripping a prefix that was just prepended gives back the suffix. */
  lemma TrimPrefixOfPrefixed(p: string, x: string)
    ensures TrimPrefix(p + x, p) == x
  {
  }

  /** Prepending the same prefix is injective. */
  lemma PrefixCancel(p: string, x: string, y: string)
    ensures p + x == p + y <==> x == y
  {
    assert (p + x)[|p|..] == x;
    assert (p + y)[|p|..] == y;
  }
}
