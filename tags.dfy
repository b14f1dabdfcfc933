/** Canonical tag names: every registry lookup and every marker comparison
    uses the lower-cased form of a tag (WingSpan.getCanonical). */
module Tags {

  /** ASCII lower-casing of one character; any other character is kept. */
  function Lower(c: char): char
  {
    if 'A' <= c <= 'Z' then (c as int + 32) as char else c
  }

  predicate IsLowerCase(s: string)
  {
    forall i :: 0 <= i < |s| ==> !('A' <= s[i] <= 'Z')
  }

  /** Two tag names that differ at most in the case of their letters. */
  predicate SameIgnoringCase(a: string, b: string)
  {
    |a| == |b| && forall i :: 0 <= i < |a| ==> Lower(a[i]) == Lower(b[i])
  }

  /** The canonical form of a tag: `tag.toLowerCase(Locale.US)` restricted to ASCII. */
  function Canonical(tag: string): (r: string)
    ensures |r| == |tag| && IsLowerCase(r)
    ensures SameIgnoringCase(r, tag)
    ensures forall i :: 0 <= i < |tag| && !('A' <= tag[i] <= 'Z') ==> r[i] == tag[i]
  {
    seq(|tag|, i requires 0 <= i < |tag| => Lower(tag[i]))
  }

  /** A name is canonical when lower-casing leaves it as it is. */
  predicate IsCanonical(tag: string)
  {
    Canonical(tag) == tag
  }

  /** Lower-case names are their own canonical form. */
  lemma CanonicalOfLowerCase(tag: string)
    requires IsLowerCase(tag)
    ensures Canonical(tag) == tag
  {
    var r := Canonical(tag);
    forall i | 0 <= i < |tag| ensures r[i] == tag[i] {
    }
  }

  /** Canonicalising twice is the same as canonicalising once. */
  lemma CanonicalIdempotent(tag: string)
    ensures IsCanonical(Canonical(tag))
  {
    CanonicalOfLowerCase(Canonical(tag));
  }

  /** Two tags have the same canonical name exactly when they differ only in case. */
  lemma CanonicalIgnoresCase(a: string, b: string)
    ensures Canonical(a) == Canonical(b) <==> SameIgnoringCase(a, b)
  {
    if SameIgnoringCase(a, b) {
      var ra, rb := Canonical(a), Canonical(b);
      assert |ra| == |rb|;
      forall i | 0 <= i < |ra| ensures ra[i] == rb[i] {
        assert ra[i] == Lower(a[i]) && rb[i] == Lower(b[i]);
      }
    }
    if Canonical(a) == Canonical(b) {
      forall i | 0 <= i < |a| ensures Lower(a[i]) == Lower(b[i]) {
        assert Canonical(a)[i] == Canonical(b)[i];
      }
    }
  }
}
