/** Applying a function to every element of a sequence, as a Python list comprehension does. */
module Seqs {

  /** `[f(x) for x in s]`, built from the back as the loops that collect such lists do. */
  function Map<A, B>(f: A -> B, s: seq<A>): (r: seq<B>)
    ensures |r| == |s|
    ensures forall j :: 0 <= j < |s| ==> r[j] == f(s[j])
  {
    if s == [] then []
    else
      var init := s[..|s| - 1];
      var prefix := Map(f, init);
      assert forall j :: 0 <= j < |init| ==> prefix[j] == f(s[j]);
      prefix + [f(s[|s| - 1])]
  }

  /** Mapping one more element adds its image at the end. */
  lemma MapSnoc<A, B>(f: A -> B, s: seq<A>, x: A)
    ensures Map(f, s + [x]) == Map(f, s) + [f(x)]
  {
    assert (s + [x])[..|s|] == s;
  }
}
