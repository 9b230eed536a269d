/** The one iterator adaptor the crate uses on its vectors. */
module Seqs {

  /** `s.iter().any(p)`: visits the elements front to back and stops at the
      first one that satisfies `p`. */
  function Any<T>(s: seq<T>, p: T -> bool): (b: bool)
    ensures b <==> exists i :: 0 <= i < |s| && p(s[i])
    decreases |s|
  {
    if s == [] then false
    else if p(s[0]) then true
    else
      var b := Any(s[1..], p);
      assert forall i :: 0 < i < |s| ==> s[i] == s[1..][i - 1];
      b
  }
}
