/** Facts about "some element" and "every element" of a sequence that grows at its
    end, used by the inductions over the corpus folds. */
module Seqs {

  /** Some element of `s` satisfies `p` exactly when some element of its prefix
      `init` does or its last element does. */
  lemma {:induction false} SomeSnoc<T>(s: seq<T>, init: seq<T>, p: T -> bool)
    requires s != [] && init == s[..|s| - 1]
    ensures (exists i :: 0 <= i < |s| && p(s[i]))
            <==> (exists i :: 0 <= i < |init| && p(init[i])) || p(s[|s| - 1])
  {
    if i :| 0 <= i < |init| && p(init[i]) {
      assert p(s[i]);
    }
  }

  /** Every element of `s` satisfies `p` exactly when every element of its prefix
      `init` does and its last element does. */
  lemma {:induction false} AllSnoc<T>(s: seq<T>, init: seq<T>, p: T -> bool)
    requires s != [] && init == s[..|s| - 1]
    ensures (forall i :: 0 <= i < |s| ==> p(s[i]))
            <==> (forall i :: 0 <= i < |init| ==> p(init[i])) && p(s[|s| - 1])
  {
    if forall i :: 0 <= i < |init| ==> p(init[i]) {
      if p(s[|s| - 1]) {
        forall i | 0 <= i < |s|
          ensures p(s[i])
        {
          if i < |init| {
            assert s[i] == init[i];
          }
        }
      }
    }
  }
}
