/** The fixed table of known-corrupted lookup keys (`fd_fixes_mapping`) and the
    correction `fd_fixes_mapping.get(k, k)` applied to every `original_response`. */
module Corrections {
  import opened Records

  /** Grounded-dialogue response text on the left, the text under which the same
      turn is indexed in the knowledge corpus on the right. The first entry is
      split after the one word in which key and value differ. */
  const FixesMapping: map<string, string> := map[
    "I absolutely love to surf" + ", just riding on the forward face of a moving wave is so exhilarating. Are there a lot of sharks near you?"
      := "I absolutely love to sure" + ", just riding on the forward face of a moving wave is so exhilarating. Are there a lot of sharks near you?",
    "Yes, my uncle was russain and effected by the chernobyl disaster. He had a hard time trying to have a kid because of the radiation cancer he had to deal with."
      := "Yes, my uncle was rusain and effected by the chernobyl disaster. He had a hard time trying to have a kid because of the radiation cancer he had to deal with.",
    "Let's see. If memory serves me correctly,  Hans Heinrich Josef Meyer  was a geographer and geologist from Germany who also climbed mountains and volcanic peaks?  "
      := "Let's see. If memory serves me correctly,  Hans Heinrich Josef Meyer  was a geographer and geologist from Germany who also climbed mountains and volcanic peaks?  I hope that is correct."
  ]

  /** `fixes.get(key, key)`, which the program applies with `fixes` the table
      above: a null key stays null, a key in the table is replaced by its
      correction, and every other key is returned unchanged. */
  function Correct(fixes: map<string, string>, key: Option<string>): (r: Option<string>)
    ensures r.None? <==> key.None?
    ensures key.Some? && key.value in fixes ==> r == Some(fixes[key.value])
    ensures key.None? || key.value !in fixes ==> r == key
  {
    match key
    case None => None
    case Some(k) => if k in fixes then Some(fixes[k]) else key
  }

  /** No correction of `fixes` is itself a key of `fixes`. */
  predicate NotChained(fixes: map<string, string>) {
    forall k :: k in fixes ==> fixes[k] !in fixes
  }

  /** The program's table is not chained: its values and keys are disjoint. */
  lemma {:induction false} FixesMappingNotChained()
    ensures NotChained(FixesMapping)
  {
    var k1 := "I absolutely love to surf" + ", just riding on the forward face of a moving wave is so exhilarating. Are there a lot of sharks near you?";
    var k2 := "Yes, my uncle was russain and effected by the chernobyl disaster. He had a hard time trying to have a kid because of the radiation cancer he had to deal with.";
    var k3 := "Let's see. If memory serves me correctly,  Hans Heinrich Josef Meyer  was a geographer and geologist from Germany who also climbed mountains and volcanic peaks?  ";
    assert FixesMapping.Keys == {k1, k2, k3};
    var v1, v2, v3 := FixesMapping[k1], FixesMapping[k2], FixesMapping[k3];
    assert v1[24] != k1[24];
    assert |v1| != |k2| && |v1| != |k3|;
    assert |v2| != |k1| && |v2| != |k2| && |v2| != |k3|;
    assert |v3| != |k1| && |v3| != |k2| && |v3| != |k3|;
  }

  /** Corrections with the program's table are not chained: correcting twice is
      correcting once. */
  lemma {:induction false} CorrectIdempotent(key: Option<string>)
    ensures Correct(FixesMapping, Correct(FixesMapping, key)) == Correct(FixesMapping, key)
  {
    FixesMappingNotChained();
  }
}
