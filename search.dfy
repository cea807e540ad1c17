/** The two fallback searches used when an utterance has no direct key:
    `try_find_knowledge_sent` (other utterances of the same dialogue) and
    `find_in_hard_knowledge` (every sentence list of the topic index). */
module Search {
  import opened Records
  import opened Corrections

  /** `sent` is an element (exact string equality, not a substring) of one of
      the passage lists. */
  predicate InSomePassage(sent: string, passages: seq<seq<string>>) {
    exists p :: p in passages && sent in p
  }

  /** What `try_find_knowledge_sent` does: returns a key, returns None, or fails
      with a TypeError when `wow_knowledge.get(key)` gives None and is then
      subscripted. */
  datatype SearchResult = Found(key: string) | NotFound | MissingEntry(key: string)

  /** The corrected key of `u`, when there is one, is in `knowledge`. */
  predicate KeyPresent(fixes: map<string, string>, knowledge: map<string, KnowledgeEntry>, u: Utterance) {
    Correct(fixes, u.originalResponse).None? || Correct(fixes, u.originalResponse).value in knowledge
  }

  /** The scan of `try_find_knowledge_sent` passes over `u` and goes on: its key is
      null, or its entry exists and has no passage list holding `sent`. */
  predicate Skipped(sent: string, fixes: map<string, string>, knowledge: map<string, KnowledgeEntry>, u: Utterance) {
    var key := Correct(fixes, u.originalResponse);
    key.None?
    || (key.value in knowledge && !InSomePassage(sent, knowledge[key.value].retrievedPassages))
  }

  /** `try_find_knowledge_sent(sent, knowledge, diag)`, with `fixes` standing for
      the correction table: scans the utterances in order, skipping null responses
      and correcting the rest, and stops at the first key
      whose entry has a passage list holding `sent`. A key found always has an
      entry, and a key that makes it fail has none. */
  function FindKnowledgeSent(sent: string, fixes: map<string, string>, knowledge: map<string, KnowledgeEntry>, utts: Dialogue): (r: SearchResult)
    ensures r.Found? ==> r.key in knowledge && InSomePassage(sent, knowledge[r.key].retrievedPassages)
    ensures r.MissingEntry? ==> r.key !in knowledge
    decreases |utts|
  {
    if utts == [] then NotFound
    else
      match Correct(fixes, utts[0].originalResponse)
      case None => FindKnowledgeSent(sent, fixes, knowledge, utts[1..])
      case Some(key) =>
        if key !in knowledge then MissingEntry(key)
        else if InSomePassage(sent, knowledge[key].retrievedPassages) then Found(key)
        else FindKnowledgeSent(sent, fixes, knowledge, utts[1..])
  }

  /** When every corrected key of the dialogue has an entry, the search cannot fail. */
  lemma {:induction false} FindKnowledgeSentNoMissingEntry(
    sent: string, fixes: map<string, string>, knowledge: map<string, KnowledgeEntry>, utts: Dialogue)
    requires forall j :: 0 <= j < |utts| ==> KeyPresent(fixes, knowledge, utts[j])
    ensures !FindKnowledgeSent(sent, fixes, knowledge, utts).MissingEntry?
    decreases |utts|
  {
    if utts != [] {
      assert KeyPresent(fixes, knowledge, utts[0]);
      FindKnowledgeSentNoMissingEntry(sent, fixes, knowledge, utts[1..]);
    }
  }

  /** Where the scan stops when utterance `i` is the first it does not skip
      (`i == |utts|`: it skips them all). */
  function StopAt(sent: string, fixes: map<string, string>, knowledge: map<string, KnowledgeEntry>, utts: Dialogue, i: nat): SearchResult
    requires i <= |utts|
  {
    if i == |utts| || Correct(fixes, utts[i].originalResponse).None? then NotFound
    else
      var key := Correct(fixes, utts[i].originalResponse).value;
      if key in knowledge then Found(key) else MissingEntry(key)
  }

  /** The search returns the verdict of the first utterance it does not skip: the
      first match in utterance order, the first missing entry, or nothing. */
  lemma {:induction false} FindKnowledgeSentIsFirstStop(
    sent: string, fixes: map<string, string>, knowledge: map<string, KnowledgeEntry>, utts: Dialogue, i: nat)
    requires i <= |utts|
    requires forall j :: 0 <= j < i ==> Skipped(sent, fixes, knowledge, utts[j])
    requires i < |utts| ==> !Skipped(sent, fixes, knowledge, utts[i])
    ensures FindKnowledgeSent(sent, fixes, knowledge, utts) == StopAt(sent, fixes, knowledge, utts, i)
    decreases i
  {
    if i > 0 {
      assert Skipped(sent, fixes, knowledge, utts[0]);
      var rest := utts[1..];
      assert forall j :: 0 <= j < i - 1 ==> rest[j] == utts[j + 1];
      FindKnowledgeSentIsFirstStop(sent, fixes, knowledge, rest, i - 1);
    }
  }

  /** The search finds nothing exactly when it skips every utterance. */
  lemma {:induction false} FindKnowledgeSentNotFound(
    sent: string, fixes: map<string, string>, knowledge: map<string, KnowledgeEntry>, utts: Dialogue)
    ensures FindKnowledgeSent(sent, fixes, knowledge, utts) == NotFound
            <==> forall j :: 0 <= j < |utts| ==> Skipped(sent, fixes, knowledge, utts[j])
    decreases |utts|
  {
    if utts != [] {
      var rest := utts[1..];
      FindKnowledgeSentNotFound(sent, fixes, knowledge, rest);
      assert forall j :: 1 <= j < |utts| ==> utts[j] == rest[j - 1];
    }
  }

  /** The search reads only the `original_response` of each utterance, so the
      annotations written onto a dialogue do not change what it returns. */
  lemma {:induction false} FindKnowledgeSentReadsOnlyKeys(
    sent: string, fixes: map<string, string>, knowledge: map<string, KnowledgeEntry>, d1: Dialogue, d2: Dialogue)
    requires |d1| == |d2|
    requires forall j :: 0 <= j < |d1| ==> d1[j].originalResponse == d2[j].originalResponse
    ensures FindKnowledgeSent(sent, fixes, knowledge, d1) == FindKnowledgeSent(sent, fixes, knowledge, d2)
    decreases |d1|
  {
    if d1 != [] {
      FindKnowledgeSentReadsOnlyKeys(sent, fixes, knowledge, d1[1..], d2[1..]);
    }
  }

  /** `find_in_hard_knowledge(sent, hard)`, as a value: some topic's stored
      sentence list has `sent` as an element. */
  predicate InHardKnowledge(sent: string, hard: map<string, seq<string>>) {
    exists topic :: topic in hard && sent in hard[topic]
  }

  /** `find_in_hard_knowledge(sent, hard)`: visits the topics in any order and
      returns at the first list holding `sent`; the answer does not depend on
      the order of the visit. */
  method FindInHardKnowledge(sent: string, hard: map<string, seq<string>>) returns (found: bool)
    ensures found <==> InHardKnowledge(sent, hard)
  {
    var remaining := hard.Keys;
    while remaining != {}
      invariant remaining <= hard.Keys
      invariant forall topic :: topic in hard && topic !in remaining ==> sent !in hard[topic]
      decreases |remaining|
    {
      var topic :| topic in remaining;
      if sent in hard[topic] {
        return true;
      }
      remaining := remaining - {topic};
    }
    return false;
  }
}
