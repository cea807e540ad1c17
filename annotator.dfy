/** `create_ORFaithDial`: for every utterance of every dialogue, find its knowledge
    entry (directly, through another utterance, or only as a sentence of the topic
    index), write the entry's fields onto the utterance, and keep six counters that
    are checked by an assertion at the end. */
module Annotator {
  import opened Records
  import opened Text
  import opened Corrections
  import opened Search
  import opened Seqs

  /** The six counters of `create_ORFaithDial`. */
  datatype Tally = Tally(
    allUtterances: nat,
    foundNormally: nat,
    foundInOtherUtterances: nat,
    foundKnowledgeSent: nat,
    notFound: nat,
    skipKeyError: nat)

  const NoCounts: Tally := Tally(0, 0, 0, 0, 0, 0)

  /** The four counters of which each utterance bumps exactly one. */
  function Categorized(t: Tally): nat {
    t.foundNormally + t.foundInOtherUtterances + t.foundKnowledgeSent + t.notFound
  }

  /** The assertion `all_utterances == sum_found + skip_sum` at the end of the run. */
  predicate AssertionHolds(t: Tally) {
    t.allUtterances
      == (t.foundNormally + t.foundInOtherUtterances + t.foundKnowledgeSent) + (t.notFound + t.skipKeyError)
  }

  /** What happens to one utterance. A resolving outcome carries the entry looked up
      for its key. `DanglingKey` is a non-null corrected key with no entry (the
      KeyError at the final lookup); `SearchFailed` is the TypeError raised inside
      `try_find_knowledge_sent`, which ends the whole run. */
  datatype Outcome =
    | Direct(key: string, entry: KnowledgeEntry)
    | DanglingKey(key: string)
    | OtherUtterance(key: string, entry: KnowledgeEntry)
    | SentenceOnly
    | Unresolved
    | SearchFailed(key: string)

  /** The utterance ends with an entry written onto it. */
  predicate Resolves(o: Outcome) {
    o.Direct? || o.OtherUtterance?
  }

  /** The decision `create_ORFaithDial` takes for utterance `u` of `dialogue`. Every
      key that resolves an utterance has an entry, and the entry written is that
      key's: in particular the cross-utterance path cannot hit the KeyError of the
      final lookup. */
  function Classify(u: Utterance, dialogue: Dialogue,
                    fixes: map<string, string>, knowledge: map<string, KnowledgeEntry>, hard: map<string, seq<string>>): (o: Outcome)
    ensures Resolves(o) ==> o.key in knowledge && o.entry == knowledge[o.key]
  {
    match Correct(fixes, u.originalResponse)
    case Some(key) => if key in knowledge then Direct(key, knowledge[key]) else DanglingKey(key)
    case None =>
      match FindKnowledgeSent(Strip(u.knowledge), fixes, knowledge, dialogue)
      case Found(key) => OtherUtterance(key, knowledge[key])
      case MissingEntry(key) => SearchFailed(key)
      case NotFound => if InHardKnowledge(u.knowledge, hard) then SentenceOnly else Unresolved
  }

  /** The order of the stages. A non-null corrected key is looked up directly and no
      fallback is tried, whether or not it has an entry; only a null key leads to the
      two searches, the cross-utterance one on the stripped knowledge sentence and,
      when it finds nothing, the topic-index one on the sentence as it is. */
  lemma {:induction false} ClassifyStages(u: Utterance, dialogue: Dialogue,
                       fixes: map<string, string>, knowledge: map<string, KnowledgeEntry>, hard: map<string, seq<string>>)
    ensures var o := Classify(u, dialogue, fixes, knowledge, hard);
            var key := Correct(fixes, u.originalResponse);
            var search := FindKnowledgeSent(Strip(u.knowledge), fixes, knowledge, dialogue);
            && (o.Direct? <==> key.Some? && key.value in knowledge)
            && (o.DanglingKey? <==> key.Some? && key.value !in knowledge)
            && (o.Direct? || o.DanglingKey? ==> key == Some(o.key))
            && (o.OtherUtterance? <==> key.None? && search.Found?)
            && (o.SearchFailed? <==> key.None? && search.MissingEntry?)
            && (o.OtherUtterance? || o.SearchFailed? ==> search.key == o.key)
            && (o.SentenceOnly? <==> key.None? && search.NotFound? && InHardKnowledge(u.knowledge, hard))
            && (o.Unresolved? <==> key.None? && search.NotFound? && !InHardKnowledge(u.knowledge, hard))
  {
    var key := Correct(fixes, u.originalResponse);
    if key.None? {
      var search := FindKnowledgeSent(Strip(u.knowledge), fixes, knowledge, dialogue);
      match search
      case Found(k) => assert Classify(u, dialogue, fixes, knowledge, hard) == OtherUtterance(k, knowledge[k]);
      case MissingEntry(k) => assert Classify(u, dialogue, fixes, knowledge, hard) == SearchFailed(k);
      case NotFound =>
    }
  }

  /** The decision for an utterance depends on its dialogue only through the
      responses of that dialogue's utterances. */
  lemma {:induction false} ClassifyReadsOnlyKeys(u: Utterance, d1: Dialogue, d2: Dialogue,
                              fixes: map<string, string>, knowledge: map<string, KnowledgeEntry>, hard: map<string, seq<string>>)
    requires |d1| == |d2|
    requires forall j :: 0 <= j < |d1| ==> d1[j].originalResponse == d2[j].originalResponse
    ensures Classify(u, d1, fixes, knowledge, hard) == Classify(u, d2, fixes, knowledge, hard)
  {
    FindKnowledgeSentReadsOnlyKeys(Strip(u.knowledge), fixes, knowledge, d1, d2);
  }

  /** The counter updates for one utterance that does not end the run: one more
      utterance, exactly one of the four category counters bumped, and one more key
      error for a dangling key, which is also counted as found normally. */
  function Count(t: Tally, o: Outcome): (r: Tally)
    requires !o.SearchFailed?
    ensures r.allUtterances == t.allUtterances + 1
    ensures Categorized(r) == Categorized(t) + 1
    ensures r.foundNormally == t.foundNormally + (if o.Direct? || o.DanglingKey? then 1 else 0)
    ensures r.foundInOtherUtterances == t.foundInOtherUtterances + (if o.OtherUtterance? then 1 else 0)
    ensures r.foundKnowledgeSent == t.foundKnowledgeSent + (if o.SentenceOnly? then 1 else 0)
    ensures r.notFound == t.notFound + (if o.Unresolved? then 1 else 0)
    ensures r.skipKeyError == t.skipKeyError + (if o.DanglingKey? then 1 else 0)
  {
    match o
    case Direct(_, _) => t.(allUtterances := t.allUtterances + 1, foundNormally := t.foundNormally + 1)
    case DanglingKey(_) =>
      t.(allUtterances := t.allUtterances + 1, foundNormally := t.foundNormally + 1,
         skipKeyError := t.skipKeyError + 1)
    case OtherUtterance(_, _) =>
      t.(allUtterances := t.allUtterances + 1, foundInOtherUtterances := t.foundInOtherUtterances + 1)
    case SentenceOnly => t.(allUtterances := t.allUtterances + 1, foundKnowledgeSent := t.foundKnowledgeSent + 1)
    case Unresolved => t.(allUtterances := t.allUtterances + 1, notFound := t.notFound + 1)
  }

  /** The write-back for one utterance: a resolving outcome sets the four knowledge
      fields from its entry; every other outcome leaves the utterance as it was. The
      response and the knowledge sentence are never changed. */
  function Apply(u: Utterance, o: Outcome): (r: Utterance)
    ensures r.originalResponse == u.originalResponse && r.knowledge == u.knowledge
    ensures Resolves(o) ==> r.attached == Some(o.entry)
    ensures !Resolves(o) ==> r == u
  {
    if Resolves(o) then u.(attached := Some(o.entry)) else u
  }

  /** The outcome of every utterance of `dialogue`, each judged against the dialogue. */
  function Outcomes(dialogue: Dialogue,
                    fixes: map<string, string>, knowledge: map<string, KnowledgeEntry>, hard: map<string, seq<string>>): seq<Outcome>
  {
    seq(|dialogue|, j requires 0 <= j < |dialogue| => Classify(dialogue[j], dialogue, fixes, knowledge, hard))
  }

  /** Every utterance of `utts` with the outcome at the same position applied. */
  function Annotate(utts: seq<Utterance>, os: seq<Outcome>): seq<Utterance>
    requires |os| == |utts|
  {
    seq(|utts|, j requires 0 <= j < |utts| => Apply(utts[j], os[j]))
  }

  /** Every dialogue of `corpus` annotated by its own outcomes. */
  function AnnotateCorpus(corpus: seq<Dialogue>,
                          fixes: map<string, string>, knowledge: map<string, KnowledgeEntry>, hard: map<string, seq<string>>): seq<Dialogue>
  {
    seq(|corpus|, i requires 0 <= i < |corpus| =>
      Annotate(corpus[i], Outcomes(corpus[i], fixes, knowledge, hard)))
  }

  /** The state of a run: what has been processed so far with the counters, or the key
      whose missing entry made the search raise. */
  datatype Run<T> = Done(value: T, tally: Tally) | Failed(key: string)

  /** The utterance loop over `utts` whose outcomes are `os`, the counters starting
      at `t`: each pass raises on a failed search, or counts and writes back. */
  function Fold(t: Tally, utts: seq<Utterance>, os: seq<Outcome>): Run<Dialogue>
    requires |os| == |utts|
    decreases |utts|
  {
    if utts == [] then Done([], t)
    else
      match Fold(t, utts[..|utts| - 1], os[..|os| - 1])
      case Failed(key) => Failed(key)
      case Done(done, t') =>
        var o := os[|os| - 1];
        if o.SearchFailed? then Failed(o.key)
        else Done(done + [Apply(utts[|utts| - 1], o)], Count(t', o))
  }

  /** The utterance loop over one dialogue, the counters starting at `t`. */
  function RunDialogue(t: Tally, dialogue: Dialogue,
                       fixes: map<string, string>, knowledge: map<string, KnowledgeEntry>, hard: map<string, seq<string>>): Run<Dialogue>
  {
    Fold(t, dialogue, Outcomes(dialogue, fixes, knowledge, hard))
  }

  /** The dialogue loop over `corpus`, the counters starting at zero. */
  function RunCorpus(corpus: seq<Dialogue>,
                     fixes: map<string, string>, knowledge: map<string, KnowledgeEntry>, hard: map<string, seq<string>>): Run<seq<Dialogue>>
    decreases |corpus|
  {
    if corpus == [] then Done([], NoCounts)
    else
      match RunCorpus(corpus[..|corpus| - 1], fixes, knowledge, hard)
      case Failed(key) => Failed(key)
      case Done(done, t) =>
        match RunDialogue(t, corpus[|corpus| - 1], fixes, knowledge, hard)
        case Failed(key) => Failed(key)
        case Done(annotated, t') => Done(done + [annotated], t')
  }

  /** How `create_ORFaithDial` ends: it returns the annotated data, it raises the
      AssertionError of the final check, or the TypeError of a search. */
  datatype Verdict = Completed(tally: Tally) | AssertionFailed(tally: Tally) | SearchTypeError(key: string)

  /** One pass of the utterance loop of `create_ORFaithDial`: count the utterance,
      correct its key, fall back to the two searches only when the key is null, and
      either raise, leave the utterance as it is, or write the entry's fields onto
      it. `dialogue` is the utterance's own dialogue, searched for other utterances. */
  method ProcessUtterance(utt: Utterance, dialogue: Dialogue, counts: Tally,
                          fixes: map<string, string>, knowledge: map<string, KnowledgeEntry>, hard: map<string, seq<string>>)
    returns (result: Run<Utterance>)
    ensures var o := Classify(utt, dialogue, fixes, knowledge, hard);
            result == if o.SearchFailed? then Failed(o.key) else Done(Apply(utt, o), Count(counts, o))
  {
    ghost var o := Classify(utt, dialogue, fixes, knowledge, hard);
    ClassifyStages(utt, dialogue, fixes, knowledge, hard);
    var t := counts.(allUtterances := counts.allUtterances + 1);
    var key := Correct(fixes, utt.originalResponse);
    if key.None? {
      var search := FindKnowledgeSent(Strip(utt.knowledge), fixes, knowledge, dialogue);
      if search.MissingEntry? {
        assert o == SearchFailed(search.key);
        return Failed(search.key);
      }
      if search.Found? {
        assert o == OtherUtterance(search.key, knowledge[search.key]);
        key := Some(search.key);
        t := t.(foundInOtherUtterances := t.foundInOtherUtterances + 1);
      } else {
        var found := FindInHardKnowledge(utt.knowledge, hard);
        if found {
          assert o == SentenceOnly;
          return Done(utt, t.(foundKnowledgeSent := t.foundKnowledgeSent + 1));
        }
        assert o == Unresolved;
      }
    } else {
      assert o.Direct? || o.DanglingKey?;
      t := t.(foundNormally := t.foundNormally + 1);
    }

    if key.None? {
      return Done(utt, t.(notFound := t.notFound + 1));
    }

    if key.value !in knowledge {
      assert o == DanglingKey(key.value);
      return Done(utt, t.(skipKeyError := t.skipKeyError + 1));
    }

    var entry := knowledge[key.value];
    return Done(utt.(attached := Some(entry)), t);
  }

  /** The utterance loop of `create_ORFaithDial` over one dialogue. The dialogue's
      utterances are annotated as the loop goes, and the searches for later
      utterances see those annotations, as they do in place. */
  method ProcessDialogue(dialogue: Dialogue, counts: Tally,
                         fixes: map<string, string>, knowledge: map<string, KnowledgeEntry>, hard: map<string, seq<string>>)
    returns (result: Run<Dialogue>)
    ensures result == RunDialogue(counts, dialogue, fixes, knowledge, hard)
  {
    ghost var os := Outcomes(dialogue, fixes, knowledge, hard);
    var utterances, t := dialogue, counts;
    for j := 0 to |utterances|
      invariant |utterances| == |dialogue|
      invariant forall k :: 0 <= k < |dialogue| ==> utterances[k].originalResponse == dialogue[k].originalResponse
      invariant forall k :: j <= k < |dialogue| ==> utterances[k] == dialogue[k]
      invariant Fold(counts, dialogue[..j], os[..j]) == Done(utterances[..j], t)
    {
      OutcomeInPlace(dialogue, utterances, j, fixes, knowledge, hard);
      var step := ProcessUtterance(utterances[j], utterances, t, fixes, knowledge, hard);
      PassStep(counts, dialogue, os, utterances, t, j, step);
      match step
      case Failed(key) =>
        return Failed(key);
      case Done(utt, t') =>
        utterances := utterances[j := utt];
        t := t';
    }
    assert dialogue[..|dialogue|] == dialogue && os[..|dialogue|] == os;
    assert utterances[..|dialogue|] == utterances;
    return Done(utterances, t);
  }

  /** One pass of the utterance loop: from the state after `j` passes, the result
      `step` of processing utterance `j` either is the whole loop's failure or
      extends the state to `j + 1` passes. */
  lemma {:induction false} PassStep(counts: Tally, dialogue: Dialogue, os: seq<Outcome>, utterances: Dialogue,
                 t: Tally, j: nat, step: Run<Utterance>)
    requires |os| == |dialogue| == |utterances| && j < |dialogue| && utterances[j] == dialogue[j]
    requires Fold(counts, dialogue[..j], os[..j]) == Done(utterances[..j], t)
    requires step == if os[j].SearchFailed? then Failed(os[j].key) else Done(Apply(utterances[j], os[j]), Count(t, os[j]))
    ensures step.Failed? ==> Fold(counts, dialogue, os) == Failed(step.key)
    ensures step.Done? ==> Fold(counts, dialogue[..j + 1], os[..j + 1]) == Done(utterances[j := step.value][..j + 1], step.tally)
  {
    FoldSnoc(counts, dialogue, os, j);
    if step.Failed? {
      FoldFailurePersists(counts, dialogue, os, j + 1);
    } else {
      assert utterances[j := step.value][..j + 1] == utterances[..j] + [step.value];
    }
  }

  /** Utterance `j` of a dialogue whose responses are those of `dialogue`, and which
      is itself still as in `dialogue`, gets the outcome it has in `dialogue`. */
  lemma {:induction false} OutcomeInPlace(dialogue: Dialogue, utterances: Dialogue, j: nat, fixes: map<string, string>,
                       knowledge: map<string, KnowledgeEntry>, hard: map<string, seq<string>>)
    requires |utterances| == |dialogue| && j < |dialogue| && utterances[j] == dialogue[j]
    requires forall k :: 0 <= k < |dialogue| ==> utterances[k].originalResponse == dialogue[k].originalResponse
    ensures Classify(utterances[j], utterances, fixes, knowledge, hard) == Outcomes(dialogue, fixes, knowledge, hard)[j]
  {
    ClassifyReadsOnlyKeys(dialogue[j], utterances, dialogue, fixes, knowledge, hard);
  }

  /** `create_ORFaithDial` over the parsed data, whose dialogues it annotates in
      place. When the run does not raise, `data` ends as `RunCorpus` describes and the
      verdict is decided by the final assertion; otherwise the run stops with the
      key of the first failing search. */
  method CreateORFaithDial(data: array<Dialogue>,
                           knowledge: map<string, KnowledgeEntry>, hard: map<string, seq<string>>)
    returns (v: Verdict)
    modifies data
    ensures RunCorpus(old(data[..]), FixesMapping, knowledge, hard).Failed?
            ==> v == SearchTypeError(RunCorpus(old(data[..]), FixesMapping, knowledge, hard).key)
    ensures RunCorpus(old(data[..]), FixesMapping, knowledge, hard).Done?
            ==> var t := RunCorpus(old(data[..]), FixesMapping, knowledge, hard).tally;
                && data[..] == RunCorpus(old(data[..]), FixesMapping, knowledge, hard).value
                && v == (if AssertionHolds(t) then Completed(t) else AssertionFailed(t))
  {
    ghost var original := data[..];
    var counts := NoCounts;
    for i := 0 to data.Length
      invariant forall k :: i <= k < data.Length ==> data[k] == original[k]
      invariant RunCorpus(original[..i], FixesMapping, knowledge, hard) == Done(data[..i], counts)
    {
      assert original[..i + 1][..i] == original[..i];
      var result := ProcessDialogue(data[i], counts, FixesMapping, knowledge, hard);
      match result
      case Failed(key) =>
        RunCorpusFailurePersists(original, i + 1, FixesMapping, knowledge, hard);
        return SearchTypeError(key);
      case Done(annotated, counts') =>
        ghost var done := data[..i];
        data[i] := annotated;
        counts := counts';
        assert data[..i + 1] == done + [annotated];
    }
    assert original[..data.Length] == original;
    assert data[..data.Length] == data[..];

    var sumFound := counts.foundNormally + counts.foundInOtherUtterances + counts.foundKnowledgeSent;
    var skipSum := counts.notFound + counts.skipKeyError;
    if counts.allUtterances == sumFound + skipSum {
      v := Completed(counts);
    } else {
      v := AssertionFailed(counts);
    }
  }

  /** Pass `j` of the utterance loop, after the passes before it. */
  lemma {:induction false} FoldSnoc(t: Tally, utts: seq<Utterance>, os: seq<Outcome>, j: nat)
    requires |os| == |utts| && j < |utts|
    ensures Fold(t, utts[..j + 1], os[..j + 1])
            == match Fold(t, utts[..j], os[..j])
               case Failed(key) => Failed(key)
               case Done(done, t') =>
                 if os[j].SearchFailed? then Failed(os[j].key)
                 else Done(done + [Apply(utts[j], os[j])], Count(t', os[j]))
  {
    assert utts[..j + 1][..j] == utts[..j] && os[..j + 1][..j] == os[..j];
  }

  /** Once the utterance loop has raised, later passes change nothing. */
  lemma {:induction false} FoldFailurePersists(t: Tally, utts: seq<Utterance>, os: seq<Outcome>, n: nat)
    requires |os| == |utts| && n <= |utts|
    requires Fold(t, utts[..n], os[..n]).Failed?
    ensures Fold(t, utts, os) == Fold(t, utts[..n], os[..n])
    decreases |utts|
  {
    if n < |utts| {
      var u, o := utts[..|utts| - 1], os[..|os| - 1];
      assert u[..n] == utts[..n] && o[..n] == os[..n];
      FoldFailurePersists(t, u, o, n);
    } else {
      assert utts[..n] == utts && os[..n] == os;
    }
  }

  /** Once the dialogue loop has raised, later dialogues change nothing. */
  lemma {:induction false} RunCorpusFailurePersists(
    corpus: seq<Dialogue>, n: nat, fixes: map<string, string>, knowledge: map<string, KnowledgeEntry>, hard: map<string, seq<string>>)
    requires n <= |corpus|
    requires RunCorpus(corpus[..n], fixes, knowledge, hard).Failed?
    ensures RunCorpus(corpus, fixes, knowledge, hard) == RunCorpus(corpus[..n], fixes, knowledge, hard)
    decreases |corpus|
  {
    if n < |corpus| {
      var init := corpus[..|corpus| - 1];
      assert init[..n] == corpus[..n];
      RunCorpusFailurePersists(init, n, fixes, knowledge, hard);
    } else {
      assert corpus[..n] == corpus;
    }
  }

  /** The utterance loop completes exactly when no outcome is a failed search. */
  lemma {:induction false} FoldCompletes(t: Tally, utts: seq<Utterance>, os: seq<Outcome>)
    requires |os| == |utts|
    ensures Fold(t, utts, os).Done? <==> forall j :: 0 <= j < |os| ==> !os[j].SearchFailed?
    decreases |utts|
  {
    if utts != [] {
      var o := os[..|os| - 1];
      FoldCompletes(t, utts[..|utts| - 1], o);
      assert forall j :: 0 <= j < |o| ==> o[j] == os[j];
    }
  }

  /** A completed utterance loop writes each utterance's own outcome back onto it. */
  lemma {:induction false} FoldValue(t: Tally, utts: seq<Utterance>, os: seq<Outcome>)
    requires |os| == |utts|
    requires Fold(t, utts, os).Done?
    ensures Fold(t, utts, os).value == Annotate(utts, os)
    decreases |utts|
  {
    if utts != [] {
      var u, o := utts[..|utts| - 1], os[..|os| - 1];
      FoldValue(t, u, o);
      assert Annotate(utts, os) == Annotate(u, o) + [Apply(utts[|utts| - 1], os[|os| - 1])];
    }
  }

  /** How many of `os` are dangling keys. */
  function KeyErrors(os: seq<Outcome>): nat
    decreases |os|
  {
    if os == [] then 0 else KeyErrors(os[..|os| - 1]) + (if os[|os| - 1].DanglingKey? then 1 else 0)
  }

  /** A completed utterance loop counts every utterance once, in exactly one of the
      four categories, and one key error per dangling key. */
  lemma {:induction false} FoldTally(t: Tally, utts: seq<Utterance>, os: seq<Outcome>)
    requires |os| == |utts|
    requires Fold(t, utts, os).Done?
    ensures var r := Fold(t, utts, os).tally;
            && r.allUtterances == t.allUtterances + |utts|
            && Categorized(r) == Categorized(t) + |utts|
            && r.skipKeyError == t.skipKeyError + KeyErrors(os)
    decreases |utts|
  {
    if utts != [] {
      FoldTally(t, utts[..|utts| - 1], os[..|os| - 1]);
    }
  }

  /** No key error is counted exactly when no outcome is a dangling key. */
  lemma {:induction false} KeyErrorsZero(os: seq<Outcome>)
    ensures KeyErrors(os) == 0 <==> forall j :: 0 <= j < |os| ==> !os[j].DanglingKey?
    decreases |os|
  {
    if os != [] {
      var o := os[..|os| - 1];
      KeyErrorsZero(o);
      assert forall j :: 0 <= j < |o| ==> o[j] == os[j];
    }
  }

  /** Running the utterance loop again over its own output, with the same outcomes,
      writes the same fields and produces the same counters. */
  lemma {:induction false} FoldOnAnnotated(t: Tally, utts: seq<Utterance>, os: seq<Outcome>)
    requires |os| == |utts|
    ensures Fold(t, Annotate(utts, os), os) == Fold(t, utts, os)
    decreases |utts|
  {
    if utts != [] {
      var u, o := utts[..|utts| - 1], os[..|os| - 1];
      var a := Annotate(utts, os);
      assert a[..|a| - 1] == Annotate(u, o);
      FoldOnAnnotated(t, u, o);
    }
  }

  /** The utterance has a non-null corrected key with no entry: the KeyError case. */
  predicate HasDanglingKey(u: Utterance, fixes: map<string, string>, knowledge: map<string, KnowledgeEntry>) {
    Correct(fixes, u.originalResponse).Some? && Correct(fixes, u.originalResponse).value !in knowledge
  }

  /** How many key errors the outcomes of the dialogues of `corpus` hold. */
  function DanglingCount(corpus: seq<Dialogue>,
                         fixes: map<string, string>, knowledge: map<string, KnowledgeEntry>, hard: map<string, seq<string>>): nat
    decreases |corpus|
  {
    if corpus == [] then 0
    else DanglingCount(corpus[..|corpus| - 1], fixes, knowledge, hard)
         + KeyErrors(Outcomes(corpus[|corpus| - 1], fixes, knowledge, hard))
  }

  /** How many utterances `corpus` has. */
  function UtteranceCount(corpus: seq<Dialogue>): nat
    decreases |corpus|
  {
    if corpus == [] then 0 else UtteranceCount(corpus[..|corpus| - 1]) + |corpus[|corpus| - 1]|
  }

  /** One more dialogue after a completed prefix of the corpus. */
  lemma {:induction false} RunCorpusStep(corpus: seq<Dialogue>, fixes: map<string, string>, knowledge: map<string, KnowledgeEntry>, hard: map<string, seq<string>>)
    requires corpus != []
    requires RunCorpus(corpus[..|corpus| - 1], fixes, knowledge, hard).Done?
    ensures var prev := RunCorpus(corpus[..|corpus| - 1], fixes, knowledge, hard);
            var step := RunDialogue(prev.tally, corpus[|corpus| - 1], fixes, knowledge, hard);
            RunCorpus(corpus, fixes, knowledge, hard)
              == if step.Failed? then Failed(step.key) else Done(prev.value + [step.value], step.tally)
  {
  }

  /** Annotating a corpus annotates its last dialogue after the others. */
  lemma {:induction false} AnnotateCorpusSnoc(corpus: seq<Dialogue>, fixes: map<string, string>,
                           knowledge: map<string, KnowledgeEntry>, hard: map<string, seq<string>>)
    requires corpus != []
    ensures var last := corpus[|corpus| - 1];
            AnnotateCorpus(corpus, fixes, knowledge, hard)
              == AnnotateCorpus(corpus[..|corpus| - 1], fixes, knowledge, hard)
                 + [Annotate(last, Outcomes(last, fixes, knowledge, hard))]
  {
  }

  /** A completed run annotates every utterance of the corpus by its own outcome. */
  lemma {:induction false} RunCorpusValue(
    corpus: seq<Dialogue>, fixes: map<string, string>, knowledge: map<string, KnowledgeEntry>, hard: map<string, seq<string>>)
    requires RunCorpus(corpus, fixes, knowledge, hard).Done?
    ensures RunCorpus(corpus, fixes, knowledge, hard).value == AnnotateCorpus(corpus, fixes, knowledge, hard)
    decreases |corpus|
  {
    if corpus != [] {
      var init, last := corpus[..|corpus| - 1], corpus[|corpus| - 1];
      var prev, os := RunCorpus(init, fixes, knowledge, hard), Outcomes(last, fixes, knowledge, hard);
      RunCorpusStep(corpus, fixes, knowledge, hard);
      assert RunCorpus(corpus, fixes, knowledge, hard).value == prev.value + [Fold(prev.tally, last, os).value];
      RunCorpusValue(init, fixes, knowledge, hard);
      FoldValue(prev.tally, last, os);
      AnnotateCorpusSnoc(corpus, fixes, knowledge, hard);
    }
  }

  /** The counters after a completed run are those of the utterance loop over the
      last dialogue, started from the counters after the others. */
  lemma {:induction false} RunCorpusLastTally(
    corpus: seq<Dialogue>, fixes: map<string, string>, knowledge: map<string, KnowledgeEntry>, hard: map<string, seq<string>>)
    requires corpus != [] && RunCorpus(corpus, fixes, knowledge, hard).Done?
    ensures var init, last := corpus[..|corpus| - 1], corpus[|corpus| - 1];
            var os := Outcomes(last, fixes, knowledge, hard);
            && RunCorpus(init, fixes, knowledge, hard).Done?
            && Fold(RunCorpus(init, fixes, knowledge, hard).tally, last, os).Done?
            && RunCorpus(corpus, fixes, knowledge, hard).tally
               == Fold(RunCorpus(init, fixes, knowledge, hard).tally, last, os).tally
  {
  }

  /** A completed run counts every utterance of the corpus in `all_utterances`. */
  lemma {:induction false} RunCorpusCountsAll(
    corpus: seq<Dialogue>, fixes: map<string, string>, knowledge: map<string, KnowledgeEntry>, hard: map<string, seq<string>>)
    requires RunCorpus(corpus, fixes, knowledge, hard).Done?
    ensures RunCorpus(corpus, fixes, knowledge, hard).tally.allUtterances == UtteranceCount(corpus)
    decreases |corpus|
  {
    if corpus != [] {
      var init, last := corpus[..|corpus| - 1], corpus[|corpus| - 1];
      RunCorpusLastTally(corpus, fixes, knowledge, hard);
      RunCorpusCountsAll(init, fixes, knowledge, hard);
      var prev, os := RunCorpus(init, fixes, knowledge, hard).tally, Outcomes(last, fixes, knowledge, hard);
      FoldTally(prev, last, os);
      var t := Fold(prev, last, os).tally;
      assert RunCorpus(corpus, fixes, knowledge, hard).tally == t;
      assert UtteranceCount(corpus) == UtteranceCount(init) + |last|;
    }
  }

  /** A completed run counts every utterance in exactly one of the four categories. */
  lemma {:induction false} RunCorpusCategorized(
    corpus: seq<Dialogue>, fixes: map<string, string>, knowledge: map<string, KnowledgeEntry>, hard: map<string, seq<string>>)
    requires RunCorpus(corpus, fixes, knowledge, hard).Done?
    ensures Categorized(RunCorpus(corpus, fixes, knowledge, hard).tally) == RunCorpus(corpus, fixes, knowledge, hard).tally.allUtterances
    decreases |corpus|
  {
    if corpus != [] {
      var init, last := corpus[..|corpus| - 1], corpus[|corpus| - 1];
      RunCorpusLastTally(corpus, fixes, knowledge, hard);
      RunCorpusCategorized(init, fixes, knowledge, hard);
      var prev, os := RunCorpus(init, fixes, knowledge, hard).tally, Outcomes(last, fixes, knowledge, hard);
      FoldTally(prev, last, os);
      var t := Fold(prev, last, os).tally;
      assert Categorized(t) == Categorized(prev) + |last|;
      assert t.allUtterances == prev.allUtterances + |last|;
      assert Categorized(prev) == prev.allUtterances;
      assert RunCorpus(corpus, fixes, knowledge, hard).tally == t;
      assert Categorized(t) == t.allUtterances;
    }
  }

  /** A completed run counts one key error per dangling key. */
  lemma {:induction false} RunCorpusCountsKeyErrors(
    corpus: seq<Dialogue>, fixes: map<string, string>, knowledge: map<string, KnowledgeEntry>, hard: map<string, seq<string>>)
    requires RunCorpus(corpus, fixes, knowledge, hard).Done?
    ensures RunCorpus(corpus, fixes, knowledge, hard).tally.skipKeyError == DanglingCount(corpus, fixes, knowledge, hard)
    decreases |corpus|
  {
    if corpus != [] {
      var init, last := corpus[..|corpus| - 1], corpus[|corpus| - 1];
      RunCorpusLastTally(corpus, fixes, knowledge, hard);
      RunCorpusCountsKeyErrors(init, fixes, knowledge, hard);
      var prev, os := RunCorpus(init, fixes, knowledge, hard).tally, Outcomes(last, fixes, knowledge, hard);
      FoldTally(prev, last, os);
      var t := Fold(prev, last, os).tally;
      assert RunCorpus(corpus, fixes, knowledge, hard).tally == t;
      assert DanglingCount(corpus, fixes, knowledge, hard) == DanglingCount(init, fixes, knowledge, hard) + KeyErrors(os);
    }
  }

  /** A completed run counts every utterance once, in exactly one of the four
      categories, and counts one key error per dangling key. */
  lemma {:induction false} RunCorpusTally(
    corpus: seq<Dialogue>, fixes: map<string, string>, knowledge: map<string, KnowledgeEntry>, hard: map<string, seq<string>>)
    requires RunCorpus(corpus, fixes, knowledge, hard).Done?
    ensures var t := RunCorpus(corpus, fixes, knowledge, hard).tally;
            && t.allUtterances == UtteranceCount(corpus)
            && Categorized(t) == t.allUtterances
            && t.skipKeyError == DanglingCount(corpus, fixes, knowledge, hard)
  {
    RunCorpusCountsAll(corpus, fixes, knowledge, hard);
    RunCorpusCategorized(corpus, fixes, knowledge, hard);
    RunCorpusCountsKeyErrors(corpus, fixes, knowledge, hard);
  }

  /** Some utterance of `dialogue` makes the cross-utterance search raise. */
  predicate Raises(dialogue: Dialogue, fixes: map<string, string>, knowledge: map<string, KnowledgeEntry>, hard: map<string, seq<string>>) {
    exists j :: 0 <= j < |dialogue| && Classify(dialogue[j], dialogue, fixes, knowledge, hard).SearchFailed?
  }

  /** The utterance loop over a dialogue raises exactly when one of its utterances
      makes the search raise. */
  lemma {:induction false} RunDialogueFails(t: Tally, dialogue: Dialogue,
                         fixes: map<string, string>, knowledge: map<string, KnowledgeEntry>, hard: map<string, seq<string>>)
    ensures RunDialogue(t, dialogue, fixes, knowledge, hard).Failed? <==> Raises(dialogue, fixes, knowledge, hard)
  {
    var os := Outcomes(dialogue, fixes, knowledge, hard);
    FoldCompletes(t, dialogue, os);
    assert forall j :: 0 <= j < |dialogue| ==> os[j] == Classify(dialogue[j], dialogue, fixes, knowledge, hard);
  }

  /** The run raises exactly when some utterance with a null key reaches, in the
      cross-utterance search, a key that has no entry. */
  lemma {:induction false} RunCorpusFails(
    corpus: seq<Dialogue>, fixes: map<string, string>, knowledge: map<string, KnowledgeEntry>, hard: map<string, seq<string>>)
    ensures RunCorpus(corpus, fixes, knowledge, hard).Failed?
            <==> exists i :: 0 <= i < |corpus| && Raises(corpus[i], fixes, knowledge, hard)
    decreases |corpus|
  {
    if corpus != [] {
      var init, last := corpus[..|corpus| - 1], corpus[|corpus| - 1];
      RunCorpusFails(init, fixes, knowledge, hard);
      assert RunCorpus(corpus, fixes, knowledge, hard).Failed?
             <==> RunCorpus(init, fixes, knowledge, hard).Failed? || Raises(last, fixes, knowledge, hard)
      by {
        var prev := RunCorpus(init, fixes, knowledge, hard);
        if prev.Done? {
          RunCorpusStep(corpus, fixes, knowledge, hard);
          RunDialogueFails(prev.tally, last, fixes, knowledge, hard);
          assert RunCorpus(corpus, fixes, knowledge, hard).Failed?
                 <==> RunDialogue(prev.tally, last, fixes, knowledge, hard).Failed?;
        } else {
          assert RunCorpus(corpus, fixes, knowledge, hard) == Failed(prev.key);
        }
      }
      SomeSnoc(corpus, init, d => Raises(d, fixes, knowledge, hard));
    }
  }

  /** The accounting identity of a completed run: the five counters add up to the
      number of utterances plus the number of key errors, because a dangling key is
      counted both as found normally and as a key error. */
  lemma {:induction false} CountersSum(corpus: seq<Dialogue>, fixes: map<string, string>, knowledge: map<string, KnowledgeEntry>, hard: map<string, seq<string>>)
    requires RunCorpus(corpus, fixes, knowledge, hard).Done?
    ensures var t := RunCorpus(corpus, fixes, knowledge, hard).tally;
            t.foundNormally + t.foundInOtherUtterances + t.foundKnowledgeSent + t.notFound + t.skipKeyError
              == t.allUtterances + t.skipKeyError
  {
    RunCorpusTally(corpus, fixes, knowledge, hard);
  }

  /** No utterance of `dialogue` has a dangling key. */
  predicate NoDanglingKey(dialogue: Dialogue, fixes: map<string, string>, knowledge: map<string, KnowledgeEntry>) {
    forall j :: 0 <= j < |dialogue| ==> !HasDanglingKey(dialogue[j], fixes, knowledge)
  }

  /** The outcomes of a dialogue hold no key error exactly when none of its
      utterances has a dangling key. */
  lemma {:induction false} DialogueKeyErrorsZero(dialogue: Dialogue,
                              fixes: map<string, string>, knowledge: map<string, KnowledgeEntry>, hard: map<string, seq<string>>)
    ensures KeyErrors(Outcomes(dialogue, fixes, knowledge, hard)) == 0 <==> NoDanglingKey(dialogue, fixes, knowledge)
  {
    var os := Outcomes(dialogue, fixes, knowledge, hard);
    KeyErrorsZero(os);
    forall j | 0 <= j < |dialogue|
      ensures os[j].DanglingKey? <==> HasDanglingKey(dialogue[j], fixes, knowledge)
    {
      ClassifyStages(dialogue[j], dialogue, fixes, knowledge, hard);
    }
  }

  lemma {:induction false} DanglingCountZero(
    corpus: seq<Dialogue>, fixes: map<string, string>, knowledge: map<string, KnowledgeEntry>, hard: map<string, seq<string>>)
    ensures DanglingCount(corpus, fixes, knowledge, hard) == 0
            <==> forall i :: 0 <= i < |corpus| ==> NoDanglingKey(corpus[i], fixes, knowledge)
    decreases |corpus|
  {
    if corpus != [] {
      var init, last := corpus[..|corpus| - 1], corpus[|corpus| - 1];
      DanglingCountZero(init, fixes, knowledge, hard);
      DialogueKeyErrorsZero(last, fixes, knowledge, hard);
      AllSnoc(corpus, init, d => NoDanglingKey(d, fixes, knowledge));
    }
  }

  /** When every utterance is counted in exactly one category, the final assertion
      holds exactly when no key error was counted. */
  lemma {:induction false} AssertionHoldsIffNoSkip(t: Tally)
    requires Categorized(t) == t.allUtterances
    ensures AssertionHolds(t) <==> t.skipKeyError == 0
  {
  }

  /** The final assertion of a completed run holds exactly when no utterance has a
      dangling key, that is exactly when no KeyError was counted. */
  lemma {:induction false} AssertionHoldsIffNoKeyError(
    corpus: seq<Dialogue>, fixes: map<string, string>, knowledge: map<string, KnowledgeEntry>, hard: map<string, seq<string>>)
    requires RunCorpus(corpus, fixes, knowledge, hard).Done?
    ensures AssertionHolds(RunCorpus(corpus, fixes, knowledge, hard).tally)
            <==> RunCorpus(corpus, fixes, knowledge, hard).tally.skipKeyError == 0
    ensures AssertionHolds(RunCorpus(corpus, fixes, knowledge, hard).tally)
            <==> forall i :: 0 <= i < |corpus| ==> NoDanglingKey(corpus[i], fixes, knowledge)
  {
    var t := RunCorpus(corpus, fixes, knowledge, hard).tally;
    RunCorpusTally(corpus, fixes, knowledge, hard);
    AssertionHoldsIffNoSkip(t);
    DanglingCountZero(corpus, fixes, knowledge, hard);
  }

  /** Annotating changes no response, so every utterance of an annotated dialogue
      gets the outcome it had before. */
  lemma {:induction false} OutcomesOfAnnotated(dialogue: Dialogue,
                            fixes: map<string, string>, knowledge: map<string, KnowledgeEntry>, hard: map<string, seq<string>>)
    ensures var os := Outcomes(dialogue, fixes, knowledge, hard);
            Outcomes(Annotate(dialogue, os), fixes, knowledge, hard) == os
  {
    var os := Outcomes(dialogue, fixes, knowledge, hard);
    var a := Annotate(dialogue, os);
    forall j | 0 <= j < |a|
      ensures Classify(a[j], a, fixes, knowledge, hard) == os[j]
    {
      ClassifyReadsOnlyKeys(a[j], a, dialogue, fixes, knowledge, hard);
      ClassifyReadsOnlyKeys(dialogue[j], a, dialogue, fixes, knowledge, hard);
      ClassifyStages(a[j], dialogue, fixes, knowledge, hard);
      ClassifyStages(dialogue[j], dialogue, fixes, knowledge, hard);
    }
  }

  lemma {:induction false} RunCorpusOnAnnotated(
    corpus: seq<Dialogue>, fixes: map<string, string>, knowledge: map<string, KnowledgeEntry>, hard: map<string, seq<string>>)
    ensures RunCorpus(AnnotateCorpus(corpus, fixes, knowledge, hard), fixes, knowledge, hard) == RunCorpus(corpus, fixes, knowledge, hard)
    decreases |corpus|
  {
    if corpus != [] {
      var init, last := corpus[..|corpus| - 1], corpus[|corpus| - 1];
      var a := AnnotateCorpus(corpus, fixes, knowledge, hard);
      assert a[..|a| - 1] == AnnotateCorpus(init, fixes, knowledge, hard);
      RunCorpusOnAnnotated(init, fixes, knowledge, hard);
      if RunCorpus(init, fixes, knowledge, hard).Done? {
        var os := Outcomes(last, fixes, knowledge, hard);
        OutcomesOfAnnotated(last, fixes, knowledge, hard);
        FoldOnAnnotated(RunCorpus(init, fixes, knowledge, hard).tally, last, os);
      }
    }
  }

  /** Running the annotator again on its own output writes the same fields and
      produces the same counters. */
  lemma {:induction false} RunCorpusIdempotent(
    corpus: seq<Dialogue>, fixes: map<string, string>, knowledge: map<string, KnowledgeEntry>, hard: map<string, seq<string>>)
    requires RunCorpus(corpus, fixes, knowledge, hard).Done?
    ensures RunCorpus(RunCorpus(corpus, fixes, knowledge, hard).value, fixes, knowledge, hard) == RunCorpus(corpus, fixes, knowledge, hard)
  {
    RunCorpusValue(corpus, fixes, knowledge, hard);
    RunCorpusOnAnnotated(corpus, fixes, knowledge, hard);
  }
}
