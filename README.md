# FaithDialOR knowledge resolution, modelled in Dafny

`dataset-view.py` rebuilds the knowledge annotations of the FaithDial corpus
(grounded dialogues) from the Wizard-of-Wikipedia corpus (knowledge-grounded
dialogues). This project models the part of that script that decides which knowledge
entry belongs to which utterance, and proves what that decision guarantees.

- **Index building** (`load_wow_knowledge`, the loop over the parsed dialogues). Every
  wizard turn is stored in `wow_knowledge` under its text, stripped and with each `"`
  replaced by `''`. A later turn with the same key overwrites an earlier one. Every
  topic group of such a turn is stored in `wow_hard_knowledge` as its stripped
  sentences, but only the first time the topic appears. The model is the method
  `KnowledgeIndex.BuildIndex`, whose loop calls `KnowledgeIndex.IndexTurn` once per
  turn. `IndexTurn` is proved equal to one step of the fold, `KnowledgeIndex.AddTurn`.
  `BuildIndex` is proved equal to the whole fold, `KnowledgeIndex.Build`, over the
  turns of all dialogues in order. The lemmas beside them state what that fold stores.
- **Key correction** (`fd_fixes_mapping` with `.get(k, k)`). Three response texts of
  the grounded corpus differ from the knowledge corpus by one typo or one missing
  sentence. `Corrections.Correct` replaces exactly those, and `Corrections.FixesMapping`
  is the table, copied verbatim.
- **Fallback searches**.
  - `try_find_knowledge_sent` is the function `Search.FindKnowledgeSent`. It scans
    the dialogue's utterances in order. It returns the first corrected key whose entry
    has a passage list holding the sentence, returns nothing, or fails when a key has
    no entry.
  - `find_in_hard_knowledge` is the loop `Search.FindInHardKnowledge`. It may visit
    the topics in any order, and it is proved to be the membership test
    `Search.InHardKnowledge`.
- **Annotation** (`create_ORFaithDial`).
  - `Annotator.CreateORFaithDial` works over an array of dialogues, which it annotates
    in place. `Annotator.ProcessDialogue` runs the utterance loop of one dialogue and
    `Annotator.ProcessUtterance` one pass of it. The six counters are kept in
    `Annotator.Tally`.
  - The specification functions are `Annotator.Classify`, which gives the outcome of
    one utterance, and the folds `Annotator.RunDialogue` and `Annotator.RunCorpus`.
    The methods are proved to compute exactly these.
  - The run ends in one of three ways: it completes, the final assertion fails, or
    the search raises (`Annotator.Verdict`).

The correction table is a parameter `fixes` of the functions and lemmas that apply
it. The program's own table, `FixesMapping`, is what `CreateORFaithDial` passes.
Lemmas that need its particular contents, such as idempotence, are stated for
`FixesMapping` itself.

Three consequences of the code, all proved, are worth knowing before using its
output:

- **A dangling direct key breaks the final assertion.** A non-null corrected key with
  no entry is counted twice: once in `found_normally` (line 94) and once in
  `skip_key_error` (line 105). The assertion at line 125 therefore holds exactly when
  no utterance has such a key (`Annotator.AssertionHoldsIffNoKeyError`).
- **A dangling key aborts the run during the cross-utterance search.** Some
  utterance with a null key can start the search, which then reaches a sibling whose
  corrected key has no entry. `wow_knowledge.get` then returns `None`, and
  subscripting it raises a TypeError that nothing catches
  (`Annotator.RunCorpusFails`). Such a key is not tallied as recoverable.
- **The hard-knowledge probe only matches stripped text.** It is given the knowledge
  text unstripped (line 87), but every stored sentence is stripped (line 156). A text
  with whitespace at either end is never found there
  (`KnowledgeIndex.HardProbeMissesUnstripped`).

Four more points about what the code does:

- The whitespace set of `strip()` is the one of Python 3's `str.isspace()`
  (`Text.IsWhitespace`).
- Passage tests use list membership (`sent in passage`, where `passage` is a list of
  sentences), that is exact equality with one sentence, not substring search.
- The cross-utterance scan visits every utterance of the dialogue, the searching one
  included. That one is always passed over, because its corrected key is null.
- A dangling key met during that scan raises, as described above, rather than being
  passed over.

## Model

| member | source | states |
|---|---|---|
| Corrections.Correct | dataset-view.py:82 | a null key stays null; a key of the table becomes its correction; every other key is returned unchanged |
| Corrections.FixesMappingNotChained | dataset-view.py:11-18 | no correction in the table is itself a key of the table |
| Corrections.CorrectIdempotent | dataset-view.py:11-18 | with the program's table, correcting a corrected key changes nothing |
| Text.IsWhitespace | dataset-view.py:85 | definition, no contract: the characters `strip()` removes, that is those of `str.isspace()`; used by `strip()` at lines 85, 143 and 156 |
| Text.TrimStart | dataset-view.py:143 | the result is a suffix of the input that is empty or starts with non-whitespace |
| Text.TrimEnd | dataset-view.py:143 | the result is a prefix of the input that is empty or ends with non-whitespace |
| Text.Strip | dataset-view.py:143 | only a length bound; what it keeps and removes is stated by StripIsStripped, StripRemovesOnlyWhitespace and StripStripped |
| Text.StripIsStripped | dataset-view.py:143 | `strip()` leaves no whitespace at either end |
| Text.StripRemovesOnlyWhitespace | dataset-view.py:143 | `strip()` keeps one contiguous slice of its input and everything it removes on either side is whitespace |
| Text.StripStripped | dataset-view.py:143 | a string without whitespace at its ends is its own strip, so stripping is idempotent |
| Text.ReplaceQuotes | dataset-view.py:144 | the result has no double quote, and a string without one is unchanged |
| Text.ReplaceQuotesEnds | dataset-view.py:144 | the first and last characters of the result are those of the input, with a double quote turned into a single one |
| Text.NormalizeKey | dataset-view.py:143-144 | an index key never contains a double quote |
| Text.NormalizeKeyIsStripped | dataset-view.py:143-144 | an index key has no whitespace at either end |
| Text.StripAll | dataset-view.py:156 | definition, no contract: each sentence stripped, in order; what it means is stated by AddGroupsStripped and HardSentencesStripped |
| KnowledgeIndex.PassagesOf | dataset-view.py:148-149 | definition, no contract: the sentence lists of all topic groups, flattened in order; what it means is stated by KnowledgeLastWriterWins |
| KnowledgeIndex.EntryOf | dataset-view.py:145-151 | definition, no contract: the four-field entry of a wizard turn; what it means is stated by KnowledgeLastWriterWins |
| KnowledgeIndex.AddGroups | dataset-view.py:153-156 | definition, no contract: the guarded insert of each topic group; what it means is stated by AddGroupsKeeps, AddGroupsKeys, AddGroupsFirstWriterWins, AddGroupsAppend and AddGroupsStripped |
| KnowledgeIndex.AddTurn | dataset-view.py:140-156 | definition, no contract: one wizard turn indexed, other turns skipped; what it means is stated by IndexTurn, KnowledgeLastWriterWins and HardIsFoldOfWizardGroups |
| KnowledgeIndex.Build | dataset-view.py:139-156 | definition, no contract: AddTurn folded over the turns in order; what it means is stated by BuildIndex, KnowledgeKeys, KnowledgeLastWriterWins, HardKeys, HardFirstWriterWins, HardStable and HardSentencesStripped |
| KnowledgeIndex.IndexTurn | dataset-view.py:139-156 | one turn: skipped unless spoken by `1_Wizard`; otherwise its entry is stored under its normalised text, and each topic group is inserted only if its topic is new, as `Build` prescribes |
| KnowledgeIndex.BuildIndex | dataset-view.py:138-156 | both dictionaries after the nested loop over dialogues and turns equal `Build` of all turns in corpus order |
| KnowledgeIndex.KnowledgeKeys | dataset-view.py:140-145 | a key is in `wow_knowledge` exactly when some wizard turn's text normalises to it |
| KnowledgeIndex.KnowledgeLastWriterWins | dataset-view.py:145-151 | the entry under a key holds the checked sentence, checked passage, passage lists in order, and topics of the last wizard turn with that key |
| KnowledgeIndex.AddGroupsKeeps | dataset-view.py:155 | inserting topic groups never changes or removes a topic already present |
| KnowledgeIndex.AddGroupsKeys | dataset-view.py:153-155 | after the inserts, a topic is present exactly when it was before or one of the groups names it |
| KnowledgeIndex.AddGroupsFirstWriterWins | dataset-view.py:153-156 | a new topic gets the stripped sentences of the first group that names it |
| KnowledgeIndex.AddGroupsAppend | dataset-view.py:153-156 | inserting two runs of groups one after the other is inserting their concatenation |
| KnowledgeIndex.AddGroupsStripped | dataset-view.py:156 | the inserts keep every stored sentence stripped |
| KnowledgeIndex.HardIsFoldOfWizardGroups | dataset-view.py:139-156 | `wow_hard_knowledge` is the guarded-insert fold over the topic groups of the wizard turns, in turn order |
| KnowledgeIndex.WizardGroupsAppend | dataset-view.py:139-141 | the wizard groups of two runs of turns are the concatenation of their wizard groups |
| KnowledgeIndex.HardFirstWriterWins | dataset-view.py:153-156 | a topic's stored list is the stripped sentence list of the first wizard group, over the whole corpus, that names it |
| KnowledgeIndex.HardKeys | dataset-view.py:153-155 | a topic is in `wow_hard_knowledge` exactly when some wizard group names it |
| KnowledgeIndex.HardStable | dataset-view.py:155 | once a topic is stored, later turns never change its list |
| KnowledgeIndex.HardSentencesStripped | dataset-view.py:156 | every sentence stored in `wow_hard_knowledge` is stripped |
| KnowledgeIndex.HardProbeMissesUnstripped | dataset-view.py:85-87 | a knowledge text with whitespace at either end is never found by the hard-knowledge probe |
| Search.InSomePassage | dataset-view.py:57-58 | definition, no contract: some passage list has the sentence as an element; what it means is stated by FindKnowledgeSentIsFirstStop and FindKnowledgeSentNotFound |
| Search.FindKnowledgeSent | dataset-view.py:39-59 | a key found has an entry with a passage list holding the sentence; a key that makes the search fail has no entry |
| Search.FindKnowledgeSentIsFirstStop | dataset-view.py:50-59 | the search returns the verdict of the first utterance it does not pass over: the first match in utterance order, or the first missing entry |
| Search.FindKnowledgeSentNotFound | dataset-view.py:50-59 | the search returns nothing exactly when every utterance has a null key or an entry with no passage list holding the sentence |
| Search.FindKnowledgeSentNoMissingEntry | dataset-view.py:56-57 | when every corrected key of the dialogue has an entry, the search cannot raise |
| Search.FindKnowledgeSentReadsOnlyKeys | dataset-view.py:50-56 | the search depends only on the responses of the utterances, not on fields written onto them |
| Search.InHardKnowledge | dataset-view.py:62-66 | definition, no contract: the answer of `find_in_hard_knowledge`, some topic's stored sentence list has the sentence as an element; FindInHardKnowledge is proved to return it |
| Search.FindInHardKnowledge | dataset-view.py:62-66 | returns true exactly when some topic's stored list holds the sentence, whatever order the topics are visited in |
| Annotator.AssertionHolds | dataset-view.py:123-125 | definition, no contract: the final assertion over the six counters; what it means is stated by CountersSum and AssertionHoldsIffNoKeyError |
| Annotator.Fold | dataset-view.py:79-111 | definition, no contract: the utterance loop over precomputed outcomes; what it means is stated by FoldCompletes, FoldValue, FoldTally and FoldOnAnnotated |
| Annotator.RunDialogue | dataset-view.py:79-111 | definition, no contract: one dialogue's loop, each outcome taken on the partially annotated dialogue; what it means is stated by ProcessDialogue and RunDialogueFails |
| Annotator.RunCorpus | dataset-view.py:78-111 | definition, no contract: RunDialogue over every dialogue, stopping at the first raise; what it means is stated by CreateORFaithDial, RunCorpusValue, RunCorpusTally, RunCorpusFails and RunCorpusIdempotent |
| Annotator.Classify | dataset-view.py:81-106 | every outcome that writes an entry onto the utterance carries a key that is in `wow_knowledge` and that key's entry, so the lookup at line 103 cannot fail after a cross-utterance match |
| Annotator.ClassifyStages | dataset-view.py:81-95 | the outcome is direct or dangling exactly when the corrected key is non-null, split by whether it has an entry; cross-utterance, search failure, sentence-only and unresolved are exactly the four results of the two fallbacks on a null key, so no fallback runs after a dangling key |
| Annotator.ClassifyReadsOnlyKeys | dataset-view.py:81-87 | an utterance's outcome depends on its dialogue only through the responses of its utterances |
| Annotator.Count | dataset-view.py:80-105 | each utterance adds one to `all_utterances` and to exactly one of the four category counters; a dangling key adds one to `found_normally` and one to `skip_key_error` |
| Annotator.Apply | dataset-view.py:108-111 | a resolved utterance gets its entry's four fields written onto it; any other utterance is left as it is; the response and knowledge text are never changed |
| Annotator.ProcessUtterance | dataset-view.py:80-111 | one pass of the utterance loop raises exactly on a failed search, and otherwise writes and counts as its outcome prescribes |
| Annotator.ProcessDialogue | dataset-view.py:79-111 | the utterance loop over one dialogue, writing back into the dialogue as it goes, computes `RunDialogue` |
| Annotator.CreateORFaithDial | dataset-view.py:69-127 | if the run raises, the verdict is the key of the first failed search; otherwise the array holds the annotated corpus of `RunCorpus` and the verdict is decided by the assertion on its counters |
| Annotator.FoldCompletes | dataset-view.py:79-111 | the utterance loop completes exactly when no utterance's search fails |
| Annotator.FoldValue | dataset-view.py:108-111 | a completed utterance loop writes each utterance's own outcome onto it |
| Annotator.FoldTally | dataset-view.py:80-105 | a completed utterance loop counts every utterance once, in exactly one category, plus one key error per dangling key |
| Annotator.FoldOnAnnotated | dataset-view.py:108-111 | rerunning the utterance loop on its own output, with the same outcomes, gives the same result |
| Annotator.RunCorpusFailurePersists | dataset-view.py:78-85 | once a dialogue raises, the later dialogues do not change the result |
| Annotator.RunCorpusValue | dataset-view.py:78-111 | a completed run annotates every utterance of every dialogue by its own outcome |
| Annotator.RunCorpusTally | dataset-view.py:78-105 | a completed run's `all_utterances` is the number of utterances, the four categories sum to it, and `skip_key_error` is the number of dangling keys |
| Annotator.RunDialogueFails | dataset-view.py:85 | the loop over one dialogue raises exactly when some utterance's search reaches a key without an entry |
| Annotator.RunCorpusFails | dataset-view.py:56-57 | the run raises exactly when some dialogue has such an utterance |
| Annotator.CountersSum | dataset-view.py:123-125 | in a completed run, the five counters of the assertion sum to `all_utterances + skip_key_error` |
| Annotator.DanglingCountZero | dataset-view.py:102-105 | no key error is counted exactly when no utterance of the corpus has a dangling key |
| Annotator.AssertionHoldsIffNoKeyError | dataset-view.py:123-125 | in a completed run, the final assertion holds exactly when `skip_key_error` is zero, that is exactly when no utterance has a dangling key |
| Annotator.OutcomesOfAnnotated | dataset-view.py:108-111 | writing the four fields changes no outcome in the dialogue |
| Annotator.RunCorpusOnAnnotated | dataset-view.py:78-111 | running over an annotated corpus gives the same result as running over the original one |
| Annotator.RunCorpusIdempotent | dataset-view.py:108-111 | running the annotator again on its own output writes the same fields and produces the same counters |

## Left out

- Reading and writing files, JSON parsing, the download from the hub, the progress bar
  and every `print`. These are I/O. The corpora are parameters of the model, already
  parsed.
- Printing the first nine unresolved knowledge texts (lines 98-99). This is output
  only; the counter it reads is modelled.
- `print_dialogue`, `analyze_schema`, and the script's main block with its loop over
  the three splits. None of them is part of the knowledge resolution.
- The knowledge corpus is read one JSON line at a time, and the dictionaries persist
  across lines. It is modelled as one sequence of dialogues.
- Each element of `retrieved_passages` is a dictionary from topic to sentences. A turn
  holds the sequence of all its `(topic, sentences)` items in iteration order, which is
  the order both loops over it follow.
- The four fields written onto an utterance are always written together from one
  entry, so they are one optional `KnowledgeEntry`. Other utterance fields are not
  modelled.
- Input records are assumed well formed. A missing field raising a KeyError outside
  the `try` at line 102 is not modelled.
- Text.Strip: its own contract only bounds the length. What it keeps and removes is
  stated by `StripIsStripped`, `StripRemovesOnlyWhitespace` and `StripStripped`.
- Annotator.Classify: its own contract states only that resolved outcomes carry a
  valid entry. The full case split is `ClassifyStages`.
