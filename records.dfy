/** The records the matcher works on, as already parsed from the two JSON corpora. */
module Records {

  datatype Option<+T> = None | Some(value: T)

  /** One entry of a wizard turn's `retrieved_passages`: a topic id and the
      sentences retrieved under it. */
  datatype TopicGroup = TopicGroup(topic: string, sentences: seq<string>)

  /** A turn of the knowledge-grounded corpus (`diag["dialog"]` items). */
  datatype Turn = Turn(
    speaker: string,
    text: string,
    checkedSentence: string,
    checkedPassage: string,
    retrievedPassages: seq<TopicGroup>,
    retrievedTopics: seq<string>)

  /** A dialogue of the knowledge-grounded corpus. */
  type KnowledgeDialogue = seq<Turn>

  /** The value stored in `wow_knowledge` for one key. `retrievedPassages` holds one
      list of sentences per topic group. */
  datatype KnowledgeEntry = KnowledgeEntry(
    checkedSentence: string,
    checkedPassage: string,
    retrievedPassages: seq<seq<string>>,
    retrievedTopics: seq<string>)

  /** An utterance of the grounded-dialogue corpus. `originalResponse` may be null;
      `attached` stands for the four keys `passages`, `topics`, `checked_sentence`
      and `checked_passage`, which are always written together from one entry. */
  datatype Utterance = Utterance(
    originalResponse: Option<string>,
    knowledge: string,
    attached: Option<KnowledgeEntry>)

  /** `diag['utterances']` of the grounded-dialogue corpus. */
  type Dialogue = seq<Utterance>
}
