/** The index-building loop of `load_wow_knowledge`: from the knowledge-grounded
    corpus it builds `wow_knowledge` (normalised wizard text -> entry) and
    `wow_hard_knowledge` (topic id -> stripped sentences of its first occurrence). */
module KnowledgeIndex {
  import opened Records
  import opened Text
  import opened Seqs
  import opened Search

  /** The speaker tag of the turns that are indexed. */
  const Wizard: string := "1_Wizard"

  /** `[v for topic_dict in groups for k, v in topic_dict.items()]`: the sentence
      lists of the topic groups, in their given order. */
  function PassagesOf(groups: seq<TopicGroup>): seq<seq<string>> {
    seq(|groups|, i requires 0 <= i < |groups| => groups[i].sentences)
  }

  /** The entry stored for a wizard turn. */
  function EntryOf(t: Turn): KnowledgeEntry {
    KnowledgeEntry(t.checkedSentence, t.checkedPassage, PassagesOf(t.retrievedPassages), t.retrievedTopics)
  }

  /** The two dictionaries the loop builds. */
  datatype Index = Index(knowledge: map<string, KnowledgeEntry>, hard: map<string, seq<string>>)

  /** The guarded inserts into `wow_hard_knowledge` for the groups of one turn, in order:
      a topic already present is left alone. */
  function AddGroups(hard: map<string, seq<string>>, groups: seq<TopicGroup>): map<string, seq<string>>
    decreases |groups|
  {
    if groups == [] then hard
    else
      var before := AddGroups(hard, groups[..|groups| - 1]);
      var g := groups[|groups| - 1];
      if g.topic in before then before else before[g.topic := StripAll(g.sentences)]
  }

  /** One iteration of the turn loop: non-wizard turns are skipped; a wizard turn
      overwrites its key's entry and adds its topic groups. */
  function AddTurn(idx: Index, t: Turn): Index {
    if t.speaker != Wizard then idx
    else Index(idx.knowledge[NormalizeKey(t.text) := EntryOf(t)], AddGroups(idx.hard, t.retrievedPassages))
  }

  /** Both dictionaries after visiting `turns` in order, starting empty. */
  function Build(turns: seq<Turn>): Index
    decreases |turns|
  {
    if turns == [] then Index(map[], map[])
    else AddTurn(Build(turns[..|turns| - 1]), turns[|turns| - 1])
  }

  lemma {:induction false} BuildSnoc(turns: seq<Turn>, t: Turn)
    ensures Build(turns + [t]) == AddTurn(Build(turns), t)
  {
    assert (turns + [t])[..|turns|] == turns;
  }

  lemma {:induction false} AddGroupsSnoc(hard: map<string, seq<string>>, groups: seq<TopicGroup>, g: TopicGroup)
    ensures AddGroups(hard, groups + [g])
            == if g.topic in AddGroups(hard, groups) then AddGroups(hard, groups)
               else AddGroups(hard, groups)[g.topic := StripAll(g.sentences)]
  {
    assert (groups + [g])[..|groups|] == groups;
  }

  /** The turns of all dialogues in corpus order. */
  function Flatten(corpus: seq<KnowledgeDialogue>): seq<Turn>
    decreases |corpus|
  {
    if corpus == [] then [] else Flatten(corpus[..|corpus| - 1]) + corpus[|corpus| - 1]
  }

  /** The body of the turn loop of `load_wow_knowledge`: skip a non-wizard turn;
      otherwise overwrite the entry under the turn's key and insert each topic
      group that is not yet present. */
  method IndexTurn(knowledge: map<string, KnowledgeEntry>, hard: map<string, seq<string>>, turn: Turn)
    returns (knowledge': map<string, KnowledgeEntry>, hard': map<string, seq<string>>)
    ensures Index(knowledge', hard') == AddTurn(Index(knowledge, hard), turn)
  {
    knowledge', hard' := knowledge, hard;
    if turn.speaker == Wizard {
      var key := NormalizeKey(turn.text);
      knowledge' := knowledge'[key := EntryOf(turn)];
      var groups := turn.retrievedPassages;
      for g := 0 to |groups|
        invariant hard' == AddGroups(hard, groups[..g])
      {
        assert groups[..g + 1] == groups[..g] + [groups[g]];
        AddGroupsSnoc(hard, groups[..g], groups[g]);
        var group := groups[g];
        if group.topic !in hard' {
          hard' := hard'[group.topic := StripAll(group.sentences)];
        }
      }
      assert groups[..|groups|] == groups;
    }
  }

  /** The index-building loop of `load_wow_knowledge` over the parsed corpus. */
  method BuildIndex(corpus: seq<KnowledgeDialogue>)
    returns (knowledge: map<string, KnowledgeEntry>, hard: map<string, seq<string>>)
    ensures Index(knowledge, hard) == Build(Flatten(corpus))
  {
    knowledge, hard := map[], map[];
    for i := 0 to |corpus|
      invariant Index(knowledge, hard) == Build(Flatten(corpus[..i]))
    {
      ghost var before := Flatten(corpus[..i]);
      var dialog := corpus[i];
      assert before + dialog[..0] == before;
      for j := 0 to |dialog|
        invariant Index(knowledge, hard) == Build(before + dialog[..j])
      {
        assert before + dialog[..j + 1] == (before + dialog[..j]) + [dialog[j]];
        BuildSnoc(before + dialog[..j], dialog[j]);
        knowledge, hard := IndexTurn(knowledge, hard, dialog[j]);
      }
      assert dialog[..|dialog|] == dialog;
      assert corpus[..i + 1][..i] == corpus[..i];
    }
    assert corpus[..|corpus|] == corpus;
  }

  /** Turn `t` is a wizard turn whose text normalises to `key`. */
  predicate WritesKey(t: Turn, key: string) {
    t.speaker == Wizard && NormalizeKey(t.text) == key
  }

  /** A key is in `wow_knowledge` exactly when some wizard turn normalises to it. */
  lemma {:induction false} KnowledgeKeys(turns: seq<Turn>, key: string)
    ensures key in Build(turns).knowledge <==> exists i :: 0 <= i < |turns| && WritesKey(turns[i], key)
    decreases |turns|
  {
    if turns != [] {
      var init, last := turns[..|turns| - 1], turns[|turns| - 1];
      KnowledgeKeys(init, key);
      assert Build(turns) == AddTurn(Build(init), last);
      SomeSnoc(turns, init, t => WritesKey(t, key));
    }
  }

  /** Last writer wins: a wizard turn's entry is the one stored under its key unless
      a later wizard turn has the same key. */
  lemma {:induction false} KnowledgeLastWriterWins(turns: seq<Turn>, i: nat)
    requires i < |turns| && turns[i].speaker == Wizard
    requires forall j :: i < j < |turns| && turns[j].speaker == Wizard
                         ==> NormalizeKey(turns[j].text) != NormalizeKey(turns[i].text)
    ensures NormalizeKey(turns[i].text) in Build(turns).knowledge
    ensures Build(turns).knowledge[NormalizeKey(turns[i].text)] == EntryOf(turns[i])
    decreases |turns|
  {
    var init, last := turns[..|turns| - 1], turns[|turns| - 1];
    if i < |turns| - 1 {
      assert init[i] == turns[i];
      forall j | i < j < |init| && init[j].speaker == Wizard
        ensures NormalizeKey(init[j].text) != NormalizeKey(init[i].text)
      {
        assert init[j] == turns[j];
      }
      KnowledgeLastWriterWins(init, i);
      assert last.speaker == Wizard ==> NormalizeKey(last.text) != NormalizeKey(turns[i].text);
    }
  }

  /** `AddGroups` never changes or removes a topic that is already present. */
  lemma {:induction false} AddGroupsKeeps(hard: map<string, seq<string>>, groups: seq<TopicGroup>, topic: string)
    requires topic in hard
    ensures topic in AddGroups(hard, groups) && AddGroups(hard, groups)[topic] == hard[topic]
    decreases |groups|
  {
    if groups != [] {
      AddGroupsKeeps(hard, groups[..|groups| - 1], topic);
    }
  }

  /** A topic is present after `AddGroups` exactly when it was before or some group has it. */
  lemma {:induction false} AddGroupsKeys(hard: map<string, seq<string>>, groups: seq<TopicGroup>, topic: string)
    ensures topic in AddGroups(hard, groups)
            <==> topic in hard || exists i :: 0 <= i < |groups| && groups[i].topic == topic
    decreases |groups|
  {
    if groups != [] {
      var init, last := groups[..|groups| - 1], groups[|groups| - 1];
      AddGroupsKeys(hard, init, topic);
      assert topic in AddGroups(hard, groups) <==> topic in AddGroups(hard, init) || last.topic == topic;
      SomeSnoc(groups, init, (g: TopicGroup) => g.topic == topic);
    }
  }

  /** First writer wins: a new topic gets the stripped sentences of its first group. */
  lemma {:induction false} AddGroupsFirstWriterWins(hard: map<string, seq<string>>, groups: seq<TopicGroup>, i: nat)
    requires i < |groups| && groups[i].topic !in hard
    requires forall j :: 0 <= j < i ==> groups[j].topic != groups[i].topic
    ensures groups[i].topic in AddGroups(hard, groups)
    ensures AddGroups(hard, groups)[groups[i].topic] == StripAll(groups[i].sentences)
    decreases |groups|
  {
    var init := groups[..|groups| - 1];
    if i < |groups| - 1 {
      assert forall j :: 0 <= j < |init| ==> init[j] == groups[j];
      AddGroupsFirstWriterWins(hard, init, i);
    } else {
      AddGroupsKeys(hard, init, groups[i].topic);
      assert forall j :: 0 <= j < |init| ==> init[j].topic != groups[i].topic;
      assert groups[i].topic !in AddGroups(hard, init);
    }
  }

  /** Visiting two runs of groups one after the other is visiting their concatenation. */
  lemma {:induction false} AddGroupsAppend(hard: map<string, seq<string>>, a: seq<TopicGroup>, b: seq<TopicGroup>)
    ensures AddGroups(hard, a + b) == AddGroups(AddGroups(hard, a), b)
    decreases |b|
  {
    if b == [] {
      assert a + b == a;
    } else {
      var b' := b[..|b| - 1];
      assert (a + b)[..|a + b| - 1] == a + b';
      AddGroupsAppend(hard, a, b');
    }
  }

  /** Every sentence `AddGroups` stores is stripped, given that every one already stored is. */
  lemma {:induction false} AddGroupsStripped(hard: map<string, seq<string>>, groups: seq<TopicGroup>)
    requires forall t :: t in hard ==> forall s :: s in hard[t] ==> IsStripped(s)
    ensures forall t :: t in AddGroups(hard, groups) ==> forall s :: s in AddGroups(hard, groups)[t] ==> IsStripped(s)
    decreases |groups|
  {
    if groups != [] {
      AddGroupsStripped(hard, groups[..|groups| - 1]);
      var v := groups[|groups| - 1].sentences;
      forall s | s in StripAll(v)
        ensures IsStripped(s)
      {
        var i :| 0 <= i < |v| && StripAll(v)[i] == s;
        StripIsStripped(v[i]);
      }
    }
  }

  /** The topic groups of the wizard turns, in turn order. */
  function WizardGroups(turns: seq<Turn>): seq<TopicGroup>
    decreases |turns|
  {
    if turns == [] then []
    else
      var last := turns[|turns| - 1];
      WizardGroups(turns[..|turns| - 1]) + (if last.speaker == Wizard then last.retrievedPassages else [])
  }

  /** `wow_hard_knowledge` is the guarded-insert fold over the wizard turns' groups. */
  lemma {:induction false} HardIsFoldOfWizardGroups(turns: seq<Turn>)
    ensures Build(turns).hard == AddGroups(map[], WizardGroups(turns))
    decreases |turns|
  {
    if turns != [] {
      var init := turns[..|turns| - 1];
      var last := turns[|turns| - 1];
      HardIsFoldOfWizardGroups(init);
      AddGroupsAppend(map[], WizardGroups(init), if last.speaker == Wizard then last.retrievedPassages else []);
    }
  }

  lemma {:induction false} WizardGroupsAppend(a: seq<Turn>, b: seq<Turn>)
    ensures WizardGroups(a + b) == WizardGroups(a) + WizardGroups(b)
    decreases |b|
  {
    if b == [] {
      assert a + b == a;
    } else {
      var b' := b[..|b| - 1];
      assert (a + b)[..|a + b| - 1] == a + b';
      WizardGroupsAppend(a, b');
    }
  }

  /** First writer wins over the whole build: a topic's stored list is the stripped
      sentence list of the first wizard group that names it. */
  lemma {:induction false} HardFirstWriterWins(turns: seq<Turn>, i: nat)
    requires i < |WizardGroups(turns)|
    requires forall j :: 0 <= j < i ==> WizardGroups(turns)[j].topic != WizardGroups(turns)[i].topic
    ensures WizardGroups(turns)[i].topic in Build(turns).hard
    ensures Build(turns).hard[WizardGroups(turns)[i].topic] == StripAll(WizardGroups(turns)[i].sentences)
  {
    HardIsFoldOfWizardGroups(turns);
    AddGroupsFirstWriterWins(map[], WizardGroups(turns), i);
  }

  /** A topic is in `wow_hard_knowledge` exactly when some wizard group names it. */
  lemma {:induction false} HardKeys(turns: seq<Turn>, topic: string)
    ensures topic in Build(turns).hard
            <==> exists i :: 0 <= i < |WizardGroups(turns)| && WizardGroups(turns)[i].topic == topic
  {
    HardIsFoldOfWizardGroups(turns);
    AddGroupsKeys(map[], WizardGroups(turns), topic);
  }

  /** Once a topic is in `wow_hard_knowledge`, later turns never change its list. */
  lemma {:induction false} HardStable(turns: seq<Turn>, later: seq<Turn>, topic: string)
    requires topic in Build(turns).hard
    ensures topic in Build(turns + later).hard
    ensures Build(turns + later).hard[topic] == Build(turns).hard[topic]
  {
    HardIsFoldOfWizardGroups(turns);
    HardIsFoldOfWizardGroups(turns + later);
    WizardGroupsAppend(turns, later);
    AddGroupsAppend(map[], WizardGroups(turns), WizardGroups(later));
    AddGroupsKeeps(Build(turns).hard, WizardGroups(later), topic);
  }

  /** Every sentence stored in `wow_hard_knowledge` is stripped. */
  lemma {:induction false} HardSentencesStripped(turns: seq<Turn>)
    ensures forall t :: t in Build(turns).hard ==> forall s :: s in Build(turns).hard[t] ==> IsStripped(s)
  {
    HardIsFoldOfWizardGroups(turns);
    AddGroupsStripped(map[], WizardGroups(turns));
  }

  /** The probe of `find_in_hard_knowledge` is given the knowledge text as it is,
      while every stored sentence is stripped: a text with whitespace at either end
      is never found, whatever the corpus. */
  lemma {:induction false} HardProbeMissesUnstripped(turns: seq<Turn>, sent: string)
    requires !IsStripped(sent)
    ensures !InHardKnowledge(sent, Build(turns).hard)
  {
    HardSentencesStripped(turns);
  }
}
