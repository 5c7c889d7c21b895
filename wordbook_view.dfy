/** `components/Wordbook.tsx`: the entries shown for a mastery filter and a search term, and the difficulty badge. */
module WordbookView {
  import opened Seqs
  import opened Text
  import opened Database

  /** `filter`: `'all' | 'mastered' | 'learning'`. */
  datatype MasteryFilter = ShowAll | ShowMastered | ShowLearning

  function MasteryTest(filter: MasteryFilter): WordbookEntry -> bool {
    (e: WordbookEntry) =>
      if filter.ShowMastered? then e.mastered else if filter.ShowLearning? then !e.mastered else true
  }

  /** The lower-cased term occurs in the lower-cased word or translation. */
  predicate Matches(e: WordbookEntry, searchTerm: string) {
    Contains(ToLower(e.word), ToLower(searchTerm)) || Contains(ToLower(e.translation), ToLower(searchTerm))
  }

  function SearchTest(searchTerm: string): WordbookEntry -> bool {
    (e: WordbookEntry) => Matches(e, searchTerm)
  }

  /** `filteredWords`: the mastery filter, then the search. */
  function FilteredWords(words: seq<WordbookEntry>, filter: MasteryFilter, searchTerm: string): seq<WordbookEntry> {
    Filter(Filter(words, MasteryTest(filter)), SearchTest(searchTerm))
  }

  /**
   * The shown entries are the sub-list of those the filter admits
   * (`mastered` only mastered ones, `learning` only unmastered ones, `all`
   * every one) that match the search.
   */
  lemma FilteredWordsKeeps(words: seq<WordbookEntry>, filter: MasteryFilter, searchTerm: string)
    ensures var r := FilteredWords(words, filter, searchTerm);
            Subseq(r, words)
            && forall e :: e in r <==>
                 e in words && Matches(e, searchTerm)
                 && (filter.ShowMastered? ==> e.mastered) && (filter.ShowLearning? ==> !e.mastered)
  {
    var byMastery := Filter(words, MasteryTest(filter));
    FilterKeeps(words, MasteryTest(filter));
    FilterKeeps(byMastery, SearchTest(searchTerm));
    SubseqTrans(Filter(byMastery, SearchTest(searchTerm)), byMastery, words);
  }

  /** An empty search term matches every entry, so `all` with no term shows the whole wordbook. */
  lemma EmptySearchKeepsAll(words: seq<WordbookEntry>)
    ensures FilteredWords(words, ShowAll, "") == words
  {
    forall e | e in words ensures MasteryTest(ShowAll)(e) { }
    FilterAll(words, MasteryTest(ShowAll));
    forall e | e in words ensures SearchTest("")(e) {
      ContainsEmpty(ToLower(e.word));
    }
    FilterAll(words, SearchTest(""));
  }

  /** `getDifficultyColor` */
  function DifficultyColor(difficulty: string): string {
    if difficulty == "easy" then "#4CAF50"
    else if difficulty == "medium" then "#FFC107"
    else if difficulty == "hard" then "#F44336"
    else "#757575"
  }

  /** The badge text: `简单`, `中等`, and `困难` for anything else. */
  function DifficultyLabel(difficulty: string): string {
    if difficulty == "easy" then "简单" else if difficulty == "medium" then "中等" else "困难"
  }

  /** A difficulty outside the three is drawn grey and labelled as hard. */
  lemma OtherDifficulty(difficulty: string)
    requires difficulty != "easy" && difficulty != "medium" && difficulty != "hard"
    ensures DifficultyColor(difficulty) == "#757575" && DifficultyLabel(difficulty) == "困难"
  {
  }

  /**
   * Each stored difficulty has its own colour and label, none of them the
   * grey kept for strings outside the three.
   */
  lemma BadgesDistinct(d: Difficulty, e: Difficulty)
    ensures DifficultyColor(d.Name()) != "#757575"
    ensures d != e ==> DifficultyColor(d.Name()) != DifficultyColor(e.Name())
    ensures d != e ==> DifficultyLabel(d.Name()) != DifficultyLabel(e.Name())
  {
    assert "easy" != "medium" && "easy" != "hard" && "medium" != "hard";
    assert "#4CAF50"[1] != "#FFC107"[1] && "#4CAF50"[1] != "#F44336"[1] && "#FFC107"[2] != "#F44336"[2];
    assert "#4CAF50"[1] != "#757575"[1] && "#FFC107"[1] != "#757575"[1] && "#F44336"[1] != "#757575"[1];
    assert "简单"[0] != "中等"[0] && "简单"[0] != "困难"[0] && "中等"[0] != "困难"[0];
  }
}
