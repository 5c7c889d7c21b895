/** `components/HistoryManager.tsx`: the list of import histories shown for a source and a search term. */
module HistoryFilter {
  import opened Seqs
  import opened Text
  import opened Database

  /** `selectedSource`: `'all'` or one source type. */
  datatype SourceChoice = AllSources | OnlySource(source: SourceType)

  /** The source test, which `'all'` does not apply. */
  function SourceTest(choice: SourceChoice): ImportHistory -> bool {
    (h: ImportHistory) => choice.AllSources? || h.sourceType == choice.source
  }

  /** The search applies only when the term is not blank. */
  predicate Searching(searchTerm: string) {
    !AllSpace(searchTerm)
  }

  /** The lower-cased term, untrimmed, occurs in the lower-cased title or content. */
  predicate Mentions(h: ImportHistory, term: string) {
    Contains(ToLower(h.title), ToLower(term)) || Contains(ToLower(h.content), ToLower(term))
  }

  function SearchTest(searchTerm: string): ImportHistory -> bool {
    (h: ImportHistory) => Mentions(h, searchTerm)
  }

  /** `filterHistories`: the source filter, then the search filter when the term is not blank. */
  function FilterHistories(histories: seq<ImportHistory>, choice: SourceChoice, searchTerm: string): seq<ImportHistory> {
    var bySource := if choice.AllSources? then histories else Filter(histories, SourceTest(choice));
    if Trim(searchTerm) != [] then Filter(bySource, SearchTest(searchTerm)) else bySource
  }

  /** A history is shown exactly when it passes the source test and, for a non-blank term, the search. */
  predicate Shown(h: ImportHistory, choice: SourceChoice, searchTerm: string) {
    (choice.AllSources? || h.sourceType == choice.source)
    && (Searching(searchTerm) ==> Mentions(h, searchTerm))
  }

  /** The filtered list is the sub-list of the shown histories, in their order. */
  lemma FilterHistoriesKeeps(histories: seq<ImportHistory>, choice: SourceChoice, searchTerm: string)
    ensures var r := FilterHistories(histories, choice, searchTerm);
            Subseq(r, histories)
            && forall h :: h in r <==> h in histories && Shown(h, choice, searchTerm)
  {
    TrimEmptyIffAllSpace(searchTerm);
    var bySource := if choice.AllSources? then histories else Filter(histories, SourceTest(choice));
    if choice.AllSources? {
      SubseqRefl(histories);
    } else {
      FilterKeeps(histories, SourceTest(choice));
    }
    if Searching(searchTerm) {
      FilterKeeps(bySource, SearchTest(searchTerm));
      SubseqTrans(Filter(bySource, SearchTest(searchTerm)), bySource, histories);
    }
  }

  /** With every source and a blank term, every history is shown unchanged. */
  lemma ShowAll(histories: seq<ImportHistory>, searchTerm: string)
    requires AllSpace(searchTerm)
    ensures FilterHistories(histories, AllSources, searchTerm) == histories
  {
    TrimEmptyIffAllSpace(searchTerm);
  }
}
