/**
 * `utils/database.ts`: the learning score, its evaluation bands, and the
 * three browser stores (learning records, the wordbook, import history) as
 * in-memory lists.  `Date.now()` is the `now` parameter of each operation.
 */
module Database {
  import opened Wrappers
  import opened Seqs

  /** JavaScript `Math.round`: the nearest integer, halves rounded up. */
  function Round(x: real): (n: int)
    ensures n as real - 0.5 <= x < n as real + 0.5
  {
    (x + 0.5).Floor
  }

  lemma RoundMonotone(x: real, y: real)
    requires x <= y
    ensures Round(x) <= Round(y)
  {
  }

  function MaxReal(a: real, b: real): real {
    if a >= b then a else b
  }

  /**
   * `calculateScore`: 70 points for accuracy plus a time term that starts at
   * 30 for ten seconds a word and gains or loses 2 per second of difference,
   * never below 0 and with no upper cap.
   */
  function CalculateScore(correctCount: nat, wordCount: nat, timeSpent: nat): int
    requires wordCount > 0
  {
    var accuracyScore := correctCount as real / wordCount as real * 70.0;
    var timePerWord := timeSpent as real / wordCount as real;
    var timeScore := MaxReal(0.0, 30.0 - (timePerWord - 10.0) * 2.0);
    Round(accuracyScore + timeScore)
  }

  lemma DivideMonotone(a: real, b: real, w: real)
    requires 0.0 <= a <= b && w > 0.0
    ensures 0.0 <= a / w <= b / w
  {
    assert a / w * w == a && b / w * w == b;
  }

  /**
   * With no more correct answers than words the score lies in 0..120: the
   * time term reaches 50 when no time is spent, so the score can pass 100.
   */
  lemma ScoreBounds(correctCount: nat, wordCount: nat, timeSpent: nat)
    requires 0 < wordCount && correctCount <= wordCount
    ensures 0 <= CalculateScore(correctCount, wordCount, timeSpent) <= 120
  {
    var w := wordCount as real;
    DivideMonotone(correctCount as real, w, w);
    DivideMonotone(0.0, timeSpent as real, w);
  }

  /** More correct answers never lower the score. */
  lemma ScoreGrowsWithCorrect(c1: nat, c2: nat, wordCount: nat, timeSpent: nat)
    requires 0 < wordCount && c1 <= c2
    ensures CalculateScore(c1, wordCount, timeSpent) <= CalculateScore(c2, wordCount, timeSpent)
  {
    DivideMonotone(c1 as real, c2 as real, wordCount as real);
    var x1 := c1 as real / wordCount as real * 70.0;
    var x2 := c2 as real / wordCount as real * 70.0;
    assert x1 <= x2;
    var timeScore := MaxReal(0.0, 30.0 - (timeSpent as real / wordCount as real - 10.0) * 2.0);
    RoundMonotone(x1 + timeScore, x2 + timeScore);
  }

  /** More time never raises the score. */
  lemma ScoreFallsWithTime(correctCount: nat, wordCount: nat, t1: nat, t2: nat)
    requires 0 < wordCount && t1 <= t2
    ensures CalculateScore(correctCount, wordCount, t2) <= CalculateScore(correctCount, wordCount, t1)
  {
    var w := wordCount as real;
    DivideMonotone(t1 as real, t2 as real, w);
    var accuracyScore := correctCount as real / w * 70.0;
    var s1 := MaxReal(0.0, 30.0 - (t1 as real / w - 10.0) * 2.0);
    var s2 := MaxReal(0.0, 30.0 - (t2 as real / w - 10.0) * 2.0);
    RoundMonotone(accuracyScore + s2, accuracyScore + s1);
  }

  /** Eight of ten in 80 seconds scores 90; all correct in no time scores 120. */
  lemma ScoreExamples()
    ensures CalculateScore(8, 10, 80) == 90
    ensures CalculateScore(10, 10, 0) == 120
    ensures CalculateScore(0, 10, 500) == 0
  {
    assert 8.0 / 10.0 == 0.8;
    assert 80.0 / 10.0 == 8.0;
    assert 10.0 / 10.0 == 1.0;
    assert 0.0 / 10.0 == 0.0;
    assert 500.0 / 10.0 == 50.0;
  }

  /** The four `ScoreStandard` bands. */
  datatype Band = Excellent | Good | Fair | Poor {
    function Min(): int {
      match this
      case Excellent => 90
      case Good => 75
      case Fair => 60
      case Poor => 0
    }

    function Label(): string {
      match this
      case Excellent => "优秀"
      case Good => "良好"
      case Fair => "一般"
      case Poor => "待加强"
    }

    function Description(): string {
      match this
      case Excellent => "记忆力超群，继续保持！"
      case Good => "掌握得不错，有待提高。"
      case Fair => "需要多加练习。"
      case Poor => "建议重新复习。"
    }
  }

  /** The band of a score: the highest one whose minimum it reaches. */
  function BandOf(score: int): (b: Band)
    ensures b == Poor || b.Min() <= score
    ensures forall c: Band :: c.Min() > b.Min() ==> score < c.Min()
  {
    if score >= Excellent.Min() then Excellent
    else if score >= Good.Min() then Good
    else if score >= Fair.Min() then Fair
    else Poor
  }

  /** `getEvaluation`: the description of the band the score falls in, thresholds inclusive. */
  function GetEvaluation(score: int): (e: string)
    ensures e == BandOf(score).Description()
  {
    if score >= Excellent.Min() then Excellent.Description()
    else if score >= Good.Min() then Good.Description()
    else if score >= Fair.Min() then Fair.Description()
    else Poor.Description()
  }

  /** Each band has its own description, so an evaluation names its band. */
  lemma DescriptionsDistinct(b: Band, c: Band)
    requires b != c
    ensures b.Description() != c.Description()
  {
    assert b.Description()[0] != c.Description()[0];
  }

  lemma EvaluationNamesBand(score: int, b: Band)
    ensures GetEvaluation(score) == b.Description() <==> BandOf(score) == b
  {
    if BandOf(score) != b {
      DescriptionsDistinct(BandOf(score), b);
    }
  }

  /** The thresholds are inclusive: 90 is excellent and 89 is good. */
  lemma EvaluationBoundaries()
    ensures BandOf(90) == Excellent && BandOf(89) == Good
    ensures BandOf(75) == Good && BandOf(74) == Fair
    ensures BandOf(60) == Fair && BandOf(59) == Poor
  {
  }

  datatype GameType = MatchGameType | SpellGameType

  datatype LearningRecord = LearningRecord(
    id: Option<int>,
    userId: string,
    gameType: GameType,
    wordCount: nat,
    correctCount: nat,
    timeSpent: nat,
    score: int,
    evaluation: string,
    timestamp: int)

  datatype Difficulty = Easy | Medium | Hard {
    /** The stored string, `'easy' | 'medium' | 'hard'`. */
    function Name(): string {
      match this
      case Easy => "easy"
      case Medium => "medium"
      case Hard => "hard"
    }
  }

  datatype WordbookEntry = WordbookEntry(
    id: Option<int>,
    userId: string,
    word: string,
    translation: string,
    difficulty: Difficulty,
    addedAt: int,
    lastReviewedAt: Option<int>,
    reviewCount: nat,
    mastered: bool)

  datatype SourceType = FileSource | ManualSource | RandomSource | TextbookSource | WebSource | PdfSource | OcrSource

  datatype ImportHistory = ImportHistory(
    id: Option<int>,
    userId: string,
    sourceType: SourceType,
    title: string,
    content: string,
    wordCount: nat,
    createdAt: int)

  /** An entry belongs to the given user and word. */
  predicate IsEntry(e: WordbookEntry, userId: string, word: string) {
    e.userId == userId && e.word == word
  }

  /** The test of `entries.findIndex(...)` for the (user, word) pair. */
  function EntryOf(userId: string, word: string): WordbookEntry -> bool {
    (e: WordbookEntry) => IsEntry(e, userId, word)
  }

  function FindEntry(entries: seq<WordbookEntry>, userId: string, word: string): Option<nat> {
    FindFirst(entries, EntryOf(userId, word))
  }

  /** No two entries share a (user, word) pair. */
  predicate UniqueEntries(entries: seq<WordbookEntry>) {
    forall i, j :: 0 <= i < j < |entries| ==> !(entries[i].userId == entries[j].userId && entries[i].word == entries[j].word)
  }

  /** The wordbook after `addToWordbook(entry)`. */
  function AddEntry(entries: seq<WordbookEntry>, entry: WordbookEntry, now: int): seq<WordbookEntry> {
    match FindEntry(entries, entry.userId, entry.word)
    case Some(i) => entries[i := entries[i].(translation := entry.translation, difficulty := entry.difficulty)]
    case None =>
      entries + [entry.(id := Some(now), addedAt := now, lastReviewedAt := None, reviewCount := 0, mastered := false)]
  }

  /**
   * Adding an existing pair changes only that entry's translation and
   * difficulty; its id, dates, review count and mastery stay.
   */
  lemma AddExisting(entries: seq<WordbookEntry>, entry: WordbookEntry, now: int, i: nat)
    requires FindEntry(entries, entry.userId, entry.word) == Some(i)
    ensures var r := AddEntry(entries, entry, now);
            |r| == |entries|
            && (forall j :: 0 <= j < |r| && j != i ==> r[j] == entries[j])
            && r[i].translation == entry.translation && r[i].difficulty == entry.difficulty
            && r[i].id == entries[i].id && r[i].userId == entries[i].userId && r[i].word == entries[i].word
            && r[i].addedAt == entries[i].addedAt && r[i].lastReviewedAt == entries[i].lastReviewedAt
            && r[i].reviewCount == entries[i].reviewCount && r[i].mastered == entries[i].mastered
  {
  }

  /** A new pair is appended, unreviewed and unmastered, after the unchanged entries. */
  lemma AddNew(entries: seq<WordbookEntry>, entry: WordbookEntry, now: int)
    requires FindEntry(entries, entry.userId, entry.word) == None
    ensures var r := AddEntry(entries, entry, now);
            |r| == |entries| + 1 && r[..|entries|] == entries
            && r[|entries|].userId == entry.userId && r[|entries|].word == entry.word
            && r[|entries|].translation == entry.translation && r[|entries|].difficulty == entry.difficulty
            && r[|entries|].reviewCount == 0 && !r[|entries|].mastered
            && r[|entries|].lastReviewedAt == None && r[|entries|].addedAt == now
  {
  }

  /** Adding keeps the (user, word) pairs unique and leaves the pair in the wordbook. */
  lemma AddKeepsUnique(entries: seq<WordbookEntry>, entry: WordbookEntry, now: int)
    requires UniqueEntries(entries)
    ensures UniqueEntries(AddEntry(entries, entry, now))
    ensures FindEntry(AddEntry(entries, entry, now), entry.userId, entry.word).Some?
  {
    var r := AddEntry(entries, entry, now);
    if FindEntry(entries, entry.userId, entry.word).None? {
      assert !IsEntry(r[|entries|], entry.userId, entry.word) ==> false;
    } else {
      assert forall j :: 0 <= j < |r| ==> r[j].userId == entries[j].userId && r[j].word == entries[j].word;
    }
  }

  /** The wordbook after `updateWordMastery(userId, word, mastered)`. */
  function MarkMastery(entries: seq<WordbookEntry>, userId: string, word: string, mastered: bool, now: int): seq<WordbookEntry> {
    match FindEntry(entries, userId, word)
    case Some(i) =>
      entries[i := entries[i].(mastered := mastered, lastReviewedAt := Some(now), reviewCount := entries[i].reviewCount + 1)]
    case None => entries
  }

  /**
   * Only the first entry of the pair changes: it takes the new mastery and
   * review date and its review count grows by exactly one.  Without such an
   * entry the wordbook is unchanged.
   */
  lemma MasteryUpdatesFirst(entries: seq<WordbookEntry>, userId: string, word: string, mastered: bool, now: int)
    ensures var r := MarkMastery(entries, userId, word, mastered, now);
            match FindEntry(entries, userId, word)
            case None => r == entries
            case Some(i) =>
              |r| == |entries|
              && (forall j :: 0 <= j < |r| && j != i ==> r[j] == entries[j])
              && r[i].mastered == mastered && r[i].lastReviewedAt == Some(now)
              && r[i].reviewCount == entries[i].reviewCount + 1
              && r[i].userId == userId && r[i].word == word && r[i].translation == entries[i].translation
              && r[i].difficulty == entries[i].difficulty && r[i].addedAt == entries[i].addedAt
  {
  }

  /** `!(e.userId === userId && e.word === word)`, the test `removeFromWordbook` keeps by. */
  function NotEntry(userId: string, word: string): WordbookEntry -> bool {
    (e: WordbookEntry) => !IsEntry(e, userId, word)
  }

  /**
   * `removeFromWordbook` leaves exactly the entries of other pairs, in
   * their order; removing again changes nothing.
   */
  lemma RemoveExact(entries: seq<WordbookEntry>, userId: string, word: string)
    ensures var r := Filter(entries, NotEntry(userId, word));
            Subseq(r, entries)
            && (forall e :: e in r <==> e in entries && !IsEntry(e, userId, word))
            && FindEntry(r, userId, word).None?
            && Filter(r, NotEntry(userId, word)) == r
  {
    FilterKeeps(entries, NotEntry(userId, word));
    FilterTwice(entries, NotEntry(userId, word));
    var r := Filter(entries, NotEntry(userId, word));
    forall j | 0 <= j < |r| ensures !IsEntry(r[j], userId, word) {
      assert r[j] in r;
    }
  }

  /** `h.id !== id`, the test `deleteHistory` keeps by. */
  function OtherId(id: int): ImportHistory -> bool {
    (h: ImportHistory) => h.id != Some(id)
  }

  /** `deleteHistory(id)` leaves exactly the histories with another id, in their order. */
  lemma DeleteExact(histories: seq<ImportHistory>, id: int)
    ensures var r := Filter(histories, OtherId(id));
            Subseq(r, histories)
            && (forall h :: h in r <==> h in histories && h.id != Some(id))
            && Filter(r, OtherId(id)) == r
  {
    FilterKeeps(histories, OtherId(id));
    FilterTwice(histories, OtherId(id));
  }

  /** The end `slice(0, limit)` stops at: a negative limit counts back from the end. */
  function SliceEnd(limit: int, n: nat): (e: nat)
    ensures e <= n
    ensures limit >= 0 ==> e == if limit < n then limit else n
    ensures limit < 0 ==> e == if n + limit > 0 then n + limit else 0
  {
    if limit >= 0 then (if limit < n then limit else n)
    else if n + limit > 0 then n + limit else 0
  }

  /** Number of histories from the given source. */
  function SourceCount(histories: seq<ImportHistory>, source: SourceType): (n: nat)
    ensures n <= |histories|
  {
    if histories == [] then 0
    else SourceCount(histories[..|histories| - 1], source) + (if histories[|histories| - 1].sourceType == source then 1 else 0)
  }

  /** The counts of the seven sources, added up. */
  function AllSourceCounts(histories: seq<ImportHistory>): nat {
    SourceCount(histories, FileSource) + SourceCount(histories, ManualSource) + SourceCount(histories, RandomSource)
    + SourceCount(histories, TextbookSource) + SourceCount(histories, WebSource) + SourceCount(histories, PdfSource)
    + SourceCount(histories, OcrSource)
  }

  /** Every history has exactly one source, so the source counts add up to the number of histories. */
  lemma {:induction false} SourceCountsTotal(histories: seq<ImportHistory>)
    ensures AllSourceCounts(histories) == |histories|
  {
    if histories != [] {
      SourceCountsTotal(histories[..|histories| - 1]);
    }
  }

  /** `histories.reduce((sum, h) => sum + h.word_count, 0)` */
  function TotalWords(histories: seq<ImportHistory>): nat {
    if histories == [] then 0 else TotalWords(histories[..|histories| - 1]) + histories[|histories| - 1].wordCount
  }

  /** The value `sourceDistribution[source] || 0` reads. */
  function CountOf(dist: map<SourceType, nat>, source: SourceType): nat {
    if source in dist then dist[source] else 0
  }

  /** The distribution's counts added up over the seven sources. */
  function DistributionTotal(dist: map<SourceType, nat>): nat {
    CountOf(dist, FileSource) + CountOf(dist, ManualSource) + CountOf(dist, RandomSource)
    + CountOf(dist, TextbookSource) + CountOf(dist, WebSource) + CountOf(dist, PdfSource)
    + CountOf(dist, OcrSource)
  }

  /** `getStatistics` without the clock-dependent recent activity. */
  datatype Statistics = Statistics(totalRecords: nat, totalWords: nat, sourceDistribution: map<SourceType, nat>)

  /** The user test and sort key of `getLearningRecords`. */
  function RecordOf(userId: string): LearningRecord -> bool {
    (r: LearningRecord) => r.userId == userId
  }

  function RecordTime(): LearningRecord -> int {
    (r: LearningRecord) => r.timestamp
  }

  /** The user test and sort key of `getWordbookEntries`. */
  function EntryOfUser(userId: string): WordbookEntry -> bool {
    (e: WordbookEntry) => e.userId == userId
  }

  function EntryTime(): WordbookEntry -> int {
    (e: WordbookEntry) => e.addedAt
  }

  /** The sort key of `getHistoryList`. */
  function HistoryTime(): ImportHistory -> int {
    (h: ImportHistory) => h.createdAt
  }

  /** The three stores, each the array `localStorage` holds under its key. */
  class Store {
    var records: seq<LearningRecord>
    var wordbook: seq<WordbookEntry>
    var histories: seq<ImportHistory>

    /** Empty storage, where every `getItem` gives null and so `[]`. */
    constructor ()
      ensures records == [] && wordbook == [] && histories == []
    {
      records := [];
      wordbook := [];
      histories := [];
    }

    /** `saveLearningRecord`: appends the record stamped with `now` and returns its id. */
    method SaveLearningRecord(record: LearningRecord, now: int) returns (id: int)
      modifies this
      ensures id == now
      ensures records == old(records) + [record.(id := Some(now), timestamp := now)]
      ensures wordbook == old(wordbook) && histories == old(histories)
    {
      var newRecord := record.(id := Some(now), timestamp := now);
      records := records + [newRecord];
      id := now;
    }

    /** `getLearningRecords`: the user's records, newest first. */
    method GetLearningRecords(userId: string) returns (rs: seq<LearningRecord>)
      ensures rs == NewestFirst(Filter(records, RecordOf(userId)), RecordTime())
      ensures Descending(rs, RecordTime())
      ensures forall r :: r in rs <==> r in records && r.userId == userId
    {
      rs := NewestFirst(Filter(records, RecordOf(userId)), RecordTime());
      NewestFirstOfFilter(records, RecordOf(userId), RecordTime());
    }

    /** `addToWordbook`. */
    method AddToWordbook(entry: WordbookEntry, now: int)
      modifies this
      ensures wordbook == AddEntry(old(wordbook), entry, now)
      ensures records == old(records) && histories == old(histories)
    {
      var existingIndex := FindEntry(wordbook, entry.userId, entry.word);
      if existingIndex.Some? {
        var i := existingIndex.value;
        wordbook := wordbook[i := wordbook[i].(translation := entry.translation, difficulty := entry.difficulty)];
      } else {
        wordbook := wordbook + [entry.(id := Some(now), addedAt := now, lastReviewedAt := None, reviewCount := 0, mastered := false)];
      }
    }

    /** `getWordbookEntries`: the user's entries, most recently added first. */
    method GetWordbookEntries(userId: string) returns (es: seq<WordbookEntry>)
      ensures es == NewestFirst(Filter(wordbook, EntryOfUser(userId)), EntryTime())
      ensures Descending(es, EntryTime())
      ensures forall e :: e in es <==> e in wordbook && e.userId == userId
    {
      es := NewestFirst(Filter(wordbook, EntryOfUser(userId)), EntryTime());
      NewestFirstOfFilter(wordbook, EntryOfUser(userId), EntryTime());
    }

    /** `updateWordMastery`. */
    method UpdateWordMastery(userId: string, word: string, mastered: bool, now: int)
      modifies this
      ensures wordbook == MarkMastery(old(wordbook), userId, word, mastered, now)
      ensures records == old(records) && histories == old(histories)
    {
      var entryIndex := FindEntry(wordbook, userId, word);
      if entryIndex.Some? {
        var i := entryIndex.value;
        wordbook := wordbook[i := wordbook[i].(mastered := mastered, lastReviewedAt := Some(now), reviewCount := wordbook[i].reviewCount + 1)];
      }
    }

    /** `removeFromWordbook`. */
    method RemoveFromWordbook(userId: string, word: string)
      modifies this
      ensures wordbook == Filter(old(wordbook), NotEntry(userId, word))
      ensures records == old(records) && histories == old(histories)
    {
      wordbook := Filter(wordbook, NotEntry(userId, word));
    }

    /** `saveHistory`: appends the history stamped with `now` and returns its id. */
    method SaveHistory(history: ImportHistory, now: int) returns (id: int)
      modifies this
      ensures id == now
      ensures histories == old(histories) + [history.(id := Some(now), createdAt := now)]
      ensures records == old(records) && wordbook == old(wordbook)
    {
      var newHistory := history.(id := Some(now), createdAt := now);
      histories := histories + [newHistory];
      id := now;
    }

    /** `getHistoryList(limit)`: the first `limit` histories, newest first. */
    method GetHistoryList(limit: int) returns (hs: seq<ImportHistory>)
      ensures var sorted := NewestFirst(histories, HistoryTime());
              hs == sorted[..SliceEnd(limit, |histories|)]
      ensures limit >= 0 ==> |hs| == if limit < |histories| then limit else |histories|
      ensures Descending(hs, HistoryTime())
      ensures forall h :: h in hs ==> h in histories
      ensures limit >= |histories| ==> multiset(hs) == multiset(histories)
    {
      var sorted := NewestFirst(histories, HistoryTime());
      NewestFirstSorted(histories, HistoryTime());
      hs := sorted[..SliceEnd(limit, |histories|)];
      forall h | h in hs ensures h in histories {
        assert h in multiset(sorted);
      }
      assert limit >= |histories| ==> hs == sorted;
    }

    /** `deleteHistory(id)`: always reports success. */
    method DeleteHistory(id: int) returns (ok: bool)
      modifies this
      ensures ok
      ensures histories == Filter(old(histories), OtherId(id))
      ensures records == old(records) && wordbook == old(wordbook)
    {
      histories := Filter(histories, OtherId(id));
      ok := true;
    }

    /**
     * `getStatistics`: the number of histories, their words, and how many
     * came from each source; the distribution holds only sources that
     * occur, and its counts add up to the number of histories.
     */
    method GetStatistics() returns (stats: Statistics)
      ensures stats.totalRecords == |histories|
      ensures stats.totalWords == TotalWords(histories)
      ensures forall s :: s in stats.sourceDistribution <==> SourceCount(histories, s) > 0
      ensures forall s :: CountOf(stats.sourceDistribution, s) == SourceCount(histories, s)
      ensures DistributionTotal(stats.sourceDistribution) == stats.totalRecords
    {
      var totalRecords := |histories|;
      var totalWords := TotalWords(histories);
      var sourceDistribution: map<SourceType, nat> := map[];
      for i := 0 to |histories|
        invariant forall s :: s in sourceDistribution <==> SourceCount(histories[..i], s) > 0
        invariant forall s :: CountOf(sourceDistribution, s) == SourceCount(histories[..i], s)
      {
        var h := histories[i];
        assert histories[..i + 1][..i] == histories[..i];
        sourceDistribution := sourceDistribution[h.sourceType := CountOf(sourceDistribution, h.sourceType) + 1];
      }
      assert histories[..|histories|] == histories;
      SourceCountsTotal(histories);
      stats := Statistics(totalRecords, totalWords, sourceDistribution);
    }
  }
}
