/**
 * `components/SpellGame.tsx`: the spelling game's progress, score, attempts
 * and difficult words, the check, skip and delayed-resolve handlers, and
 * what the game hands to the store when it ends.
 *
 * `checkAnswer` schedules a timer whose body reads the state of the render
 * that ran the check, as does the `nextWord` it calls; that captured state
 * is a `Pending` value and `Resolve` runs it.  `Date.now()` is the `now`
 * parameter.
 */
module SpellGame {
  import opened Wrappers
  import opened Seqs
  import opened Text
  import opened Types
  import opened Database

  /** `userInput.trim().toLowerCase() === currentWord.english.toLowerCase()` */
  predicate IsCorrect(input: string, english: string) {
    ToLower(Trim(input)) == ToLower(english)
  }

  /** Case and surrounding white space of the typed text do not matter. */
  lemma PaddedAnswerCorrect(pre: string, typed: string, post: string, english: string)
    requires AllSpace(pre) && AllSpace(post)
    requires typed == [] || (!IsSpace(typed[0]) && !IsSpace(typed[|typed| - 1]))
    requires ToLower(typed) == ToLower(english)
    ensures IsCorrect(pre + typed + post, english)
  {
    TrimOfPadded(pre, typed, post);
  }

  /** Typing a word that neither starts nor ends with white space exactly is a right answer. */
  lemma ExactAnswerCorrect(english: string)
    requires english != [] && !IsSpace(english[0]) && !IsSpace(english[|english| - 1])
    ensures IsCorrect(english, english)
  {
    PaddedAnswerCorrect([], english, [], english);
    assert [] + english + [] == english;
  }

  /** The english text itself is not trimmed, so one ending in white space can never be answered. */
  lemma UntrimmedNeverCorrect(input: string, english: string)
    requires english != [] && IsSpace(english[|english| - 1])
    ensures !IsCorrect(input, english)
  {
    var t := Trim(input);
    TrimmedEnds(input);
    if IsCorrect(input, english) {
      assert |t| == |english|;
      LowerKeepsSpace(t[|t| - 1]);
      LowerKeepsSpace(english[|english| - 1]);
    }
  }

  /** No id occurs twice: each is absent from the ids before it. */
  predicate NoRepeats(s: seq<string>) {
    s == [] || (s[|s| - 1] !in s[..|s| - 1] && NoRepeats(s[..|s| - 1]))
  }

  /** `if (!difficultWords.includes(id)) setDifficultWords([...difficultWords, id])` */
  function AddDifficult(difficult: seq<string>, id: string): seq<string> {
    if id in difficult then difficult else difficult + [id]
  }

  /** The id is recorded, and nothing else is added or lost. */
  lemma AddDifficultKeeps(difficult: seq<string>, id: string)
    ensures var r := AddDifficult(difficult, id);
            id in r && (forall x :: x in difficult ==> x in r)
            && (forall x :: x in r ==> x in difficult || x == id)
  {
  }

  /** Recording an id never makes one occur twice. */
  lemma AddDifficultNoRepeats(difficult: seq<string>, id: string)
    requires NoRepeats(difficult)
    ensures NoRepeats(AddDifficult(difficult, id))
  {
    if id !in difficult {
      assert (difficult + [id])[..|difficult|] == difficult;
    }
  }

  /** The retry test of the timer, on the attempts counted before this check. */
  predicate Advances(correct: bool, attemptsBefore: nat) {
    correct || attemptsBefore >= 2
  }

  /** `word.chinese || ''` */
  function Translation(w: Word): string {
    if w.chinese.Some? then w.chinese.value else ""
  }

  /** The wordbook entry saved for a difficult word. */
  function HardEntry(w: Word, userId: string, now: int): WordbookEntry {
    WordbookEntry(None, userId, w.english, Translation(w), Hard, now, None, 0, false)
  }

  /** `w => w.id === wordId` */
  function WordIs(wordId: string): Word -> bool {
    (w: Word) => w.id == wordId
  }

  /** The entries for the difficult ids, in order, one per id that names a word. */
  function Additions(words: seq<Word>, userId: string, ids: seq<string>, now: int): (r: seq<WordbookEntry>)
    ensures |r| <= |ids|
  {
    if ids == [] then []
    else
      Additions(words, userId, ids[..|ids| - 1], now)
      + match FindFirst(words, WordIs(ids[|ids| - 1]))
        case Some(j) => [HardEntry(words[j], userId, now)]
        case None => []
  }

  /**
   * Every saved entry is a fresh `hard` entry of the user for the english
   * and translation of a listed word; when every id names a word there is
   * exactly one entry per id.
   */
  lemma {:induction false} AdditionsShape(words: seq<Word>, userId: string, ids: seq<string>, now: int)
    ensures forall e :: e in Additions(words, userId, ids, now) ==>
              e.difficulty == Hard && e.userId == userId && !e.mastered && e.reviewCount == 0
              && e.lastReviewedAt == None && e.addedAt == now
              && exists w :: w in words && w.id in ids && e.word == w.english && e.translation == Translation(w)
    ensures (forall id :: id in ids ==> exists w :: w in words && w.id == id) ==> |Additions(words, userId, ids, now)| == |ids|
  {
    if ids != [] {
      var init := ids[..|ids| - 1];
      AdditionsShape(words, userId, init, now);
      assert forall id :: id in init ==> id in ids;
      var found := FindFirst(words, WordIs(ids[|ids| - 1]));
      if found.Some? {
        assert words[found.value].id == ids[|ids| - 1];
      }
      if forall id :: id in ids ==> exists w :: w in words && w.id == id {
        assert ids[|ids| - 1] in ids;
        FindNamed(words, ids[|ids| - 1]);
      }
    }
  }

  lemma FindNamed(words: seq<Word>, id: string)
    requires exists w :: w in words && w.id == id
    ensures FindFirst(words, WordIs(id)).Some?
  {
    var w :| w in words && w.id == id;
    var j :| 0 <= j < |words| && words[j] == w;
    assert WordIs(id)(words[j]);
  }

  /** What the game hands to the store when it ends: one learning record and the wordbook entries. */
  datatype Completion = Completion(record: LearningRecord, additions: seq<WordbookEntry>)

  /** The `spell` record of a finished round: every word counts, with the score and time given. */
  function SpellRecord(words: seq<Word>, userId: string, correct: nat, timeSpent: nat, now: int): LearningRecord
    requires |words| > 0
  {
    var finalScore := CalculateScore(correct, |words|, timeSpent);
    LearningRecord(None, userId, SpellGameType, |words|, correct, timeSpent, finalScore, GetEvaluation(finalScore), now)
  }

  /** `Math.floor((Date.now() - startTime) / 1000)`: whole seconds since the start. */
  function TimeSpent(startTime: int, now: int): (t: nat)
    requires startTime <= now
    ensures 1000 * t <= now - startTime < 1000 * (t + 1)
  {
    (now - startTime) / 1000
  }

  /**
   * `saveLearningRecord`, run with the score and difficult words of the
   * render that called it: the record, then for each difficult id the word
   * with that id, if any, as a `hard` entry.
   */
  method SaveLearningRecord(words: seq<Word>, userId: string, startTime: int, scoreSeen: nat, difficultSeen: seq<string>, now: int)
    returns (c: Completion)
    requires |words| > 0 && startTime <= now
    ensures c.record == SpellRecord(words, userId, scoreSeen, TimeSpent(startTime, now), now)
    ensures c.additions == Additions(words, userId, difficultSeen, now)
  {
    var timeSpent := TimeSpent(startTime, now);
    var record := SpellRecord(words, userId, scoreSeen, timeSpent, now);
    var entries: seq<WordbookEntry> := [];
    for i := 0 to |difficultSeen|
      invariant entries == Additions(words, userId, difficultSeen[..i], now)
    {
      assert difficultSeen[..i + 1][..i] == difficultSeen[..i];
      var word := FindFirst(words, WordIs(difficultSeen[i]));
      if word.Some? {
        entries := entries + [HardEntry(words[word.value], userId, now)];
      }
    }
    assert difficultSeen[..|difficultSeen|] == difficultSeen;
    c := Completion(record, entries);
  }

  /** The timer of one check: its outcome and the state of the render that ran it. */
  datatype Pending = Pending(correct: bool, attemptsBefore: nat, index: nat, scoreSeen: nat, difficultSeen: seq<string>)

  class Game {
    const words: seq<Word>
    const userId: string
    const startTime: int
    var currentIndex: nat
    var userInput: string
    var showFeedback: bool
    var isCorrect: bool
    var score: nat
    var attempts: nat
    var gameComplete: bool
    var difficultWords: seq<string>
    /** The timers scheduled and not yet run. */
    var pending: seq<Pending>
    /** What each run of `saveLearningRecord` handed to the store, in order. */
    var saved: seq<Completion>

    /** The index names a word, and the difficult list never repeats an id. */
    ghost predicate Valid()
      reads this
    {
      |words| > 0 && currentIndex < |words| && NoRepeats(difficultWords)
    }

    constructor (words: seq<Word>, userId: string, startTime: int)
      requires |words| > 0
      ensures Valid()
      ensures this.words == words && this.userId == userId && this.startTime == startTime
      ensures currentIndex == 0 && userInput == [] && !showFeedback && !isCorrect && score == 0 && attempts == 0
      ensures !gameComplete && difficultWords == [] && pending == [] && saved == []
    {
      this.words, this.userId, this.startTime := words, userId, startTime;
      currentIndex, userInput, showFeedback, isCorrect, score, attempts := 0, [], false, false, 0, 0;
      gameComplete, difficultWords, pending, saved := false, [], [], [];
    }

    /** The input box's `onChange`. */
    method SetUserInput(text: string)
      modifies this
      ensures userInput == text
      ensures currentIndex == old(currentIndex) && showFeedback == old(showFeedback) && isCorrect == old(isCorrect)
      ensures score == old(score) && attempts == old(attempts) && gameComplete == old(gameComplete)
      ensures difficultWords == old(difficultWords) && pending == old(pending) && saved == old(saved)
    {
      userInput := text;
    }

    /**
     * `checkAnswer`: shows the feedback and counts the attempt; a right
     * answer scores a point, a wrong one records the word as difficult; the
     * timer keeps this render's attempts, index, score and difficult list.
     */
    method CheckAnswer()
      requires Valid()
      modifies this
      ensures Valid()
      ensures isCorrect == IsCorrect(userInput, words[currentIndex].english)
      ensures showFeedback && attempts == old(attempts) + 1
      ensures score == (if isCorrect then old(score) + 1 else old(score))
      ensures difficultWords == (if isCorrect then old(difficultWords) else AddDifficult(old(difficultWords), words[currentIndex].id))
      ensures pending == old(pending) + [Pending(isCorrect, old(attempts), currentIndex, old(score), old(difficultWords))]
      ensures currentIndex == old(currentIndex) && userInput == old(userInput) && gameComplete == old(gameComplete)
      ensures saved == old(saved)
    {
      var correct := IsCorrect(userInput, words[currentIndex].english);
      RecordOutcome(correct);
    }

    /** The state changes of `checkAnswer` once the comparison has given `correct`. */
    method RecordOutcome(correct: bool)
      requires Valid()
      modifies this
      ensures Valid()
      ensures isCorrect == correct && showFeedback && attempts == old(attempts) + 1
      ensures score == (if correct then old(score) + 1 else old(score))
      ensures difficultWords == (if correct then old(difficultWords) else AddDifficult(old(difficultWords), words[currentIndex].id))
      ensures pending == old(pending) + [Pending(correct, old(attempts), currentIndex, old(score), old(difficultWords))]
      ensures currentIndex == old(currentIndex) && userInput == old(userInput) && gameComplete == old(gameComplete)
      ensures saved == old(saved)
    {
      var id := words[currentIndex].id;
      AddDifficultNoRepeats(difficultWords, id);
      var newScore := if correct then score + 1 else score;
      var newDifficult := if correct then difficultWords else AddDifficult(difficultWords, id);
      var timer := Pending(correct, attempts, currentIndex, score, difficultWords);
      isCorrect, showFeedback, attempts, score, difficultWords, pending :=
        correct, true, attempts + 1, newScore, newDifficult, pending + [timer];
    }

    /**
     * `nextWord` as the render with that index, score and difficult list
     * defined it: before the last word, the next word with a clean input,
     * no feedback and no attempts; on the last word, the game ends and the
     * record is saved with that render's score and difficult list.
     */
    method NextWordFrom(index: nat, scoreSeen: nat, difficultSeen: seq<string>, now: int)
      requires Valid() && startTime <= now
      modifies this
      ensures Valid()
      ensures index < |words| - 1 ==>
                currentIndex == index + 1 && userInput == [] && !showFeedback && attempts == 0
                && gameComplete == old(gameComplete) && saved == old(saved)
      ensures index >= |words| - 1 ==>
                gameComplete && currentIndex == old(currentIndex) && userInput == old(userInput)
                && showFeedback == old(showFeedback) && attempts == old(attempts)
                && saved == old(saved) + [Completion(SpellRecord(words, userId, scoreSeen, TimeSpent(startTime, now), now),
                                                     Additions(words, userId, difficultSeen, now))]
      ensures score == old(score) && isCorrect == old(isCorrect) && difficultWords == old(difficultWords)
      ensures pending == old(pending)
    {
      if index < |words| - 1 {
        currentIndex, userInput, showFeedback, attempts := index + 1, [], false, 0;
      } else {
        gameComplete := true;
        var c := SaveLearningRecord(words, userId, startTime, scoreSeen, difficultSeen, now);
        saved := saved + [c];
      }
    }

    /**
     * One check's timer runs: after a right answer or a third attempt, that
     * render's `nextWord`; otherwise the feedback goes and the input is
     * cleared for another try.
     */
    method Resolve(k: nat, now: int)
      requires Valid() && k < |pending| && startTime <= now
      modifies this
      ensures Valid()
      ensures var p := old(pending[k]);
              !Advances(p.correct, p.attemptsBefore) ==>
                !showFeedback && userInput == [] && currentIndex == old(currentIndex) && attempts == old(attempts)
                && gameComplete == old(gameComplete) && saved == old(saved)
      ensures var p := old(pending[k]);
              Advances(p.correct, p.attemptsBefore) && p.index < |words| - 1 ==>
                currentIndex == p.index + 1 && userInput == [] && !showFeedback && attempts == 0
                && gameComplete == old(gameComplete) && saved == old(saved)
      ensures var p := old(pending[k]);
              Advances(p.correct, p.attemptsBefore) && p.index >= |words| - 1 ==>
                gameComplete && currentIndex == old(currentIndex)
                && saved == old(saved) + [Completion(SpellRecord(words, userId, p.scoreSeen, TimeSpent(startTime, now), now),
                                                     Additions(words, userId, p.difficultSeen, now))]
      ensures pending == old(pending[..k] + pending[k + 1..])
      ensures score == old(score) && isCorrect == old(isCorrect) && difficultWords == old(difficultWords)
    {
      var p := pending[k];
      var rest := pending[..k] + pending[k + 1..];
      pending := rest;
      if Advances(p.correct, p.attemptsBefore) {
        NextWordFrom(p.index, p.scoreSeen, p.difficultSeen, now);
      } else {
        showFeedback, userInput := false, [];
      }
    }

    /**
     * `skipWord`: records the word as difficult, no point, and moves on at
     * once by this render's `nextWord`, whose record does not yet hold the
     * skipped word.
     */
    method SkipWord(now: int)
      requires Valid() && startTime <= now
      modifies this
      ensures Valid()
      ensures difficultWords == AddDifficult(old(difficultWords), words[old(currentIndex)].id)
      ensures score == old(score) && pending == old(pending)
      ensures old(currentIndex) < |words| - 1 ==>
                currentIndex == old(currentIndex) + 1 && userInput == [] && !showFeedback && attempts == 0
                && saved == old(saved)
      ensures old(currentIndex) == |words| - 1 ==>
                gameComplete && currentIndex == old(currentIndex)
                && saved == old(saved) + [Completion(SpellRecord(words, userId, old(score), TimeSpent(startTime, now), now),
                                                     Additions(words, userId, old(difficultWords), now))]
    {
      var index, scoreSeen, difficultSeen := currentIndex, score, difficultWords;
      AddDifficultNoRepeats(difficultWords, words[currentIndex].id);
      difficultWords := AddDifficult(difficultWords, words[currentIndex].id);
      NextWordFrom(index, scoreSeen, difficultSeen, now);
    }

    /** The check button is enabled for non-blank input while no feedback shows. */
    predicate CheckEnabled()
      reads this
    {
      Trim(userInput) != [] && !showFeedback
    }

    /** The skip button is enabled while no feedback shows. */
    predicate SkipEnabled()
      reads this
    {
      !showFeedback
    }

    /** `handleKeyPress`: Enter checks the answer when the check button would be enabled, and nothing else happens. */
    method HandleKeyPress(key: string)
      requires Valid()
      modifies this
      ensures Valid()
      ensures !(key == "Enter" && old(CheckEnabled())) ==>
                userInput == old(userInput) && showFeedback == old(showFeedback) && score == old(score)
                && attempts == old(attempts) && difficultWords == old(difficultWords) && pending == old(pending)
      ensures key == "Enter" && old(CheckEnabled()) ==>
                showFeedback && attempts == old(attempts) + 1 && |pending| == |old(pending)| + 1
      ensures currentIndex == old(currentIndex) && gameComplete == old(gameComplete) && saved == old(saved)
    {
      if key == "Enter" && Trim(userInput) != [] && !showFeedback {
        CheckAnswer();
      }
    }
  }

  /** A wrong answer to the current word with no other timer running, then its timer. */
  method MissAndWait(g: Game, wrong: string, now: int)
    requires g.Valid() && g.pending == [] && g.startTime <= now
    requires !IsCorrect(wrong, g.words[g.currentIndex].english)
    modifies g
    ensures g.Valid() && g.pending == [] && g.score == old(g.score)
    ensures g.difficultWords == AddDifficult(old(g.difficultWords), g.words[old(g.currentIndex)].id)
    ensures old(g.attempts) < 2 ==> g.currentIndex == old(g.currentIndex) && g.attempts == old(g.attempts) + 1
    ensures old(g.attempts) >= 2 && old(g.currentIndex) < |g.words| - 1 ==>
              g.currentIndex == old(g.currentIndex) + 1 && g.attempts == 0
  {
    g.SetUserInput(wrong);
    g.CheckAnswer();
    assert !g.isCorrect && g.pending == [Pending(false, old(g.attempts), old(g.currentIndex), old(g.score), old(g.difficultWords))];
    g.Resolve(0, now);
  }

  /**
   * Three wrong answers to the first of several words: the first two keep
   * the word for another try and the third moves on.
   */
  method ThirdMissAdvances(words: seq<Word>, userId: string, startTime: int, now: int, wrong: string)
    returns (afterFirst: nat, afterSecond: nat, afterThird: nat, difficult: seq<string>)
    requires |words| >= 2 && startTime <= now && !IsCorrect(wrong, words[0].english)
    ensures afterFirst == 0 && afterSecond == 0 && afterThird == 1
    ensures difficult == [words[0].id]
  {
    var g := new Game(words, userId, startTime);
    MissAndWait(g, wrong, now);
    afterFirst := g.currentIndex;
    MissAndWait(g, wrong, now);
    afterSecond := g.currentIndex;
    MissAndWait(g, wrong, now);
    afterThird := g.currentIndex;
    difficult := g.difficultWords;
  }

  /** A right answer to the current word with no other timer running, then its timer. */
  method HitAndWait(g: Game, answer: string, now: int)
    requires g.Valid() && g.pending == [] && g.startTime <= now
    requires IsCorrect(answer, g.words[g.currentIndex].english)
    modifies g
    ensures g.Valid() && g.pending == [] && g.score == old(g.score) + 1
    ensures g.difficultWords == old(g.difficultWords)
    ensures old(g.currentIndex) < |g.words| - 1 ==>
              g.currentIndex == old(g.currentIndex) + 1 && g.attempts == 0 && g.saved == old(g.saved)
    ensures old(g.currentIndex) == |g.words| - 1 ==>
              g.gameComplete
              && g.saved == old(g.saved) + [Completion(SpellRecord(g.words, g.userId, old(g.score), TimeSpent(g.startTime, now), now),
                                                       Additions(g.words, g.userId, old(g.difficultWords), now))]
  {
    g.SetUserInput(answer);
    g.CheckAnswer();
    assert g.isCorrect && g.pending == [Pending(true, old(g.attempts), old(g.currentIndex), old(g.score), old(g.difficultWords))];
    g.Resolve(0, now);
  }

  /**
   * A one-word round answered right: the screen's score is 1 but the record
   * saved holds 0 correct, because the saving render predates the point.
   */
  method LastPointNotRecorded(w: Word, userId: string, startTime: int, now: int)
    returns (shown: nat, recorded: nat)
    requires startTime <= now && w.english != [] && !IsSpace(w.english[0]) && !IsSpace(w.english[|w.english| - 1])
    ensures shown == 1 && recorded == 0
  {
    ExactAnswerCorrect(w.english);
    var g := new Game([w], userId, startTime);
    HitAndWait(g, w.english, now);
    shown := g.score;
    recorded := g.saved[0].record.correctCount;
  }
}
