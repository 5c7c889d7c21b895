/**
 * `components/MatchGame.tsx`: the matching game's cards and the click,
 * delayed-resolve and reset handlers that update them.
 *
 * The click that selects a second card schedules a timer whose body reads
 * the state of that click's render: that body is a `Pending` value, and the
 * `Resolve` method runs one of them.  The shuffle is the permutation
 * parameter of the deal.
 */
module MatchGame {
  import opened Wrappers
  import opened Seqs
  import opened Types

  datatype Side = English | Chinese

  datatype GameCard = GameCard(id: string, wordId: string, content: string, side: Side, isFlipped: bool, isMatched: bool)

  /** `word.chinese || word.english`: an absent or empty translation shows the english text. */
  function ChineseText(w: Word): string {
    if w.chinese.Some? && w.chinese.value != [] then w.chinese.value else w.english
  }

  function EnglishCard(w: Word, faceUp: bool): GameCard {
    GameCard("en-" + w.id, w.id, w.english, English, faceUp, false)
  }

  function ChineseCard(w: Word, faceUp: bool): GameCard {
    GameCard("ch-" + w.id, w.id, ChineseText(w), Chinese, faceUp, false)
  }

  /** The cards pushed for the words, an english one then a chinese one for each. */
  function Pairs(ws: seq<Word>, faceUp: bool): (r: seq<GameCard>)
    ensures |r| == 2 * |ws|
  {
    if ws == [] then [] else Pairs(ws[..|ws| - 1], faceUp) + [EnglishCard(ws[|ws| - 1], faceUp), ChineseCard(ws[|ws| - 1], faceUp)]
  }

  /** The unshuffled deal of the first eight words: face-up in visual mode, face-down in memory mode. */
  function Deal(words: seq<Word>, faceUp: bool): (r: seq<GameCard>)
    ensures |r| == DeckSize(words)
  {
    Pairs(Take(words, 8), faceUp)
  }

  /** `words.slice(0, 8).length`, the number of pairs. */
  function PairCount(words: seq<Word>): (n: nat)
    ensures n <= 8 && n <= |words| && (n == 8 || n == |words|)
  {
    |Take(words, 8)|
  }

  function DeckSize(words: seq<Word>): nat {
    2 * PairCount(words)
  }

  lemma {:induction false} PairsAt(ws: seq<Word>, faceUp: bool, i: nat)
    requires i < |ws|
    ensures Pairs(ws, faceUp)[2 * i] == EnglishCard(ws[i], faceUp)
    ensures Pairs(ws, faceUp)[2 * i + 1] == ChineseCard(ws[i], faceUp)
  {
    var init := ws[..|ws| - 1];
    if i < |init| {
      PairsAt(init, faceUp, i);
      assert init[i] == ws[i];
    }
  }

  /**
   * The deal holds, for each of the first `min(8, n)` words, its english
   * card at an even place and its chinese card right after.
   */
  lemma DealShape(words: seq<Word>, faceUp: bool)
    ensures |Deal(words, faceUp)| == 2 * PairCount(words)
    ensures forall i :: 0 <= i < PairCount(words) ==>
              Deal(words, faceUp)[2 * i] == EnglishCard(words[i], faceUp)
              && Deal(words, faceUp)[2 * i + 1] == ChineseCard(words[i], faceUp)
  {
    var ws := Take(words, 8);
    forall i | 0 <= i < PairCount(words)
      ensures Deal(words, faceUp)[2 * i] == EnglishCard(words[i], faceUp)
      ensures Deal(words, faceUp)[2 * i + 1] == ChineseCard(words[i], faceUp)
    {
      PairsAt(ws, faceUp, i);
      assert ws[i] == words[i];
    }
  }

  /** Every dealt card is unmatched and faces up exactly in visual mode. */
  lemma DealFaces(words: seq<Word>, faceUp: bool)
    ensures forall k :: 0 <= k < |Deal(words, faceUp)| ==>
              !Deal(words, faceUp)[k].isMatched && Deal(words, faceUp)[k].isFlipped == faceUp
  {
    var d := Deal(words, faceUp);
    forall k | 0 <= k < |d|
      ensures !d[k].isMatched && d[k].isFlipped == faceUp
    {
      PairsAt(Take(words, 8), faceUp, k / 2);
    }
  }

  /** `wordsToUse.forEach(word => { gameCards.push(english card); gameCards.push(chinese card) })` */
  method PushPairs(wordsToUse: seq<Word>, faceUp: bool) returns (gameCards: seq<GameCard>)
    ensures gameCards == Pairs(wordsToUse, faceUp)
  {
    gameCards := [];
    for i := 0 to |wordsToUse|
      invariant gameCards == Pairs(wordsToUse[..i], faceUp)
    {
      assert wordsToUse[..i + 1][..i] == wordsToUse[..i];
      gameCards := gameCards + [EnglishCard(wordsToUse[i], faceUp), ChineseCard(wordsToUse[i], faceUp)];
    }
    assert wordsToUse[..|wordsToUse|] == wordsToUse;
  }

  /** The card ids, in order. */
  function Ids(cards: seq<GameCard>): seq<string> {
    seq(|cards|, i requires 0 <= i < |cards| => cards[i].id)
  }

  /** The ids of the deal do not depend on the mode. */
  lemma DealIds(words: seq<Word>, faceUp: bool)
    ensures Ids(Deal(words, faceUp)) == Ids(Deal(words, false))
  {
    var ws := Take(words, 8);
    forall k | 0 <= k < DeckSize(words)
      ensures Deal(words, faceUp)[k].id == Deal(words, false)[k].id
    {
      PairsAt(ws, faceUp, k / 2);
      PairsAt(ws, false, k / 2);
    }
  }

  /** A shuffled deal holds the deal's cards and no others, each once, still unmatched and facing the same way. */
  lemma ShuffledDeal(words: seq<Word>, faceUp: bool, perm: seq<nat>)
    requires IsPermutation(perm, DeckSize(words))
    ensures multiset(Permute(Deal(words, faceUp), perm)) == multiset(Deal(words, faceUp))
    ensures forall k :: 0 <= k < DeckSize(words) ==>
              !Permute(Deal(words, faceUp), perm)[k].isMatched
              && Permute(Deal(words, faceUp), perm)[k].isFlipped == faceUp
    ensures SameDeck(Permute(Deal(words, faceUp), perm), DeckIds(words))
  {
    var d := Deal(words, faceUp);
    DealFaces(words, faceUp);
    PermuteMultiset(d, perm);
    assert Ids(Permute(d, perm)) == Permute(Ids(d), perm);
    PermuteMultiset(Ids(d), perm);
    DealIds(words, faceUp);
  }

  /** The ids of the deal, each as often as it is dealt; the same in either mode. */
  ghost function DeckIds(words: seq<Word>): multiset<string> {
    multiset(Ids(Deal(words, false)))
  }

  /** The cards carry the ids of `deck`, each as often. */
  ghost predicate SameDeck(cards: seq<GameCard>, deck: multiset<string>) {
    multiset(Ids(cards)) == deck
  }

  /** `c => c.id === cardId` */
  function CardIs(cardId: string): GameCard -> bool {
    (c: GameCard) => c.id == cardId
  }

  /** `cards.map(c => c.id === cardId ? { ...c, isFlipped: true } : c)` */
  function FlipUp(cards: seq<GameCard>, cardId: string): (r: seq<GameCard>)
    ensures Ids(r) == Ids(cards)
  {
    seq(|cards|, i requires 0 <= i < |cards| => if cards[i].id == cardId then cards[i].(isFlipped := true) else cards[i])
  }

  /** `cards.map(c => c.wordId === wordId ? { ...c, isMatched: true } : c)` */
  function MarkMatched(cards: seq<GameCard>, wordId: string): (r: seq<GameCard>)
    ensures Ids(r) == Ids(cards)
  {
    seq(|cards|, i requires 0 <= i < |cards| => if cards[i].wordId == wordId then cards[i].(isMatched := true) else cards[i])
  }

  /** `cards.map(c => selectedIds.includes(c.id) ? { ...c, isFlipped: false } : c)` */
  function FlipDown(cards: seq<GameCard>, firstId: string, secondId: string): (r: seq<GameCard>)
    ensures Ids(r) == Ids(cards)
  {
    seq(|cards|, i requires 0 <= i < |cards| =>
      if cards[i].id == firstId || cards[i].id == secondId then cards[i].(isFlipped := false) else cards[i])
  }

  /** The two chosen ids and the state of the render that chose them, as `checkForMatch` sees them. */
  datatype Choice = Choice(firstId: string, secondId: string, cards: seq<GameCard>, matchedPairs: seq<string>, visual: bool)

  /** Both ids name cards of the captured list, of one word, and are two different cards. */
  predicate IsMatch(c: Choice) {
    var first := FindFirst(c.cards, CardIs(c.firstId));
    var second := FindFirst(c.cards, CardIs(c.secondId));
    first.Some? && second.Some? && c.cards[first.value].wordId == c.cards[second.value].wordId
    && c.firstId != c.secondId
  }

  /** `firstCard.wordId` */
  function MatchedWord(c: Choice): string
    requires IsMatch(c)
  {
    c.cards[FindFirst(c.cards, CardIs(c.firstId)).value].wordId
  }

  /** Choosing one card twice, which only visual mode allows, is never a match. */
  lemma SameCardNoMatch(c: Choice)
    requires c.firstId == c.secondId
    ensures !IsMatch(c)
  {
  }

  /**
   * On a match both chosen cards end up matched; every card of that word is
   * marked, no card of another word changes, and nothing but the matched
   * flag changes.
   */
  lemma MatchMarksPair(c: Choice)
    requires IsMatch(c)
    ensures var r := MarkMatched(c.cards, MatchedWord(c));
            |r| == |c.cards|
            && r[FindFirst(c.cards, CardIs(c.firstId)).value].isMatched
            && r[FindFirst(c.cards, CardIs(c.secondId)).value].isMatched
            && (forall i :: 0 <= i < |r| ==> (r[i].isMatched <==> c.cards[i].isMatched || c.cards[i].wordId == MatchedWord(c)))
            && (forall i :: 0 <= i < |r| ==> r[i].(isMatched := c.cards[i].isMatched) == c.cards[i])
  {
  }

  /**
   * In memory mode the second card was face-down in the captured list (the
   * click's guard demands it), so the match leaves it matched but still
   * face-down: the flip of the second click is overwritten.
   */
  lemma MemoryMatchLeavesSecondDown(c: Choice)
    requires IsMatch(c)
    requires !c.cards[FindFirst(c.cards, CardIs(c.secondId)).value].isFlipped
    ensures var j := FindFirst(c.cards, CardIs(c.secondId)).value;
            MarkMatched(c.cards, MatchedWord(c))[j].isMatched
            && !MarkMatched(c.cards, MatchedWord(c))[j].isFlipped
  {
  }

  /** A mismatch turns the two chosen cards face-down and matches nothing. */
  lemma MismatchMatchesNothing(c: Choice)
    ensures var r := FlipDown(c.cards, c.firstId, c.secondId);
            |r| == |c.cards|
            && (forall i :: 0 <= i < |r| ==> r[i].isMatched == c.cards[i].isMatched)
            && (forall i :: 0 <= i < |r| ==> (r[i].id == c.firstId || r[i].id == c.secondId) ==> !r[i].isFlipped)
            && (forall i :: 0 <= i < |r| ==> r[i].id != c.firstId && r[i].id != c.secondId ==> r[i] == c.cards[i])
  {
  }

  /**
   * The body of one scheduled timer, with the state of the render that
   * scheduled it: the 500 ms one after a match, which knows the matched
   * word, or the 1000 ms one after a mismatch.
   */
  datatype Pending =
    | MatchTimer(cards: seq<GameCard>, matchedPairs: seq<string>, wordId: string)
    | MismatchTimer(cards: seq<GameCard>, firstId: string, secondId: string, visual: bool)

  /** `checkForMatch`: the timer a choice schedules, decided when the second card is chosen. */
  function Schedule(c: Choice): (p: Pending)
    ensures p.cards == c.cards
    ensures p.MatchTimer? <==> IsMatch(c)
    ensures p.MatchTimer? ==> p.matchedPairs == c.matchedPairs && p.wordId == MatchedWord(c)
    ensures p.MismatchTimer? ==> p.firstId == c.firstId && p.secondId == c.secondId && p.visual == c.visual
  {
    if IsMatch(c) then MatchTimer(c.cards, c.matchedPairs, MatchedWord(c))
    else MismatchTimer(c.cards, c.firstId, c.secondId, c.visual)
  }

  lemma SameIdsSameDeck(a: seq<GameCard>, b: seq<GameCard>, deck: multiset<string>)
    requires Ids(a) == Ids(b) && SameDeck(b, deck)
    ensures SameDeck(a, deck)
  {
  }

  /** Every timer's captured list is a deal of `deck`. */
  ghost predicate TimersKeepDeck(pending: seq<Pending>, deck: multiset<string>) {
    forall j :: 0 <= j < |pending| ==> SameDeck(pending[j].cards, deck)
  }

  /** Dropping a run timer keeps every other captured list a reordering of the deal. */
  lemma DropKeepsDecks(pending: seq<Pending>, k: nat, rest: seq<Pending>, deck: multiset<string>)
    requires k < |pending| && rest == pending[..k] + pending[k + 1..]
    requires TimersKeepDeck(pending, deck)
    ensures TimersKeepDeck(rest, deck)
  {
    forall j | 0 <= j < |rest| ensures rest[j] == pending[if j < k then j else j + 1] { }
  }

  /**
   * The cards after a timer runs: after a match the captured list with the
   * word's cards matched; after a mismatch in memory mode the captured list
   * with the two cards face-down; after a mismatch in visual mode the
   * current cards, untouched.
   */
  function ResolvedCards(p: Pending, current: seq<GameCard>): seq<GameCard> {
    match p
    case MatchTimer(cards, _, wordId) => MarkMatched(cards, wordId)
    case MismatchTimer(cards, firstId, secondId, visual) =>
      if !visual then FlipDown(cards, firstId, secondId) else current
  }

  /** `[...matchedPairs, firstCard.wordId]` after a match, from the captured pairs. */
  function ResolvedPairs(p: Pending, current: seq<string>): seq<string> {
    if p.MatchTimer? then p.matchedPairs + [p.wordId] else current
  }

  /** `matchedPairs.length + 1 === words.slice(0, 8).length` sets the flag; nothing clears it. */
  function ResolvedComplete(p: Pending, complete: bool, words: seq<Word>): bool {
    if p.MatchTimer? && |p.matchedPairs| + 1 == PairCount(words) then true else complete
  }

  /**
   * What a choice's timer does, in terms of the choice: a match marks the
   * word's cards in the captured list and adds the word to the captured
   * pairs, completing the game exactly when that makes every pair; a
   * mismatch turns the two cards back in memory mode and leaves the cards
   * alone in visual mode.
   */
  lemma ScheduledOutcome(c: Choice, current: seq<GameCard>, pairs: seq<string>, complete: bool, words: seq<Word>)
    ensures ResolvedCards(Schedule(c), current)
            == if IsMatch(c) then MarkMatched(c.cards, MatchedWord(c))
               else if !c.visual then FlipDown(c.cards, c.firstId, c.secondId)
               else current
    ensures ResolvedPairs(Schedule(c), pairs) == if IsMatch(c) then c.matchedPairs + [MatchedWord(c)] else pairs
    ensures ResolvedComplete(Schedule(c), complete, words)
            <==> complete || (IsMatch(c) && |c.matchedPairs| + 1 == PairCount(words))
  {
  }

  /** Running a timer leaves the shown list a deal of the same cards. */
  lemma ResolvedDeck(p: Pending, current: seq<GameCard>, deck: multiset<string>)
    requires SameDeck(p.cards, deck) && SameDeck(current, deck)
    ensures SameDeck(ResolvedCards(p, current), deck)
  {
    match p
    case MatchTimer(cards, _, wordId) =>
      SameIdsSameDeck(MarkMatched(cards, wordId), cards, deck);
    case MismatchTimer(cards, firstId, secondId, visual) =>
      if !visual {
        SameIdsSameDeck(FlipDown(cards, firstId, secondId), cards, deck);
      }
  }

  /** Running timer `k` leaves every list, the shown one and the captured ones, a deal of the same cards. */
  lemma ResolveKeepsDecks(pending: seq<Pending>, k: nat, rest: seq<Pending>, cards: seq<GameCard>, deck: multiset<string>)
    requires k < |pending| && rest == pending[..k] + pending[k + 1..]
    requires SameDeck(cards, deck) && TimersKeepDeck(pending, deck)
    ensures SameDeck(ResolvedCards(pending[k], cards), deck)
    ensures TimersKeepDeck(rest, deck)
  {
    DropKeepsDecks(pending, k, rest, deck);
    ResolvedDeck(pending[k], cards, deck);
  }

  class Game {
    const words: seq<Word>
    /** The ids of the deal, each as often as dealt, which every card list keeps. */
    ghost const deck: multiset<string>
    var cards: seq<GameCard>
    var selectedCards: seq<string>
    var matchedPairs: seq<string>
    var moves: nat
    var gameComplete: bool
    var isVisualMode: bool
    /** The timers scheduled and not yet run. */
    var pending: seq<Pending>

    /** At most two cards are selected, and every card list, current or captured, is a reordering of the deal. */
    ghost predicate Valid()
      reads this
    {
      deck == DeckIds(words)
      && |selectedCards| <= 2
      && SameDeck(cards, deck)
      && TimersKeepDeck(pending, deck)
    }

    /** The mount: visual mode, nothing selected, and the first deal. */
    constructor (words: seq<Word>, perm: seq<nat>)
      requires IsPermutation(perm, DeckSize(words))
      ensures Valid()
      ensures this.words == words && isVisualMode
      ensures cards == Permute(Deal(words, true), perm)
      ensures selectedCards == [] && matchedPairs == [] && moves == 0 && !gameComplete && pending == []
    {
      this.words, deck := words, DeckIds(words);
      cards := [];
      selectedCards := [];
      matchedPairs := [];
      moves := 0;
      gameComplete := false;
      isVisualMode := true;
      pending := [];
      new;
      InitializeGame(perm);
    }

    /** `initializeGame`: pushes a pair of cards per word among the first eight, then shuffles them. */
    method InitializeGame(perm: seq<nat>)
      requires IsPermutation(perm, DeckSize(words))
      modifies this
      ensures cards == Permute(Deal(words, isVisualMode), perm)
      ensures SameDeck(cards, DeckIds(words))
      ensures selectedCards == old(selectedCards) && matchedPairs == old(matchedPairs) && moves == old(moves)
      ensures gameComplete == old(gameComplete) && isVisualMode == old(isVisualMode) && pending == old(pending)
    {
      var gameCards := PushPairs(Take(words, 8), isVisualMode);
      ShuffledDeal(words, isVisualMode, perm);
      cards := Permute(gameCards, perm);
    }

    /** The click guards: an unknown or matched card, a face-up card in memory mode, or two cards already chosen. */
    predicate Ignored(cardId: string)
      reads this
    {
      var found := FindFirst(cards, CardIs(cardId));
      found.None? || cards[found.value].isMatched
      || (!isVisualMode && cards[found.value].isFlipped)
      || |selectedCards| == 2
    }

    /**
     * `handleCardClick`: an ignored click changes nothing; otherwise the card
     * joins the selection and, in memory mode, turns face-up.  When this
     * makes two, `moves` grows by one and a timer is scheduled with this
     * render's cards (from before the flip), pairs and mode.
     */
    method HandleCardClick(cardId: string)
      requires Valid()
      modifies this
      ensures Valid()
      ensures old(Ignored(cardId)) ==>
                cards == old(cards) && selectedCards == old(selectedCards) && moves == old(moves) && pending == old(pending)
      ensures !old(Ignored(cardId)) ==>
                selectedCards == old(selectedCards) + [cardId]
                && cards == (if isVisualMode then old(cards) else FlipUp(old(cards), cardId))
                && moves == (if |selectedCards| == 2 then old(moves) + 1 else old(moves))
                && pending == (if |selectedCards| == 2
                               then old(pending) + [Schedule(Choice(old(selectedCards)[0], cardId, old(cards), old(matchedPairs), isVisualMode))]
                               else old(pending))
      ensures matchedPairs == old(matchedPairs) && gameComplete == old(gameComplete)
      ensures isVisualMode == old(isVisualMode)
    {
      var found := FindFirst(cards, CardIs(cardId));
      if found.None? || cards[found.value].isMatched {
        return;
      }
      if !isVisualMode && cards[found.value].isFlipped {
        return;
      }
      if |selectedCards| == 2 {
        return;
      }
      var captured := cards;
      var newSelectedCards := selectedCards + [cardId];
      selectedCards := newSelectedCards;
      if !isVisualMode {
        cards := FlipUp(cards, cardId);
      }
      if |newSelectedCards| == 2 {
        moves := moves + 1;
        CheckForMatch(newSelectedCards[0], newSelectedCards[1], captured);
      }
    }

    /** `checkForMatch`: schedules the timer the choice calls for, with the cards of the click's render. */
    method CheckForMatch(firstId: string, secondId: string, captured: seq<GameCard>)
      requires Valid() && SameDeck(captured, deck)
      modifies this
      ensures Valid()
      ensures pending == old(pending) + [Schedule(Choice(firstId, secondId, captured, matchedPairs, isVisualMode))]
      ensures cards == old(cards) && selectedCards == old(selectedCards) && matchedPairs == old(matchedPairs)
      ensures moves == old(moves) && gameComplete == old(gameComplete) && isVisualMode == old(isVisualMode)
    {
      var firstCard := FindFirst(captured, CardIs(firstId));
      var secondCard := FindFirst(captured, CardIs(secondId));
      var timer: Pending;
      if firstCard.Some? && secondCard.Some? && captured[firstCard.value].wordId == captured[secondCard.value].wordId
         && firstId != secondId {
        timer := MatchTimer(captured, matchedPairs, captured[firstCard.value].wordId);
      } else {
        timer := MismatchTimer(captured, firstId, secondId, isVisualMode);
      }
      pending := pending + [timer];
    }

    /**
     * One timer runs: the cards, the pairs and the completion flag become
     * what its captured render computes (see `ResolvedCards` and the lemmas
     * after it), the timer is gone, and the selection is cleared.
     */
    method Resolve(k: nat)
      requires Valid() && k < |pending|
      modifies this
      ensures Valid()
      ensures pending == old(pending[..k] + pending[k + 1..])
      ensures cards == ResolvedCards(old(pending[k]), old(cards))
      ensures matchedPairs == ResolvedPairs(old(pending[k]), old(matchedPairs))
      ensures gameComplete == ResolvedComplete(old(pending[k]), old(gameComplete), words)
      ensures selectedCards == [] && moves == old(moves) && isVisualMode == old(isVisualMode)
    {
      var p := pending[k];
      var rest := pending[..k] + pending[k + 1..];
      ResolveKeepsDecks(pending, k, rest, cards, deck);
      pending, cards, matchedPairs, gameComplete, selectedCards :=
        rest, ResolvedCards(p, cards), ResolvedPairs(p, matchedPairs), ResolvedComplete(p, gameComplete, words), [];
    }

    /** `resetGame`: no moves, selection or pairs, not complete, and a new deal in the current mode. */
    method ResetGame(perm: seq<nat>)
      requires Valid() && IsPermutation(perm, DeckSize(words))
      modifies this
      ensures Valid()
      ensures cards == Permute(Deal(words, isVisualMode), perm)
      ensures selectedCards == [] && matchedPairs == [] && moves == 0 && !gameComplete
      ensures isVisualMode == old(isVisualMode) && pending == old(pending)
    {
      cards := [];
      selectedCards := [];
      matchedPairs := [];
      moves := 0;
      gameComplete := false;
      InitializeGame(perm);
    }

    /**
     * `toggleMode`: the other mode, then a reset.  The reset's own deal uses
     * the old mode, and the deal the mode change triggers replaces it, so
     * what remains is one deal in the new mode.
     */
    method ToggleMode(perm: seq<nat>)
      requires Valid() && IsPermutation(perm, DeckSize(words))
      modifies this
      ensures Valid()
      ensures isVisualMode == !old(isVisualMode)
      ensures cards == Permute(Deal(words, isVisualMode), perm)
      ensures selectedCards == [] && matchedPairs == [] && moves == 0 && !gameComplete
      ensures pending == old(pending)
    {
      isVisualMode := !isVisualMode;
      ResetGame(perm);
    }
  }
}
