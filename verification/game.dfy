/**
 * The game session: the deck, the cards flipped in the current turn, the
 * move and pair counters, the input lock and the clock, updated in place by
 * the click handler and by the steps that the browser's timers would run.
 */
module MemoryGame {
  import opened Optional
  import opened Cards
  import opened Score

  /** How many cards of `s` are matched. */
  function MatchedCount(s: seq<Card>): (r: nat)
    ensures r <= |s|
  {
    if |s| == 0 then 0 else MatchedCount(s[..|s| - 1]) + (if s[|s| - 1].isMatched then 1 else 0)
  }

  /** Every card is matched exactly when the count reaches the deck size; none is exactly when it is zero. */
  lemma {:induction false} MatchedCountExtremes(s: seq<Card>)
    ensures MatchedCount(s) == |s| <==> forall k :: 0 <= k < |s| ==> s[k].isMatched
    ensures MatchedCount(s) == 0 <==> forall k :: 0 <= k < |s| ==> !s[k].isMatched
    decreases |s|
  {
    if |s| > 0 {
      var init := s[..|s| - 1];
      MatchedCountExtremes(init);
      assert forall k :: 0 <= k < |init| ==> init[k] == s[k];
    }
  }

  /** Replacing one card changes the count only by the change in that card's matched flag. */
  lemma {:induction false} MatchedCountUpdate(s: seq<Card>, k: nat, c: Card)
    requires k < |s|
    ensures MatchedCount(s[k := c]) + (if s[k].isMatched then 1 else 0)
         == MatchedCount(s) + (if c.isMatched then 1 else 0)
    decreases |s|
  {
    var t := s[k := c];
    if k < |s| - 1 {
      assert t[..|t| - 1] == s[..|s| - 1][k := c];
      MatchedCountUpdate(s[..|s| - 1], k, c);
    } else {
      assert t[..|t| - 1] == s[..|s| - 1];
    }
  }

  /**
   * A deck as the game keeps it: sixteen cards, ids pairwise distinct and in
   * range, and each card carrying the icon of the pair its id belongs to.
   */
  ghost predicate WellFormedDeck(s: seq<Card>) {
    && |s| == 2 * |CardIcons|
    && (forall k :: 0 <= k < |s| ==> 0 <= s[k].id < |s| && s[k].icon == CardIcons[s[k].id / 2])
    && DistinctIds(s)
  }

  /** The id of the other card of a pair: ids `2 * index` and `2 * index + 1` belong together. */
  function PairedId(id: int): (r: int)
    ensures r != id && r / 2 == id / 2
  {
    if id % 2 == 0 then id + 1 else id - 1
  }

  /** The face-up cards that are not matched are exactly the pending ones. */
  ghost predicate PendingFaceUp(s: seq<Card>, pending: seq<nat>) {
    forall k :: 0 <= k < |s| ==> (s[k].isFlipped && !s[k].isMatched <==> k in pending)
  }

  /** A matched card stays face up. */
  ghost predicate MatchedFaceUp(s: seq<Card>) {
    forall k :: 0 <= k < |s| && s[k].isMatched ==> s[k].isFlipped
  }

  /** The two cards of a pair are matched together or not at all. */
  ghost predicate PairsTogether(s: seq<Card>) {
    forall i, j :: 0 <= i < |s| && 0 <= j < |s| && s[i].icon == s[j].icon ==> s[i].isMatched == s[j].isMatched
  }

  /**
   * The card-level invariant of a session, over the deck `s`, the positions
   * `pending` of the cards flipped this turn and the matched-pair counter.
   */
  ghost predicate Board(s: seq<Card>, pending: seq<nat>, matchedPairs: nat) {
    && WellFormedDeck(s)
    && |pending| <= 2
    && (forall t :: 0 <= t < |pending| ==> pending[t] < |s|)
    && (|pending| == 2 ==> pending[0] != pending[1])
    && PendingFaceUp(s, pending)
    && MatchedFaceUp(s)
    && PairsTogether(s)
    && MatchedCount(s) == 2 * matchedPairs
  }

  /** A freshly created deck, in whatever order the shuffle left it, starts a valid board. */
  lemma ShuffledDeckIsBoard(rand: seq<nat>)
    requires ValidDraws(rand, 2 * |CardIcons|)
    ensures Board(Shuffled(Deck(CardIcons), rand), [], 0)
    ensures forall k :: 0 <= k < |Shuffled(Deck(CardIcons), rand)| ==>
              !Shuffled(Deck(CardIcons), rand)[k].isFlipped && !Shuffled(Deck(CardIcons), rand)[k].isMatched
  {
    var d := Deck(CardIcons);
    var s := Shuffled(d, rand);
    ShuffledIsPermutation(d, rand);
    ShuffledKeepsIdsDistinct(d, rand);
    MatchedCountExtremes(s);
    forall k | 0 <= k < |s|
      ensures 0 <= s[k].id < |s| && s[k].icon == CardIcons[s[k].id / 2]
      ensures !s[k].isFlipped && !s[k].isMatched
    {
      assert s[k] in multiset(s);
      assert s[k] in d;
    }
  }

  /**
   * Every card has exactly one partner: another card with the same icon, and
   * the two are matched together. So a matched card's partner is matched too.
   */
  lemma CardHasPartner(s: seq<Card>, pending: seq<nat>, matchedPairs: nat, k: nat)
    requires Board(s, pending, matchedPairs) && k < |s|
    ensures exists m :: 0 <= m < |s| && m != k && s[m].icon == s[k].icon && s[m].isMatched == s[k].isMatched
    ensures forall m, x ::
              (0 <= m < |s| && 0 <= x < |s| && m != k && x != k && s[m].icon == s[k].icon && s[x].icon == s[k].icon)
              ==> m == x
  {
    IdsCoverRange(s, PairedId(s[k].id));
    var m :| 0 <= m < |s| && s[m].id == PairedId(s[k].id);
    assert s[m].icon == s[k].icon;
    forall m, x | 0 <= m < |s| && 0 <= x < |s| && m != k && x != k
        && s[m].icon == s[k].icon && s[x].icon == s[k].icon
      ensures m == x
    {
      PairIsUnique(s, k, m, x);
    }
  }

  /** Distinct ids: the position holding an id is the only one holding it. */
  lemma IdPositionUnique(s: seq<Card>, k: nat)
    requires DistinctIds(s) && k < |s|
    ensures forall m :: 0 <= m < |s| && s[m].id == s[k].id ==> m == k
  {
  }

  /** Two different cards share an icon only when they form a pair; no third card has it. */
  lemma PairIsUnique(s: seq<Card>, i: nat, j: nat, x: nat)
    requires WellFormedDeck(s)
    requires i < |s| && j < |s| && x < |s| && i != j
    requires s[i].icon == s[j].icon && s[x].icon == s[i].icon
    ensures x == i || x == j
  {
    CardIconsDistinct();
    assert s[i].id / 2 == s[j].id / 2 == s[x].id / 2;
  }

  /** Turning up a face-down, unmatched card while fewer than two are pending keeps the board valid. */
  lemma FlipKeepsBoard(s: seq<Card>, pending: seq<nat>, matchedPairs: nat, k: nat)
    requires Board(s, pending, matchedPairs) && |pending| < 2
    requires k < |s| && !s[k].isFlipped && !s[k].isMatched
    ensures Board(s[k := s[k].(isFlipped := true)], pending + [k], matchedPairs)
  {
    var s' := s[k := s[k].(isFlipped := true)];
    MatchedCountUpdate(s, k, s'[k]);
    assert k !in pending;
    forall x | 0 <= x < |s'| ensures s'[x].icon == s[x].icon && s'[x].isMatched == s[x].isMatched && s'[x].id == s[x].id {
    }
  }

  /** Changing only the flags of some cards keeps the deck well formed. */
  lemma SameFacesWellFormed(s: seq<Card>, s': seq<Card>)
    requires WellFormedDeck(s) && |s'| == |s|
    requires forall x :: 0 <= x < |s| ==> s'[x].id == s[x].id && s'[x].icon == s[x].icon
    ensures WellFormedDeck(s')
  {
    assert forall a, b :: 0 <= a < b < |s| ==> s'[a].id == s[a].id && s'[b].id == s[b].id;
  }

  /** After resolving the pending pair `p`, `q`, neither card is face up and unmatched. */
  lemma ResolvedFaceUp(s: seq<Card>, s2: seq<Card>, p: nat, q: nat)
    requires |s2| == |s| && p < |s| && q < |s|
    requires PendingFaceUp(s, [p, q]) && MatchedFaceUp(s)
    requires forall k :: 0 <= k < |s| && k != p && k != q ==> s2[k] == s[k]
    requires s2[p].isMatched == s2[p].isFlipped && s2[q].isMatched == s2[q].isFlipped
    ensures PendingFaceUp(s2, []) && MatchedFaceUp(s2)
  {
    forall k | 0 <= k < |s2| ensures !(s2[k].isFlipped && !s2[k].isMatched) && (s2[k].isMatched ==> s2[k].isFlipped) {
      if k != p && k != q {
        assert k !in [p, q];
      }
    }
  }

  /** Changing no icon and no matched flag keeps pairs matched together. */
  lemma SameMatchesKeepPairsTogether(s: seq<Card>, s': seq<Card>)
    requires PairsTogether(s) && |s'| == |s|
    requires forall k :: 0 <= k < |s| ==> s'[k].icon == s[k].icon && s'[k].isMatched == s[k].isMatched
    ensures PairsTogether(s')
  {
  }

  /** Matching both cards of one pair keeps pairs matched together. */
  lemma MatchKeepsPairsTogether(s: seq<Card>, p: nat, q: nat)
    requires WellFormedDeck(s) && PairsTogether(s)
    requires p < |s| && q < |s| && p != q && s[p].icon == s[q].icon
    ensures PairsTogether(s[p := s[p].(isMatched := true)][q := s[q].(isMatched := true)])
  {
    var s2 := s[p := s[p].(isMatched := true)][q := s[q].(isMatched := true)];
    forall i, j | 0 <= i < |s2| && 0 <= j < |s2| && s2[i].icon == s2[j].icon
      ensures s2[i].isMatched == s2[j].isMatched
    {
      if s[i].icon == s[p].icon {
        PairIsUnique(s, p, q, i);
        PairIsUnique(s, p, q, j);
      } else {
        assert i != p && i != q && j != p && j != q;
      }
    }
  }

  /** Marking a pending pair with equal icons as matched keeps the board valid and adds one pair. */
  lemma MatchKeepsBoard(s: seq<Card>, p: nat, q: nat, matchedPairs: nat)
    requires Board(s, [p, q], matchedPairs) && s[p].icon == s[q].icon
    ensures Board(s[p := s[p].(isMatched := true)][q := s[q].(isMatched := true)], [], matchedPairs + 1)
  {
    var s1 := s[p := s[p].(isMatched := true)];
    var s2 := s1[q := s[q].(isMatched := true)];
    assert p in [p, q] && q in [p, q];
    MatchedCountUpdate(s, p, s1[p]);
    MatchedCountUpdate(s1, q, s2[q]);
    SameFacesWellFormed(s, s2);
    ResolvedFaceUp(s, s2, p, q);
    MatchKeepsPairsTogether(s, p, q);
  }

  /** Turning a pending pair with different icons back down keeps the board valid. */
  lemma MismatchKeepsBoard(s: seq<Card>, p: nat, q: nat, matchedPairs: nat)
    requires Board(s, [p, q], matchedPairs) && s[p].icon != s[q].icon
    ensures Board(s[p := s[p].(isFlipped := false)][q := s[q].(isFlipped := false)], [], matchedPairs)
  {
    var s1 := s[p := s[p].(isFlipped := false)];
    var s2 := s1[q := s[q].(isFlipped := false)];
    assert p in [p, q] && q in [p, q];
    MatchedCountUpdate(s, p, s1[p]);
    MatchedCountUpdate(s1, q, s2[q]);
    SameFacesWellFormed(s, s2);
    ResolvedFaceUp(s, s2, p, q);
    SameMatchesKeepPairsTogether(s, s2);
  }

  /** All pairs are found exactly when every card is matched; there are never more pairs than icons. */
  lemma BoardPairs(s: seq<Card>, pending: seq<nat>, matchedPairs: nat)
    requires Board(s, pending, matchedPairs)
    ensures matchedPairs <= |CardIcons|
    ensures matchedPairs == |CardIcons| <==> forall k :: 0 <= k < |s| ==> s[k].isMatched
  {
    MatchedCountExtremes(s);
  }

  /** How a click ended: no card has the id, the guard ignored it, or the card was turned up. */
  datatype Click = NoSuchCard | Ignored | Flipped

  class Game {
    var cards: array<Card>
    /** The positions in `cards` of the cards flipped in the current turn. */
    var flippedCards: seq<nat>
    var matchedPairs: nat
    var moves: nat
    var gameStarted: bool
    var canFlip: bool
    /** Whether the one-second interval timer is installed. */
    var timerRunning: bool
    var seconds: nat
    /** The turns resolved so far, matched or not. */
    ghost var resolvedTurns: nat

    ghost predicate Valid()
      reads this, cards
    {
      && Board(cards[..], flippedCards, matchedPairs)
      && canFlip == (|flippedCards| < 2)
      // a move is counted when the second card of a turn is flipped
      && moves == resolvedTurns + (if |flippedCards| == 2 then 1 else 0)
      && matchedPairs <= resolvedTurns
      && (!gameStarted ==> !timerRunning && seconds == 0)
    }

    /** Victory: as many matched pairs as there are icons. */
    predicate Won()
      reads this
    {
      matchedPairs == |CardIcons|
    }

    /** The page load: the initial state, then the first deal. */
    constructor (rand: seq<nat>)
      requires ValidDraws(rand, 2 * |CardIcons|)
      ensures Valid() && fresh(cards)
      ensures cards[..] == Shuffled(Deck(CardIcons), rand)
      ensures flippedCards == [] && matchedPairs == 0 && moves == 0 && seconds == 0
      ensures !gameStarted && canFlip && !timerRunning
    {
      cards := new Card[0];
      new;
      InitializeGame(rand);
    }

    /**
     * Starts a new game: every counter back to zero, the timer stopped, and a
     * new deck built and shuffled with the draws `rand`.
     */
    method InitializeGame(rand: seq<nat>)
      requires ValidDraws(rand, 2 * |CardIcons|)
      modifies this
      ensures Valid() && fresh(cards)
      ensures cards[..] == Shuffled(Deck(CardIcons), rand)
      ensures forall k :: 0 <= k < cards.Length ==> !cards[k].isFlipped && !cards[k].isMatched
      ensures flippedCards == [] && matchedPairs == 0 && moves == 0 && seconds == 0
      ensures !gameStarted && canFlip && !timerRunning
    {
      flippedCards := [];
      matchedPairs := 0;
      moves := 0;
      gameStarted := false;
      canFlip := true;
      seconds := 0;
      timerRunning := false;
      resolvedTurns := 0;

      cards := DealCards(CardIcons, rand);
      ShuffledDeckIsBoard(rand);
    }

    /** Turns the card at position `k` face up. */
    method FlipCard(k: nat)
      requires k < cards.Length
      modifies cards
      ensures cards[..] == old(cards[..])[k := old(cards[k]).(isFlipped := true)]
    {
      cards[k] := cards[k].(isFlipped := true);
    }

    /** Turns the card at position `k` face down. */
    method UnflipCard(k: nat)
      requires k < cards.Length
      modifies cards
      ensures cards[..] == old(cards[..])[k := old(cards[k]).(isFlipped := false)]
    {
      cards[k] := cards[k].(isFlipped := false);
    }

    /**
     * A click on the card with id `cardId`. The first click of a game starts
     * the timer, whether or not the click is then accepted. The card is looked
     * up by its id. An id held by no card ends the handler with no further
     * change: the lookup yields `undefined`, and the guard either returns at
     * `!canFlip` or throws when it reads the missing card's flags. Otherwise
     * the flip is attempted on the position `k` holding that id.
     */
    method HandleCardClick(cardId: int) returns (click: Click, ghost k: nat)
      requires Valid()
      modifies this`gameStarted, this`timerRunning, this`flippedCards, this`canFlip, this`moves, cards
      ensures Valid()
      ensures gameStarted && timerRunning == (old(timerRunning) || !old(gameStarted))
      ensures click == NoSuchCard <==> forall m :: 0 <= m < cards.Length ==> cards[m].id != cardId
      ensures click != NoSuchCard ==> k < cards.Length && cards[k].id == cardId
      ensures click != NoSuchCard ==> forall m :: 0 <= m < cards.Length && cards[m].id == cardId ==> m == k
      ensures click != NoSuchCard ==>
                (click == Flipped <==> old(canFlip) && !old(cards[k]).isFlipped && !old(cards[k]).isMatched && |old(flippedCards)| < 2)
      ensures click != Flipped ==> cards[..] == old(cards[..]) && flippedCards == old(flippedCards)
                                   && moves == old(moves) && canFlip == old(canFlip)
      ensures click == Flipped ==> cards[..] == old(cards[..])[k := old(cards[k]).(isFlipped := true)]
                                   && flippedCards == old(flippedCards) + [k]
                                   && moves == old(moves) + (if |flippedCards| == 2 then 1 else 0)
      ensures old(Won()) ==> click != Flipped
    {
      // the first click starts the one-second interval timer
      if !gameStarted {
        timerRunning := true;
        gameStarted := true;
      }

      var found := FindCard(cards, cardId);
      if found.None? {
        click, k := NoSuchCard, 0;
        return;
      }
      var pos := found.value;
      k := pos;
      IdPositionUnique(cards[..], pos);
      var accepted := TryFlip(pos);
      click := if accepted then Flipped else Ignored;
      assert cards[k].id == cardId;
    }

    /**
     * The guard and the flip of a click on the card at position `k`: accepted
     * when input is unlocked, the card is face down and unmatched, and fewer
     * than two cards are pending; the card is then turned up and becomes
     * pending, and the second pending card locks input and counts one move.
     */
    method TryFlip(k: nat) returns (accepted: bool)
      requires Valid() && k < cards.Length
      modifies this`flippedCards, this`canFlip, this`moves, cards
      ensures Valid()
      ensures accepted <==> old(canFlip) && !old(cards[k]).isFlipped && !old(cards[k]).isMatched && |old(flippedCards)| < 2
      ensures !accepted ==> cards[..] == old(cards[..]) && flippedCards == old(flippedCards)
                            && moves == old(moves) && canFlip == old(canFlip)
      ensures accepted ==> cards[..] == old(cards[..])[k := old(cards[k]).(isFlipped := true)]
                           && flippedCards == old(flippedCards) + [k]
                           && moves == old(moves) + (if |flippedCards| == 2 then 1 else 0)
      ensures old(Won()) ==> !accepted
    {
      var card := cards[k];
      if !canFlip || card.isFlipped || card.isMatched || |flippedCards| >= 2 {
        return false;
      }

      assert !Won() by {
        BoardPairs(cards[..], flippedCards, matchedPairs);
        assert !cards[..][k].isMatched;
      }
      FlipKeepsBoard(cards[..], flippedCards, matchedPairs, k);
      FlipCard(k);
      flippedCards := flippedCards + [k];
      if |flippedCards| == 2 {
        canFlip := false;
        moves := moves + 1;
      }
      accepted := true;
    }

    /**
     * Resolves the pending turn (the step run after the 800 ms delay):
     * a pair with equal icons is matched, any other pair is turned back down.
     */
    method CheckForMatch() returns (matched: bool)
      requires Valid() && |flippedCards| == 2
      modifies this, cards
      ensures Valid() && cards == old(cards)
      ensures matched <==> old(cards[flippedCards[0]]).icon == old(cards[flippedCards[1]]).icon
      ensures matched ==> matchedPairs == old(matchedPairs) + 1
      ensures !matched ==> matchedPairs == old(matchedPairs)
      ensures matchedPairs <= |CardIcons|
      ensures flippedCards == [] && canFlip && moves == old(moves) && resolvedTurns == old(resolvedTurns) + 1
      ensures gameStarted == old(gameStarted) && timerRunning == old(timerRunning) && seconds == old(seconds)
      ensures var p, q := old(flippedCards[0]), old(flippedCards[1]);
              cards[..] == if matched
                then old(cards[..])[p := old(cards[p]).(isMatched := true)][q := old(cards[q]).(isMatched := true)]
                else old(cards[..])[p := old(cards[p]).(isFlipped := false)][q := old(cards[q]).(isFlipped := false)]
    {
      var first, second := flippedCards[0], flippedCards[1];
      matched := cards[first].icon == cards[second].icon;
      if matched {
        HandleMatch(first, second);
      } else {
        HandleMismatch(first, second);
      }
    }

    /**
     * The matching pair becomes matched and stays face up; input is unlocked.
     * The game is won, and the victory step scheduled, exactly when every card is matched.
     */
    method HandleMatch(first: nat, second: nat)
      requires Valid() && flippedCards == [first, second]
      requires cards[first].icon == cards[second].icon
      modifies this, cards
      ensures Valid() && cards == old(cards)
      ensures cards[..] == old(cards[..])[first := old(cards[first]).(isMatched := true)]
                                         [second := old(cards[second]).(isMatched := true)]
      ensures matchedPairs == old(matchedPairs) + 1 && matchedPairs <= |CardIcons|
      ensures Won() <==> forall k :: 0 <= k < cards.Length ==> cards[k].isMatched
      ensures flippedCards == [] && canFlip && moves == old(moves) && resolvedTurns == old(resolvedTurns) + 1
      ensures gameStarted == old(gameStarted) && timerRunning == old(timerRunning) && seconds == old(seconds)
    {
      MatchKeepsBoard(cards[..], first, second, matchedPairs);
      BoardPairs(cards[..][first := cards[first].(isMatched := true)][second := cards[second].(isMatched := true)], [], matchedPairs + 1);
      cards[first] := cards[first].(isMatched := true);
      cards[second] := cards[second].(isMatched := true);
      matchedPairs := matchedPairs + 1;
      resolvedTurns := resolvedTurns + 1;
      flippedCards := [];
      canFlip := true;
    }

    /** The two different cards are turned back face down; input is unlocked. */
    method HandleMismatch(first: nat, second: nat)
      requires Valid() && flippedCards == [first, second]
      requires cards[first].icon != cards[second].icon
      modifies this, cards
      ensures Valid() && cards == old(cards)
      ensures cards[..] == old(cards[..])[first := old(cards[first]).(isFlipped := false)]
                                         [second := old(cards[second]).(isFlipped := false)]
      ensures matchedPairs == old(matchedPairs)
      ensures flippedCards == [] && canFlip && moves == old(moves) && resolvedTurns == old(resolvedTurns) + 1
      ensures gameStarted == old(gameStarted) && timerRunning == old(timerRunning) && seconds == old(seconds)
    {
      MismatchKeepsBoard(cards[..], first, second, matchedPairs);
      UnflipCard(first);
      UnflipCard(second);
      resolvedTurns := resolvedTurns + 1;
      flippedCards := [];
      canFlip := true;
    }

    /** One tick of the one-second interval timer. */
    method Tick()
      requires Valid()
      modifies this`seconds
      ensures Valid()
      ensures seconds == old(seconds) + (if timerRunning then 1 else 0)
    {
      if timerRunning {
        seconds := seconds + 1;
      }
    }

    /**
     * The victory step (run 500 ms after the last match): the timer stops and
     * the best score is updated from the stored one.
     */
    method HandleVictory(stored: Option<nat>) returns (best: Option<nat>)
      requires Valid() && Won()
      modifies this`timerRunning
      ensures Valid() && !timerRunning
      ensures best == UpdateBestScore(stored, moves)
      ensures |CardIcons| <= moves
    {
      timerRunning := false;
      best := UpdateBestScore(stored, moves);
    }

  }
}
