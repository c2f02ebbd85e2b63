# Memory game core in Dafny

A model of the card-pair memory game of `script.js`. The deck holds two
cards for each of eight Font Awesome icons. It is shuffled in place by
Fisher-Yates. A player turns up two cards per turn. A pair with equal icons
stays matched; any other pair is turned back down. One move is counted per
turn. The game is won when all eight pairs are matched. The best score is
the lowest move count of a won game. The elapsed time is shown as `m:ss`.

Modules:

- `Optional` (`optional.dfy`): the `Option` type, for a missing stored score
  and for a lookup that finds nothing.
- `Cards` (`cards.dfy`):
  - the card record and the icon list;
  - `createCards`, as a loop against the specification function `Deck`;
  - `shuffleCards`, as an in-place loop over an `array` against the
    specification function `Shuffled`;
  - the `cards.find` lookup by id.
- `Score` (`score.dfy`): the best-score comparison of `updateBestScore`. A
  missing stored value is `None`.
- `TimeDisplay` (`time_display.dfy`): the `m:ss` text of
  `updateTimeDisplay`, with a parser that shows no information is lost.
- `MemoryGame` (`game.dfy`): the class `Game`, whose fields are the
  script's global state: `cards`, `flippedCards`, `matchedPairs`, `moves`,
  `gameStarted`, `canFlip` and `seconds`. `timerRunning` stands for a
  non-null `timerInterval`.
  - Each handler is a method that updates these fields in place.
  - The invariant `Valid()` is kept by every handler. It states:
    - the deck is sixteen cards with distinct ids;
    - each card carries the icon of its pair;
    - the face-up, unmatched cards are exactly the pending ones;
    - matched cards are face up;
    - the two cards of a pair are matched together;
    - `matchedPairs` is half the number of matched cards;
    - `canFlip` holds exactly when fewer than two cards are pending;
    - `moves` counts the resolved turns plus a pending full turn.

Three of the browser's timers are explicit steps, which a caller runs in
order:
- `CheckForMatch`, the 800 ms `setTimeout` after a turn's second card;
- `Tick`, the one-second interval;
- `HandleVictory`, the 500 ms `setTimeout` after the winning match.

The 600 ms wait before a mismatched pair is turned back down is merged into
`CheckForMatch` and `HandleMismatch`. The pair is turned down in the same
step that finds the mismatch.

`Math.random()` is replaced by a caller-supplied sequence of draws `rand`
with `rand[i] <= i`. `localStorage` is replaced by the `stored` parameter
and the returned value.

## Model

| member | source | states |
|---|---|---|
| Cards.CardIconsDistinct | script.js:19-28 | there are eight icons and no two are equal, so an icon identifies its pair |
| Cards.CreateCards | script.js:101-122 | builds `2 * n` cards; the card at position `k` has id `k` and the icon at index `k / 2`, and is face down and unmatched |
| Cards.Swap | script.js:131 | the destructuring swap exchanges positions `i` and `j` and keeps every other entry |
| Cards.ShuffleCards | script.js:128-133 | the in-place loop leaves the array equal to the Fisher-Yates specification `Shuffled` of its old contents, and it keeps the same cards (multiset equality) |
| Cards.FisherYatesPermutes | script.js:128-133 | every run of the swap steps keeps the length and the multiset of cards |
| Cards.ShuffledIsPermutation | script.js:128-133 | for any draws, the shuffled deck is a permutation of the deck |
| Cards.FisherYatesKeepsTail | script.js:129-132 | once the descending loop has passed position `k`, the card there is final |
| Cards.FisherYatesKeepsIdsDistinct | script.js:128-133 | swapping keeps the card ids pairwise distinct |
| Cards.ShuffledKeepsIdsDistinct | script.js:128-133 | a deck with distinct ids still has distinct ids after the shuffle |
| Cards.DealCards | script.js:92-93 | creating then shuffling gives a fresh array holding `Shuffled(Deck(icons), rand)` |
| Cards.FindCard | script.js:189 | `cards.find` by id: `Some` of the first position holding the id, and `None` exactly when no card holds it |
| Score.UpdateBestScore | script.js:373-387 | the stored best is replaced exactly when nothing is stored or the new score is strictly lower; the result is never above the new score or the stored one |
| Score.BestAfterIsMinimum | script.js:373-387 | after any series of won games, the stored best is one of the scores seen and is no larger than any of them |
| TimeDisplay.NatToString | script.js:310-311 | `toString` of a non-negative integer gives at least one character; it is one character exactly for values below ten and has no leading zero |
| TimeDisplay.NatToStringValue | script.js:310-311 | the decimal text has only digits and reads back as the number |
| TimeDisplay.PadStart | script.js:311 | `padStart` gives length `max(width, |s|)` |
| TimeDisplay.PadStartContents | script.js:311 | the padded text ends with the original text and begins only with the fill character |
| TimeDisplay.SecondsFieldValue | script.js:309-311 | the seconds field below sixty is two digits that read back as the seconds |
| TimeDisplay.FormatTime | script.js:308-312 | the clock text is at least four characters, with the colon third from the end |
| TimeDisplay.FormatTimeRoundTrip | script.js:308-312 | parsing the `m:ss` text of any elapsed time gives that time back, so minutes and padded seconds lose nothing |
| MemoryGame.MatchedCountExtremes | script.js:265 | the matched count equals the deck size exactly when every card is matched, and is zero exactly when none is |
| MemoryGame.ShuffledDeckIsBoard | script.js:72-95 | a freshly created and shuffled deck satisfies the board invariant with nothing pending and no pair found, and every card is face down and unmatched |
| MemoryGame.PairIsUnique | script.js:101-122 | two different cards with one icon form a pair, and no third card has that icon |
| MemoryGame.CardHasPartner | script.js:101-122 | on any board, every card has exactly one other card with its icon, and the two share the matched flag, so a matched card's partner is matched too |
| Cards.DistinctBelowCovers | script.js:101-122 | pigeonhole: `n` pairwise distinct ids below `n` are all of `0..n - 1`, so every id the deck was created with is still present |
| MemoryGame.FlipKeepsBoard | script.js:193-202 | turning up a face-down, unmatched card while fewer than two are pending keeps the board invariant, with the card now pending |
| MemoryGame.MatchKeepsBoard | script.js:247-262 | matching a pending pair with equal icons keeps the board invariant, empties the pending list and adds one pair |
| MemoryGame.MismatchKeepsBoard | script.js:270-287 | turning a pending pair with different icons back down keeps the board invariant and the pair count |
| MemoryGame.BoardPairs | script.js:265 | there are never more pairs than icons, and all pairs are found exactly when every card is matched |
| MemoryGame.Game.constructor | script.js:50-54 | the page load: the session starts valid, holding the shuffled deck, with counters at zero and the timer stopped |
| MemoryGame.Game.InitializeGame | script.js:72-95 | the reset: counters and clock at zero, timer stopped, input unlocked, nothing pending; the cards are a fresh array holding `Shuffled(Deck(CardIcons), rand)`, all face down and unmatched; the invariant holds |
| MemoryGame.Game.FlipCard | script.js:214-217 | only the card at `k` changes, and it becomes face up |
| MemoryGame.Game.UnflipCard | script.js:219-228 | only the card at `k` changes, and it becomes face down |
| MemoryGame.Game.HandleCardClick | script.js:181-212 | described after the table |
| MemoryGame.Game.TryFlip | script.js:192-211 | the guard and the flip for a position: described with `HandleCardClick` after the table |
| MemoryGame.Game.CheckForMatch | script.js:234-245 | described after the table |
| MemoryGame.Game.HandleMatch | script.js:247-268 | both cards become matched and stay up; `matchedPairs` grows by one and stays within the icon count; input unlocks; the game is won exactly when every card is matched |
| MemoryGame.Game.HandleMismatch | script.js:270-288 | both cards are turned back down; the pair count is unchanged; input unlocks |
| MemoryGame.Game.Tick | script.js:294-299 | an interval tick adds one second while the timer is running; the invariant holds |
| MemoryGame.Game.HandleVictory | script.js:336-348 | the timer stops; the returned best score is `UpdateBestScore(stored, moves)`; a won game took at least eight moves |

Three members need more than one table cell.

`MemoryGame.Game.HandleCardClick` (script.js:181-212):
- The first click of a game starts the timer, whether or not the click is
  later accepted.
- The result is `NoSuchCard` exactly when no card holds the id.
- Otherwise `k` is the unique position holding the id, and the click is
  accepted exactly when all of these hold:
  - input is unlocked;
  - the card is face down and unmatched;
  - fewer than two cards are pending.
- An accepted click turns that card up and appends `k` to the pending list.
  The second pending card locks input and adds one move.
- A click that is not accepted changes no card, no pending list and no
  counter.
- A won game accepts no click.

`MemoryGame.Game.TryFlip` (script.js:192-211) is the guard and the flip of
a click, once the card's position is known. It states the accept
condition and the two outcomes listed above.

`MemoryGame.Game.CheckForMatch` (script.js:234-245):
- The turn is a match exactly when the two pending cards have equal icons.
- On a match both cards become matched. On a mismatch both are turned down.
- The pair count grows by one exactly on a match.
- Input unlocks and the pending list empties.
- The move count is unchanged.

## Left out

- The DOM is left out: rendering, CSS classes, animations, the victory
  modal, `updateStats`, and the final-move and final-time texts.
- `console.log` and the event-listener wiring are left out.
- `MemoryGame.Game.HandleMismatch`: the 600 ms wait (script.js:276-287) is
  merged into the step. In the source, during that wait the pair stays face
  up with two cards pending and input locked. No model state stands for
  that interval; clicks in it are ignored by the guard either way.
- The timer steps are run in order, so the model does not capture handlers
  from two games interleaving.
  - Restarting during the 800 ms match check lets `checkForMatch` run on an
    empty `flippedCards`.
  - Restarting during the 600 ms unflip lets the stale closure clear the
    new game's pending list.
  - Restarting within the 500 ms victory delay (script.js:266) does not
    cancel it. `handleVictory` can then run on the new game, with `moves` at
    0, and store 0 as the best score (script.js:374-378).
- `restartGame` (script.js:400-414) is covered by `InitializeGame`. It
  does the same resets; the 300 ms gap before the new deck is not modelled.
- `Cards.ShuffleCards`: `Math.random` is replaced by given draws `rand[i]`
  in `0..i`. Whether the draws are uniform, and so whether the shuffle is
  unbiased, is not modelled.
- `localStorage` and `loadBestScore` are left out. The stored best score
  is an `Option<nat>` passed in and returned. `parseInt` of the stored
  text is not modelled.
- `flippedCards` holds positions into `cards` instead of references to card
  objects. Card objects are values in an array, so aliasing is not
  modelled. Positions only change when a new deck is dealt.
- `MemoryGame.Game.HandleCardClick`: an unknown id starts the timer, then
  the lookup yields `undefined`. While input is unlocked, the guard
  (script.js:193) throws a `TypeError` on `card.isFlipped`. While input is
  locked, it returns silently at `!canFlip`. Either way nothing else changes.
  The model returns `NoSuchCard` in both cases instead of raising an
  exception.
- `Cards.CreateCards` returns an empty deck for an empty icon list, as the
  code does. No error is raised for that case. The game only ever uses the
  fixed list of eight icons.
