/**
 * The best-score rule applied at victory: the stored best is replaced when
 * nothing is stored yet or when the finished game took strictly fewer moves.
 */
module Score {
  import opened Optional

  /** The value stored after a game finished in `current` moves. */
  function UpdateBestScore(stored: Option<nat>, current: nat): (r: Option<nat>)
    ensures r.Some? && r.value <= current
    ensures stored.Some? ==> r.value <= stored.value
    ensures r == stored || r == Some(current)
    ensures r != stored <==> stored.None? || current < stored.value
  {
    if stored.None? || current < stored.value then Some(current) else stored
  }

  /** The stored value after a series of won games, oldest first. */
  function BestAfter(stored: Option<nat>, games: seq<nat>): (r: Option<nat>)
    decreases |games|
  {
    if |games| == 0 then stored
    else BestAfter(UpdateBestScore(stored, games[0]), games[1..])
  }

  /**
   * Repeating the rule keeps the minimum: after any series of games the
   * stored value is one of the scores seen and no larger than any of them.
   */
  lemma {:induction false} BestAfterIsMinimum(stored: Option<nat>, games: seq<nat>)
    ensures BestAfter(stored, games).Some? <==> stored.Some? || |games| > 0
    ensures forall k :: 0 <= k < |games| ==> BestAfter(stored, games).value <= games[k]
    ensures stored.Some? ==> BestAfter(stored, games).value <= stored.value
    ensures BestAfter(stored, games) == stored || BestAfter(stored, games).value in games
    decreases |games|
  {
    if |games| > 0 {
      var next := UpdateBestScore(stored, games[0]);
      BestAfterIsMinimum(next, games[1..]);
      forall k | 0 <= k < |games| ensures BestAfter(stored, games).value <= games[k] {
        if k > 0 {
          assert games[k] == games[1..][k - 1];
        }
      }
      if BestAfter(next, games[1..]) != next {
        assert BestAfter(next, games[1..]).value in games[1..];
      }
    }
  }
}
