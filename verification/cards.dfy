/**
 * The board: card records, the fixed icon list, building the deck of pairs,
 * the in-place Fisher-Yates shuffle and looking a card up by its id.
 */
module Cards {
  import opened Optional

  /** One card record; `icon` is the Font Awesome class name shown on its face. */
  datatype Card = Card(id: int, icon: string, isFlipped: bool, isMatched: bool)

  /** The eight icons of the game: eight pairs, sixteen cards. */
  const CardIcons: seq<string> := [
    "fa-heart", "fa-star", "fa-rocket", "fa-crown",
    "fa-gem", "fa-bolt", "fa-fire", "fa-moon"
  ]

  ghost predicate Distinct(icons: seq<string>) {
    forall a, b :: 0 <= a < b < |icons| ==> icons[a] != icons[b]
  }

  /** No icon occurs twice in the list, so an icon determines its pair. */
  lemma CardIconsDistinct()
    ensures |CardIcons| == 8 && Distinct(CardIcons)
  {
    forall a, b | 0 <= a < b < |CardIcons| ensures CardIcons[a] != CardIcons[b] {
      assert CardIcons[a][3] != CardIcons[b][3] || CardIcons[a][4] != CardIcons[b][4];
    }
  }

  /** The deck in creation order: the card at position `k` has id `k` and the icon of pair `k / 2`. */
  function Deck(icons: seq<string>): (r: seq<Card>) {
    seq(2 * |icons|, k requires 0 <= k < 2 * |icons| => Card(k, icons[k / 2], false, false))
  }

  /**
   * Builds the deck: for the icon at index `index`, two unflipped, unmatched
   * cards with ids `2 * index` and `2 * index + 1`, in that order.
   */
  method CreateCards(icons: seq<string>) returns (cards: seq<Card>)
    ensures cards == Deck(icons)
    ensures |cards| == 2 * |icons|
    ensures forall k :: 0 <= k < |cards| ==> cards[k] == Card(k, icons[k / 2], false, false)
  {
    cards := [];
    var index := 0;
    while index < |icons|
      invariant 0 <= index <= |icons|
      invariant |cards| == 2 * index
      invariant forall k :: 0 <= k < |cards| ==> cards[k] == Card(k, icons[k / 2], false, false)
    {
      var icon := icons[index];
      cards := cards + [Card(index * 2, icon, false, false)];
      cards := cards + [Card(index * 2 + 1, icon, false, false)];
      index := index + 1;
    }
  }

  /** Exchanges the entries at positions `i` and `j`. */
  function Swap(s: seq<Card>, i: nat, j: nat): (r: seq<Card>)
    requires i < |s| && j < |s|
    ensures |r| == |s| && r[i] == s[j] && r[j] == s[i]
    ensures forall k :: 0 <= k < |s| && k != i && k != j ==> r[k] == s[k]
  {
    s[i := s[j]][j := s[i]]
  }

  /** A random draw for every step of the shuffle: the draw for step `i` lies in `0..i`. */
  predicate ValidDraws(rand: seq<nat>, n: nat) {
    |rand| == n && forall i :: 0 < i < n ==> rand[i] <= i
  }

  /**
   * The steps `i`, `i - 1`, ..., `1` of the descending Fisher-Yates loop,
   * step `i` exchanging positions `i` and `rand[i]`.
   */
  function FisherYates(s: seq<Card>, rand: seq<nat>, i: nat): (r: seq<Card>)
    requires i < |s| && ValidDraws(rand, |s|)
    decreases i
  {
    if i == 0 then s else FisherYates(Swap(s, i, rand[i]), rand, i - 1)
  }

  /** The whole shuffle of a deck, starting from its last position. */
  function Shuffled(s: seq<Card>, rand: seq<nat>): (r: seq<Card>)
    requires ValidDraws(rand, |s|)
  {
    if |s| == 0 then s else FisherYates(s, rand, |s| - 1)
  }

  lemma {:induction false} FisherYatesPermutes(s: seq<Card>, rand: seq<nat>, i: nat)
    requires i < |s| && ValidDraws(rand, |s|)
    ensures |FisherYates(s, rand, i)| == |s|
    ensures multiset(FisherYates(s, rand, i)) == multiset(s)
    decreases i
  {
    if i > 0 {
      var t := Swap(s, i, rand[i]);
      assert multiset(t) == multiset(s) by {
        assert t == s[i := s[rand[i]]][rand[i] := s[i]];
      }
      FisherYatesPermutes(t, rand, i - 1);
    }
  }

  /** The shuffle only reorders: the same cards, each as often as before. */
  lemma ShuffledIsPermutation(s: seq<Card>, rand: seq<nat>)
    requires ValidDraws(rand, |s|)
    ensures |Shuffled(s, rand)| == |s|
    ensures multiset(Shuffled(s, rand)) == multiset(s)
  {
    if |s| > 0 {
      FisherYatesPermutes(s, rand, |s| - 1);
    }
  }

  /** Steps `i` down to `1` never touch a position above `i`. */
  lemma {:induction false} FisherYatesKeepsTail(s: seq<Card>, rand: seq<nat>, i: nat, k: nat)
    requires i < k < |s| && ValidDraws(rand, |s|)
    ensures |FisherYates(s, rand, i)| == |s| && FisherYates(s, rand, i)[k] == s[k]
    decreases i
  {
    FisherYatesPermutes(s, rand, i);
    if i > 0 {
      FisherYatesKeepsTail(Swap(s, i, rand[i]), rand, i - 1, k);
    }
  }

  ghost predicate DistinctIds(s: seq<Card>) {
    forall a, b :: 0 <= a < b < |s| ==> s[a].id != s[b].id
  }

  /** The ids of the cards of `s`, in order. */
  function IdsOf(s: seq<Card>): (r: seq<int>)
    ensures |r| == |s| && forall k :: 0 <= k < |s| ==> r[k] == s[k].id
  {
    seq(|s|, k requires 0 <= k < |s| => s[k].id)
  }

  /** Pairwise distinct numbers, each in `0..m - 1`. */
  ghost predicate DistinctBelow(ids: seq<int>, m: int) {
    && (forall k :: 0 <= k < |ids| ==> 0 <= ids[k] < m)
    && (forall a, b :: 0 <= a < b < |ids| ==> ids[a] != ids[b])
  }

  /** Every occurrence of `from` replaced by `to`. */
  function Rename(ids: seq<int>, from: int, to: int): (r: seq<int>)
    ensures |r| == |ids|
    ensures forall k :: 0 <= k < |ids| ==> r[k] == if ids[k] == from then to else ids[k]
  {
    seq(|ids|, k requires 0 <= k < |ids| => if ids[k] == from then to else ids[k])
  }

  /** Pigeonhole: pairwise distinct numbers below `m` are at most `m` many. */
  lemma {:induction false} DistinctBelowFits(ids: seq<int>, m: nat)
    requires DistinctBelow(ids, m)
    ensures |ids| <= m
    decreases |ids|
  {
    if |ids| > 0 {
      // the last number `v` is dropped and `m - 1` renamed to `v`: distinct, below `m - 1`
      var v := ids[|ids| - 1];
      var t := ids[..|ids| - 1];
      var r := Rename(t, m - 1, v);
      forall k | 0 <= k < |r| ensures 0 <= r[k] < m - 1 {
        assert t[k] == ids[k] != v;
      }
      forall a, b | 0 <= a < b < |r| ensures r[a] != r[b] {
        assert t[a] == ids[a] != v && t[b] == ids[b] != v && t[a] != t[b];
      }
      DistinctBelowFits(r, m - 1);
    }
  }

  /** `n` pairwise distinct numbers below `n` are all of `0..n - 1`. */
  lemma DistinctBelowCovers(ids: seq<int>)
    requires DistinctBelow(ids, |ids|)
    ensures forall d :: 0 <= d < |ids| ==> d in ids
  {
    forall d | 0 <= d < |ids| ensures d in ids {
      if d !in ids {
        // renaming the largest number to the missing `d` would fit `n` numbers below `n - 1`
        var r := Rename(ids, |ids| - 1, d);
        forall k | 0 <= k < |r| ensures 0 <= r[k] < |ids| - 1 {
          assert ids[k] != d;
        }
        DistinctBelowFits(r, |ids| - 1);
      }
    }
  }

  /** A deck with pairwise distinct ids, all below its size, holds a card with each id in range. */
  lemma IdsCoverRange(s: seq<Card>, d: int)
    requires DistinctIds(s) && forall k :: 0 <= k < |s| ==> 0 <= s[k].id < |s|
    requires 0 <= d < |s|
    ensures exists m :: 0 <= m < |s| && s[m].id == d
  {
    var ids := IdsOf(s);
    DistinctBelowCovers(ids);
    assert d in ids;
  }

  /** The shuffle keeps the ids of a deck pairwise distinct. */
  lemma ShuffledKeepsIdsDistinct(s: seq<Card>, rand: seq<nat>)
    requires ValidDraws(rand, |s|) && DistinctIds(s)
    ensures DistinctIds(Shuffled(s, rand))
  {
    if |s| > 0 {
      FisherYatesKeepsIdsDistinct(s, rand, |s| - 1);
    }
  }

  /** Reordering keeps the ids of the deck pairwise distinct. */
  lemma {:induction false} FisherYatesKeepsIdsDistinct(s: seq<Card>, rand: seq<nat>, i: nat)
    requires i < |s| && ValidDraws(rand, |s|) && DistinctIds(s)
    ensures DistinctIds(FisherYates(s, rand, i))
    decreases i
  {
    if i > 0 {
      var t := Swap(s, i, rand[i]);
      forall a, b | 0 <= a < b < |t| ensures t[a].id != t[b].id {
        var a' := if a == i then rand[i] else if a == rand[i] then i else a;
        var b' := if b == i then rand[i] else if b == rand[i] then i else b;
        assert t[a] == s[a'] && t[b] == s[b'] && a' != b';
      }
      FisherYatesKeepsIdsDistinct(t, rand, i - 1);
    }
  }

  /**
   * The in-place shuffle: for `i` from the last index down to 1, exchange
   * `a[i]` with `a[rand[i]]`, where `rand[i]` stands for the random draw
   * `Math.floor(Math.random() * (i + 1))`.
   */
  method ShuffleCards(a: array<Card>, rand: seq<nat>)
    requires ValidDraws(rand, a.Length)
    modifies a
    ensures a[..] == Shuffled(old(a[..]), rand)
    ensures multiset(a[..]) == multiset(old(a[..]))
  {
    var i := a.Length - 1;
    while i > 0
      invariant a.Length > 0 ==> 0 <= i < a.Length
      invariant a.Length > 0 ==> FisherYates(a[..], rand, i) == Shuffled(old(a[..]), rand)
      invariant a.Length == 0 ==> a[..] == old(a[..])
    {
      var j := rand[i];
      ghost var before := a[..];
      a[i], a[j] := a[j], a[i];
      assert a[..] == Swap(before, i, j);
      i := i - 1;
    }
    ShuffledIsPermutation(old(a[..]), rand);
  }

  /** A new array holding the deck for `icons`, shuffled with the draws `rand`. */
  method DealCards(icons: seq<string>, rand: seq<nat>) returns (a: array<Card>)
    requires ValidDraws(rand, 2 * |icons|)
    ensures fresh(a) && a[..] == Shuffled(Deck(icons), rand)
  {
    var deck := CreateCards(icons);
    a := new Card[|deck|](k requires 0 <= k < |deck| => deck[k]);
    assert a[..] == deck;
    ShuffleCards(a, rand);
  }

  /** `cards.find(c => c.id === cardId)`: the first position holding that id, if any. */
  method FindCard(cards: array<Card>, cardId: int) returns (r: Option<nat>)
    ensures r.Some? ==> r.value < cards.Length && cards[r.value].id == cardId
    ensures r.Some? ==> forall k :: 0 <= k < r.value ==> cards[k].id != cardId
    ensures r.None? <==> forall k :: 0 <= k < cards.Length ==> cards[k].id != cardId
  {
    var k := 0;
    while k < cards.Length
      invariant 0 <= k <= cards.Length
      invariant forall m :: 0 <= m < k ==> cards[m].id != cardId
    {
      if cards[k].id == cardId {
        return Some(k);
      }
      k := k + 1;
    }
    return None;
  }
}
