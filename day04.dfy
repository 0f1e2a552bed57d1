/**
 * Day 4: scratchcards. A card's winners are the numbers on it that also appear among the
 * winning numbers; part 1 scores `2^(n-1)` for `n` winners, and in part 2 each winner wins a
 * copy of one of the following cards, counted through a cache keyed by card id.
 */
module Day04 {
  import Arithmetic

  datatype Card = Card(id: int, nWinners: nat)

  /** The number of entries of `numbers` that are among `winners`. */
  function Hits(winners: set<string>, numbers: seq<string>): (n: nat)
    ensures n <= |numbers|
    decreases |numbers|
  {
    if numbers == [] then 0
    else Hits(winners, numbers[..|numbers| - 1]) + if numbers[|numbers| - 1] in winners then 1 else 0
  }

  /** Every number a winner: all count; none a winner: none count. */
  lemma {:induction false} HitsExtremes(winners: set<string>, numbers: seq<string>)
    ensures (forall k :: 0 <= k < |numbers| ==> numbers[k] in winners) ==> Hits(winners, numbers) == |numbers|
    ensures (forall k :: 0 <= k < |numbers| ==> numbers[k] !in winners) ==> Hits(winners, numbers) == 0
    decreases |numbers|
  {
    if numbers != [] {
      var init := numbers[..|numbers| - 1];
      assert forall k :: 0 <= k < |init| ==> init[k] == numbers[k];
      HitsExtremes(winners, init);
    }
  }

  /** More winning numbers never mean fewer winners. */
  lemma {:induction false} HitsMonotone(a: set<string>, b: set<string>, numbers: seq<string>)
    requires a <= b
    ensures Hits(a, numbers) <= Hits(b, numbers)
    decreases |numbers|
  {
    if numbers != [] {
      HitsMonotone(a, b, numbers[..|numbers| - 1]);
    }
  }

  /**
   * The winner count of `parseInput`: a record marks every winning number, then every card
   * number found in it is counted.
   */
  method CountWinners(winners: seq<string>, numbers: seq<string>) returns (n: nat)
    ensures n == Hits((set w | w in winners), numbers)
  {
    var isWinner: map<string, bool> := map[];
    var i := 0;
    while i < |winners|
      invariant 0 <= i <= |winners|
      invariant isWinner.Keys == set w | w in winners[..i]
      invariant forall w :: w in isWinner ==> isWinner[w]
      decreases |winners| - i
    {
      assert winners[..i + 1] == winners[..i] + [winners[i]];
      isWinner := isWinner[winners[i] := true];
      i := i + 1;
    }
    assert winners[..i] == winners;
    n := 0;
    var j := 0;
    while j < |numbers|
      invariant 0 <= j <= |numbers| && n == Hits(isWinner.Keys, numbers[..j])
      decreases |numbers| - j
    {
      assert numbers[..j + 1][..j] == numbers[..j];
      if numbers[j] in isWinner && isWinner[numbers[j]] {
        n := n + 1;
      }
      j := j + 1;
    }
    assert numbers[..j] == numbers;
  }

  /** One card of `parseInput`. */
  method ParseCard(id: int, winners: seq<string>, numbers: seq<string>) returns (card: Card)
    ensures card.id == id && card.nWinners == Hits((set w | w in winners), numbers)
  {
    var n := CountWinners(winners, numbers);
    card := Card(id, n);
  }

  function Pow2(n: nat): (r: nat)
    ensures r >= 1
  {
    if n == 0 then 1 else 2 * Pow2(n - 1)
  }

  /** A card's worth in part 1: 1 point for the first winner, doubled for each further one. */
  function Worth(n: nat): nat
  {
    if n == 0 then 0 else Pow2(n - 1)
  }

  lemma WorthDoubles(n: nat)
    ensures Worth(0) == 0 && Worth(1) == 1
    ensures n >= 1 ==> Worth(n + 1) == 2 * Worth(n)
  {
  }

  function Worths(cards: seq<Card>): (r: seq<int>)
    ensures |r| == |cards| && forall k :: 0 <= k < |cards| ==> r[k] == Worth(cards[k].nWinners)
  {
    seq(|cards|, k requires 0 <= k < |cards| => Worth(cards[k].nWinners))
  }

  /** `part1`: the total worth of the cards. */
  function Part1(cards: seq<Card>): int
  {
    Arithmetic.Sum(Worths(cards))
  }

  /** A card with no winners adds nothing; one with winners adds at least a point. */
  lemma Part1Step(cards: seq<Card>, c: Card)
    ensures Part1(cards + [c]) == Part1(cards) + Worth(c.nWinners)
    ensures Part1(cards + [c]) >= Part1(cards)
  {
    assert Worths(cards + [c])[..|cards|] == Worths(cards);
  }

  /** The cards are numbered `1, 2, ...` in order, so `cards[id]` is the card after card `id`. */
  predicate Consecutive(cards: seq<Card>)
  {
    forall k :: 0 <= k < |cards| ==> cards[k].id == k + 1
  }

  /** The number of cards that card `k` ends up as: itself plus what its copies win, recursively. */
  function Score(cards: seq<Card>, k: nat): (s: nat)
    requires Consecutive(cards) && k < |cards|
    ensures s >= 1
    decreases |cards| - k, cards[k].nWinners + 1
  {
    1 + Copies(cards, k, 0)
  }

  /** What the copies won by winners `i..` of card `k` add; cards past the end are skipped. */
  function Copies(cards: seq<Card>, k: nat, i: nat): nat
    requires Consecutive(cards) && k < |cards|
    decreases |cards| - k, cards[k].nWinners - i
  {
    if i >= cards[k].nWinners then 0
    else
      var t := cards[k].id + i;
      (if t < |cards| then Score(cards, t) else 0) + Copies(cards, k, i + 1)
  }

  /** The last card wins no further cards: it scores 1. */
  lemma LastScoresOne(cards: seq<Card>)
    requires Consecutive(cards) && |cards| > 0
    ensures Score(cards, |cards| - 1) == 1
  {
    var k := |cards| - 1;
    CopiesPastEnd(cards, k, 0);
  }

  lemma {:induction false} CopiesPastEnd(cards: seq<Card>, k: nat, i: nat)
    requires Consecutive(cards) && k == |cards| - 1
    ensures Copies(cards, k, i) == 0
    decreases cards[k].nWinners - i
  {
    if i < cards[k].nWinners {
      CopiesPastEnd(cards, k, i + 1);
    }
  }

  /** A card with no winners scores 1; one winner adds exactly the next card's score. */
  lemma ScoreOneWinner(cards: seq<Card>, k: nat)
    requires Consecutive(cards) && k + 1 < |cards|
    ensures cards[k].nWinners == 0 ==> Score(cards, k) == 1
    ensures cards[k].nWinners == 1 ==> Score(cards, k) == 1 + Score(cards, k + 1)
  {
    if cards[k].nWinners == 1 {
      assert Copies(cards, k, 1) == 0;
      assert Copies(cards, k, 0) == Score(cards, k + 1);
    }
  }

  /** A cache that holds, for each card id it knows, that card's score. */
  ghost predicate Faithful(cards: seq<Card>, cache: map<int, nat>)
    requires Consecutive(cards)
  {
    forall id :: id in cache ==> 1 <= id <= |cards| && cache[id] == Score(cards, id - 1)
  }

  /**
   * `scoreCalculator.run(card)`: a cached id is answered from the cache; otherwise the score is
   * computed, recursing through the cache for every won copy, and stored under the id.
   */
  method ScoreCached(cards: seq<Card>, k: nat, cache: map<int, nat>) returns (s: nat, cache': map<int, nat>)
    requires Consecutive(cards) && k < |cards| && Faithful(cards, cache)
    ensures s == Score(cards, k)
    ensures Faithful(cards, cache') && cache.Keys <= cache'.Keys && cards[k].id in cache'
    decreases |cards| - k
  {
    var id := cards[k].id;
    if id in cache {
      return cache[id], cache;
    }
    s := 1;
    cache' := cache;
    var i := 0;
    while i < cards[k].nWinners
      invariant 0 <= i <= cards[k].nWinners
      invariant s + Copies(cards, k, i) == Score(cards, k)
      invariant Faithful(cards, cache') && cache.Keys <= cache'.Keys
      decreases cards[k].nWinners - i
    {
      var t := id + i;
      if t < |cards| {
        var c;
        c, cache' := ScoreCached(cards, t, cache');
        s := s + c;
      }
      i := i + 1;
    }
    cache' := cache'[id := s];
  }

  function Scores(cards: seq<Card>): (r: seq<int>)
    requires Consecutive(cards)
    ensures |r| == |cards| && forall k :: 0 <= k < |cards| ==> r[k] == Score(cards, k)
  {
    seq(|cards|, k requires 0 <= k < |cards| => Score(cards, k))
  }

  /** `part2`: the total number of cards, summing every card's score through one shared cache. */
  method Part2(cards: seq<Card>) returns (total: int)
    requires Consecutive(cards)
    ensures total == Arithmetic.Sum(Scores(cards))
  {
    var cache: map<int, nat> := map[];
    total := 0;
    var k := 0;
    while k < |cards|
      invariant 0 <= k <= |cards| && Faithful(cards, cache)
      invariant total == Arithmetic.Sum(Scores(cards)[..k])
      decreases |cards| - k
    {
      var s;
      s, cache := ScoreCached(cards, k, cache);
      assert Scores(cards)[..k + 1][..k] == Scores(cards)[..k];
      total := total + s;
      k := k + 1;
    }
    assert Scores(cards)[..k] == Scores(cards);
  }

  /** Every card counts at least once, so part 2 is at least the number of cards. */
  lemma {:induction false} Part2AtLeastCards(cards: seq<Card>, n: nat)
    requires Consecutive(cards) && n <= |cards|
    ensures Arithmetic.Sum(Scores(cards)[..n]) >= n
    decreases n
  {
    if n > 0 {
      assert Scores(cards)[..n][..n - 1] == Scores(cards)[..n - 1];
      Part2AtLeastCards(cards, n - 1);
    }
  }
}
