/**
 * Day 7: Camel Cards. Every hand gets a type (five of a kind down to high card) and a score
 * whose base-16 digits are the type and then each card's strength; rounds are ranked by
 * ascending score and each bid is multiplied by its rank. In joker mode 'J' is the weakest card
 * but may stand for any other label when the type is decided.
 */
module Day07 {
  import Arithmetic
  import Sorting

  datatype Round = Round(hand: string, bid: int)

  /** `cardLabels`, strongest first. */
  function Labels(withJoker: bool): (labels: string)
    ensures |labels| == 13
  {
    if withJoker then "AKQT98765432J" else "AKQJT98765432"
  }

  /** The position of `c` in `s`, or `|s|` when it does not occur. */
  function IndexOf(s: string, c: char): (i: nat)
    ensures i <= |s| && (i < |s| ==> s[i] == c) && forall j :: 0 <= j < i ==> s[j] != c
    decreases |s|
  {
    if s == [] then 0 else if s[0] == c then 0 else 1 + IndexOf(s[1..], c)
  }

  /** `scoreCard`: the 1-based position in the reversed labels, or 0 for an unknown card. */
  function Strength(c: char, withJoker: bool): nat
  {
    var labels := Labels(withJoker);
    if c in labels then |labels| - IndexOf(labels, c) else 0
  }

  /** Every known label has a strength from 1 to 13, so it fits in one base-16 digit. */
  lemma StrengthRange(c: char, withJoker: bool)
    ensures c in Labels(withJoker) ==> 1 <= Strength(c, withJoker) <= 13
    ensures c !in Labels(withJoker) ==> Strength(c, withJoker) == 0
  {
  }

  /** Different labels have different strengths. */
  lemma StrengthInjective(c: char, d: char, withJoker: bool)
    requires c in Labels(withJoker) && d in Labels(withJoker) && c != d
    ensures Strength(c, withJoker) != Strength(d, withJoker)
  {
  }

  /** In joker mode 'J' is the weakest card. */
  lemma JokerWeakest(c: char)
    requires c in Labels(true) && c != 'J'
    ensures Strength('J', true) == 1 < Strength(c, true)
  {
    var labels := Labels(true);
    assert labels[12] == 'J';
    assert forall j :: 0 <= j < 12 ==> labels[j] != 'J';
  }

  lemma {:induction false} IndexOfAppend(x: string, y: string, c: char)
    ensures IndexOf(x + y, c) == if c in x then IndexOf(x, c) else |x| + IndexOf(y, c)
    decreases |x|
  {
    if x != [] {
      assert (x + y)[0] == x[0] && (x + y)[1..] == x[1..] + y;
      IndexOfAppend(x[1..], y, c);
    } else {
      assert x + y == y;
    }
  }

  /**
   * Moving 'J' to the end leaves 'A', 'K' and 'Q' where they were (strength 11 and up) and
   * raises the strength of 'T' down to '2' by one.
   */
  lemma StrengthShift(c: char)
    requires c in Labels(false) && c != 'J'
    ensures (Strength(c, false) >= 11 && Strength(c, true) == Strength(c, false))
      || (Strength(c, false) <= 9 && Strength(c, true) == Strength(c, false) + 1)
  {
    var top, mid := "AKQ", "T98765432";
    assert Labels(true) == top + (mid + "J");
    assert Labels(false) == (top + "J") + mid;
    IndexOfAppend(top, mid + "J", c);
    IndexOfAppend(top + "J", mid, c);
    if c in top {
      IndexOfAppend(top, "J", c);
    } else {
      assert c in mid;
      IndexOfAppend(mid, "J", c);
      IndexOfAppend(top, "J", c);
    }
  }

  /** Apart from 'J', the two modes rank every pair of labels alike. */
  lemma StrengthOrderKept(c: char, d: char)
    requires c in Labels(false) && d in Labels(false) && c != 'J' && d != 'J'
    ensures Strength(c, true) < Strength(d, true) <==> Strength(c, false) < Strength(d, false)
  {
    StrengthShift(c);
    StrengthShift(d);
  }

  /** The number of copies of `c` in the hand. */
  function Occurrences(hand: string, c: char): (n: nat)
    ensures n <= |hand| && (n > 0 <==> c in hand)
    decreases |hand|
  {
    if hand == [] then 0
    else Occurrences(hand[..|hand| - 1], c) + if hand[|hand| - 1] == c then 1 else 0
  }

  /** What `countCards` builds: every label of the hand with its number of copies. */
  function Counts(hand: string): map<char, nat>
  {
    map c | c in hand :: Occurrences(hand, c)
  }

  /** `countCards`: the `reduce` that creates an entry at 0 on first sight and increments it. */
  method CountCards(hand: string) returns (acc: map<char, nat>)
    ensures acc == Counts(hand)
  {
    acc := map[];
    var i := 0;
    while i < |hand|
      invariant 0 <= i <= |hand| && acc == Counts(hand[..i])
      decreases |hand| - i
    {
      var card := hand[i];
      assert hand[..i + 1][..i] == hand[..i];
      if card !in acc {
        acc := acc[card := 0];
      }
      acc := acc[card := acc[card] + 1];
      i := i + 1;
    }
    assert hand[..i] == hand;
  }

  /** Two different labels together have at most as many copies as there are cards. */
  lemma {:induction false} OccurrencesPair(hand: string, a: char, b: char)
    requires a != b
    ensures Occurrences(hand, a) + Occurrences(hand, b) <= |hand|
    decreases |hand|
  {
    if hand != [] {
      OccurrencesPair(hand[..|hand| - 1], a, b);
    }
  }

  /** The same for three different labels. */
  lemma {:induction false} OccurrencesTriple(hand: string, a: char, b: char, c: char)
    requires a != b && b != c && a != c
    ensures Occurrences(hand, a) + Occurrences(hand, b) + Occurrences(hand, c) <= |hand|
    decreases |hand|
  {
    if hand != [] {
      OccurrencesTriple(hand[..|hand| - 1], a, b, c);
    }
  }

  /** `isNOfKind`: some label occurs exactly `n` times. */
  predicate NOfKind(hand: string, n: nat)
  {
    exists c :: c in hand && Occurrences(hand, c) == n
  }

  /** The labels occurring at least twice. */
  function PairsOrTriples(hand: string): set<char>
  {
    set c | c in hand && Occurrences(hand, c) >= 2
  }

  /** The labels occurring exactly twice. */
  function Pairs(hand: string): set<char>
  {
    set c | c in hand && Occurrences(hand, c) == 2
  }

  /** "Full house": exactly two labels with at least two copies, one of them with three. */
  predicate FullHouse(hand: string)
  {
    |PairsOrTriples(hand)| == 2 && exists c :: c in PairsOrTriples(hand) && Occurrences(hand, c) == 3
  }

  /** "Two pair": exactly two labels with exactly two copies. */
  predicate TwoPair(hand: string)
  {
    |Pairs(hand)| == 2
  }

  /** On five cards a full house is three of one label and two of another. */
  lemma FullHouseOfFive(hand: string)
    requires |hand| == 5
    ensures FullHouse(hand) <==> exists a, b :: a in hand && b in hand && a != b && Occurrences(hand, a) == 3 && Occurrences(hand, b) == 2
  {
    var s := PairsOrTriples(hand);
    if FullHouse(hand) {
      var a :| a in s && Occurrences(hand, a) == 3;
      assert s - {a} != {} by {
        assert |s - {a}| == 1;
      }
      var b :| b in s - {a};
      OccurrencesPair(hand, a, b);
      assert Occurrences(hand, b) == 2;
    }
    if exists a, b :: a in hand && b in hand && a != b && Occurrences(hand, a) == 3 && Occurrences(hand, b) == 2 {
      var a, b :| a in hand && b in hand && a != b && Occurrences(hand, a) == 3 && Occurrences(hand, b) == 2;
      forall c | c in s
        ensures c == a || c == b
      {
        if c != a && c != b {
          OccurrencesTriple(hand, a, b, c);
        }
      }
      assert s == {a, b};
    }
  }

  /** The number of hand types in `orderedHands`. */
  const TypeCount := 7

  const Names: seq<string> := ["Five of a kind", "Four of a kind", "Full house", "Three of a kind", "Two pair", "One pair", "High card"]

  /** `orderedHands[t].matchesHand`; type 6, "High card", matches every hand. */
  predicate Matches(t: nat, hand: string)
  {
    if t == 0 then NOfKind(hand, 5)
    else if t == 1 then NOfKind(hand, 4)
    else if t == 2 then FullHouse(hand)
    else if t == 3 then NOfKind(hand, 3)
    else if t == 4 then TwoPair(hand)
    else if t == 5 then NOfKind(hand, 2)
    else true
  }

  /** The hand with every 'J' replaced by `c`. */
  function Replace(hand: string, c: char): (r: string)
    ensures |r| == |hand| && forall k :: 0 <= k < |hand| ==> r[k] == if hand[k] == 'J' then c else hand[k]
  {
    seq(|hand|, k requires 0 <= k < |hand| => if hand[k] == 'J' then c else hand[k])
  }

  /**
   * `isMatch`: the hand itself matches, or, in joker mode, the hand with all its 'J's replaced
   * by one and the same non-'J' label does.
   */
  predicate IsMatch(t: nat, hand: string, withJoker: bool)
  {
    var labels := Labels(true);
    (!withJoker && Matches(t, hand))
    || (withJoker && exists k :: 0 <= k < |labels| && labels[k] != 'J' && Matches(t, Replace(hand, labels[k])))
  }

  /** The first type from `t` on that the hand matches. */
  function FirstMatch(hand: string, withJoker: bool, t: nat): (r: nat)
    requires t < TypeCount
    ensures t <= r < TypeCount && IsMatch(r, hand, withJoker)
    ensures forall j :: t <= j < r ==> !IsMatch(j, hand, withJoker)
    decreases TypeCount - t
  {
    if t == TypeCount - 1 then
      assert Labels(true)[0] != 'J';
      t
    else if IsMatch(t, hand, withJoker) then t
    else FirstMatch(hand, withJoker, t + 1)
  }

  /** The index in `orderedHands` of the hand's type: the first one it matches. */
  function HandType(hand: string, withJoker: bool): nat
  {
    FirstMatch(hand, withJoker, 0)
  }

  /** The number whose base-16 digits, most significant first, are `digits`. */
  function HexValue(digits: seq<nat>): nat
    decreases |digits|
  {
    if digits == [] then 0 else digits[0] * Pow16(|digits| - 1) + HexValue(digits[1..])
  }

  function Pow16(k: nat): (p: nat)
    ensures p >= 1
  {
    if k == 0 then 1 else 16 * Pow16(k - 1)
  }

  predicate HexDigits(digits: seq<nat>)
  {
    forall k :: 0 <= k < |digits| ==> digits[k] < 16
  }

  /** The strength of each card, in order. */
  function Strengths(hand: string, withJoker: bool): (r: seq<nat>)
    ensures |r| == |hand| && forall k :: 0 <= k < |hand| ==> r[k] == Strength(hand[k], withJoker)
  {
    seq(|hand|, k requires 0 <= k < |hand| => Strength(hand[k], withJoker))
  }

  /** The type digit, `orderedHands.length - index`, then the card digits. */
  function ScoreDigits(hand: string, withJoker: bool): seq<nat>
  {
    [TypeCount - HandType(hand, withJoker)] + Strengths(hand, withJoker)
  }

  /** `calculateHandScore(hand).score`: the digits read by `parseInt(hexScore, 16)`. */
  function Score(hand: string, withJoker: bool): nat
  {
    HexValue(ScoreDigits(hand, withJoker))
  }

  /**
   * The loop of `calculateHandScore`: tries the types strongest first and stops at the first
   * match. Since "High card" always matches, the search always succeeds.
   */
  method FindHandType(hand: string, withJoker: bool) returns (index: nat)
    ensures index == HandType(hand, withJoker)
  {
    index := 0;
    while index < TypeCount
      invariant index <= HandType(hand, withJoker)
      decreases TypeCount - index
    {
      if IsMatch(index, hand, withJoker) {
        return;
      }
      index := index + 1;
    }
    assert false;
  }

  /** `calculateHandScore`: the type found, then the hex digits of the type and the cards. */
  method CalculateHandScore(hand: string, withJoker: bool) returns (score: nat, handName: string)
    ensures score == Score(hand, withJoker) && handName == Names[HandType(hand, withJoker)]
  {
    var index := FindHandType(hand, withJoker);
    var digits := [TypeCount - index] + Strengths(hand, withJoker);
    score := HexValue(digits);
    handName := Names[index];
  }

  /** `a` comes before `b` in lexicographic order (for sequences of the same length). */
  predicate LexLess(a: seq<nat>, b: seq<nat>)
    requires |a| == |b|
    decreases |a|
  {
    a != [] && (a[0] < b[0] || (a[0] == b[0] && LexLess(a[1..], b[1..])))
  }

  lemma {:induction false} HexValueBound(digits: seq<nat>)
    requires HexDigits(digits)
    ensures HexValue(digits) < Pow16(|digits|)
    decreases |digits|
  {
    if digits != [] {
      HexValueBound(digits[1..]);
      LeadingDigit(digits[0], 15, Pow16(|digits| - 1), HexValue(digits[1..]));
    }
  }

  /** A number with a smaller leading digit and a bounded rest stays below the next digit. */
  lemma LeadingDigit(d: nat, e: nat, p: nat, rest: nat)
    requires d <= e && rest < p
    ensures d * p + rest < (e + 1) * p
  {
    assert d * p <= e * p;
  }

  /**
   * Scores of the same number of digits compare like the digit sequences, lexicographically,
   * and different digit sequences never share a value.
   */
  lemma {:induction false} HexValueOrder(a: seq<nat>, b: seq<nat>)
    requires |a| == |b| && HexDigits(a) && HexDigits(b)
    ensures HexValue(a) < HexValue(b) <==> LexLess(a, b)
    ensures HexValue(a) == HexValue(b) <==> a == b
    decreases |a|
  {
    if a != [] {
      var p := Pow16(|a| - 1);
      HexValueBound(a[1..]);
      HexValueBound(b[1..]);
      HexValueOrder(a[1..], b[1..]);
      if a[0] < b[0] {
        LeadingDigit(a[0], b[0] - 1, p, HexValue(a[1..]));
        assert HexValue(a) < HexValue(b);
      } else if b[0] < a[0] {
        LeadingDigit(b[0], a[0] - 1, p, HexValue(b[1..]));
        assert HexValue(b) < HexValue(a);
      } else {
        assert a == [a[0]] + a[1..] && b == [b[0]] + b[1..];
      }
    }
  }

  /**
   * For hands of the same length, a higher score means a stronger type, or the same type and
   * stronger cards at the first position where the hands differ.
   */
  lemma ScoreOrder(a: string, b: string, withJoker: bool)
    requires |a| == |b|
    ensures Score(a, withJoker) < Score(b, withJoker) <==> LexLess(ScoreDigits(a, withJoker), ScoreDigits(b, withJoker))
    ensures Score(a, withJoker) == Score(b, withJoker) <==> (HandType(a, withJoker) == HandType(b, withJoker) && Strengths(a, withJoker) == Strengths(b, withJoker))
  {
    forall c ensures Strength(c, withJoker) <= 13 {
      StrengthRange(c, withJoker);
    }
    HexValueOrder(ScoreDigits(a, withJoker), ScoreDigits(b, withJoker));
    var da, db := ScoreDigits(a, withJoker), ScoreDigits(b, withJoker);
    assert da == db ==> da[1..] == db[1..];
  }

  /** A hand without 'J' gets the same type in both modes. */
  lemma NoJokerSameType(hand: string)
    requires 'J' !in hand
    ensures HandType(hand, true) == HandType(hand, false)
  {
    var labels := Labels(true);
    forall k | 0 <= k < |labels|
      ensures Replace(hand, labels[k]) == hand
    {
      ReplaceWithoutJoker(hand, labels[k]);
    }
    forall t: nat
      ensures IsMatch(t, hand, true) <==> IsMatch(t, hand, false)
    {
      assert labels[0] == 'A';
    }
    SameFirstMatch(hand, 0);
  }

  /** Replacing the 'J's of a hand that has none changes nothing. */
  lemma ReplaceWithoutJoker(hand: string, c: char)
    requires 'J' !in hand
    ensures Replace(hand, c) == hand
  {
  }

  lemma {:induction false} SameFirstMatch(hand: string, t: nat)
    requires t < TypeCount
    requires forall j: nat :: IsMatch(j, hand, true) <==> IsMatch(j, hand, false)
    ensures FirstMatch(hand, true, t) == FirstMatch(hand, false, t)
    decreases TypeCount - t
  {
    if t < TypeCount - 1 && !IsMatch(t, hand, true) {
      SameFirstMatch(hand, t + 1);
    }
  }

  datatype Scored = Scored(bid: int, score: nat)

  function ScoreKey(r: Scored): int
  {
    r.score
  }

  /** Each round's bid with its score, in input order. */
  function ScoredRounds(rounds: seq<Round>, withJoker: bool): (r: seq<Scored>)
    ensures |r| == |rounds|
    decreases |rounds|
  {
    if rounds == [] then []
    else
      var last := rounds[|rounds| - 1];
      ScoredRounds(rounds[..|rounds| - 1], withJoker) + [Scored(last.bid, Score(last.hand, withJoker))]
  }

  lemma ScoredRoundsStep(rounds: seq<Round>, i: nat, withJoker: bool)
    requires i < |rounds|
    ensures ScoredRounds(rounds[..i + 1], withJoker)
      == ScoredRounds(rounds[..i], withJoker) + [Scored(rounds[i].bid, Score(rounds[i].hand, withJoker))]
  {
    assert rounds[..i + 1][..i] == rounds[..i];
  }

  /** Each round's bid times its rank, `index + 1`. */
  function Payouts(ranked: seq<Scored>): (r: seq<int>)
    ensures |r| == |ranked| && forall k :: 0 <= k < |ranked| ==> r[k] == ranked[k].bid * (k + 1)
  {
    seq(|ranked|, k requires 0 <= k < |ranked| => ranked[k].bid * (k + 1))
  }

  function Bids(ranked: seq<Scored>): (r: seq<int>)
    ensures |r| == |ranked| && forall k :: 0 <= k < |ranked| ==> r[k] == ranked[k].bid
  {
    seq(|ranked|, k requires 0 <= k < |ranked| => ranked[k].bid)
  }

  /** The total winnings of the rounds once sorted by ascending score. */
  function TotalWinnings(rounds: seq<Round>, withJoker: bool): int
  {
    Arithmetic.Sum(Payouts(Sorting.SortBy(ScoredRounds(rounds, withJoker), ScoreKey)))
  }

  /** The `scoredRounds` map of `calculateTotalWinnings`, scoring each hand with the search. */
  method ScoreRounds(rounds: seq<Round>, withJoker: bool) returns (scoredRounds: seq<Scored>)
    ensures scoredRounds == ScoredRounds(rounds, withJoker)
  {
    scoredRounds := [];
    var i := 0;
    while i < |rounds|
      invariant 0 <= i <= |rounds| && scoredRounds == ScoredRounds(rounds[..i], withJoker)
      decreases |rounds| - i
    {
      var score, _ := CalculateHandScore(rounds[i].hand, withJoker);
      ScoredRoundsStep(rounds, i, withJoker);
      scoredRounds := scoredRounds + [Scored(rounds[i].bid, score)];
      i := i + 1;
    }
    assert rounds[..i] == rounds;
  }

  /** `calculateTotalWinnings`: scores every round, sorts by score and pays bid times rank. */
  method CalculateTotalWinnings(rounds: seq<Round>, withJoker: bool) returns (total: int)
    ensures total == TotalWinnings(rounds, withJoker)
  {
    var scoredRounds := ScoreRounds(rounds, withJoker);
    var sortedRounds := Sorting.SortBy(scoredRounds, ScoreKey);
    total := Arithmetic.Sum(Payouts(sortedRounds));
  }

  /** The ranking lists every scored round once, weakest first. */
  lemma RankedRounds(rounds: seq<Round>, withJoker: bool)
    ensures var ranked := Sorting.SortBy(ScoredRounds(rounds, withJoker), ScoreKey);
      multiset(ranked) == multiset(ScoredRounds(rounds, withJoker)) && Sorting.SortedBy(ranked, ScoreKey)
  {
    Sorting.SortBySortsAndPermutes(ScoredRounds(rounds, withJoker), ScoreKey);
  }

  /** With non-negative bids each bid is paid at least once and at most `n` times. */
  lemma {:induction false} PayoutsBounds(ranked: seq<Scored>)
    requires forall k :: 0 <= k < |ranked| ==> ranked[k].bid >= 0
    ensures Arithmetic.Sum(Bids(ranked)) <= Arithmetic.Sum(Payouts(ranked)) <= |ranked| * Arithmetic.Sum(Bids(ranked))
    decreases |ranked|
  {
    if ranked != [] {
      var init := ranked[..|ranked| - 1];
      var last := ranked[|ranked| - 1];
      assert Bids(ranked)[..|init|] == Bids(init);
      assert Payouts(ranked)[..|init|] == Payouts(init);
      PayoutsBounds(init);
      Arithmetic.SumNonNegative(Bids(init));
      PayoutStep(|init|, Arithmetic.Sum(Bids(init)), Arithmetic.Sum(Payouts(init)), last.bid);
    }
  }

  lemma PayoutStep(n: nat, bids: int, payouts: int, bid: int)
    requires bid >= 0 && bids >= 0 && bids <= payouts <= n * bids
    ensures bids + bid <= payouts + bid * (n + 1) <= (n + 1) * (bids + bid)
  {
    assert bid <= bid * (n + 1);
    assert bid * (n + 1) == n * bid + bid;
    assert (n + 1) * (bids + bid) == n * bids + n * bid + bids + bid;
  }
}
