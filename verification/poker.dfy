/** Poker hands: a card is a two-character code, rank then suit (`TH` is the
    ten of hearts, `?B` and `?R` are the black and red jokers).  This module
    holds the per-hand evaluation: the numeric ranks, the flush, straight and
    n-of-a-kind tests, and the category ranking `hand_rank`. */
module Poker {
  import opened Wrappers
  import opened Sorting

  type Card = string

  /** The rank characters in increasing order of value; `?` is the joker. */
  const RankChars: string := "23456789TJQKA?"

  const Suits: string := "CSHD"

  /** A card of the deck or a joker. */
  predicate ValidCard(card: Card) {
    || (|card| == 2 && card[0] in RankChars[..13] && card[1] in Suits)
    || card == "?B" || card == "?R"
  }

  predicate ValidHand(hand: seq<Card>) {
    forall i :: 0 <= i < |hand| ==> ValidCard(hand[i])
  }

  /** `int(PICTURE_RANKS.get(c, c))`. */
  function RankValue(c: char): (v: int)
    requires c in RankChars
    ensures 2 <= v <= 15
  {
    match c
    case 'T' => 10
    case 'J' => 11
    case 'Q' => 12
    case 'K' => 13
    case 'A' => 14
    case '?' => 15
    case _ => c as int - '0' as int
  }

  /** The ranks count up from 2 along `RankChars`, so distinct rank
      characters have distinct values. */
  lemma RankValueOrder()
    ensures forall i :: 0 <= i < |RankChars| ==> RankValue(RankChars[i]) == i + 2
  {
  }

  lemma RankValueInjective(a: char, b: char)
    requires a in RankChars && b in RankChars && RankValue(a) == RankValue(b)
    ensures a == b
  {
    RankValueOrder();
    var i :| 0 <= i < |RankChars| && RankChars[i] == a;
    var j :| 0 <= j < |RankChars| && RankChars[j] == b;
  }

  /** The ranks of the cards, in hand order. */
  function RawRanks(hand: seq<Card>): (r: seq<int>)
    requires ValidHand(hand)
    ensures |r| == |hand|
    ensures forall i :: 0 <= i < |hand| ==> r[i] == RankValue(hand[i][0])
  {
    seq(|hand|, i requires 0 <= i < |hand| => RankValue(hand[i][0]))
  }

  function IntKey(x: int): real {
    x as real
  }

  /** `card_ranks`: the ranks sorted from largest to smallest. */
  function CardRanks(hand: seq<Card>): (r: seq<int>)
    requires ValidHand(hand)
    ensures |r| == |hand|
    ensures multiset(r) == multiset(RawRanks(hand))
    ensures forall i, j :: 0 <= i < j < |r| ==> r[i] >= r[j]
  {
    var r := SortDesc(RawRanks(hand), IntKey);
    SortDescSorts(RawRanks(hand), IntKey);
    assert forall i, j :: 0 <= i < j < |r| ==> IntKey(r[i]) >= IntKey(r[j]);
    r
  }

  /** `flush`: the set of suit characters has exactly one element. */
  function Flush(hand: seq<Card>): bool
    requires ValidHand(hand)
  {
    |set i | 0 <= i < |hand| :: hand[i][1]| == 1
  }

  /** A flush is a non-empty hand whose cards all have one suit. */
  lemma FlushMeaning(hand: seq<Card>)
    requires ValidHand(hand)
    ensures Flush(hand) <==> |hand| > 0 && forall i :: 0 <= i < |hand| ==> hand[i][1] == hand[0][1]
  {
    var suits := set i | 0 <= i < |hand| :: hand[i][1];
    if |hand| > 0 && forall i :: 0 <= i < |hand| ==> hand[i][1] == hand[0][1] {
      assert suits == {hand[0][1]};
    } else if |hand| == 0 {
      assert suits == {};
    } else {
      var i :| 0 <= i < |hand| && hand[i][1] != hand[0][1];
      assert {hand[0][1], hand[i][1]} <= suits;
      assert |{hand[0][1], hand[i][1]}| == 2;
      CardinalityMono({hand[0][1], hand[i][1]}, suits);
    }
  }

  lemma CardinalityMono<T>(a: set<T>, b: set<T>)
    requires a <= b
    ensures |a| <= |b|
  {
    assert b == a + (b - a);
  }

  function Abs(x: int): nat {
    if x < 0 then -x else x
  }

  /** `straight`: the scan stops at the first neighbouring pair whose
      ranks do not differ by exactly one. */
  function Straight(ranks: seq<int>): bool {
    if |ranks| < 2 then true
    else Abs(ranks[0] - ranks[1]) == 1 && Straight(ranks[1..])
  }

  /** A straight is a sequence in which every two neighbours differ by one. */
  lemma {:induction false} StraightMeaning(ranks: seq<int>)
    ensures Straight(ranks) <==> forall i :: 0 <= i < |ranks| - 1 ==> Abs(ranks[i] - ranks[i + 1]) == 1
  {
    if |ranks| >= 2 {
      StraightMeaning(ranks[1..]);
      assert forall i :: 1 <= i < |ranks| - 1 ==> ranks[1..][i - 1] == ranks[i] && ranks[1..][i] == ranks[i + 1];
    }
  }

  /** On ranks sorted from largest to smallest, a straight is a run counting
      down by one from the highest rank; there is no ace-low straight. */
  lemma {:induction false} StraightIsRun(ranks: seq<int>)
    requires forall i, j :: 0 <= i < j < |ranks| ==> ranks[i] >= ranks[j]
    ensures Straight(ranks) <==> forall i :: 0 <= i < |ranks| ==> ranks[i] == ranks[0] - i
  {
    StraightMeaning(ranks);
    if Straight(ranks) {
      var i := 0;
      while i < |ranks|
        invariant 0 <= i <= |ranks|
        invariant forall j :: 0 <= j < i ==> ranks[j] == ranks[0] - j
      {
        if i > 0 {
          assert Abs(ranks[i - 1] - ranks[i]) == 1;
        }
        i := i + 1;
      }
    }
    if forall i :: 0 <= i < |ranks| ==> ranks[i] == ranks[0] - i {
      forall i | 0 <= i < |ranks| - 1
        ensures Abs(ranks[i] - ranks[i + 1]) == 1
      {
        assert ranks[i] == ranks[0] - i && ranks[i + 1] == ranks[0] - (i + 1);
      }
    }
  }

  /** How often `x` occurs in `s` (`s.count(x)`). */
  function Count(s: seq<int>, x: int): nat {
    multiset(s)[x]
  }

  predicate NoDups(s: seq<int>) {
    forall i, j :: 0 <= i < j < |s| ==> s[i] != s[j]
  }

  /** The distinct elements of `s` in order of first occurrence; this stands
      for the iteration order of `set(s)`. */
  function Dedup(s: seq<int>): (r: seq<int>)
    ensures forall x :: x in r <==> x in s
    ensures NoDups(r)
  {
    if s == [] then []
    else
      var d := Dedup(s[..|s| - 1]);
      assert forall x :: x in s <==> x in s[..|s| - 1] || x == s[|s| - 1];
      if s[|s| - 1] in d then d else d + [s[|s| - 1]]
  }

  /** `[x for x in cands if ranks.count(x) == n]`. */
  function Select(cands: seq<int>, ranks: seq<int>, n: nat): (r: seq<int>)
    ensures forall x :: x in r <==> x in cands && Count(ranks, x) == n
    ensures NoDups(cands) ==> NoDups(r)
  {
    if cands == [] then []
    else
      var rest := Select(cands[1..], ranks, n);
      assert forall x :: x in cands <==> x == cands[0] || x in cands[1..];
      if Count(ranks, cands[0]) == n then
        assert NoDups(cands) ==> cands[0] !in cands[1..];
        [cands[0]] + rest
      else rest
  }

  /** The ranks occurring exactly `n` times, each once. */
  function WithCount(ranks: seq<int>, n: nat): (r: seq<int>)
    ensures NoDups(r)
    ensures forall x :: x in r <==> x in ranks && Count(ranks, x) == n
  {
    Select(Dedup(ranks), ranks, n)
  }

  lemma WithCountMember(ranks: seq<int>, n: nat, x: int)
    requires x in WithCount(ranks, n)
    ensures x in ranks && Count(ranks, x) == n
  {
  }

  /** `kind(n, ranks)`: the first of the ranks occurring exactly `n` times,
      if any. */
  function Kind(n: nat, ranks: seq<int>): Option<int> {
    var f := WithCount(ranks, n);
    if |f| > 0 then Some(f[0]) else None
  }

  /** `kind` gives a rank occurring exactly `n` times, and nothing only when
      there is none. */
  lemma KindMeaning(n: nat, ranks: seq<int>)
    ensures Kind(n, ranks).Some? ==> Kind(n, ranks).value in ranks && Count(ranks, Kind(n, ranks).value) == n
    ensures Kind(n, ranks).None? <==> forall i :: 0 <= i < |ranks| ==> Count(ranks, ranks[i]) != n
  {
    var f := WithCount(ranks, n);
    if |f| > 0 {
      WithCountMember(ranks, n, f[0]);
    } else {
      assert forall i :: 0 <= i < |ranks| ==> ranks[i] in ranks;
    }
  }

  /** A rank `kind` finds occurs exactly `n` times. */
  lemma KindFound(n: nat, ranks: seq<int>)
    requires Kind(n, ranks).Some?
    ensures Kind(n, ranks).value in ranks && Count(ranks, Kind(n, ranks).value) == n
  {
    KindMeaning(n, ranks);
  }

  /** The ranks that form a pair. */
  function PairSet(ranks: seq<int>): set<int> {
    set x | x in ranks && Count(ranks, x) == 2
  }

  lemma {:induction false} NoDupsCard(s: seq<int>)
    requires NoDups(s)
    ensures |set x | x in s| == |s|
  {
    if s != [] {
      var t := s[1..];
      NoDupsCard(t);
      assert (set x | x in s) == {s[0]} + (set x | x in t);
      assert s[0] !in t;
    }
  }

  /** Which of two paired ranks `two_pair` lists first is decided by how
      CPython iterates `set(ranks)`, an order that follows the hash table's
      layout rather than the ranks' size.  It is a parameter here, a function
      of the sorted ranks: `order(ranks)` holds when the lower paired rank
      comes first. */
  type PairOrder = seq<int> -> bool

  /** The order the tie-break evidently needs: the higher pair first. */
  function HighFirst(ranks: seq<int>): bool {
    false
  }

  /** `two_pair`: the two paired ranks, in the set's iteration order, when
      there are exactly two. */
  function TwoPair(ranks: seq<int>, order: PairOrder): Option<(int, int)> {
    var f := WithCount(ranks, 2);
    if |f| == 2 then
      var hi := if f[0] > f[1] then f[0] else f[1];
      var lo := if f[0] > f[1] then f[1] else f[0];
      Some(if order(ranks) then (lo, hi) else (hi, lo))
    else None
  }

  /** `two_pair` gives two distinct paired ranks exactly when there are
      exactly two pairs (three pairs give nothing), the lower one first
      exactly when the order says so. */
  lemma TwoPairMeaning(ranks: seq<int>, order: PairOrder)
    ensures TwoPair(ranks, order).Some? <==> |PairSet(ranks)| == 2
    ensures TwoPair(ranks, order).Some? ==>
      var (a, b) := TwoPair(ranks, order).value;
      a != b && PairSet(ranks) == {a, b} && (order(ranks) <==> a < b)
  {
    var f := WithCount(ranks, 2);
    assert (set x | x in f) == PairSet(ranks);
    NoDupsCard(f);
    if |f| == 2 {
      assert (set x | x in f) == {f[0], f[1]};
    }
  }

  /** The length of `hand_rank`'s tuple, flattened, in each category. */
  function CategoryLength(c: int): nat {
    if c == 8 || c == 4 then 2
    else if c == 7 || c == 6 then 3
    else if c == 3 || c == 1 then 7
    else if c == 2 then 8
    else 6
  }

  lemma {:induction false} TwoCounts(s: seq<int>, a: int, b: int)
    requires a != b
    ensures Count(s, a) + Count(s, b) <= |s|
  {
    if s != [] {
      TwoCounts(s[1..], a, b);
      assert s == [s[0]] + s[1..];
    }
  }

  lemma {:induction false} ThreeCounts(s: seq<int>, a: int, b: int, c: int)
    requires a != b && b != c && a != c
    ensures Count(s, a) + Count(s, b) + Count(s, c) <= |s|
  {
    if s != [] {
      ThreeCounts(s[1..], a, b, c);
      assert s == [s[0]] + s[1..];
    }
  }

  lemma {:induction false} AllEqualCount(s: seq<int>, a: int)
    requires forall i :: 0 <= i < |s| ==> s[i] == a
    ensures Count(s, a) == |s|
  {
    if s != [] {
      AllEqualCount(s[1..], a);
      assert s == [s[0]] + s[1..];
    }
  }

  /** Four of a kind among five leaves one card of another rank. */
  lemma FourLeavesOne(ranks: seq<int>, a: int)
    requires |ranks| == 5 && Count(ranks, a) == 4
    ensures Kind(1, ranks).Some?
  {
    KindMeaning(1, ranks);
    if forall i :: 0 <= i < |ranks| ==> ranks[i] == a {
      AllEqualCount(ranks, a);
    }
    var i :| 0 <= i < |ranks| && ranks[i] != a;
    TwoCounts(ranks, a, ranks[i]);
    assert ranks[i] in ranks;
  }

  function Tuple(c: int, rest: seq<int>): (r: seq<int>)
    requires 0 <= c <= 8 && |rest| + 1 == CategoryLength(c)
    ensures |r| == CategoryLength(c) && r[0] == c && r[1..] == rest
  {
    [c] + rest
  }

  /** `hand_rank` of a five-card hand, its tuple flattened into one
      sequence: the category first (8 straight flush, 7 four of a kind,
      6 full house, 5 flush, 4 straight, 3 three of a kind, 2 two pairs,
      1 one pair, 0 high card), then the ranks that break ties.  `order`
      is the iteration order of `set(ranks)` for the two pairs. */
  function HandRank(hand: seq<Card>, order: PairOrder): (r: seq<int>)
    requires |hand| == 5 && ValidHand(hand)
    ensures |r| >= 2
    ensures 0 <= r[0] <= 8
    ensures |r| == CategoryLength(r[0])
    ensures r[0] == 8 <==> Straight(CardRanks(hand)) && Flush(hand)
  {
    var ranks := CardRanks(hand);
    assert |ranks| == 5;
    var k4, k3, k2, tp := Kind(4, ranks), Kind(3, ranks), Kind(2, ranks), TwoPair(ranks, order);
    if Straight(ranks) && Flush(hand) then Tuple(8, [ranks[0]])
    else if k4.Some? then
      KindMeaning(4, ranks);
      FourLeavesOne(ranks, k4.value);
      Tuple(7, [k4.value, Kind(1, ranks).value])
    else if k3.Some? && k2.Some? then Tuple(6, [k3.value, k2.value])
    else if Flush(hand) then Tuple(5, ranks)
    else if Straight(ranks) then Tuple(4, [ranks[0]])
    else if k3.Some? then Tuple(3, [k3.value] + ranks)
    else if tp.Some? then Tuple(2, [tp.value.0, tp.value.1] + ranks)
    else if k2.Some? then Tuple(1, [k2.value] + ranks)
    else Tuple(0, ranks)
  }

  /** The set's iteration order reaches the result only through the two
      pairs: the category never depends on it, and neither does any other
      category's tuple. */
  lemma OrderOnlyInTwoPairs(hand: seq<Card>, o1: PairOrder, o2: PairOrder)
    requires |hand| == 5 && ValidHand(hand)
    ensures HandRank(hand, o1)[0] == HandRank(hand, o2)[0]
    ensures HandRank(hand, o1)[0] != 2 || o1(CardRanks(hand)) == o2(CardRanks(hand)) ==>
      HandRank(hand, o1) == HandRank(hand, o2)
  {
    TwoPairMeaning(CardRanks(hand), o1);
    TwoPairMeaning(CardRanks(hand), o2);
  }
}
