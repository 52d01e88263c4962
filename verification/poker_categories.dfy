/** What `hand_rank`'s category means for a five-card hand of distinct
    cards, stated through how often each rank occurs rather than through the
    order of the tests. */
module PokerCategories {
  import opened Poker

  predicate DistinctCards(hand: seq<Card>) {
    forall i, j :: 0 <= i < j < |hand| ==> hand[i] != hand[j]
  }

  /** Some rank occurs exactly `n` times. */
  predicate Has(ranks: seq<int>, n: nat) {
    exists i :: 0 <= i < |ranks| && Count(ranks, ranks[i]) == n
  }

  /** Every rank occurs once. */
  predicate AllSingle(ranks: seq<int>) {
    forall i :: 0 <= i < |ranks| ==> Count(ranks, ranks[i]) == 1
  }

  lemma {:induction false} NoDupsCount(s: seq<int>)
    requires NoDups(s)
    ensures forall i :: 0 <= i < |s| ==> Count(s, s[i]) == 1
  {
    if s != [] {
      NoDupsCount(s[1..]);
      assert s == [s[0]] + s[1..];
      assert s[0] !in s[1..];
      forall i | 1 <= i < |s|
        ensures Count(s, s[i]) == 1
      {
        assert s[i] == s[1..][i - 1];
      }
    }
  }

  /** A straight on sorted ranks never repeats a rank. */
  lemma StraightSingle(ranks: seq<int>)
    requires forall i, j :: 0 <= i < j < |ranks| ==> ranks[i] >= ranks[j]
    requires Straight(ranks)
    ensures AllSingle(ranks)
  {
    StraightIsRun(ranks);
    assert NoDups(ranks) by {
      forall i, j | 0 <= i < j < |ranks|
        ensures ranks[i] != ranks[j]
      {
        assert ranks[i] == ranks[0] - i && ranks[j] == ranks[0] - j;
      }
    }
    NoDupsCount(ranks);
  }

  /** A card is determined by its rank and suit characters. */
  lemma SameCard(a: Card, b: Card)
    requires ValidCard(a) && ValidCard(b) && a[0] == b[0] && a[1] == b[1]
    ensures a == b
  {
    assert a == [a[0], a[1]] && b == [b[0], b[1]];
  }

  /** In a flush of distinct cards no two cards share a rank. */
  lemma FlushSingle(hand: seq<Card>)
    requires ValidHand(hand) && DistinctCards(hand) && Flush(hand)
    ensures AllSingle(CardRanks(hand))
  {
    FlushMeaning(hand);
    var raw := RawRanks(hand);
    assert NoDups(raw) by {
      forall i, j | 0 <= i < j < |raw|
        ensures raw[i] != raw[j]
      {
        if raw[i] == raw[j] {
          RankValueInjective(hand[i][0], hand[j][0]);
          SameCard(hand[i], hand[j]);
        }
      }
    }
    NoDupsCount(raw);
    var ranks := CardRanks(hand);
    forall i | 0 <= i < |ranks|
      ensures Count(ranks, ranks[i]) == 1
    {
      assert ranks[i] in multiset(raw);
      var j :| 0 <= j < |raw| && raw[j] == ranks[i];
      assert Count(raw, raw[j]) == 1;
    }
  }

  /** Counts of three different ranks in five cards add up to at most five. */
  lemma FiveCardCounts(ranks: seq<int>)
    requires |ranks| == 5
    ensures Has(ranks, 4) ==> !Has(ranks, 3) && !Has(ranks, 2)
    ensures Has(ranks, 3) ==> |PairSet(ranks)| <= 1
    ensures |PairSet(ranks)| <= 2
  {
    if Has(ranks, 4) {
      var i :| 0 <= i < |ranks| && Count(ranks, ranks[i]) == 4;
      forall j | 0 <= j < |ranks| && ranks[j] != ranks[i]
        ensures Count(ranks, ranks[j]) <= 1
      {
        TwoCounts(ranks, ranks[i], ranks[j]);
      }
    }
    var p := PairSet(ranks);
    if Has(ranks, 3) && |p| > 1 {
      var i :| 0 <= i < |ranks| && Count(ranks, ranks[i]) == 3;
      var a :| a in p;
      assert |p - {a}| == |p| - 1;
      var b :| b in p - {a};
      ThreeCounts(ranks, ranks[i], a, b);
    }
    if |p| > 2 {
      var a :| a in p;
      assert |p - {a}| == |p| - 1;
      var b :| b in p - {a};
      assert |p - {a, b}| == |p| - 2;
      var c :| c in p - {a, b};
      ThreeCounts(ranks, a, b, c);
    }
  }

  lemma {:induction false} SingleNoRepeat(ranks: seq<int>, n: nat)
    requires AllSingle(ranks) && n != 1
    ensures !Has(ranks, n) && PairSet(ranks) == {}
  {
  }

  /** The facts every category lemma starts from. */
  lemma Basics(hand: seq<Card>, order: PairOrder)
    requires |hand| == 5 && ValidHand(hand) && DistinctCards(hand)
    ensures var ranks := CardRanks(hand);
      && (Straight(ranks) ==> AllSingle(ranks))
      && (Flush(hand) ==> AllSingle(ranks))
      && (Kind(4, ranks).Some? <==> Has(ranks, 4))
      && (Kind(3, ranks).Some? <==> Has(ranks, 3))
      && (Kind(2, ranks).Some? <==> Has(ranks, 2))
      && (Has(ranks, 2) <==> |PairSet(ranks)| > 0)
      && (TwoPair(ranks, order).Some? <==> |PairSet(ranks)| == 2)
  {
    var ranks := CardRanks(hand);
    if Straight(ranks) {
      StraightSingle(ranks);
    }
    if Flush(hand) {
      FlushSingle(hand);
    }
    KindMeaning(4, ranks);
    KindMeaning(3, ranks);
    KindMeaning(2, ranks);
    TwoPairMeaning(ranks, order);
    if Has(ranks, 2) {
      var i :| 0 <= i < |ranks| && Count(ranks, ranks[i]) == 2;
      assert ranks[i] in PairSet(ranks);
    }
    if |PairSet(ranks)| > 0 {
      var x :| x in PairSet(ranks);
      var i :| 0 <= i < |ranks| && ranks[i] == x;
    }
  }

  /** Four of a kind: some rank occurs four times. */
  lemma FourOfAKind(hand: seq<Card>, order: PairOrder)
    requires |hand| == 5 && ValidHand(hand) && DistinctCards(hand)
    ensures HandRank(hand, order)[0] == 7 <==> Has(CardRanks(hand), 4)
  {
    Basics(hand, order);
    FiveCardCounts(CardRanks(hand));
  }

  /** Full house: one rank three times and another twice. */
  lemma FullHouse(hand: seq<Card>, order: PairOrder)
    requires |hand| == 5 && ValidHand(hand) && DistinctCards(hand)
    ensures HandRank(hand, order)[0] == 6 <==> Has(CardRanks(hand), 3) && Has(CardRanks(hand), 2)
  {
    Basics(hand, order);
    FiveCardCounts(CardRanks(hand));
  }

  /** Three of a kind: one rank three times and no pair beside it. */
  lemma ThreeOfAKind(hand: seq<Card>, order: PairOrder)
    requires |hand| == 5 && ValidHand(hand) && DistinctCards(hand)
    ensures HandRank(hand, order)[0] == 3 <==> Has(CardRanks(hand), 3) && !Has(CardRanks(hand), 2)
  {
    Basics(hand, order);
    FiveCardCounts(CardRanks(hand));
  }

  /** Two pairs: exactly two ranks occur twice. */
  lemma TwoPairs(hand: seq<Card>, order: PairOrder)
    requires |hand| == 5 && ValidHand(hand) && DistinctCards(hand)
    ensures HandRank(hand, order)[0] == 2 <==> |PairSet(CardRanks(hand))| == 2
  {
    Basics(hand, order);
    FiveCardCounts(CardRanks(hand));
  }

  /** One pair: exactly one rank occurs twice, and none three times. */
  lemma OnePair(hand: seq<Card>, order: PairOrder)
    requires |hand| == 5 && ValidHand(hand) && DistinctCards(hand)
    ensures HandRank(hand, order)[0] == 1 <==> |PairSet(CardRanks(hand))| == 1 && !Has(CardRanks(hand), 3)
  {
    Basics(hand, order);
    FiveCardCounts(CardRanks(hand));
  }

  /** Straight flush, flush, straight and high card are the hands with no
      rank occurring two, three or four times. */
  lemma NoRepeatedRank(hand: seq<Card>, order: PairOrder)
    requires |hand| == 5 && ValidHand(hand) && DistinctCards(hand)
    ensures var c := HandRank(hand, order)[0]; var ranks := CardRanks(hand);
      (c == 8 || c == 5 || c == 4 || c == 0) <==> !Has(ranks, 2) && !Has(ranks, 3) && !Has(ranks, 4)
  {
    var ranks := CardRanks(hand);
    Basics(hand, order);
    FiveCardCounts(ranks);
    if Straight(ranks) {
      SingleNoRepeat(ranks, 2);
      SingleNoRepeat(ranks, 3);
      SingleNoRepeat(ranks, 4);
    }
    if Flush(hand) {
      SingleNoRepeat(ranks, 2);
      SingleNoRepeat(ranks, 3);
      SingleNoRepeat(ranks, 4);
    }
  }

  /** A flush that is no straight ranks as a flush. */
  lemma FlushHand(hand: seq<Card>, order: PairOrder)
    requires |hand| == 5 && ValidHand(hand) && DistinctCards(hand)
    ensures HandRank(hand, order)[0] == 5 <==> Flush(hand) && !Straight(CardRanks(hand))
  {
    var ranks := CardRanks(hand);
    Basics(hand, order);
    if Flush(hand) {
      SingleNoRepeat(ranks, 2);
      SingleNoRepeat(ranks, 3);
      SingleNoRepeat(ranks, 4);
    }
  }

  /** A straight that is no flush ranks as a straight. */
  lemma StraightHand(hand: seq<Card>, order: PairOrder)
    requires |hand| == 5 && ValidHand(hand) && DistinctCards(hand)
    ensures HandRank(hand, order)[0] == 4 <==> Straight(CardRanks(hand)) && !Flush(hand)
  {
    var ranks := CardRanks(hand);
    Basics(hand, order);
    if Straight(ranks) {
      SingleNoRepeat(ranks, 2);
      SingleNoRepeat(ranks, 3);
      SingleNoRepeat(ranks, 4);
    }
  }

  /** High card: neither flush nor straight, and every rank once. */
  lemma HighCard(hand: seq<Card>, order: PairOrder)
    requires |hand| == 5 && ValidHand(hand) && DistinctCards(hand)
    ensures HandRank(hand, order)[0] == 0 <==> !Flush(hand) && !Straight(CardRanks(hand)) && AllSingle(CardRanks(hand))
  {
    var ranks := CardRanks(hand);
    Basics(hand, order);
    FiveCardCounts(ranks);
    NoFiveOfARank(hand);
    if AllSingle(ranks) {
      SingleNoRepeat(ranks, 2);
      SingleNoRepeat(ranks, 3);
      SingleNoRepeat(ranks, 4);
    }
    if HandRank(hand, order)[0] == 0 {
      forall i | 0 <= i < |ranks|
        ensures Count(ranks, ranks[i]) == 1
      {
        assert ranks[i] in multiset(ranks);
        assert Count(ranks, ranks[i]) != 2 && Count(ranks, ranks[i]) != 3 && Count(ranks, ranks[i]) != 4;
      }
    }
  }

  /** Every element of `s` is `x` when `x` occurs `|s|` times. */
  lemma CountAll(s: seq<int>, x: int)
    requires Count(s, x) == |s|
    ensures forall i :: 0 <= i < |s| ==> s[i] == x
  {
    forall i | 0 <= i < |s|
      ensures s[i] == x
    {
      assert s[i] in multiset(s);
      if s[i] != x {
        TwoCounts(s, x, s[i]);
      }
    }
  }

  /** Five distinct cards never share one rank: a rank has four suits, and
      only two jokers exist. */
  lemma NoFiveOfARank(hand: seq<Card>)
    requires |hand| == 5 && ValidHand(hand) && DistinctCards(hand)
    ensures forall i :: 0 <= i < 5 ==> Count(CardRanks(hand), CardRanks(hand)[i]) != 5
  {
    var ranks := CardRanks(hand);
    if i :| 0 <= i < 5 && Count(ranks, ranks[i]) == 5 {
      var x := ranks[i];
      CountAll(ranks, x);
      var raw := RawRanks(hand);
      forall j | 0 <= j < 5
        ensures hand[j][0] == hand[0][0]
      {
        assert raw[j] in multiset(ranks) && raw[0] in multiset(ranks);
        RankValueInjective(hand[j][0], hand[0][0]);
      }
      var cards := set j | 0 <= j < 5 :: hand[j];
      DistinctCardCount(hand);
      var c := hand[0][0];
      if c == '?' {
        assert cards <= {"?B", "?R"};
        CardinalityMono(cards, {"?B", "?R"});
      } else {
        var four := {[c, 'C'], [c, 'S'], [c, 'H'], [c, 'D']};
        forall j | 0 <= j < 5
          ensures hand[j] in four
        {
          assert hand[j] == [hand[j][0], hand[j][1]];
        }
        assert cards <= four;
        CardinalityMono(cards, four);
      }
    }
  }

  /** A hand of distinct cards has as many different cards as cards. */
  lemma {:induction false} DistinctCardCount(hand: seq<Card>)
    requires DistinctCards(hand)
    ensures |set j | 0 <= j < |hand| :: hand[j]| == |hand|
  {
    if hand != [] {
      var init := hand[..|hand| - 1];
      assert DistinctCards(init);
      DistinctCardCount(init);
      var s0 := set j | 0 <= j < |init| :: init[j];
      assert (set j | 0 <= j < |hand| :: hand[j]) == s0 + {hand[|hand| - 1]};
      assert hand[|hand| - 1] !in s0;
    }
  }

  /** What follows the category in `hand_rank`'s tuple: the highest rank for
      a straight flush or a straight; the four-rank then the odd card; the
      three-rank then the pair-rank; all ranks for a flush or a high card;
      the three-rank, the two pair ranks in the set's order, or the
      pair-rank, each followed by all ranks. */
  lemma TieBreaks(hand: seq<Card>, order: PairOrder)
    requires |hand| == 5 && ValidHand(hand)
    ensures var r := HandRank(hand, order); var ranks := CardRanks(hand);
      r[0] == 8 || r[0] == 4 ==> r[1] == ranks[0] && forall i :: 0 <= i < 5 ==> ranks[i] <= r[1]
    ensures var r := HandRank(hand, order); var ranks := CardRanks(hand);
      r[0] == 7 ==> Count(ranks, r[1]) == 4 && Count(ranks, r[2]) == 1
    ensures var r := HandRank(hand, order); var ranks := CardRanks(hand);
      r[0] == 6 ==> Count(ranks, r[1]) == 3 && Count(ranks, r[2]) == 2
    ensures var r := HandRank(hand, order);
      r[0] == 5 || r[0] == 0 ==> r[1..] == CardRanks(hand)
    ensures var r := HandRank(hand, order); var ranks := CardRanks(hand);
      r[0] == 3 ==> Count(ranks, r[1]) == 3 && r[2..] == ranks
    ensures var r := HandRank(hand, order); var ranks := CardRanks(hand);
      r[0] == 2 ==> && r[1] != r[2] && PairSet(ranks) == {r[1], r[2]} && (order(ranks) <==> r[1] < r[2])
                    && r[3..] == ranks
    ensures var r := HandRank(hand, order); var ranks := CardRanks(hand);
      r[0] == 1 ==> Count(ranks, r[1]) == 2 && r[2..] == ranks
  {
    var r := HandRank(hand, order);
    if r[0] == 7 {
      FourTieBreak(hand, order);
    } else if r[0] == 6 || r[0] == 3 || r[0] == 1 {
      KindTieBreaks(hand, order);
    } else if r[0] == 2 {
      TwoPairTieBreak(hand, order);
    }
  }

  lemma FourTieBreak(hand: seq<Card>, order: PairOrder)
    requires |hand| == 5 && ValidHand(hand) && HandRank(hand, order)[0] == 7
    ensures var r := HandRank(hand, order);
      Count(CardRanks(hand), r[1]) == 4 && Count(CardRanks(hand), r[2]) == 1
  {
    var ranks := CardRanks(hand);
    assert Kind(4, ranks).Some?;
    KindFound(4, ranks);
    FourLeavesOne(ranks, Kind(4, ranks).value);
    KindFound(1, ranks);
  }

  /** The tuples of the full house, three of a kind and one pair are the
      ranks `Kind` finds, then (for the last two) the ranks. */
  lemma KindShape(hand: seq<Card>, order: PairOrder)
    requires |hand| == 5 && ValidHand(hand)
    ensures var r := HandRank(hand, order); var ranks := CardRanks(hand);
      r[0] == 6 ==> Kind(3, ranks).Some? && Kind(2, ranks).Some? && r[1] == Kind(3, ranks).value && r[2] == Kind(2, ranks).value
    ensures var r := HandRank(hand, order); var ranks := CardRanks(hand);
      r[0] == 3 ==> Kind(3, ranks).Some? && r[1] == Kind(3, ranks).value && r[2..] == ranks
    ensures var r := HandRank(hand, order); var ranks := CardRanks(hand);
      r[0] == 1 ==> Kind(2, ranks).Some? && r[1] == Kind(2, ranks).value && r[2..] == ranks
  {
  }

  lemma KindTieBreaks(hand: seq<Card>, order: PairOrder)
    requires |hand| == 5 && ValidHand(hand)
    ensures var r := HandRank(hand, order); var ranks := CardRanks(hand);
      r[0] == 6 ==> Count(ranks, r[1]) == 3 && Count(ranks, r[2]) == 2
    ensures var r := HandRank(hand, order); var ranks := CardRanks(hand);
      r[0] == 3 ==> Count(ranks, r[1]) == 3 && r[2..] == ranks
    ensures var r := HandRank(hand, order); var ranks := CardRanks(hand);
      r[0] == 1 ==> Count(ranks, r[1]) == 2 && r[2..] == ranks
  {
    var ranks := CardRanks(hand);
    var c := HandRank(hand, order)[0];
    KindShape(hand, order);
    if c == 6 {
      KindFound(3, ranks);
      KindFound(2, ranks);
    } else if c == 3 {
      KindFound(3, ranks);
    } else if c == 1 {
      KindFound(2, ranks);
    }
  }

  /** A two-pair tuple is the pairs `TwoPair` lists, then the ranks. */
  lemma TwoPairShape(hand: seq<Card>, order: PairOrder)
    requires |hand| == 5 && ValidHand(hand) && HandRank(hand, order)[0] == 2
    ensures TwoPair(CardRanks(hand), order).Some?
    ensures var r := HandRank(hand, order); var tp := TwoPair(CardRanks(hand), order).value;
      r[1] == tp.0 && r[2] == tp.1 && r[3..] == CardRanks(hand)
  {
  }

  lemma TwoPairTieBreak(hand: seq<Card>, order: PairOrder)
    requires |hand| == 5 && ValidHand(hand) && HandRank(hand, order)[0] == 2
    ensures var r := HandRank(hand, order); var ranks := CardRanks(hand);
      && r[1] != r[2] && PairSet(ranks) == {r[1], r[2]} && (order(ranks) <==> r[1] < r[2])
      && r[3..] == ranks
  {
    TwoPairShape(hand, order);
    TwoPairMeaning(CardRanks(hand), order);
  }
}
