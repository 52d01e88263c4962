/** The order of the two pairs in `hand_rank`'s two-pair tuple.

    `two_pair` lists the paired ranks in the iteration order of
    `set(ranks)`.  For small integers CPython's set stores `x` at slot
    `x mod 8` of an eight-slot table and moves on to the next free slot on a
    clash, so `set([14, 14, 9, 9, 6])` iterates 9, 14, 6: the pairs of
    A-A-9-9-6 come out as (9, 14), lower first, while those of A-A-9-6-6
    come out as (14, 6).  Comparing the tuples then ranks aces-and-sixes
    above aces-and-nines.  With the higher pair first, as the tie-break
    evidently intends, a two-pair hand is beaten exactly by a higher top
    pair, or an equal top pair and a higher second pair. */
module PokerPairOrder {
  import opened Poker
  import opened PokerCategories
  import opened PokerBest

  predicate Descending(a: seq<int>) {
    forall i, j :: 0 <= i < j < |a| ==> a[i] >= a[j]
  }

  /** The first element of a descending sequence is its largest, and the
      rest is descending too. */
  lemma DescendingFirst(a: seq<int>, x: int)
    requires Descending(a) && x in a
    ensures x <= a[0] && Descending(a[1..])
  {
    var i :| 0 <= i < |a| && a[i] == x;
    forall i, j | 0 <= i < j < |a[1..]|
      ensures a[1..][i] >= a[1..][j]
    {
      assert a[1..][i] == a[i + 1] && a[1..][j] == a[j + 1];
    }
  }

  /** Taking the first element off takes it out of the multiset. */
  lemma MultisetTail(a: seq<int>)
    requires a != []
    ensures multiset(a[1..]) == multiset(a) - multiset{a[0]}
    ensures a[0] in multiset(a)
  {
    assert a == [a[0]] + a[1..];
  }

  /** Sequences with equal heads and tails are equal. */
  lemma ConsEqual(a: seq<int>, b: seq<int>)
    requires a != [] && b != [] && a[0] == b[0] && a[1..] == b[1..]
    ensures a == b
  {
    assert a == [a[0]] + a[1..] && b == [b[0]] + b[1..];
  }

  /** Two descending rank sequences with the same elements are equal. */
  lemma {:induction false} DescendingUnique(a: seq<int>, b: seq<int>)
    requires multiset(a) == multiset(b) && Descending(a) && Descending(b)
    ensures a == b
  {
    assert |multiset(a)| == |a| && |multiset(b)| == |b|;
    if a != [] {
      MultisetTail(a);
      MultisetTail(b);
      DescendingFirst(a, b[0]);
      DescendingFirst(b, a[0]);
      assert a[0] == b[0];
      var a', b' := a[1..], b[1..];
      assert multiset(a') == multiset(b');
      DescendingUnique(a', b');
      ConsEqual(a, b);
    }
  }

  /** `card_ranks` is the one descending arrangement of the raw ranks. */
  lemma RanksFromRaw(hand: seq<Card>, ranks: seq<int>)
    requires ValidHand(hand) && multiset(RawRanks(hand)) == multiset(ranks) && Descending(ranks)
    ensures CardRanks(hand) == ranks
  {
    DescendingUnique(CardRanks(hand), ranks);
  }

  /** A rank and a suit of the deck make a valid card. */
  lemma DeckCard(card: Card)
    requires |card| == 2 && card[0] in "23456789TJQKA" && card[1] in Suits
    ensures ValidCard(card)
  {
    assert RankChars[..13] == "23456789TJQKA";
  }

  /** The seven cards of the example and two of their five-card parts. */
  const Seven: seq<Card> := ["AS", "AH", "9S", "9H", "6S", "6H", "2C"]
  const AcesNinesSix: seq<Card> := ["AS", "AH", "9S", "9H", "6S"]
  const AcesSixesNine: seq<Card> := ["AS", "AH", "9S", "6S", "6H"]

  lemma ExampleValid()
    ensures ValidHand(Seven) && ValidHand(AcesNinesSix) && ValidHand(AcesSixesNine)
  {
    DeckCard("AS");
    DeckCard("AH");
    DeckCard("9S");
    DeckCard("9H");
    DeckCard("6S");
    DeckCard("6H");
    DeckCard("2C");
  }

  lemma NinesRanks()
    ensures ValidHand(AcesNinesSix) && CardRanks(AcesNinesSix) == [14, 14, 9, 9, 6]
  {
    ExampleValid();
    assert RawRanks(AcesNinesSix) == [14, 14, 9, 9, 6];
    RanksFromRaw(AcesNinesSix, [14, 14, 9, 9, 6]);
  }

  lemma SixesRanks()
    ensures ValidHand(AcesSixesNine) && CardRanks(AcesSixesNine) == [14, 14, 9, 6, 6]
  {
    ExampleValid();
    assert RawRanks(AcesSixesNine) == [14, 14, 9, 6, 6];
    RanksFromRaw(AcesSixesNine, [14, 14, 9, 6, 6]);
  }

  lemma ExamplePairSets()
    ensures PairSet([14, 14, 9, 9, 6]) == {14, 9}
    ensures PairSet([14, 14, 9, 6, 6]) == {14, 6}
  {
    var r1, r2 := [14, 14, 9, 9, 6], [14, 14, 9, 6, 6];
    assert multiset(r1) == multiset{14, 14, 9, 9, 6} && multiset(r2) == multiset{14, 14, 9, 6, 6};
  }

  /** Aces with nines, or with sixes, are the pairs of the two parts, and
      the order decides on their ranks as on the literal ones. */
  lemma ExamplePairsOf(order: PairOrder)
    ensures ValidHand(AcesNinesSix) && ValidHand(AcesSixesNine)
    ensures PairSet(CardRanks(AcesNinesSix)) == {14, 9}
    ensures PairSet(CardRanks(AcesSixesNine)) == {14, 6}
    ensures order(CardRanks(AcesNinesSix)) == order([14, 14, 9, 9, 6])
    ensures order(CardRanks(AcesSixesNine)) == order([14, 14, 9, 6, 6])
  {
    NinesRanks();
    SixesRanks();
    ExamplePairSets();
  }

  lemma ExampleDistinct()
    ensures DistinctCards(AcesNinesSix) && DistinctCards(AcesSixesNine)
  {
  }

  lemma ExampleParts()
    ensures Subseq(AcesNinesSix, Seven) && Subseq(AcesSixesNine, Seven)
  {
    assert Subseq(AcesNinesSix[4..], Seven[4..]);
    assert Subseq(AcesSixesNine[4..], Seven[5..]);
    assert Subseq(AcesSixesNine[3..], Seven[4..]);
  }

  /** A key begins with the hand's rank tuple. */
  lemma KeyStartsWithRank(hand: seq<Card>, order: PairOrder)
    requires |hand| == 5 && ValidHand(hand)
    ensures |HandRank(hand, order)| <= |Key(hand, order)|
    ensures forall i :: 0 <= i < |HandRank(hand, order)| ==> Key(hand, order)[i] == HandRank(hand, order)[i]
  {
  }

  /** Sequences that agree before index `k` and differ at `k` are ordered
      by their elements at `k`. */
  lemma {:induction false} LexLessAt(a: seq<int>, b: seq<int>, k: nat)
    requires k < |a| && k < |b| && a[k] < b[k]
    requires forall i :: 0 <= i < k ==> a[i] == b[i]
    ensures LexLess(a, b)
  {
    if k > 0 {
      LexLessAt(a[1..], b[1..], k - 1);
    }
  }

  /** Two distinct values listed in an order that puts the smaller first
      exactly when `o` holds are determined by their set. */
  lemma OrderedPair(x: int, y: int, p: int, q: int, o: bool)
    requires {x, y} == {p, q} && x != y && (o <==> x < y) && (o <==> p < q)
    ensures x == p && y == q
  {
    assert x in {p, q} && y in {p, q};
  }

  /** The key of a two-pair hand starts with the category and the two
      paired ranks in the set's order. */
  lemma TwoPairKey(hand: seq<Card>, order: PairOrder, p: int, q: int)
    requires |hand| == 5 && ValidHand(hand) && HandRank(hand, order)[0] == 2
    requires PairSet(CardRanks(hand)) == {p, q} && (order(CardRanks(hand)) <==> p < q)
    ensures |Key(hand, order)| >= 3
    ensures Key(hand, order)[0] == 2 && Key(hand, order)[1] == p && Key(hand, order)[2] == q
  {
    TwoPairTieBreak(hand, order);
    KeyStartsWithRank(hand, order);
    var r := HandRank(hand, order);
    OrderedPair(r[1], r[2], p, q, order(CardRanks(hand)));
  }

  /** Keys that start with the category and two ranks: the one whose first
      rank is lower, or whose first ranks tie and whose second is lower,
      is the smaller. */
  lemma PairKeys(ka: seq<int>, kb: seq<int>, a1: int, a2: int, b1: int, b2: int)
    requires |ka| >= 3 && |kb| >= 3 && ka[0] == kb[0]
    requires ka[1] == a1 && ka[2] == a2 && kb[1] == b1 && kb[2] == b2
    requires a1 < b1 || (a1 == b1 && a2 < b2)
    ensures LexLess(ka, kb)
  {
    if a1 < b1 {
      LexLessAt(ka, kb, 1);
    } else {
      LexLessAt(ka, kb, 2);
    }
  }

  /** A five-card part whose key is below another part's is never the
      best hand. */
  lemma Beaten(hand: seq<Card>, a: seq<Card>, b: seq<Card>, order: PairOrder)
    requires |hand| >= 5 && ValidHand(hand)
    requires |a| == 5 && ValidHand(a) && |b| == 5 && Subseq(b, hand)
    requires ValidHand(b) && LexLess(Key(a, order), Key(b, order))
    ensures BestHand(hand, order) != a
  {
    BestHandIsBest(hand, b, order);
  }

  /** A hand whose ranks pair twice has a two-pair key, led by its pairs in
      the order's arrangement. */
  lemma PairedKey(hand: seq<Card>, order: PairOrder, p: int, q: int)
    requires |hand| == 5 && ValidHand(hand) && DistinctCards(hand)
    requires PairSet(CardRanks(hand)) == {p, q} && p != q && (order(CardRanks(hand)) <==> p < q)
    ensures |Key(hand, order)| >= 3
    ensures Key(hand, order)[0] == 2 && Key(hand, order)[1] == p && Key(hand, order)[2] == q
  {
    assert |{p, q}| == 2;
    TwoPairs(hand, order);
    TwoPairKey(hand, order, p, q);
  }

  /** Under an order that lists the nines before the aces and the aces
      before the sixes, aces-and-nines keys below aces-and-sixes. */
  lemma SetOrderKeys(order: PairOrder)
    requires order([14, 14, 9, 9, 6]) && !order([14, 14, 9, 6, 6])
    ensures ValidHand(AcesNinesSix) && ValidHand(AcesSixesNine)
    ensures LexLess(Key(AcesNinesSix, order), Key(AcesSixesNine, order))
  {
    ExampleDistinct();
    ExamplePairsOf(order);
    PairedKey(AcesNinesSix, order, 9, 14);
    PairedKey(AcesSixesNine, order, 14, 6);
    PairKeys(Key(AcesNinesSix, order), Key(AcesSixesNine, order), 9, 14, 14, 6);
  }

  /** As written: with CPython's iteration order, which lists the nines
      before the aces in A-A-9-9-6 and the aces before the sixes in
      A-A-9-6-6, aces-and-sixes gets the larger key, so `best_hand` never
      returns aces-and-nines with the six of spades from the seven cards. */
  lemma SetOrderMisranks(order: PairOrder)
    requires order([14, 14, 9, 9, 6]) && !order([14, 14, 9, 6, 6])
    ensures ValidHand(AcesNinesSix) && ValidHand(AcesSixesNine) && ValidHand(Seven)
    ensures LexLess(Key(AcesNinesSix, order), Key(AcesSixesNine, order))
    ensures BestHand(Seven, order) != AcesNinesSix
  {
    ExampleValid();
    ExampleParts();
    SetOrderKeys(order);
    Beaten(Seven, AcesNinesSix, AcesSixesNine, order);
  }

  /** Corrected: with the higher pair first, one two-pair hand ranks below
      another when its top pair is lower, or the top pairs tie and its
      second pair is lower. */
  lemma HighFirstRanksPairs(a: seq<Card>, b: seq<Card>, ha: int, la: int, hb: int, lb: int)
    requires |a| == 5 && ValidHand(a) && DistinctCards(a) && |b| == 5 && ValidHand(b) && DistinctCards(b)
    requires PairSet(CardRanks(a)) == {ha, la} && ha > la
    requires PairSet(CardRanks(b)) == {hb, lb} && hb > lb
    requires ha < hb || (ha == hb && la < lb)
    ensures HandRank(a, HighFirst)[0] == 2 && HandRank(b, HighFirst)[0] == 2
    ensures LexLess(Key(a, HighFirst), Key(b, HighFirst))
  {
    PairedKey(a, HighFirst, ha, la);
    PairedKey(b, HighFirst, hb, lb);
    PairKeys(Key(a, HighFirst), Key(b, HighFirst), ha, la, hb, lb);
  }

  /** Corrected, on the example: aces-and-nines beats aces-and-sixes, so
      `best_hand` never returns aces-and-sixes with the nine of spades. */
  lemma HighFirstExample()
    ensures ValidHand(AcesNinesSix) && ValidHand(AcesSixesNine) && ValidHand(Seven)
    ensures LexLess(Key(AcesSixesNine, HighFirst), Key(AcesNinesSix, HighFirst))
    ensures BestHand(Seven, HighFirst) != AcesSixesNine
  {
    ExampleValid();
    ExampleDistinct();
    ExampleParts();
    ExamplePairsOf(HighFirst);
    HighFirstRanksPairs(AcesSixesNine, AcesNinesSix, 14, 6, 14, 9);
    Beaten(Seven, AcesSixesNine, AcesNinesSix, HighFirst);
  }
}
