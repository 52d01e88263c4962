/** Choosing the best five cards: `best_hand` ranks every five-card
    combination of a hand by the tuple `(*hand_rank(x), x)` and keeps the
    largest; `best_wild_hand` first replaces the jokers by cards they may
    stand for.

    Python compares those tuples element by element.  Here a tuple is
    flattened into one sequence of integers: the category and tie-break
    ranks, then the character codes of the cards.  Within one category the
    rank part has a fixed length (`CategoryLength`) and every card has two
    characters, so comparing the flattened sequences decides exactly as the
    tuple comparison does. */
module PokerBest {
  import opened Wrappers
  import opened Poker

  /** `x` put in front of each of `cs`. */
  function Prepend<T>(x: T, cs: seq<seq<T>>): (r: seq<seq<T>>)
    ensures |r| == |cs|
    ensures forall i :: 0 <= i < |cs| ==> r[i] == [x] + cs[i]
  {
    seq(|cs|, i requires 0 <= i < |cs| => [x] + cs[i])
  }

  lemma PrependMember<T>(x: T, cs: seq<seq<T>>, d: seq<T>)
    requires d in cs
    ensures [x] + d in Prepend(x, cs)
  {
    var i :| 0 <= i < |cs| && cs[i] == d;
    assert Prepend(x, cs)[i] == [x] + d;
  }

  /** `itertools.combinations(s, k)`, in the order it produces them: those
      holding the first element, then those without it. */
  function Combinations<T>(s: seq<T>, k: nat): seq<seq<T>>
    decreases |s|
  {
    if k == 0 then [[]]
    else if |s| < k then []
    else Prepend(s[0], Combinations(s[1..], k - 1)) + Combinations(s[1..], k)
  }

  /** `c` is `s` with some elements left out. */
  predicate Subseq<T(==)>(c: seq<T>, s: seq<T>)
    decreases |s|
  {
    c == [] || (s != [] && ((c[0] == s[0] && Subseq(c[1..], s[1..])) || Subseq(c, s[1..])))
  }

  lemma {:induction false} SubseqMultiset<T>(c: seq<T>, s: seq<T>)
    requires Subseq(c, s)
    ensures |c| <= |s| && multiset(c) <= multiset(s)
    decreases |s|
  {
    if c != [] {
      if c[0] == s[0] && Subseq(c[1..], s[1..]) {
        SubseqMultiset(c[1..], s[1..]);
        assert c == [c[0]] + c[1..] && s == [s[0]] + s[1..];
      } else {
        SubseqMultiset(c, s[1..]);
        assert s == [s[0]] + s[1..];
      }
    }
  }

  lemma {:induction false} CombinationsSound<T>(s: seq<T>, k: nat, c: seq<T>)
    requires c in Combinations(s, k)
    ensures |c| == k && Subseq(c, s)
    decreases |s|
  {
    if k > 0 {
      var withFirst := Combinations(s[1..], k - 1);
      var heads := Prepend(s[0], withFirst);
      assert Combinations(s, k) == heads + Combinations(s[1..], k);
      if c in heads {
        var i :| 0 <= i < |heads| && heads[i] == c;
        CombinationsSound(s[1..], k - 1, withFirst[i]);
        assert c[0] == s[0] && c[1..] == withFirst[i];
      } else {
        CombinationsSound(s[1..], k, c);
      }
    }
  }

  lemma {:induction false} CombinationsComplete<T>(s: seq<T>, k: nat, c: seq<T>)
    requires |c| == k && Subseq(c, s)
    ensures c in Combinations(s, k)
    decreases |s|
  {
    if k > 0 {
      SubseqMultiset(c, s);
      var heads := Prepend(s[0], Combinations(s[1..], k - 1));
      assert Combinations(s, k) == heads + Combinations(s[1..], k);
      if c[0] == s[0] && Subseq(c[1..], s[1..]) {
        CombinationsComplete(s[1..], k - 1, c[1..]);
        PrependMember(s[0], Combinations(s[1..], k - 1), c[1..]);
        assert c == [s[0]] + c[1..];
      } else {
        CombinationsComplete(s[1..], k, c);
      }
    }
  }

  /** The combinations are exactly the subsequences of length `k`. */
  lemma CombinationsMembers<T>(s: seq<T>, k: nat, c: seq<T>)
    ensures c in Combinations(s, k) <==> |c| == k && Subseq(c, s)
  {
    if c in Combinations(s, k) {
      CombinationsSound(s, k, c);
    }
    if |c| == k && Subseq(c, s) {
      CombinationsComplete(s, k, c);
    }
  }

  function Choose(n: nat, k: nat): nat {
    if k == 0 then 1
    else if n < k then 0
    else Choose(n - 1, k - 1) + Choose(n - 1, k)
  }

  /** There are `n` choose `k` combinations, none when `k` exceeds `n`. */
  lemma {:induction false} CombinationsCount<T>(s: seq<T>, k: nat)
    ensures |Combinations(s, k)| == Choose(|s|, k)
    ensures k <= |s| ==> |Combinations(s, k)| > 0
    decreases |s|
  {
    if k > 0 && |s| >= k {
      var t := s[1..];
      CombinationsCount(t, k - 1);
      CombinationsCount(t, k);
      assert Combinations(s, k) == Prepend(s[0], Combinations(t, k - 1)) + Combinations(t, k);
      assert Choose(|s|, k) == Choose(|t|, k - 1) + Choose(|t|, k);
    }
  }

  /** Lexicographic order on integer sequences, a proper prefix first, as
      Python orders tuples. */
  predicate LexLess(a: seq<int>, b: seq<int>) {
    if a == [] then b != []
    else if b == [] then false
    else if a[0] != b[0] then a[0] < b[0]
    else LexLess(a[1..], b[1..])
  }

  /** `LexLess` is a strict total order. */
  lemma {:induction false} LexOrder(a: seq<int>, b: seq<int>, c: seq<int>)
    ensures !LexLess(a, a)
    ensures LexLess(a, b) ==> !LexLess(b, a)
    ensures LexLess(a, b) && LexLess(b, c) ==> LexLess(a, c)
    ensures a == b || LexLess(a, b) || LexLess(b, a)
  {
    if a != [] && b != [] && c != [] {
      LexOrder(a[1..], b[1..], c[1..]);
      assert a[0] == b[0] && a[1..] == b[1..] ==> a == b by {
        if a[0] == b[0] && a[1..] == b[1..] {
          assert a == [a[0]] + a[1..] && b == [b[0]] + b[1..];
        }
      }
    } else if a != [] && b != [] {
      LexOrder(a[1..], b[1..], a[1..]);
      assert a[0] == b[0] && a[1..] == b[1..] ==> a == b by {
        if a[0] == b[0] && a[1..] == b[1..] {
          assert a == [a[0]] + a[1..] && b == [b[0]] + b[1..];
        }
      }
    } else if a != [] {
      LexOrder(a[1..], a[1..], a[1..]);
    }
  }

  /** The index of the first largest key: `sorted(..., reverse=True)[0]`
      keeps the earliest of equal keys. */
  function ArgMax(keys: seq<seq<int>>): (m: nat)
    requires |keys| > 0
    ensures m < |keys|
    ensures forall j :: 0 <= j < |keys| ==> !LexLess(keys[m], keys[j])
    ensures forall j :: 0 <= j < m ==> keys[j] != keys[m]
  {
    if |keys| == 1 then
      LexOrder(keys[0], keys[0], keys[0]);
      0
    else
      var n := |keys| - 1;
      var m := ArgMax(keys[..n]);
      assert forall j :: 0 <= j < n ==> keys[..n][j] == keys[j];
      if LexLess(keys[m], keys[n]) then
        assert forall j :: 0 <= j < n ==> !LexLess(keys[n], keys[j]) && keys[j] != keys[n] by {
          forall j | 0 <= j < n
            ensures !LexLess(keys[n], keys[j]) && keys[j] != keys[n]
          {
            LexOrder(keys[m], keys[n], keys[j]);
          }
        }
        LexOrder(keys[n], keys[n], keys[n]);
        n
      else
        m
  }

  /** The character codes of the cards, one after the other. */
  function Codes(cards: seq<Card>): (r: seq<int>)
    ensures ValidHand(cards) ==> |r| == 2 * |cards|
  {
    if cards == [] then []
    else
      assert ValidHand(cards) ==> ValidHand(cards[1..]) && |cards[0]| == 2;
      CodesOf(cards[0]) + Codes(cards[1..])
  }

  function CodesOf(card: Card): (r: seq<int>)
    ensures |r| == |card|
  {
    seq(|card|, i requires 0 <= i < |card| => card[i] as int)
  }

  /** Two-character cards can be read back from their codes. */
  lemma {:induction false} CodesInjective(a: seq<Card>, b: seq<Card>)
    requires |a| == |b| && ValidHand(a) && ValidHand(b) && Codes(a) == Codes(b)
    ensures a == b
  {
    if a != [] {
      var ca, cb := CodesOf(a[0]), CodesOf(b[0]);
      assert Codes(a) == ca + Codes(a[1..]) && Codes(b) == cb + Codes(b[1..]);
      assert ca == Codes(a)[..2] && cb == Codes(b)[..2];
      assert a[0][0] as int == ca[0] && b[0][0] as int == cb[0];
      assert a[0][1] as int == ca[1] && b[0][1] as int == cb[1];
      assert a[0] == b[0];
      assert Codes(a[1..]) == Codes(a)[2..] && Codes(b[1..]) == Codes(b)[2..];
      CodesInjective(a[1..], b[1..]);
      assert a == [a[0]] + a[1..] && b == [b[0]] + b[1..];
    }
  }

  /** The key `best_hand` sorts by: `(*hand_rank(x), x)`, flattened. */
  function Key(hand: seq<Card>, order: PairOrder): (k: seq<int>)
    requires |hand| == 5 && ValidHand(hand)
  {
    HandRank(hand, order) + Codes(hand)
  }

  /** Different hands have different keys, so the largest key names one
      hand. */
  lemma KeyInjective(a: seq<Card>, b: seq<Card>, order: PairOrder)
    requires |a| == 5 && ValidHand(a) && |b| == 5 && ValidHand(b) && Key(a, order) == Key(b, order)
    ensures a == b
  {
    var ra, rb := HandRank(a, order), HandRank(b, order);
    assert ra[0] == Key(a, order)[0] && rb[0] == Key(b, order)[0];
    assert ra == Key(a, order)[..|ra|] && rb == Key(b, order)[..|rb|];
    assert Codes(a) == Key(a, order)[|ra|..] && Codes(b) == Key(b, order)[|rb|..];
    CodesInjective(a, b);
  }

  lemma SubseqValid(c: seq<Card>, hand: seq<Card>)
    requires Subseq(c, hand) && ValidHand(hand)
    ensures ValidHand(c)
  {
    SubseqMultiset(c, hand);
    forall i | 0 <= i < |c|
      ensures ValidCard(c[i])
    {
      assert c[i] in multiset(c);
      var j :| 0 <= j < |hand| && hand[j] == c[i];
    }
  }

  lemma CombinationsValid(hand: seq<Card>)
    requires ValidHand(hand)
    ensures forall c :: c in Combinations(hand, 5) ==> |c| == 5 && ValidHand(c)
  {
    forall c | c in Combinations(hand, 5)
      ensures |c| == 5 && ValidHand(c)
    {
      CombinationsSound(hand, 5, c);
      SubseqValid(c, hand);
    }
  }

  /** The key of every five-card combination, in `combinations` order. */
  function ComboKeys(hand: seq<Card>, order: PairOrder): (keys: seq<seq<int>>)
    requires ValidHand(hand)
    ensures |keys| == |Combinations(hand, 5)|
    ensures forall i :: 0 <= i < |keys| ==>
      |Combinations(hand, 5)[i]| == 5 && ValidHand(Combinations(hand, 5)[i])
      && keys[i] == Key(Combinations(hand, 5)[i], order)
  {
    var combos := Combinations(hand, 5);
    CombinationsValid(hand);
    seq(|combos|, i requires 0 <= i < |combos| => Key(combos[i], order))
  }

  /** `best_hand`: the five-card combination with the largest key; among
      equal keys the first in `combinations` order, as `max` keeps it. */
  function BestHand(hand: seq<Card>, order: PairOrder): (r: seq<Card>)
    requires |hand| >= 5 && ValidHand(hand)
    ensures r in Combinations(hand, 5) && |r| == 5 && ValidHand(r)
    ensures forall i :: 0 <= i < |ComboKeys(hand, order)| ==> !LexLess(Key(r, order), ComboKeys(hand, order)[i])
  {
    var keys := ComboKeys(hand, order);
    CombinationsCount(hand, 5);
    Combinations(hand, 5)[ArgMax(keys)]
  }

  /** `best_hand` returns a five-card part of the hand that no other one
      beats, and it is the only such part. */
  lemma BestHandIsBest(hand: seq<Card>, c: seq<Card>, order: PairOrder)
    requires |hand| >= 5 && ValidHand(hand)
    requires |c| == 5 && Subseq(c, hand)
    ensures Subseq(BestHand(hand, order), hand)
    ensures ValidHand(c) && !LexLess(Key(BestHand(hand, order), order), Key(c, order))
    ensures (forall d :: |d| == 5 && Subseq(d, hand) && ValidHand(d) ==> !LexLess(Key(c, order), Key(d, order)))
            ==> c == BestHand(hand, order)
  {
    var r := BestHand(hand, order);
    CombinationsSound(hand, 5, r);
    CombinationsComplete(hand, 5, c);
    var combos := Combinations(hand, 5);
    var i :| 0 <= i < |combos| && combos[i] == c;
    assert ComboKeys(hand, order)[i] == Key(c, order);
    if forall d :: |d| == 5 && Subseq(d, hand) && ValidHand(d) ==> !LexLess(Key(c, order), Key(d, order)) {
      LexOrder(Key(c, order), Key(r, order), Key(c, order));
      KeyInjective(c, r, order);
    }
  }

  predicate Distinct<T(==)>(s: seq<T>) {
    forall i, j :: 0 <= i < j < |s| ==> s[i] != s[j]
  }

  lemma {:induction false} SubseqDistinct<T>(c: seq<T>, s: seq<T>)
    requires Subseq(c, s) && Distinct(s)
    ensures Distinct(c)
    decreases |s|
  {
    if c != [] {
      assert Distinct(s[1..]) by {
        forall i, j | 0 <= i < j < |s[1..]|
          ensures s[1..][i] != s[1..][j]
        {
          assert s[1..][i] == s[i + 1] && s[1..][j] == s[j + 1];
        }
      }
      if c[0] == s[0] && Subseq(c[1..], s[1..]) {
        SubseqDistinct(c[1..], s[1..]);
        SubseqMultiset(c[1..], s[1..]);
        forall j | 1 <= j < |c|
          ensures c[0] != c[j]
        {
          assert c[j] == c[1..][j - 1];
          assert c[j] in multiset(s[1..]);
          var k :| 0 <= k < |s[1..]| && s[1..][k] == c[j];
          assert s[k + 1] == c[j];
        }
        forall i, j | 0 <= i < j < |c|
          ensures c[i] != c[j]
        {
          if i > 0 {
            assert c[i] == c[1..][i - 1] && c[j] == c[1..][j - 1];
          }
        }
      } else {
        SubseqDistinct(c, s[1..]);
      }
    }
  }

  /** Every rank in two suits, in the order of `product(RANKS, suits)`. */
  function Variations(suits: string): (r: seq<Card>)
    requires |suits| == 2
    ensures |r| == 26
    ensures forall i :: 0 <= i < 26 ==> r[i] == [RankChars[i / 2], suits[i % 2]]
  {
    seq(26, i requires 0 <= i < 26 => [RankChars[i / 2], suits[i % 2]])
  }

  /** The cards a black joker may stand for: clubs and spades. */
  const BlackVariations: seq<Card> := Variations("CS")

  /** The red joker's cards: hearts and diamonds. */
  const RedVariations: seq<Card> := Variations("HD")

  lemma VariationsValid()
    ensures ValidHand(BlackVariations) && ValidHand(RedVariations)
  {
    forall i | 0 <= i < 26
      ensures ValidCard(BlackVariations[i]) && ValidCard(RedVariations[i])
    {
      assert RankChars[i / 2] in RankChars[..13];
    }
  }

  lemma VariationsNonEmpty()
    ensures ToSet(BlackVariations) != {} && ToSet(RedVariations) != {}
  {
    assert BlackVariations[0] in ToSet(BlackVariations);
    assert RedVariations[0] in ToSet(RedVariations);
  }

  /** `hand.remove(card)`: drop the first occurrence. */
  function RemoveFirst(hand: seq<Card>, card: Card): (r: seq<Card>)
    requires card in hand
    ensures multiset(r) == multiset(hand) - multiset{card}
  {
    if hand[0] == card then
      assert hand == [hand[0]] + hand[1..];
      hand[1..]
    else
      assert hand == [hand[0]] + hand[1..];
      [hand[0]] + RemoveFirst(hand[1..], card)
  }

  /** The hand with its jokers taken out, the cards they may become, and
      how many were taken. */
  datatype Jokers = Jokers(rest: seq<Card>, extra: set<Card>, removed: nat)

  function ToSet(s: seq<Card>): set<Card> {
    set c | c in s
  }

  /** The first part of `best_wild_hand`: one `?B` and one `?R` at most are
      removed, and each removal adds that joker's cards to the candidates. */
  function TakeJokers(hand: seq<Card>): (j: Jokers)
    ensures multiset(j.rest) == multiset(hand) - multiset{"?B", "?R"}
    ensures j.removed == |hand| - |j.rest|
    ensures j.extra <= ToSet(BlackVariations) + ToSet(RedVariations)
    ensures ("?B" in hand ==> ToSet(BlackVariations) <= j.extra) && ("?R" in hand ==> ToSet(RedVariations) <= j.extra)
    ensures j.extra == {} <==> "?B" !in hand && "?R" !in hand
  {
    VariationsNonEmpty();
    if "?B" in hand then
      RemoveKeeps(hand, "?B", "?R");
      TakeRed(RemoveFirst(hand, "?B"), ToSet(BlackVariations), 1)
    else
      TakeRed(hand, {}, 0)
  }

  /** The second half of `TakeJokers`: the red joker. */
  function TakeRed(h: seq<Card>, e: set<Card>, n: nat): (j: Jokers)
    ensures multiset(j.rest) == multiset(h) - multiset{"?R"}
    ensures j.removed == n + |h| - |j.rest|
    ensures j.extra == if "?R" in h then e + ToSet(RedVariations) else e
  {
    if "?R" in h then
      Jokers(RemoveFirst(h, "?R"), e + ToSet(RedVariations), n + 1)
    else
      assert "?R" !in multiset(h);
      Jokers(h, e, n)
  }

  lemma RemoveKeeps(hand: seq<Card>, card: Card, other: Card)
    requires card in hand && card != other
    ensures other in RemoveFirst(hand, card) <==> other in hand
  {
    assert other in multiset(RemoveFirst(hand, card)) <==> other in multiset(hand);
  }

  /** `set(additional_cards) - set(hand)`: the candidates not already in
      the hand. */
  function CanAdd(hand: seq<Card>): set<Card> {
    var j := TakeJokers(hand);
    j.extra - ToSet(j.rest)
  }

  /** `pool` lists the candidate set in its iteration order. */
  predicate PoolOf(hand: seq<Card>, pool: seq<Card>) {
    Distinct(pool) && ToSet(pool) == CanAdd(hand)
  }

  /** The key the final choice sorts by: `(category, cards)` only. */
  function WildKey(hand: seq<Card>, order: PairOrder): seq<int>
    requires |hand| == 5 && ValidHand(hand)
  {
    [HandRank(hand, order)[0]] + Codes(hand)
  }

  /** Every card a joker can stand for is a valid card. */
  lemma ExtraCardValid(c: Card)
    requires c in ToSet(BlackVariations) + ToSet(RedVariations)
    ensures ValidCard(c)
  {
    VariationsValid();
    if c in ToSet(BlackVariations) {
      var k :| 0 <= k < 26 && BlackVariations[k] == c;
    } else {
      var k :| 0 <= k < 26 && RedVariations[k] == c;
    }
  }

  /** Taking the jokers out keeps the other cards valid. */
  lemma RestValid(hand: seq<Card>)
    requires ValidHand(hand)
    ensures ValidHand(TakeJokers(hand).rest)
  {
    var r := TakeJokers(hand).rest;
    forall i | 0 <= i < |r|
      ensures ValidCard(r[i])
    {
      assert r[i] in multiset(r);
      assert r[i] in multiset(hand);
      var k :| 0 <= k < |hand| && hand[k] == r[i];
    }
  }

  /** The cards chosen from the candidates are valid. */
  lemma ChosenValid(hand: seq<Card>, pool: seq<Card>, ext: seq<Card>)
    requires PoolOf(hand, pool) && multiset(ext) <= multiset(pool)
    ensures ValidHand(ext)
  {
    forall i | 0 <= i < |ext|
      ensures ValidCard(ext[i])
    {
      assert ext[i] in multiset(ext);
      assert ext[i] in ToSet(pool);
      ExtraCardValid(ext[i]);
    }
  }

  lemma ExtensionValid(hand: seq<Card>, pool: seq<Card>, ext: seq<Card>)
    requires ValidHand(hand) && PoolOf(hand, pool)
    requires ext in Combinations(pool, TakeJokers(hand).removed)
    ensures |TakeJokers(hand).rest + ext| == |hand| && ValidHand(TakeJokers(hand).rest + ext)
  {
    var j := TakeJokers(hand);
    CombinationsSound(pool, j.removed, ext);
    SubseqMultiset(ext, pool);
    RestValid(hand);
    ChosenValid(hand, pool, ext);
    ValidHandConcat(j.rest, ext);
  }

  lemma ValidHandConcat(a: seq<Card>, b: seq<Card>)
    requires ValidHand(a) && ValidHand(b)
    ensures ValidHand(a + b)
  {
    forall i | 0 <= i < |a + b|
      ensures ValidCard((a + b)[i])
    {
      if i >= |a| {
        assert (a + b)[i] == b[i - |a|];
      }
    }
  }

  lemma ExtensionsValid(hand: seq<Card>, pool: seq<Card>, rest: seq<Card>, exts: seq<seq<Card>>)
    requires ValidHand(hand) && PoolOf(hand, pool)
    requires rest == TakeJokers(hand).rest && exts == Combinations(pool, TakeJokers(hand).removed)
    ensures forall i :: 0 <= i < |exts| ==> |rest + exts[i]| == |hand| && ValidHand(rest + exts[i])
  {
    forall i | 0 <= i < |exts|
      ensures |rest + exts[i]| == |hand| && ValidHand(rest + exts[i])
    {
      ExtensionValid(hand, pool, exts[i]);
    }
  }

  /** `rest` completed by each of `exts` in turn. */
  function Extend(rest: seq<Card>, exts: seq<seq<Card>>): (cs: seq<seq<Card>>)
    ensures |cs| == |exts|
    ensures forall i :: 0 <= i < |cs| ==> cs[i] == rest + exts[i]
  {
    seq(|exts|, i requires 0 <= i < |exts| => rest + exts[i])
  }

  /** The hand without its jokers, completed by each choice of
      replacement cards in turn. */
  function Candidates(hand: seq<Card>, pool: seq<Card>): (cs: seq<seq<Card>>)
    requires ValidHand(hand) && PoolOf(hand, pool)
    ensures |cs| == |Combinations(pool, TakeJokers(hand).removed)|
    ensures forall i :: 0 <= i < |cs| ==>
      cs[i] == TakeJokers(hand).rest + Combinations(pool, TakeJokers(hand).removed)[i]
    ensures forall i :: 0 <= i < |cs| ==> |cs[i]| == |hand| && ValidHand(cs[i])
  {
    var j := TakeJokers(hand);
    var exts := Combinations(pool, j.removed);
    ExtensionsValid(hand, pool, j.rest, exts);
    Extend(j.rest, exts)
  }

  /** The best hand for each candidate. */
  function WildBests(hand: seq<Card>, pool: seq<Card>, order: PairOrder): (bs: seq<seq<Card>>)
    requires |hand| >= 5 && ValidHand(hand) && PoolOf(hand, pool)
    ensures |bs| == |Candidates(hand, pool)|
    ensures forall i :: 0 <= i < |bs| ==> bs[i] == BestHand(Candidates(hand, pool)[i], order)
  {
    var cs := Candidates(hand, pool);
    seq(|cs|, i requires 0 <= i < |cs| => BestHand(cs[i], order))
  }

  /** The `(category, cards)` key of each of those best hands. */
  function WildKeys(hand: seq<Card>, pool: seq<Card>, order: PairOrder): (keys: seq<seq<int>>)
    requires |hand| >= 5 && ValidHand(hand) && PoolOf(hand, pool)
    ensures |keys| == |WildBests(hand, pool, order)|
    ensures forall i :: 0 <= i < |keys| ==>
      |WildBests(hand, pool, order)[i]| == 5 && ValidHand(WildBests(hand, pool, order)[i])
      && keys[i] == WildKey(WildBests(hand, pool, order)[i], order)
  {
    var bests := WildBests(hand, pool, order);
    seq(|bests|, i requires 0 <= i < |bests| => WildKey(bests[i], order))
  }

  /** `best_wild_hand`.  For every way of choosing as many distinct
      candidates as jokers were removed, take the best hand; among those,
      keep the one with the largest `(category, cards)`. */
  function BestWildHand(hand: seq<Card>, pool: seq<Card>, order: PairOrder): (r: seq<Card>)
    requires |hand| >= 5 && ValidHand(hand) && PoolOf(hand, pool)
    requires |pool| >= TakeJokers(hand).removed
    ensures r in WildBests(hand, pool, order) && |r| == 5 && ValidHand(r)
    ensures forall i :: 0 <= i < |WildKeys(hand, pool, order)| ==> !LexLess(WildKey(r, order), WildKeys(hand, pool, order)[i])
  {
    var keys := WildKeys(hand, pool, order);
    CombinationsCount(pool, TakeJokers(hand).removed);
    WildBests(hand, pool, order)[ArgMax(keys)]
  }

  /** `best_wild_hand` picks the best hand of the joker-free cards plus some
      choice of replacements, and no other choice of replacements gives a
      best hand with a larger `(category, cards)`. */
  lemma WildHandIsBest(hand: seq<Card>, pool: seq<Card>, ext: seq<Card>, order: PairOrder)
    requires |hand| >= 5 && ValidHand(hand) && PoolOf(hand, pool)
    requires |pool| >= TakeJokers(hand).removed
    requires ext in Combinations(pool, TakeJokers(hand).removed)
    ensures var rest := TakeJokers(hand).rest;
      && |rest + ext| >= 5 && ValidHand(rest + ext)
      && (exists e :: e in Combinations(pool, TakeJokers(hand).removed)
           && |rest + e| >= 5 && ValidHand(rest + e) && BestWildHand(hand, pool, order) == BestHand(rest + e, order))
      && !LexLess(WildKey(BestWildHand(hand, pool, order), order), WildKey(BestHand(rest + ext, order), order))
  {
    WildHandChosen(hand, pool, order);
    WildHandDominates(hand, pool, ext, order);
  }

  /** The chosen hand is the best hand of some choice of replacements. */
  lemma WildHandChosen(hand: seq<Card>, pool: seq<Card>, order: PairOrder)
    requires |hand| >= 5 && ValidHand(hand) && PoolOf(hand, pool)
    requires |pool| >= TakeJokers(hand).removed
    ensures var rest := TakeJokers(hand).rest;
      exists e :: e in Combinations(pool, TakeJokers(hand).removed)
        && |rest + e| >= 5 && ValidHand(rest + e) && BestWildHand(hand, pool, order) == BestHand(rest + e, order)
  {
    var rest := TakeJokers(hand).rest;
    var exts := Combinations(pool, TakeJokers(hand).removed);
    var r := BestWildHand(hand, pool, order);
    var bests := WildBests(hand, pool, order);
    var cs := Candidates(hand, pool);
    var m :| 0 <= m < |bests| && bests[m] == r;
    assert cs[m] == rest + exts[m];
    assert r == BestHand(cs[m], order);
    assert exts[m] in exts;
  }

  /** No choice of replacements gives a best hand with a larger key. */
  lemma WildHandDominates(hand: seq<Card>, pool: seq<Card>, ext: seq<Card>, order: PairOrder)
    requires |hand| >= 5 && ValidHand(hand) && PoolOf(hand, pool)
    requires |pool| >= TakeJokers(hand).removed
    requires ext in Combinations(pool, TakeJokers(hand).removed)
    ensures var rest := TakeJokers(hand).rest;
      && |rest + ext| >= 5 && ValidHand(rest + ext)
      && !LexLess(WildKey(BestWildHand(hand, pool, order), order), WildKey(BestHand(rest + ext, order), order))
  {
    var rest := TakeJokers(hand).rest;
    var exts := Combinations(pool, TakeJokers(hand).removed);
    var bests := WildBests(hand, pool, order);
    var cs := Candidates(hand, pool);
    var keys := WildKeys(hand, pool, order);
    var i :| 0 <= i < |exts| && exts[i] == ext;
    assert cs[i] == rest + ext;
    assert bests[i] == BestHand(rest + ext, order);
    assert keys[i] == WildKey(BestHand(rest + ext, order), order);
  }

  /** Every choice of replacements is a set of distinct candidates of the
      removed jokers' colours that the hand does not already hold. */
  lemma WildReplacements(hand: seq<Card>, pool: seq<Card>, ext: seq<Card>)
    requires PoolOf(hand, pool)
    requires ext in Combinations(pool, TakeJokers(hand).removed)
    ensures |ext| == TakeJokers(hand).removed && Distinct(ext)
    ensures forall i :: 0 <= i < |ext| ==> ext[i] in TakeJokers(hand).extra && ext[i] !in TakeJokers(hand).rest
  {
    CombinationsSound(pool, TakeJokers(hand).removed, ext);
    SubseqDistinct(ext, pool);
    SubseqMultiset(ext, pool);
    forall i | 0 <= i < |ext|
      ensures ext[i] in TakeJokers(hand).extra && ext[i] !in TakeJokers(hand).rest
    {
      assert ext[i] in multiset(ext);
      assert ext[i] in ToSet(pool);
    }
  }

  /** Without jokers, `best_wild_hand` is `best_hand`. */
  lemma WildWithoutJokers(hand: seq<Card>, order: PairOrder)
    requires |hand| >= 5 && ValidHand(hand) && "?B" !in hand && "?R" !in hand
    ensures PoolOf(hand, [])
    ensures BestWildHand(hand, [], order) == BestHand(hand, order)
  {
    var j := TakeJokers(hand);
    assert multiset(j.rest) == multiset(hand);
    assert j.rest == hand by {
      assert "?B" !in multiset(hand) && "?R" !in multiset(hand);
      if "?B" in hand {
      }
    }
    assert Combinations<Card>([], 0) == [[]];
    assert hand + [] == hand;
  }
}
