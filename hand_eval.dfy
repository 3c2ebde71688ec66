/** The hand evaluator: best category of a card pool with its tie-break values, the
    comparison of two evaluations, and the draw detectors the bots use
    (src/game.js:1056-1226, 1276-1303). */
module HandEval {
  import opened Util
  import opened Cards
  import opened RankLists

  /** Categories, weakest first (HAND_NAME, src/game.js:10-20). */
  const HIGH_CARD: int := 0
  const ONE_PAIR: int := 1
  const TWO_PAIR: int := 2
  const THREE_OF_A_KIND: int := 3
  const STRAIGHT: int := 4
  const FLUSH: int := 5
  const FULL_HOUSE: int := 6
  const FOUR_OF_A_KIND: int := 7
  const STRAIGHT_FLUSH: int := 8

  /** An evaluation: the category (`rank` in the source) and the tie-break ranks. */
  datatype Eval = Eval(category: int, values: seq<int>)

  // ---------------------------------------------------------------------------
  // Comparison
  // ---------------------------------------------------------------------------

  /** `a[i] || 0`: a missing entry reads as 0. */
  function At(a: seq<int>, i: int): int
  {
    if 0 <= i < |a| then a[i] else 0
  }

  /** The comparison loop from index i to len: the difference at the first index where
      the two lists differ, or 0 when they agree on the whole range. */
  function CompareFrom(a: seq<int>, b: seq<int>, i: nat, len: nat): (r: int)
    ensures r == 0 <==> forall k :: i <= k < len ==> At(a, k) == At(b, k)
    ensures r != 0 ==> exists k :: i <= k < len && r == At(a, k) - At(b, k) &&
                                   forall j :: i <= j < k ==> At(a, j) == At(b, j)
    decreases len - i
  {
    if i >= len then 0
    else if At(a, i) != At(b, i) then At(a, i) - At(b, i)
    else CompareFrom(a, b, i + 1, len)
  }

  /** compareHighCardArrays: lexicographic, missing entries read as 0. The result is 0
      exactly when the padded lists agree, and otherwise the difference at the first index
      where they differ. */
  function CompareHighCardArrays(a: seq<int>, b: seq<int>): (r: int)
    ensures r == 0 <==> forall k :: 0 <= k < Max(|a|, |b|) ==> At(a, k) == At(b, k)
    ensures r != 0 ==> exists k :: 0 <= k < Max(|a|, |b|) && r == At(a, k) - At(b, k) &&
                                   forall j :: 0 <= j < k ==> At(a, j) == At(b, j)
  {
    CompareFrom(a, b, 0, Max(|a|, |b|))
  }

  /** compareEval: category first, then the tie-break values as compareHighCardArrays does.
      A higher category always wins; within a category the tie-break lists decide. */
  function CompareEval(x: Eval, y: Eval): (r: int)
    ensures x.category > y.category ==> r > 0
    ensures x.category < y.category ==> r < 0
    ensures x.category == y.category ==> (r > 0 <==> CompareHighCardArrays(x.values, y.values) > 0)
  {
    if x.category != y.category then x.category - y.category
    else CompareHighCardArrays(x.values, y.values)
  }

  lemma {:induction false} CompareFromAntisymmetric(a: seq<int>, b: seq<int>, i: nat, len: nat)
    ensures CompareFrom(a, b, i, len) == -CompareFrom(b, a, i, len)
    decreases len - i
  {
    if i < len && At(a, i) == At(b, i) {
      CompareFromAntisymmetric(a, b, i + 1, len);
    }
  }

  lemma {:induction false} CompareFromTransitive(a: seq<int>, b: seq<int>, c: seq<int>, i: nat, len: nat)
    requires CompareFrom(a, b, i, len) >= 0 && CompareFrom(b, c, i, len) >= 0
    ensures CompareFrom(a, c, i, len) >= 0
    decreases len - i
  {
    if i < len && At(a, i) == At(b, i) && At(b, i) == At(c, i) {
      CompareFromTransitive(a, b, c, i + 1, len);
    }
  }

  /** Reading further than both lists changes nothing: only the zero padding is compared. */
  lemma {:induction false} CompareFromPadding(a: seq<int>, b: seq<int>, i: nat, len1: nat, len2: nat)
    requires len1 >= Max(|a|, |b|) && len2 >= Max(|a|, |b|)
    ensures CompareFrom(a, b, i, len1) == CompareFrom(a, b, i, len2)
    decreases Max(len1, len2) - i
  {
    if i < len1 && i < len2 && At(a, i) == At(b, i) {
      CompareFromPadding(a, b, i + 1, len1, len2);
    } else if i >= len1 && i < len2 {
      CompareFromAgreeing(a, b, i, len2);
    } else if i >= len2 && i < len1 {
      CompareFromAgreeing(a, b, i, len1);
    }
  }

  /** Where both lists read the same from i on, the comparison from i is a tie. */
  lemma {:induction false} CompareFromAgreeing(a: seq<int>, b: seq<int>, i: nat, len: nat)
    requires forall k :: i <= k < len ==> At(a, k) == At(b, k)
    ensures CompareFrom(a, b, i, len) == 0
    decreases len - i
  {
    if i < len {
      CompareFromAgreeing(a, b, i + 1, len);
    }
  }

  /** compareHighCardArrays is antisymmetric. */
  lemma CompareHighCardArraysAntisymmetric(a: seq<int>, b: seq<int>)
    ensures CompareHighCardArrays(a, b) == -CompareHighCardArrays(b, a)
  {
    CompareFromAntisymmetric(a, b, 0, Max(|a|, |b|));
    CompareFromPadding(b, a, 0, Max(|a|, |b|), Max(|b|, |a|));
  }

  /** compareHighCardArrays is transitive, although each pair reads its own length. */
  lemma CompareHighCardArraysTransitive(a: seq<int>, b: seq<int>, c: seq<int>)
    requires CompareHighCardArrays(a, b) >= 0 && CompareHighCardArrays(b, c) >= 0
    ensures CompareHighCardArrays(a, c) >= 0
  {
    var len := Max(|a|, Max(|b|, |c|));
    CompareFromPadding(a, b, 0, Max(|a|, |b|), len);
    CompareFromPadding(b, c, 0, Max(|b|, |c|), len);
    CompareFromPadding(a, c, 0, Max(|a|, |c|), len);
    CompareFromTransitive(a, b, c, 0, len);
  }

  /** compareEval returns 0 exactly when the categories agree and the padded values agree. */
  lemma CompareEvalZero(x: Eval, y: Eval)
    ensures CompareEval(x, y) == 0 <==>
            x.category == y.category &&
            forall k :: 0 <= k < Max(|x.values|, |y.values|) ==> At(x.values, k) == At(y.values, k)
  {
  }

  /** compareEval is antisymmetric: swapping the arguments negates the result. */
  lemma CompareEvalAntisymmetric(x: Eval, y: Eval)
    ensures CompareEval(x, y) == -CompareEval(y, x)
  {
    CompareHighCardArraysAntisymmetric(x.values, y.values);
  }

  /** compareEval is transitive, so "at least as good as" is a total preorder. */
  lemma CompareEvalTransitive(x: Eval, y: Eval, z: Eval)
    requires CompareEval(x, y) >= 0 && CompareEval(y, z) >= 0
    ensures CompareEval(x, z) >= 0
  {
    if x.category == y.category == z.category {
      CompareHighCardArraysTransitive(x.values, y.values, z.values);
    }
  }

  // ---------------------------------------------------------------------------
  // Counting ranks and suits
  // ---------------------------------------------------------------------------

  /** `cards.map((c) => c.rank)`. */
  function RanksOf(cards: seq<Card>): (r: seq<int>)
    ensures |r| == |cards| && forall i :: 0 <= i < |cards| ==> r[i] == cards[i].rank as int
  {
    seq(|cards|, i requires 0 <= i < |cards| => cards[i].rank as int)
  }

  /** The entry of the rank-count map for r (0 when absent). */
  function RankCount(cards: seq<Card>, r: int): nat
  {
    if cards == [] then 0
    else RankCount(cards[..|cards| - 1], r) + (if cards[|cards| - 1].rank == r then 1 else 0)
  }

  /** The suit bucket for s: the ranks of the cards of suit s, in card order. */
  function SuitRanks(cards: seq<Card>, s: Suit): seq<int>
  {
    if cards == [] then []
    else SuitRanks(cards[..|cards| - 1], s) + (if cards[|cards| - 1].suit == s then [cards[|cards| - 1].rank as int] else [])
  }

  /** The keys of the suit-bucket map in insertion order: suits by first appearance. */
  function SuitOrder(cards: seq<Card>): seq<Suit>
  {
    if cards == [] then []
    else
      var prev := SuitOrder(cards[..|cards| - 1]);
      if cards[|cards| - 1].suit in prev then prev else prev + [cards[|cards| - 1].suit]
  }

  lemma {:induction false} RankCountIsMembership(cards: seq<Card>, r: int)
    ensures RankCount(cards, r) > 0 <==> r in RanksOf(cards)
  {
    if cards != [] {
      var init := cards[..|cards| - 1];
      RankCountIsMembership(init, r);
      assert RanksOf(cards) == RanksOf(init) + [cards[|cards| - 1].rank as int];
    }
  }

  lemma {:induction false} SuitRanksFacts(cards: seq<Card>, s: Suit)
    ensures forall x :: x in SuitRanks(cards, s) ==> 2 <= x <= 14
    ensures |SuitRanks(cards, s)| > 0 <==> s in SuitOrder(cards)
  {
    if cards != [] {
      SuitRanksFacts(cards[..|cards| - 1], s);
    }
  }

  /** Two different suits share the cards: their buckets together hold at most |cards|. */
  lemma {:induction false} TwoSuitsFit(cards: seq<Card>, s1: Suit, s2: Suit)
    requires s1 != s2
    ensures |SuitRanks(cards, s1)| + |SuitRanks(cards, s2)| <= |cards|
  {
    if cards != [] {
      TwoSuitsFit(cards[..|cards| - 1], s1, s2);
    }
  }

  lemma {:induction false} SuitOrderDistinct(cards: seq<Card>)
    ensures forall i, j :: 0 <= i < j < |SuitOrder(cards)| ==> SuitOrder(cards)[i] != SuitOrder(cards)[j]
  {
    if cards != [] {
      SuitOrderDistinct(cards[..|cards| - 1]);
    }
  }

  // ---------------------------------------------------------------------------
  // Distinct ranks kept by a count filter, highest first
  // ---------------------------------------------------------------------------

  /** The filters evaluateSeven applies to the rank-count map. */
  datatype RankFilter = AtLeast(n: nat) | Exactly(n: nat)

  predicate Keeps(cards: seq<Card>, f: RankFilter, r: int)
  {
    match f
    case AtLeast(n) => RankCount(cards, r) >= n
    case Exactly(n) => RankCount(cards, r) == n
  }

  /** `[...rankCount.entries()].filter(f).map(([rank]) => rank).sort((a, b) => b - a)`,
      scanning the ranks h, h-1, ..., 2. */
  function RanksWhere(cards: seq<Card>, f: RankFilter, h: int): (r: seq<int>)
    ensures forall x :: x in r <==> 2 <= x <= h && Keeps(cards, f, x)
    ensures StrictlyDescending(r)
    decreases h
  {
    if h < 2 then []
    else if Keeps(cards, f, h) then ConsDescending(h, RanksWhere(cards, f, h - 1)); [h] + RanksWhere(cards, f, h - 1)
    else RanksWhere(cards, f, h - 1)
  }

  /** Only ranks 2..14 ever occur, so the scan from 14 misses none. */
  lemma CountedRanksAreRanks(cards: seq<Card>, r: int)
    requires RankCount(cards, r) > 0
    ensures 2 <= r <= 14
  {
    RankCountIsMembership(cards, r);
  }

  /** `[...new Set(ranks)].sort((a, b) => b - a)`: the distinct ranks, highest first. */
  function UniqueRanks(cards: seq<Card>): seq<int>
  {
    RanksWhere(cards, AtLeast(1), 14)
  }

  /** The distinct-ranks list is the strictly descending list of exactly the ranks held. */
  lemma UniqueRanksMembers(cards: seq<Card>)
    ensures StrictlyDescending(UniqueRanks(cards))
    ensures forall x :: x in UniqueRanks(cards) <==> x in RanksOf(cards)
  {
    forall x ensures x in UniqueRanks(cards) <==> x in RanksOf(cards) {
      RankCountIsMembership(cards, x);
      if RankCount(cards, x) > 0 {
        CountedRanksAreRanks(cards, x);
      }
    }
  }

  // ---------------------------------------------------------------------------
  // Flush choice
  // ---------------------------------------------------------------------------

  /** The flush loop over the suit buckets in `order`: a bucket of five or more cards,
      sorted descending, replaces the current pick when there is none yet or when it
      compares higher. */
  function PickFlush(cards: seq<Card>, order: seq<Suit>): Option<seq<int>>
  {
    if order == [] then None
    else
      var prev := PickFlush(cards, order[..|order| - 1]);
      var bucket := SuitRanks(cards, order[|order| - 1]);
      if |bucket| >= 5 && (prev.None? || CompareHighCardArrays(SortDesc(bucket), prev.value) > 0)
      then Some(SortDesc(bucket))
      else prev
  }

  /** flushRanks when flushSuit is set, None when it stays null. */
  function FlushRanks(cards: seq<Card>): Option<seq<int>>
  {
    PickFlush(cards, SuitOrder(cards))
  }

  lemma {:induction false} PickFlushNone(cards: seq<Card>, order: seq<Suit>)
    ensures PickFlush(cards, order).None? <==> forall k :: 0 <= k < |order| ==> |SuitRanks(cards, order[k])| < 5
  {
    if order != [] {
      PickFlushNone(cards, order[..|order| - 1]);
    }
  }

  /** When only suit s has five or more cards, the pick is s's bucket, sorted. */
  lemma {:induction false} PickFlushOnly(cards: seq<Card>, order: seq<Suit>, s: Suit)
    requires s in order
    requires forall k :: 0 <= k < |order| && order[k] != s ==> |SuitRanks(cards, order[k])| < 5
    requires |SuitRanks(cards, s)| >= 5
    requires forall i, j :: 0 <= i < j < |order| ==> order[i] != order[j]
    ensures PickFlush(cards, order) == Some(SortDesc(SuitRanks(cards, s)))
  {
    var init := order[..|order| - 1];
    if order[|order| - 1] == s {
      assert s !in init;
      PickFlushNone(cards, init);
    } else {
      assert s in init;
      PickFlushOnly(cards, init, s);
    }
  }

  /** With at most nine cards at most one suit can reach five, so the flush ranks are that
      suit's ranks, sorted descending; without such a suit there is no flush. */
  lemma FlushRanksOfSmallPool(cards: seq<Card>)
    requires |cards| <= 9
    ensures FlushRanks(cards).None? <==> forall s :: |SuitRanks(cards, s)| < 5
    ensures forall s :: |SuitRanks(cards, s)| >= 5 ==> FlushRanks(cards) == Some(SortDesc(SuitRanks(cards, s)))
  {
    var order := SuitOrder(cards);
    PickFlushNone(cards, order);
    forall s | |SuitRanks(cards, s)| >= 5
      ensures FlushRanks(cards) == Some(SortDesc(SuitRanks(cards, s)))
    {
      SuitRanksFacts(cards, s);
      SuitOrderDistinct(cards);
      forall k | 0 <= k < |order| && order[k] != s
        ensures |SuitRanks(cards, order[k])| < 5
      {
        TwoSuitsFit(cards, s, order[k]);
      }
      PickFlushOnly(cards, order, s);
    }
    forall s | |SuitRanks(cards, s)| >= 5 ensures s in order {
      SuitRanksFacts(cards, s);
    }
  }

  // ---------------------------------------------------------------------------
  // evaluateSeven
  // ---------------------------------------------------------------------------

  /** The full-house partner list: pairs other than the top trip, with the second trip
      put in front when there is one. */
  function PossiblePair(trips: seq<int>, pairs: seq<int>): seq<int>
    requires trips != []
  {
    (if |trips| > 1 then [trips[1]] else []) + Without(pairs, trips[0])
  }

  /** evaluateSeven: the first category that matches, in the order straight flush, four of a
      kind, full house, flush, straight, three of a kind, two pair, one pair, high card. */
  function EvaluateSeven(cards: seq<Card>): (e: Eval)
    ensures HIGH_CARD <= e.category <= STRAIGHT_FLUSH
  {
    var unique := UniqueRanks(cards);
    var flush := FlushRanks(cards);
    var flushHigh := if flush.Some? then StraightHigh(flush.value) else None;
    if flushHigh.Some? then Eval(STRAIGHT_FLUSH, [flushHigh.value])
    else
      var quads := RanksWhere(cards, Exactly(4), 14);
      if quads != [] then Eval(FOUR_OF_A_KIND, [quads[0], FirstOr0(Without(unique, quads[0]))])
      else
        var trips := RanksWhere(cards, AtLeast(3), 14);
        var pairs := RanksWhere(cards, AtLeast(2), 14);
        if trips != [] && PossiblePair(trips, pairs) != [] then
          Eval(FULL_HOUSE, [trips[0], MaxOf(PossiblePair(trips, pairs))])
        else if flush.Some? then Eval(FLUSH, Take(flush.value, 5))
        else
          var straightHigh := StraightHigh(unique);
          if straightHigh.Some? then Eval(STRAIGHT, [straightHigh.value])
          else if trips != [] then Eval(THREE_OF_A_KIND, [trips[0]] + Take(Without(unique, trips[0]), 2))
          else if |pairs| >= 2 then
            Eval(TWO_PAIR, [pairs[0], pairs[1], FirstOr0(Without(Without(unique, pairs[0]), pairs[1]))])
          else if |pairs| == 1 then Eval(ONE_PAIR, [pairs[0]] + Take(Without(unique, pairs[0]), 3))
          else Eval(HIGH_CARD, Take(unique, 5))
  }

  // Independent definitions of the categories, in terms of rank and suit counts only.

  ghost predicate IsStraightFlush(cards: seq<Card>)
  {
    exists s: Suit, h :: |SuitRanks(cards, s)| >= 5 && 5 <= h <= 14 && RunAt(SuitRanks(cards, s), h)
  }

  ghost predicate IsFourOfAKind(cards: seq<Card>)
  {
    exists r :: RankCount(cards, r) == 4
  }

  ghost predicate IsFullHouse(cards: seq<Card>)
  {
    exists r1, r2 :: r1 != r2 && RankCount(cards, r1) >= 3 && RankCount(cards, r2) >= 2
  }

  ghost predicate IsFlush(cards: seq<Card>)
  {
    exists s: Suit :: |SuitRanks(cards, s)| >= 5
  }

  ghost predicate IsStraight(cards: seq<Card>)
  {
    exists h :: 5 <= h <= 14 && RunAt(RanksOf(cards), h)
  }

  ghost predicate IsThreeOfAKind(cards: seq<Card>)
  {
    exists r :: RankCount(cards, r) >= 3
  }

  ghost predicate IsTwoPair(cards: seq<Card>)
  {
    exists r1, r2 :: r1 != r2 && RankCount(cards, r1) >= 2 && RankCount(cards, r2) >= 2
  }

  ghost predicate IsOnePair(cards: seq<Card>)
  {
    exists r :: RankCount(cards, r) >= 2
  }

  /** The category the hand deserves: the strongest pattern present. */
  ghost function Category(cards: seq<Card>): int
  {
    if IsStraightFlush(cards) then STRAIGHT_FLUSH
    else if IsFourOfAKind(cards) then FOUR_OF_A_KIND
    else if IsFullHouse(cards) then FULL_HOUSE
    else if IsFlush(cards) then FLUSH
    else if IsStraight(cards) then STRAIGHT
    else if IsThreeOfAKind(cards) then THREE_OF_A_KIND
    else if IsTwoPair(cards) then TWO_PAIR
    else if IsOnePair(cards) then ONE_PAIR
    else HIGH_CARD
  }

  lemma RanksWhereNonEmpty(cards: seq<Card>, f: RankFilter, h: int)
    ensures RanksWhere(cards, f, h) != [] <==> exists r :: 2 <= r <= h && Keeps(cards, f, r)
  {
    var l := RanksWhere(cards, f, h);
    if l != [] {
      assert l[0] in l;
    }
  }

  /** Two distinct kept ranks exist exactly when the list holds two entries. */
  lemma RanksWhereTwo(cards: seq<Card>, f: RankFilter, h: int)
    ensures |RanksWhere(cards, f, h)| >= 2 <==>
            exists r1, r2 :: r1 != r2 && 2 <= r1 <= h && 2 <= r2 <= h && Keeps(cards, f, r1) && Keeps(cards, f, r2)
  {
    var l := RanksWhere(cards, f, h);
    if |l| >= 2 {
      assert l[0] in l && l[1] in l && l[0] != l[1];
    }
    if exists r1, r2 :: r1 != r2 && 2 <= r1 <= h && 2 <= r2 <= h && Keeps(cards, f, r1) && Keeps(cards, f, r2) {
      var r1, r2 :| r1 != r2 && 2 <= r1 <= h && 2 <= r2 <= h && Keeps(cards, f, r1) && Keeps(cards, f, r2);
      TwoMembers(l, r1, r2);
    }
  }

  lemma TwoMembers(l: seq<int>, x: int, y: int)
    ensures x in l && y in l && x != y ==> |l| >= 2
  {
    if |l| == 1 {
      assert l == [l[0]];
    }
  }

  /** A rank kept by a filter that needs at least one card is a card rank. */
  lemma KeptRankInRange(cards: seq<Card>, f: RankFilter, r: int)
    requires f.n >= 1 && Keeps(cards, f, r)
    ensures 2 <= r <= 14
  {
    CountedRanksAreRanks(cards, r);
  }

  lemma StraightFlushIff(cards: seq<Card>)
    requires |cards| <= 9
    ensures (FlushRanks(cards).Some? && StraightHigh(FlushRanks(cards).value).Some?) <==> IsStraightFlush(cards)
  {
    FlushRanksOfSmallPool(cards);
    if FlushRanks(cards).Some? {
      var s: Suit :| |SuitRanks(cards, s)| >= 5;
      SortedBucketStraight(cards, s);
      forall t: Suit | |SuitRanks(cards, t)| >= 5 ensures t == s {
        if t != s {
          TwoSuitsFit(cards, s, t);
        }
      }
    }
  }

  /** Sorting a suit bucket does not change which straights it holds. */
  lemma SortedBucketStraight(cards: seq<Card>, s: Suit)
    ensures StraightHigh(SortDesc(SuitRanks(cards, s))).Some? <==>
            exists h :: 5 <= h <= 14 && RunAt(SuitRanks(cards, s), h)
  {
    SuitRanksFacts(cards, s);
    SortedRanksStraight(SuitRanks(cards, s));
  }

  lemma SortedRanksStraight(bucket: seq<int>)
    requires AllRanks(bucket)
    ensures StraightHigh(SortDesc(bucket)).Some? <==> exists h :: 5 <= h <= 14 && RunAt(bucket, h)
  {
    SortDescIsSortedPermutation(bucket);
    forall x ensures x in SortDesc(bucket) <==> x in bucket {
      assert x in SortDesc(bucket) <==> x in multiset(SortDesc(bucket));
      assert x in bucket <==> x in multiset(bucket);
    }
    StraightHighDependsOnMembers(SortDesc(bucket), bucket);
  }

  lemma FlushIff(cards: seq<Card>)
    ensures FlushRanks(cards).Some? <==> IsFlush(cards)
  {
    PickFlushNone(cards, SuitOrder(cards));
    if IsFlush(cards) {
      var s: Suit :| |SuitRanks(cards, s)| >= 5;
      SuitRanksFacts(cards, s);
      var k :| 0 <= k < |SuitOrder(cards)| && SuitOrder(cards)[k] == s;
    }
  }

  lemma QuadsIff(cards: seq<Card>)
    ensures RanksWhere(cards, Exactly(4), 14) != [] <==> IsFourOfAKind(cards)
  {
    RanksWhereNonEmpty(cards, Exactly(4), 14);
    if IsFourOfAKind(cards) {
      var r :| RankCount(cards, r) == 4;
      KeptRankInRange(cards, Exactly(4), r);
    }
  }

  lemma TripsIff(cards: seq<Card>)
    ensures RanksWhere(cards, AtLeast(3), 14) != [] <==> IsThreeOfAKind(cards)
  {
    RanksWhereNonEmpty(cards, AtLeast(3), 14);
    if IsThreeOfAKind(cards) {
      var r :| RankCount(cards, r) >= 3;
      KeptRankInRange(cards, AtLeast(3), r);
    }
  }

  lemma PairIff(cards: seq<Card>)
    ensures RanksWhere(cards, AtLeast(2), 14) != [] <==> IsOnePair(cards)
  {
    RanksWhereNonEmpty(cards, AtLeast(2), 14);
    if IsOnePair(cards) {
      var r :| RankCount(cards, r) >= 2;
      KeptRankInRange(cards, AtLeast(2), r);
    }
  }

  lemma TwoPairIff(cards: seq<Card>)
    ensures |RanksWhere(cards, AtLeast(2), 14)| >= 2 <==> IsTwoPair(cards)
  {
    RanksWhereTwo(cards, AtLeast(2), 14);
    if IsTwoPair(cards) {
      var r1, r2 :| r1 != r2 && RankCount(cards, r1) >= 2 && RankCount(cards, r2) >= 2;
      KeptRankInRange(cards, AtLeast(2), r1);
      KeptRankInRange(cards, AtLeast(2), r2);
    }
  }

  lemma FullHouseIff(cards: seq<Card>)
    ensures var trips := RanksWhere(cards, AtLeast(3), 14);
            var pairs := RanksWhere(cards, AtLeast(2), 14);
            (trips != [] && PossiblePair(trips, pairs) != []) <==> IsFullHouse(cards)
  {
    var trips := RanksWhere(cards, AtLeast(3), 14);
    var pairs := RanksWhere(cards, AtLeast(2), 14);
    if trips != [] && PossiblePair(trips, pairs) != [] {
      assert trips[0] in trips;
      if |trips| > 1 {
        assert trips[1] in trips && trips[0] != trips[1];
      } else {
        var w := Without(pairs, trips[0]);
        assert w[0] in w;
      }
    }
    if IsFullHouse(cards) {
      var r1, r2 :| r1 != r2 && RankCount(cards, r1) >= 3 && RankCount(cards, r2) >= 2;
      KeptRankInRange(cards, AtLeast(3), r1);
      KeptRankInRange(cards, AtLeast(2), r2);
      assert r1 in trips && r2 in pairs;
      if r2 != trips[0] {
        assert r2 in Without(pairs, trips[0]);
      } else {
        assert trips[0] in trips;
        TwoMembers(trips, r1, trips[0]);
      }
    }
  }

  lemma StraightIff(cards: seq<Card>)
    ensures StraightHigh(UniqueRanks(cards)).Some? <==> IsStraight(cards)
  {
    UniqueRanksMembers(cards);
    StraightHighDependsOnMembers(UniqueRanks(cards), RanksOf(cards));
  }

  /** For a pool of at most nine cards (two hole cards and a board of up to five, as dealt),
      evaluateSeven's category is the strongest pattern the cards form. */
  lemma EvaluateSevenCategory(cards: seq<Card>)
    requires |cards| <= 9
    ensures EvaluateSeven(cards).category == Category(cards)
  {
    StraightFlushIff(cards);
    QuadsIff(cards);
    FullHouseIff(cards);
    FlushIff(cards);
    StraightIff(cards);
    TripsIff(cards);
    TwoPairIff(cards);
    PairIff(cards);
  }

  /** A straight is broken by its top card alone: the highest run among the distinct ranks,
      so an ace-to-five wheel without a six or a ten is worth five. */
  lemma StraightTieBreak(cards: seq<Card>)
    requires EvaluateSeven(cards).category == STRAIGHT
    ensures var high := StraightHigh(UniqueRanks(cards));
            high.Some? && EvaluateSeven(cards).values == [high.value] && 5 <= high.value <= 14
    ensures var ranks := RanksOf(cards);
            14 in ranks && 2 in ranks && 3 in ranks && 4 in ranks && 5 in ranks && 6 !in ranks && 10 !in ranks ==>
              EvaluateSeven(cards).values == [5]
  {
    UniqueRanksMembers(cards);
    var ranks := RanksOf(cards);
    if 14 in ranks && 2 in ranks && 3 in ranks && 4 in ranks && 5 in ranks && 6 !in ranks && 10 !in ranks {
      WheelIsFiveHigh(UniqueRanks(cards));
    }
  }

  // ---------------------------------------------------------------------------
  // Draw detectors
  // ---------------------------------------------------------------------------

  /** hasFlushDraw: count the cards of each suit, then look for a count of exactly four. */
  method HasFlushDraw(cards: seq<Card>) returns (r: bool)
    ensures r <==> exists s: Suit :: |SuitRanks(cards, s)| == 4
  {
    var count: map<Suit, nat> := map[];
    var i := 0;
    while i < |cards|
      invariant 0 <= i <= |cards|
      invariant forall s :: s in count ==> count[s] == |SuitRanks(cards[..i], s)|
      invariant forall s :: s !in count ==> |SuitRanks(cards[..i], s)| == 0
    {
      assert cards[..i + 1][..i] == cards[..i];
      var suit := cards[i].suit;
      count := count[suit := (if suit in count then count[suit] else 0) + 1];
      i := i + 1;
    }
    assert cards[..i] == cards;
    r := exists s :: s in count && count[s] == 4;
  }

  /** Four consecutive ranks ending at some h in 4..14 are present, the ace counting low too. */
  ghost predicate Run4Above(xs: seq<int>, low: int)
  {
    exists h :: low < h <= 14 && 4 <= h && Run4At(xs, h)
  }

  /** hasStraightDraw: the longest run of present ranks counting down from each high
      reaches four. */
  method HasStraightDraw(cards: seq<Card>) returns (r: bool)
    ensures r <==> exists h :: 4 <= h <= 14 && Run4At(RanksOf(cards), h)
  {
    ghost var xs := RanksOf(cards);
    var present := set x | x in RanksOf(cards);
    if 14 in present {
      present := present + {1};
    }
    assert forall x :: x in present <==> Present(xs, x);
    var bestRun := 1;
    var high := 14;
    while high >= 1
      invariant 0 <= high <= 14
      invariant bestRun >= 1
      invariant bestRun >= 4 <==> Run4Above(xs, high)
    {
      var run := 0;
      var r := high;
      while r >= 1
        invariant 0 <= r <= high
        invariant run == high - r
        invariant forall x :: r < x <= high ==> Present(xs, x)
        invariant bestRun >= 1 && bestRun >= run
        invariant bestRun >= 4 <==> Run4Above(xs, high) || run >= 4
      {
        if r in present {
          run := run + 1;
          bestRun := Max(bestRun, run);
        } else {
          break;
        }
        r := r - 1;
      }
      NoRunBelowAce(xs);
      assert run >= 4 <==> 4 <= high && Run4At(xs, high);
      Run4AboveStep(xs, high);
      high := high - 1;
    }
    r := bestRun >= 4;
  }

  lemma NoRunBelowAce(xs: seq<int>)
    requires forall x :: x in xs ==> 2 <= x <= 14
    ensures !Present(xs, 0)
  {
  }

  lemma Run4AboveStep(xs: seq<int>, high: int)
    ensures Run4Above(xs, high - 1) <==> Run4Above(xs, high) || (4 <= high <= 14 && Run4At(xs, high))
  {
    if Run4Above(xs, high - 1) {
      var h :| high - 1 < h <= 14 && 4 <= h && Run4At(xs, h);
      if h != high {
        assert Run4Above(xs, high);
      }
    }
  }
}
