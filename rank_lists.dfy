/** Lists of ranks as the evaluator builds them (sorted, filtered, sliced), and the
    straight search with the ace doubling as 1 (src/game.js:1187-1205). */
module RankLists {
  import opened Util
  import opened Cards

  predicate StrictlyDescending(s: seq<int>)
  {
    forall i, j :: 0 <= i < j < |s| ==> s[i] > s[j]
  }

  predicate Descending(s: seq<int>)
  {
    forall i, j :: 0 <= i < j < |s| ==> s[i] >= s[j]
  }

  lemma ConsDescending(x: int, s: seq<int>)
    requires StrictlyDescending(s) && forall y :: y in s ==> y < x
    ensures StrictlyDescending([x] + s)
  {
    forall i, j | 0 <= i < j < |[x] + s| ensures ([x] + s)[i] > ([x] + s)[j] {
      assert ([x] + s)[j] == s[j - 1] && s[j - 1] in s;
      if i > 0 {
        assert ([x] + s)[i] == s[i - 1];
      }
    }
  }

  /** A strictly descending list is determined by its elements: a deduplicated list sorted
      with `(a, b) => b - a` is the one strictly descending list of those members. */
  lemma {:induction false} DescendingIsUnique(a: seq<int>, b: seq<int>)
    requires StrictlyDescending(a) && StrictlyDescending(b)
    requires forall x :: x in a <==> x in b
    ensures a == b
  {
    if a != [] && b != [] {
      assert a[0] == b[0] by {
        assert a[0] in b && b[0] in a;
      }
      forall x ensures x in a[1..] <==> x in b[1..] {
        if x in a[1..] {
          assert x < a[0] && x in b;
        }
        if x in b[1..] {
          assert x < b[0] && x in a;
        }
      }
      DescendingIsUnique(a[1..], b[1..]);
      assert a == [a[0]] + a[1..] && b == [b[0]] + b[1..];
    } else if a != [] {
      HeadIsMember(a);
      assert false;
    } else if b != [] {
      HeadIsMember(b);
      assert false;
    }
  }

  lemma HeadIsMember(s: seq<int>)
    ensures s != [] ==> s[0] in s
  {
  }

  /** `list.filter((r) => r !== x)`. */
  function Without(s: seq<int>, x: int): (r: seq<int>)
    ensures forall y :: y in r <==> y in s && y != x
    ensures StrictlyDescending(s) ==> StrictlyDescending(r)
  {
    if s == [] then []
    else if s[0] == x then Without(s[1..], x)
    else
      assert StrictlyDescending(s) ==> forall y :: y in Without(s[1..], x) ==> y < s[0];
      if StrictlyDescending(s) then ConsDescending(s[0], Without(s[1..], x)); [s[0]] + Without(s[1..], x)
      else [s[0]] + Without(s[1..], x)
  }

  /** `list.slice(0, n)`. */
  function Take(s: seq<int>, n: nat): seq<int>
  {
    s[..Min(n, |s|)]
  }

  /** `list.find(...) || 0` once the filter is applied: the first entry, else 0. */
  function FirstOr0(s: seq<int>): int
  {
    if s == [] then 0 else s[0]
  }

  /** `Math.max(...list)` of a non-empty list. */
  function MaxOf(s: seq<int>): (m: int)
    requires s != []
    ensures m in s && forall x :: x in s ==> x <= m
  {
    assert s == [s[0]] + s[1..];
    if |s| == 1 then s[0] else Max(s[0], MaxOf(s[1..]))
  }

  function Repeat(x: int, n: nat): (r: seq<int>)
    ensures |r| == n && forall i :: 0 <= i < n ==> r[i] == x
  {
    if n == 0 then [] else [x] + Repeat(x, n - 1)
  }

  /** Every copy of the ranks h, h-1, ..., 2 in xs, highest first. */
  function SortFrom(h: int, xs: seq<int>): seq<int>
    decreases h
  {
    if h < 2 then [] else Repeat(h, multiset(xs)[h]) + SortFrom(h - 1, xs)
  }

  /** `ranks.slice().sort((a, b) => b - a)` for a list of card ranks. */
  function SortDesc(xs: seq<int>): seq<int>
  {
    SortFrom(14, xs)
  }

  predicate AllRanks(xs: seq<int>)
  {
    forall x :: x in xs ==> 2 <= x <= 14
  }

  lemma {:induction false} SortFromFacts(h: int, xs: seq<int>)
    ensures forall x :: x in SortFrom(h, xs) ==> 2 <= x <= h
    ensures Descending(SortFrom(h, xs))
    ensures forall v :: multiset(SortFrom(h, xs))[v] == if 2 <= v <= h then multiset(xs)[v] else 0
    decreases h
  {
    if h >= 2 {
      SortFromFacts(h - 1, xs);
      var head := Repeat(h, multiset(xs)[h]);
      var tail := SortFrom(h - 1, xs);
      assert SortFrom(h, xs) == head + tail;
      assert forall x :: x in head ==> x == h;
      AppendDescending(head, tail);
      forall v ensures multiset(head)[v] == if v == h then multiset(xs)[h] else 0 {
        RepeatCount(h, multiset(xs)[h], v);
      }
    }
  }

  lemma AppendDescending(a: seq<int>, b: seq<int>)
    requires Descending(a) && Descending(b)
    requires forall x, y :: x in a && y in b ==> x >= y
    ensures Descending(a + b)
  {
    forall i, j | 0 <= i < j < |a + b| ensures (a + b)[i] >= (a + b)[j] {
      if j >= |a| && i < |a| {
        assert (a + b)[i] == a[i] && a[i] in a;
        assert (a + b)[j] == b[j - |a|] && b[j - |a|] in b;
      }
    }
  }

  lemma {:induction false} RepeatCount(x: int, n: nat, v: int)
    ensures multiset(Repeat(x, n))[v] == if v == x then n else 0
  {
    if n > 0 {
      RepeatCount(x, n - 1, v);
      assert Repeat(x, n) == [x] + Repeat(x, n - 1);
    }
  }

  /** The sort is a descending permutation of its input. */
  lemma SortDescIsSortedPermutation(xs: seq<int>)
    requires AllRanks(xs)
    ensures Descending(SortDesc(xs))
    ensures multiset(SortDesc(xs)) == multiset(xs)
  {
    SortFromIsPermutation(14, xs);
  }

  lemma SortFromIsPermutation(h: int, xs: seq<int>)
    requires forall x :: x in xs ==> 2 <= x <= h
    ensures Descending(SortFrom(h, xs))
    ensures multiset(SortFrom(h, xs)) == multiset(xs)
  {
    SortFromFacts(h, xs);
    var sorted := SortFrom(h, xs);
    forall v ensures multiset(sorted)[v] == multiset(xs)[v] {
      if !(2 <= v <= h) {
        assert v !in xs;
      }
    }
  }

  /** Whether rank r is in the straight search's set: the set of listed ranks with 1
      added when the ace (14) is present. */
  predicate Present(xs: seq<int>, r: int)
  {
    r in xs || (r == 1 && 14 in xs)
  }

  /** Five consecutive ranks h-4 .. h are present. */
  predicate RunAt(xs: seq<int>, h: int)
  {
    Present(xs, h) && Present(xs, h - 1) && Present(xs, h - 2) && Present(xs, h - 3) && Present(xs, h - 4)
  }

  /** Four consecutive ranks h-3 .. h are present. */
  predicate Run4At(xs: seq<int>, h: int)
  {
    Present(xs, h) && Present(xs, h - 1) && Present(xs, h - 2) && Present(xs, h - 3)
  }

  /** The highest h in 5 .. top with a five-rank run ending at h. */
  function HighestRun(xs: seq<int>, top: int): (r: Option<int>)
    ensures r.Some? ==> 5 <= r.value <= top && RunAt(xs, r.value)
    ensures r.Some? ==> forall h :: r.value < h <= top ==> !RunAt(xs, h)
    ensures r.None? <==> forall h :: 5 <= h <= top ==> !RunAt(xs, h)
    decreases top
  {
    if top < 5 then None
    else if RunAt(xs, top) then Some(top)
    else HighestRun(xs, top - 1)
  }

  /** The value of findStraightHigh: the highest straight top in 5..14, or null. */
  function StraightHigh(xs: seq<int>): Option<int>
  {
    HighestRun(xs, 14)
  }

  /** Only which ranks are present matters to the straight search. */
  lemma StraightHighDependsOnMembers(xs: seq<int>, ys: seq<int>)
    requires forall x :: x in xs <==> x in ys
    ensures StraightHigh(xs) == StraightHigh(ys)
  {
    assert forall r :: Present(xs, r) == Present(ys, r);
    assert forall h :: RunAt(xs, h) == RunAt(ys, h);
    StraightHighIsUnique(xs, StraightHigh(ys));
  }

  lemma StraightHighIsUnique(xs: seq<int>, r: Option<int>)
    requires r.Some? ==> 5 <= r.value <= 14 && RunAt(xs, r.value)
    requires r.Some? ==> forall h :: r.value < h <= 14 ==> !RunAt(xs, h)
    requires r.None? ==> forall h :: 5 <= h <= 14 ==> !RunAt(xs, h)
    ensures StraightHigh(xs) == r
  {
  }

  /** The wheel: with an ace, two, three, four and five and neither a six nor a ten, the
      only straight is the one where the ace counts low, and it is five high. */
  lemma WheelIsFiveHigh(xs: seq<int>)
    requires 14 in xs && 2 in xs && 3 in xs && 4 in xs && 5 in xs
    requires 6 !in xs && 10 !in xs
    ensures StraightHigh(xs) == Some(5)
  {
    forall h | 5 < h <= 14 ensures !RunAt(xs, h) {
      if h <= 10 {
        assert !Present(xs, 6);
      } else {
        assert !Present(xs, 10);
      }
    }
    StraightHighIsUnique(xs, Some(5));
  }

  /** findStraightHigh: scan high from 14 down to 5 and check the five ranks below. */
  method FindStraightHigh(rankList: seq<int>) returns (r: Option<int>)
    ensures r == StraightHigh(rankList)
  {
    var present := set x | x in rankList;
    if 14 in present {
      present := present + {1};
    }
    assert forall x :: x in present <==> Present(rankList, x);
    var high := 14;
    while high >= 5
      invariant 4 <= high <= 14
      invariant forall h :: high < h <= 14 ==> !RunAt(rankList, h)
    {
      var ok := true;
      var offset := 0;
      while offset < 5
        invariant 0 <= offset <= 5
        invariant ok ==> forall x :: high - offset < x <= high ==> Present(rankList, x)
        invariant !ok ==> !RunAt(rankList, high)
      {
        if high - offset !in present {
          ok := false;
          break;
        }
        offset := offset + 1;
      }
      if ok {
        StraightHighIsUnique(rankList, Some(high));
        return Some(high);
      }
      high := high - 1;
    }
    StraightHighIsUnique(rankList, None);
    return None;
  }
}
