/** Settling a hand on values: a pot won uncontested when everyone else folds, and the
    showdown that evaluates the contenders, finds the best hands and splits the pot
    (src/game.js). */
module Settlement {
  import opened Util
  import opened Cards
  import opened HandEval
  import opened Engine

  // ---------------------------------------------------------------------------
  // Settlement
  // ---------------------------------------------------------------------------

  /** The seats of playersInHand, in seat order, from seat i on. */
  function ContendersFrom(ps: seq<Player>, i: nat): (cs: seq<nat>)
    requires i <= |ps|
    ensures forall k :: k in cs <==> i <= k < |ps| && InHand(ps[k])
    ensures forall a, b :: 0 <= a < b < |cs| ==> cs[a] < cs[b]
    ensures forall j :: 0 <= j < |cs| ==> cs[j] < |ps|
    decreases |ps| - i
  {
    if i == |ps| then []
    else
      var rest := ContendersFrom(ps, i + 1);
      if InHand(ps[i]) then
        assert forall b :: 0 <= b < |rest| ==> rest[b] in rest;
        [i] + rest
      else rest
  }

  /** playersInHand as seats: exactly the seats in the hand, in seat order. */
  function Contenders(ps: seq<Player>): (cs: seq<nat>)
    ensures forall k :: k in cs <==> 0 <= k < |ps| && InHand(ps[k])
    ensures forall a, b :: 0 <= a < b < |cs| ==> cs[a] < cs[b]
    ensures forall j :: 0 <= j < |cs| ==> cs[j] < |ps|
  {
    ContendersFrom(ps, 0)
  }

  /** The winner after checkSinglePlayerWin when exactly one player is in the hand. */
  function SingleWin(ps: seq<Player>, pot: int): (r: Option<seq<Player>>)
    ensures r.Some? <==> |Contenders(ps)| == 1
    ensures r.Some? ==> SumChips(r.value) == SumChips(ps) + pot
    ensures r.Some? ==> var w := Contenders(ps)[0];
              0 <= w < |ps| && |r.value| == |ps| && r.value[w] == ps[w].(chips := ps[w].chips + pot) &&
              forall i :: 0 <= i < |ps| && i != w ==> r.value[i] == ps[i]
  {
    var cs := Contenders(ps);
    if |cs| != 1 then None
    else
      assert cs[0] in cs;
      SumChipsUpdate(ps, cs[0], ps[cs[0]].(chips := ps[cs[0]].chips + pot));
      Some(ps[cs[0] := ps[cs[0]].(chips := ps[cs[0]].chips + pot)])
  }

  /** The showdown loop that keeps the first best evaluation among es[..n]. */
  function BestUpTo(es: seq<Eval>, n: nat): (b: nat)
    requires 1 <= n <= |es|
    ensures b < n
  {
    if n == 1 then 0
    else
      var prev := BestUpTo(es, n - 1);
      if CompareEval(es[n - 1], es[prev]) > 0 then n - 1 else prev
  }

  /** The kept evaluation is at least as good as every evaluation scanned. */
  lemma {:induction false} BestUpToIsBest(es: seq<Eval>, n: nat)
    requires 1 <= n <= |es|
    ensures forall j :: 0 <= j < n ==> CompareEval(es[BestUpTo(es, n)], es[j]) >= 0
  {
    if n == 1 {
      CompareEvalAntisymmetric(es[0], es[0]);
    } else {
      BestUpToIsBest(es, n - 1);
      var prev := BestUpTo(es, n - 1);
      if CompareEval(es[n - 1], es[prev]) > 0 {
        forall j | 0 <= j < n ensures CompareEval(es[n - 1], es[j]) >= 0 {
          if j < n - 1 {
            CompareEvalTransitive(es[n - 1], es[prev], es[j]);
          } else {
            CompareEvalAntisymmetric(es[j], es[j]);
          }
        }
      } else {
        CompareEvalAntisymmetric(es[n - 1], es[prev]);
      }
    }
  }

  /** The winners filter over the first n entries: the seats whose evaluation compares
      equal to the best one. */
  function WinnersUpTo(cs: seq<nat>, es: seq<Eval>, best: nat, n: nat): (ws: seq<nat>)
    requires |cs| == |es| && best < |es| && n <= |cs|
    ensures |ws| <= n
    ensures forall j :: 0 <= j < |ws| ==> ws[j] in cs[..n]
    ensures (forall a, b :: 0 <= a < b < |cs| ==> cs[a] < cs[b]) ==>
            forall a, b :: 0 <= a < b < |ws| ==> ws[a] < ws[b]
  {
    if n == 0 then []
    else
      var prev := WinnersUpTo(cs, es, best, n - 1);
      assert cs[..n - 1] <= cs[..n];
      assert (forall a, b :: 0 <= a < b < |cs| ==> cs[a] < cs[b]) ==>
             forall j :: 0 <= j < |prev| ==> prev[j] < cs[n - 1];
      if CompareEval(es[n - 1], es[best]) == 0 then prev + [cs[n - 1]] else prev
  }

  /** A seat wins exactly when its evaluation is at least as good as every contender's. */
  lemma {:induction false} WinnersAreTheBest(cs: seq<nat>, es: seq<Eval>, n: nat)
    requires |cs| == |es| && 1 <= n <= |cs|
    requires forall a, b :: 0 <= a < b < |cs| ==> cs[a] < cs[b]
    ensures forall k :: 0 <= k < n ==>
              (cs[k] in WinnersUpTo(cs, es, BestUpTo(es, |es|), n) <==>
               forall j :: 0 <= j < |es| ==> CompareEval(es[k], es[j]) >= 0)
  {
    var best := BestUpTo(es, |es|);
    BestUpToIsBest(es, |es|);
    var ws := WinnersUpTo(cs, es, best, n);
    var prev := WinnersUpTo(cs, es, best, n - 1);
    if n > 1 {
      WinnersAreTheBest(cs, es, n - 1);
    }
    forall k | 0 <= k < n
      ensures cs[k] in ws <==> forall j :: 0 <= j < |es| ==> CompareEval(es[k], es[j]) >= 0
    {
      CompareEvalAntisymmetric(es[k], es[best]);
      if CompareEval(es[k], es[best]) == 0 {
        forall j | 0 <= j < |es| ensures CompareEval(es[k], es[j]) >= 0 {
          CompareEvalTransitive(es[k], es[best], es[j]);
        }
      }
      if k == n - 1 {
        if n > 1 {
          NotInPrefix(cs, n - 1, prev);
        }
      } else {
        assert cs[k] != cs[n - 1];
      }
    }
  }

  lemma NotInPrefix(cs: seq<nat>, m: nat, ws: seq<nat>)
    requires m < |cs| && forall a, b :: 0 <= a < b < |cs| ==> cs[a] < cs[b]
    requires forall j :: 0 <= j < |ws| ==> ws[j] in cs[..m]
    ensures cs[m] !in ws
  {
    forall j | 0 <= j < |ws| ensures ws[j] != cs[m] {
      var a :| 0 <= a < m && cs[..m][a] == ws[j];
      assert cs[a] < cs[m];
    }
  }

  /** The payout loop: the j-th winner gets `each`, plus one chip while j < rem. */
  function Payout(ps: seq<Player>, ws: seq<nat>, each: int, rem: int): (r: seq<Player>)
    requires forall j :: 0 <= j < |ws| ==> ws[j] < |ps|
    ensures |r| == |ps|
  {
    if ws == [] then ps
    else
      var j := |ws| - 1;
      var prev := Payout(ps, ws[..j], each, rem);
      prev[ws[j] := prev[ws[j]].(chips := prev[ws[j]].chips + each + (if j < rem then 1 else 0))]
  }

  /** The payout adds `each` per winner and one chip for each of the first `rem` winners. */
  lemma {:induction false} PayoutAddsUp(ps: seq<Player>, ws: seq<nat>, each: int, rem: nat)
    requires forall j :: 0 <= j < |ws| ==> ws[j] < |ps|
    ensures SumChips(Payout(ps, ws, each, rem)) == SumChips(ps) + |ws| * each + Min(rem, |ws|)
  {
    if ws != [] {
      var j := |ws| - 1;
      var init := ws[..j];
      assert forall a :: 0 <= a < |init| ==> init[a] < |ps|;
      var prev := Payout(ps, init, each, rem);
      var q := prev[ws[j]].(chips := prev[ws[j]].chips + each + (if j < rem then 1 else 0));
      assert Payout(ps, ws, each, rem) == prev[ws[j] := q];
      PayoutAddsUp(ps, init, each, rem);
      SumChipsUpdate(prev, ws[j], q);
      MulSucc(j, each);
    }
  }

  lemma MulSucc(j: int, each: int)
    ensures (j + 1) * each == j * each + each
  {
  }

  /** Each winner gets its share, and every other seat is untouched. */
  lemma PayoutShares(ps: seq<Player>, ws: seq<nat>, each: int, rem: int)
    requires forall j :: 0 <= j < |ws| ==> ws[j] < |ps|
    requires forall a, b :: 0 <= a < b < |ws| ==> ws[a] < ws[b]
    ensures var r := Payout(ps, ws, each, rem);
            (forall j :: 0 <= j < |ws| ==>
               r[ws[j]] == ps[ws[j]].(chips := ps[ws[j]].chips + each + (if j < rem then 1 else 0))) &&
            (forall s :: 0 <= s < |ps| && s !in ws ==> r[s] == ps[s])
  {
    forall j | 0 <= j < |ws|
      ensures Payout(ps, ws, each, rem)[ws[j]] ==
              ps[ws[j]].(chips := ps[ws[j]].chips + each + (if j < rem then 1 else 0))
    {
      PayoutPaysWinner(ps, ws, each, rem, j);
    }
    forall s | 0 <= s < |ps| && s !in ws ensures Payout(ps, ws, each, rem)[s] == ps[s] {
      PayoutSkips(ps, ws, each, rem, s);
    }
  }

  /** A seat that is not among the winners keeps its player unchanged. */
  lemma {:induction false} PayoutSkips(ps: seq<Player>, ws: seq<nat>, each: int, rem: int, s: int)
    requires forall j :: 0 <= j < |ws| ==> ws[j] < |ps|
    requires 0 <= s < |ps| && s !in ws
    ensures Payout(ps, ws, each, rem)[s] == ps[s]
  {
    if ws != [] {
      var j := |ws| - 1;
      var init := ws[..j];
      assert forall a :: 0 <= a < |init| ==> init[a] < |ps|;
      assert forall a :: 0 <= a < |init| ==> init[a] == ws[a];
      PayoutSkips(ps, init, each, rem, s);
    }
  }

  /** The j-th winner gets `each`, plus one chip when j < rem. */
  lemma {:induction false} PayoutPaysWinner(ps: seq<Player>, ws: seq<nat>, each: int, rem: int, j: int)
    requires forall a :: 0 <= a < |ws| ==> ws[a] < |ps|
    requires forall a, b :: 0 <= a < b < |ws| ==> ws[a] < ws[b]
    requires 0 <= j < |ws|
    ensures Payout(ps, ws, each, rem)[ws[j]] ==
            ps[ws[j]].(chips := ps[ws[j]].chips + each + (if j < rem then 1 else 0))
  {
    var last := |ws| - 1;
    var init := ws[..last];
    assert forall a :: 0 <= a < |init| ==> init[a] < |ps|;
    assert forall a, b :: 0 <= a < b < |init| ==> init[a] < init[b];
    if j < last {
      assert init[j] == ws[j] && ws[j] < ws[last];
      PayoutPaysWinner(ps, init, each, rem, j);
    } else {
      assert ws[j] !in init by {
        assert forall a :: 0 <= a < last ==> init[a] < ws[last];
      }
      PayoutSkips(ps, init, each, rem, ws[j]);
    }
  }

  /** Seat by seat: a winner's player changes only in its chips, by `each` or one more;
      every other player is unchanged. */
  lemma PayoutBySeat(ps: seq<Player>, ws: seq<nat>, each: int, rem: int)
    requires forall j :: 0 <= j < |ws| ==> ws[j] < |ps|
    requires forall a, b :: 0 <= a < b < |ws| ==> ws[a] < ws[b]
    ensures var r := Payout(ps, ws, each, rem);
            forall s :: 0 <= s < |ps| ==>
              if s in ws then r[s] == ps[s].(chips := r[s].chips) && each <= r[s].chips - ps[s].chips <= each + 1
              else r[s] == ps[s]
  {
    PayoutShares(ps, ws, each, rem);
    forall s | 0 <= s < |ps| && s in ws
      ensures var r := Payout(ps, ws, each, rem);
              r[s] == ps[s].(chips := r[s].chips) && each <= r[s].chips - ps[s].chips <= each + 1
    {
      var j :| 0 <= j < |ws| && ws[j] == s;
    }
  }

  lemma DivRem(pot: int, k: int)
    requires pot >= 0 && k > 0
    ensures 0 <= pot - (pot / k) * k < k
    ensures k * (pot / k) == (pot / k) * k
    ensures pot / k >= 0
  {
  }

  lemma PayoutSplit(ps: seq<Player>, ws: seq<nat>, each: int, rem: int, pot: int)
    requires forall j :: 0 <= j < |ws| ==> ws[j] < |ps|
    requires 0 <= rem < |ws| && pot == |ws| * each + rem
    ensures SumChips(Payout(ps, ws, each, rem)) == SumChips(ps) + pot
  {
    PayoutAddsUp(ps, ws, each, rem);
  }

  /** The pot split among the winners, as showdown pays it: floor(pot/k) to each of the k
      winners and one chip more to each of the first pot mod k of them. Exactly the pot is
      handed out, and only the winners' stacks change. */
  function Share(ps: seq<Player>, ws: seq<nat>, pot: int): (r: seq<Player>)
    requires pot >= 0 && |ws| > 0
    requires forall j :: 0 <= j < |ws| ==> ws[j] < |ps|
    requires forall a, b :: 0 <= a < b < |ws| ==> ws[a] < ws[b]
    ensures |r| == |ps|
    ensures SumChips(r) == SumChips(ps) + pot
    ensures forall s :: 0 <= s < |ps| ==> r[s].chips >= ps[s].chips
    ensures forall s :: 0 <= s < |ps| ==>
              if s in ws then r[s] == ps[s].(chips := r[s].chips) &&
                              pot / |ws| <= r[s].chips - ps[s].chips <= pot / |ws| + 1
              else r[s] == ps[s]
  {
    var each := pot / |ws|;
    var rem := pot - each * |ws|;
    DivRem(pot, |ws|);
    PayoutSplit(ps, ws, each, rem, pot);
    PayoutBySeat(ps, ws, each, rem);
    Payout(ps, ws, each, rem)
  }

  // ---------------------------------------------------------------------------
  // Showdown
  // ---------------------------------------------------------------------------

  /** The evaluation of each contender's hole cards with the board, in contender order. */
  function Evaluations(ps: seq<Player>, board: seq<Card>, cs: seq<nat>): (es: seq<Eval>)
    requires forall k :: 0 <= k < |cs| ==> cs[k] < |ps|
    ensures |es| == |cs|
  {
    seq(|cs|, k requires 0 <= k < |cs| => EvaluateSeven(ps[cs[k]].hand + board))
  }

  /** `player.showdown = result` for the first n contenders. */
  function Record(ps: seq<Player>, cs: seq<nat>, es: seq<Eval>, n: nat): (r: seq<Player>)
    requires |cs| == |es| && n <= |cs| && forall k :: 0 <= k < |cs| ==> cs[k] < |ps|
    ensures |r| == |ps|
    ensures forall i :: 0 <= i < |ps| ==> r[i] == ps[i].(showdown := r[i].showdown)
  {
    if n == 0 then ps
    else
      var prev := Record(ps, cs, es, n - 1);
      prev[cs[n - 1] := prev[cs[n - 1]].(showdown := Some(es[n - 1]))]
  }

  /** With distinct contenders, each of the first n holds its own evaluation after Record,
      and every other seat is as it was. */
  lemma {:induction false} RecordStores(ps: seq<Player>, cs: seq<nat>, es: seq<Eval>, n: nat)
    requires |cs| == |es| && n <= |cs| && forall k :: 0 <= k < |cs| ==> cs[k] < |ps|
    requires forall a, b :: 0 <= a < b < |cs| ==> cs[a] < cs[b]
    ensures var r := Record(ps, cs, es, n);
            (forall k :: 0 <= k < n ==> r[cs[k]].showdown == Some(es[k])) &&
            (forall i :: 0 <= i < |ps| && i !in cs[..n] ==> r[i] == ps[i])
  {
    if n > 0 {
      RecordStores(ps, cs, es, n - 1);
      assert forall i :: i !in cs[..n] ==> i !in cs[..n - 1] && i != cs[n - 1] by {
        assert cs[..n] == cs[..n - 1] + [cs[n - 1]];
      }
    }
  }

  /** The winners filter over all contenders, with the best found by the showdown loop. */
  function Winners(cs: seq<nat>, es: seq<Eval>): (ws: seq<nat>)
    requires |cs| == |es| > 0
    requires forall a, b :: 0 <= a < b < |cs| ==> cs[a] < cs[b]
    ensures |ws| > 0
    ensures forall j :: 0 <= j < |ws| ==> ws[j] in cs
    ensures forall a, b :: 0 <= a < b < |ws| ==> ws[a] < ws[b]
  {
    var best := BestUpTo(es, |es|);
    WinnersAreTheBest(cs, es, |cs|);
    BestUpToIsBest(es, |es|);
    assert cs[..|cs|] == cs;
    WinnersUpTo(cs, es, best, |cs|)
  }

  /** The winners are exactly the contenders whose evaluation is at least as good as every
      contender's: ties all win, and nobody below the best does. */
  lemma WinnersAreMaximal(cs: seq<nat>, es: seq<Eval>)
    requires |cs| == |es| > 0
    requires forall a, b :: 0 <= a < b < |cs| ==> cs[a] < cs[b]
    ensures forall k :: 0 <= k < |cs| ==>
              (cs[k] in Winners(cs, es) <==> forall j :: 0 <= j < |es| ==> CompareEval(es[k], es[j]) >= 0)
  {
    WinnersAreTheBest(cs, es, |cs|);
    assert cs[..|cs|] == cs;
  }

  /** The pot has gone into the stacks: they grow by the pot in total, none shrinks, and
      nothing but stacks and recorded evaluations changes. */
  predicate PaidOut(before: seq<Player>, after: seq<Player>, pot: int)
  {
    |after| == |before| && SumChips(after) == SumChips(before) + pot &&
    forall s :: 0 <= s < |before| ==>
      after[s] == before[s].(chips := after[s].chips, showdown := after[s].showdown) && after[s].chips >= before[s].chips
  }

  /** Record the evaluations, then split the pot among the winners. Exactly the contenders
      whose hand is at least as good as every other contender's share it, each getting
      floor(pot/k) or one chip more; the pot is emptied into the stacks, and apart from the
      recorded evaluations no other player changes. */
  function SplitPot(ps: seq<Player>, cs: seq<nat>, es: seq<Eval>, pot: int): (r: (seq<Player>, int))
    requires pot >= 0 && |cs| == |es| > 0
    requires forall a, b :: 0 <= a < b < |cs| ==> cs[a] < cs[b]
    requires forall k :: 0 <= k < |cs| ==> cs[k] < |ps|
    ensures r.1 == 0 && PaidOut(ps, r.0, pot)
    ensures forall s :: 0 <= s < |ps| ==>
              if s in Winners(cs, es) then pot / |Winners(cs, es)| <= r.0[s].chips - ps[s].chips <= pot / |Winners(cs, es)| + 1
              else r.0[s].chips == ps[s].chips
  {
    var ws := Winners(cs, es);
    InRange(cs, ws, |ps|);
    var recorded := Record(ps, cs, es, |cs|);
    SumChipsSameStacks(recorded, ps);
    var paid := Share(recorded, ws, pot);
    OnlyChipsAndShowdown(ps, recorded, paid, ws);
    (paid, 0)
  }

  /** SplitPot leaves each contender's own evaluation recorded on its seat and every seat
      outside the hand exactly as it was. */
  lemma SplitPotRecords(ps: seq<Player>, cs: seq<nat>, es: seq<Eval>, pot: int)
    requires pot >= 0 && |cs| == |es| > 0
    requires forall a, b :: 0 <= a < b < |cs| ==> cs[a] < cs[b]
    requires forall k :: 0 <= k < |cs| ==> cs[k] < |ps|
    ensures var r := SplitPot(ps, cs, es, pot).0;
            (forall k :: 0 <= k < |cs| ==> r[cs[k]].showdown == Some(es[k])) &&
            (forall s :: 0 <= s < |ps| && s !in cs ==> r[s] == ps[s])
  {
    var ws := Winners(cs, es);
    InRange(cs, ws, |ps|);
    var recorded := Record(ps, cs, es, |cs|);
    RecordStores(ps, cs, es, |cs|);
    assert cs[..|cs|] == cs;
    var paid := Share(recorded, ws, pot);
    forall k | 0 <= k < |cs| ensures paid[cs[k]].showdown == Some(es[k]) {
      assert paid[cs[k]] == recorded[cs[k]].(chips := paid[cs[k]].chips);
    }
    forall s | 0 <= s < |ps| && s !in cs ensures paid[s] == ps[s] {
      assert s !in ws;
    }
  }

  /** showdown's payout on the players as they stand: every contender's hole cards are
      evaluated with the board, and the pot is split among the best (SplitPot). */
  function ShowdownPayout(ps: seq<Player>, board: seq<Card>, pot: int): (r: seq<Player>)
    requires pot >= 0 && |Contenders(ps)| > 0
    ensures |r| == |ps| && PaidOut(ps, r, pot)
  {
    var cs := Contenders(ps);
    SplitPot(ps, cs, Evaluations(ps, board, cs), pot).0
  }

  /** Who showdown pays: exactly the winners' stacks grow, each by floor(pot/k) or one chip
      more for k winners; every contender's own evaluation is recorded on its seat, and the
      seats outside the hand stay exactly as they were. */
  lemma ShowdownPays(ps: seq<Player>, board: seq<Card>, pot: int, cs: seq<nat>, es: seq<Eval>)
    requires pot >= 0 && cs == Contenders(ps) && |cs| > 0 && es == Evaluations(ps, board, cs)
    ensures var r := ShowdownPayout(ps, board, pot);
            (forall k :: 0 <= k < |cs| ==> r[cs[k]].showdown == Some(es[k])) &&
            (forall s :: 0 <= s < |ps| && s !in cs ==> r[s] == ps[s]) &&
            var ws := Winners(cs, es);
            forall s :: 0 <= s < |ps| ==>
              if s in ws then pot / |ws| <= r[s].chips - ps[s].chips <= pot / |ws| + 1
              else r[s].chips == ps[s].chips
  {
    SplitPotRecords(ps, cs, es, pot);
  }

  lemma OnlyChipsAndShowdown(ps: seq<Player>, recorded: seq<Player>, paid: seq<Player>, ws: seq<nat>)
    requires |recorded| == |paid| == |ps|
    requires forall i :: 0 <= i < |ps| ==> recorded[i] == ps[i].(showdown := recorded[i].showdown)
    requires forall s :: 0 <= s < |ps| ==>
               if s in ws then paid[s] == recorded[s].(chips := paid[s].chips) else paid[s] == recorded[s]
    ensures forall s :: 0 <= s < |ps| ==>
              paid[s] == ps[s].(chips := paid[s].chips, showdown := paid[s].showdown)
  {
    forall s | 0 <= s < |ps|
      ensures paid[s] == ps[s].(chips := paid[s].chips, showdown := paid[s].showdown)
    {
      assert recorded[s] == ps[s].(showdown := recorded[s].showdown);
    }
  }

  lemma InRange(cs: seq<nat>, ws: seq<nat>, n: nat)
    requires forall k :: 0 <= k < |cs| ==> cs[k] < n
    requires forall j :: 0 <= j < |ws| ==> ws[j] in cs
    ensures forall j :: 0 <= j < |ws| ==> ws[j] < n
  {
    forall j | 0 <= j < |ws| ensures ws[j] < n {
      var k :| 0 <= k < |cs| && cs[k] == ws[j];
    }
  }

}
