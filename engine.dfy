/** The table's rules on values: players, chip movement, the betting step, round
    completion, seat navigation and settlement (src/game.js). The class in module Table
    performs these steps in place and is proved to agree with the functions here. */
module Engine {
  import opened Util
  import opened Cards
  import opened HandEval

  const STARTING_CHIPS: int := 1500
  const SMALL_BLIND: int := 10
  const BIG_BLIND: int := 20
  /** The four seats created by createPlayers. */
  const SEATS: nat := 4

  datatype Stage = Idle | Preflop | Flop | Turn | River

  /** The community cards on the table at each stage. */
  function BoardSize(s: Stage): nat
  {
    match s
    case Idle => 0
    case Preflop => 0
    case Flop => 3
    case Turn => 4
    case River => 5
  }

  /** A player's move; a raise carries the requested total (None when the request is
      not a finite number, which the source replaces by the minimum total). */
  datatype Action = Fold | CheckCall | Raise(raiseTo: Option<int>)

  /** A seat: its stack, hole cards, flags, chips put in on this street, and the
      evaluation recorded at showdown. */
  datatype Player = Player(chips: int, hand: seq<Card>, folded: bool, allIn: bool,
                           currentBet: int, acted: bool, showdown: Option<Eval>)

  function NewPlayer(): Player
  {
    Player(STARTING_CHIPS, [], false, false, 0, false, None)
  }

  /** canAct: still in the hand with chips behind. A player who can act is in the hand. */
  predicate CanAct(p: Player)
    ensures CanAct(p) ==> InHand(p)
  {
    !p.folded && !p.allIn && p.chips > 0
  }

  /** The filter of playersInHand: not folded and either holding chips or all in. */
  predicate InHand(p: Player)
  {
    !p.folded && (p.chips > 0 || p.allIn)
  }

  /** Nobody at the table can act: the situation in which the board is run out. */
  predicate NobodyActs(ps: seq<Player>)
  {
    forall i :: 0 <= i < |ps| ==> !CanAct(ps[i])
  }

  function SumChips(ps: seq<Player>): int
  {
    if ps == [] then 0 else ps[0].chips + SumChips(ps[1..])
  }

  lemma {:induction false} SumChipsUpdate(ps: seq<Player>, i: int, p: Player)
    requires 0 <= i < |ps|
    ensures SumChips(ps[i := p]) == SumChips(ps) - ps[i].chips + p.chips
  {
    if i > 0 {
      assert ps[i := p][1..] == ps[1..][i - 1 := p];
      SumChipsUpdate(ps[1..], i - 1, p);
    } else {
      assert ps[i := p][1..] == ps[1..];
    }
  }

  /** Seats with equal stacks hold that stack times the number of seats. */
  lemma {:induction false} SumChipsAll(ps: seq<Player>, c: int)
    requires forall i :: 0 <= i < |ps| ==> ps[i].chips == c
    ensures SumChips(ps) == |ps| * c
  {
    if ps != [] {
      SumChipsAll(ps[1..], c);
    }
  }

  lemma {:induction false} SumChipsSameStacks(ps: seq<Player>, qs: seq<Player>)
    requires |ps| == |qs| && forall i :: 0 <= i < |ps| ==> ps[i].chips == qs[i].chips
    ensures SumChips(ps) == SumChips(qs)
  {
    if ps != [] {
      SumChipsSameStacks(ps[1..], qs[1..]);
    }
  }

  // ---------------------------------------------------------------------------
  // Chip movement
  // ---------------------------------------------------------------------------

  /** commitChips: the player after the commitment and the chips moved to the pot. */
  function Commit(p: Player, amount: int): (r: (Player, int))
    ensures r.0.chips == p.chips - r.1 && r.0.currentBet == p.currentBet + r.1
    ensures r.0 == p.(chips := r.0.chips, currentBet := r.0.currentBet, allIn := r.0.allIn)
    ensures amount <= 0 || p.chips <= 0 ==> r == (p, 0)
    ensures amount > 0 && p.chips > 0 ==>
              0 < r.1 <= amount && r.1 <= p.chips && (r.1 == amount || r.0.chips == 0) &&
              (r.0.allIn <==> p.allIn || r.0.chips == 0)
  {
    if amount <= 0 || p.chips <= 0 then (p, 0)
    else
      var c := Min(amount, p.chips);
      var q := p.(chips := p.chips - c, currentBet := p.currentBet + c);
      (if q.chips == 0 then q.(allIn := true) else q, c)
  }

  /** The betting state applyAction reads and writes. */
  datatype Bets = Bets(players: seq<Player>, pot: int, currentBet: int, minRaise: int)

  /** The bounds every step keeps: no negative stacks or bets, nobody above the table bet,
      and a positive minimum raise. */
  predicate WellFormed(b: Bets)
  {
    b.pot >= 0 && b.currentBet >= 0 && b.minRaise > 0 &&
    forall i :: 0 <= i < |b.players| ==>
      b.players[i].chips >= 0 && 0 <= b.players[i].currentBet <= b.currentBet
  }

  /** The chips in play: the pot and every stack. */
  function Total(b: Bets): int
  {
    b.pot + SumChips(b.players)
  }

  // ---------------------------------------------------------------------------
  // Raises
  // ---------------------------------------------------------------------------

  /** The smallest legal raise total: the big blind for an opening bet, else the table
      bet plus the last raise size. */
  function MinTotal(tableBet: int, minRaise: int, bigBlind: int): int
  {
    if tableBet == 0 then bigBlind else tableBet + minRaise
  }

  /** The raise total applyAction accepts for `request`, or None when it returns false:
      the request is clamped to between the player's bet and their all-in total, and an
      all-in is accepted below the minimum. */
  function RaiseTarget(p: Player, tableBet: int, minRaise: int, bigBlind: int, request: Option<int>): (r: Option<int>)
    ensures r.Some? ==> p.currentBet < r.value <= p.currentBet + p.chips && r.value > tableBet
    ensures r.Some? ==> r.value >= MinTotal(tableBet, minRaise, bigBlind) || r.value == p.currentBet + p.chips
    ensures r.Some? && request.Some? ==> r.value == Min(Max(request.value, p.currentBet), p.currentBet + p.chips)
    ensures r.Some? && request.None? ==> r.value == Min(Max(MinTotal(tableBet, minRaise, bigBlind), p.currentBet), p.currentBet + p.chips)
  {
    var maxTotal := p.currentBet + p.chips;
    if maxTotal <= tableBet then None
    else
      var minTotal := MinTotal(tableBet, minRaise, bigBlind);
      var requested := if request.Some? then request.value else minTotal;
      var target := Min(Max(requested, p.currentBet), maxTotal);
      var isAllIn := target == maxTotal;
      if target < minTotal && !isAllIn then None
      else if target <= tableBet && !isAllIn then None
      else if target <= p.currentBet then None
      else Some(target)
  }

  /** With the player's bet at most the table bet and a positive minimum raise and big blind,
      the last two rejections never fire: a raise is refused exactly when the player cannot
      go above the table bet, or when the clamped total is short of the minimum without
      being all in. */
  lemma RaiseAcceptedIff(p: Player, tableBet: int, minRaise: int, bigBlind: int, request: Option<int>)
    requires p.currentBet <= tableBet && minRaise > 0 && bigBlind > 0 && tableBet >= 0
    ensures var maxTotal := p.currentBet + p.chips;
            var minTotal := MinTotal(tableBet, minRaise, bigBlind);
            var target := Min(Max(if request.Some? then request.value else minTotal, p.currentBet), maxTotal);
            RaiseTarget(p, tableBet, minRaise, bigBlind, request).Some? <==>
              maxTotal > tableBet && (target >= minTotal || target == maxTotal)
  {
  }

  /** Who may act again after a full raise: every other player who can act. */
  function Reopen(ps: seq<Player>, seat: int): (r: seq<Player>)
    ensures |r| == |ps|
    ensures forall i :: 0 <= i < |ps| ==>
              r[i] == (if i != seat && CanAct(ps[i]) then ps[i].(acted := false) else ps[i])
  {
    seq(|ps|, i requires 0 <= i < |ps| => if i != seat && CanAct(ps[i]) then ps[i].(acted := false) else ps[i])
  }

  // ---------------------------------------------------------------------------
  // The betting step
  // ---------------------------------------------------------------------------

  /** applyAction's effect on the betting state once the hand is known to be running, or
      None when it returns false. */
  function Act(b: Bets, bigBlind: int, seat: int, action: Action): (r: Option<Bets>)
    requires 0 <= seat < |b.players|
    ensures r.Some? ==> |r.value.players| == |b.players|
    ensures r.Some? ==> CanAct(b.players[seat]) && r.value.players[seat].acted
    ensures r.Some? ==> r.value.pot >= b.pot && r.value.currentBet >= b.currentBet
    ensures r.Some? ==> forall i :: 0 <= i < |b.players| && i != seat ==>
              r.value.players[i] == b.players[i].(acted := r.value.players[i].acted)
  {
    var p := b.players[seat];
    if !CanAct(p) then None
    else
      match action
      case Fold =>
        Some(b.(players := b.players[seat := p.(folded := true, acted := true)]))
      case CheckCall =>
        var toCall := Max(0, b.currentBet - p.currentBet);
        if toCall == 0 then Some(b.(players := b.players[seat := p.(acted := true)]))
        else
          var (q, paid) := Commit(p, toCall);
          Some(b.(players := b.players[seat := q.(acted := true)], pot := b.pot + paid))
      case Raise(request) =>
        var t := RaiseTarget(p, b.currentBet, b.minRaise, bigBlind, request);
        if t.None? then None
        else
          var (q, paid) := Commit(p, t.value - p.currentBet);
          if paid <= 0 then None
          else
            var target := q.currentBet;
            var prevBet := b.currentBet;
            var raiseSize := target - prevBet;
            var raised := target > prevBet;
            var reopened := raised && (prevBet == 0 || raiseSize >= b.minRaise);
            var newMin := if !raised then b.minRaise
                          else if prevBet == 0 then Max(bigBlind, raiseSize)
                          else if raiseSize >= b.minRaise then raiseSize
                          else b.minRaise;
            var ps := b.players[seat := q.(acted := true)];
            Some(Bets(if reopened then Reopen(ps, seat) else ps, b.pot + paid,
                      if raised then target else prevBet, newMin))
  }

  /** applyAction returns false only when the player cannot act or the raise is refused:
      the `paid <= 0` rejection after committing chips never fires. */
  lemma ActRejectsIff(b: Bets, bigBlind: int, seat: int, action: Action)
    requires 0 <= seat < |b.players|
    ensures Act(b, bigBlind, seat, action).None? <==>
            !CanAct(b.players[seat]) ||
            (action.Raise? && RaiseTarget(b.players[seat], b.currentBet, b.minRaise, bigBlind, action.raiseTo).None?)
  {
  }

  /** Every accepted action moves chips only between the actor's stack and the pot. */
  lemma ActConservesChips(b: Bets, bigBlind: int, seat: int, action: Action)
    requires 0 <= seat < |b.players|
    requires Act(b, bigBlind, seat, action).Some?
    ensures Total(Act(b, bigBlind, seat, action).value) == Total(b)
  {
    var p := b.players[seat];
    var r := Act(b, bigBlind, seat, action).value;
    match action
    case Fold =>
      SumChipsUpdate(b.players, seat, p.(folded := true, acted := true));
    case CheckCall =>
      var toCall := Max(0, b.currentBet - p.currentBet);
      if toCall == 0 {
        SumChipsUpdate(b.players, seat, p.(acted := true));
      } else {
        var (q, paid) := Commit(p, toCall);
        SumChipsUpdate(b.players, seat, q.(acted := true));
      }
    case Raise(request) =>
      var t := RaiseTarget(p, b.currentBet, b.minRaise, bigBlind, request);
      var (q, paid) := Commit(p, t.value - p.currentBet);
      var ps := b.players[seat := q.(acted := true)];
      SumChipsUpdate(b.players, seat, q.(acted := true));
      SumChipsSameStacks(Reopen(ps, seat), ps);
  }

  /** A fold or a check moves no chips; a fold only marks the player folded and acted. */
  lemma FoldAndCheckMoveNoChips(b: Bets, bigBlind: int, seat: int)
    requires 0 <= seat < |b.players| && CanAct(b.players[seat])
    ensures Act(b, bigBlind, seat, Fold) ==
            Some(b.(players := b.players[seat := b.players[seat].(folded := true, acted := true)]))
    ensures b.players[seat].currentBet >= b.currentBet ==>
            Act(b, bigBlind, seat, CheckCall) == Some(b.(players := b.players[seat := b.players[seat].(acted := true)]))
  {
  }

  /** A call the stack covers pays exactly the difference to the table bet: the player's bet
      becomes the table bet, and the player is all in exactly when the stack is used up. */
  lemma FullCallMatches(b: Bets, bigBlind: int, seat: int)
    requires 0 <= seat < |b.players| && CanAct(b.players[seat])
    requires 0 < b.currentBet - b.players[seat].currentBet <= b.players[seat].chips
    ensures var p := b.players[seat];
            var toCall := b.currentBet - p.currentBet;
            Act(b, bigBlind, seat, CheckCall) ==
              Some(b.(players := b.players[seat := p.(chips := p.chips - toCall, currentBet := b.currentBet,
                                                      allIn := p.chips == toCall, acted := true)],
                      pot := b.pot + toCall))
  {
  }

  /** A call the stack cannot cover is paid in full from the stack and leaves the player
      all in; it is never refused. */
  lemma ShortCallGoesAllIn(b: Bets, bigBlind: int, seat: int)
    requires 0 <= seat < |b.players| && CanAct(b.players[seat])
    requires b.currentBet - b.players[seat].currentBet > b.players[seat].chips
    ensures var r := Act(b, bigBlind, seat, CheckCall);
            r.Some? && r.value.players[seat].chips == 0 && r.value.players[seat].allIn &&
            r.value.pot == b.pot + b.players[seat].chips && r.value.currentBet == b.currentBet
  {
  }

  /** An accepted raise puts the table bet at the raiser's new bet, strictly above the old
      table bet (so the "Call" label branch after a raise never fires); a full raise or an
      opening bet sets the new minimum raise and reopens the others, a short all-in raise
      changes neither. */
  lemma RaiseOutcome(b: Bets, bigBlind: int, seat: int, request: Option<int>)
    requires 0 <= seat < |b.players|
    requires Act(b, bigBlind, seat, Raise(request)).Some?
    ensures var r := Act(b, bigBlind, seat, Raise(request)).value;
            var target := r.players[seat].currentBet;
            var raiseSize := target - b.currentBet;
            var full := b.currentBet == 0 || raiseSize >= b.minRaise;
            r.currentBet == target == RaiseTarget(b.players[seat], b.currentBet, b.minRaise, bigBlind, request).value &&
            target > b.currentBet && r.players[seat].acted &&
            r.pot == b.pot + (target - b.players[seat].currentBet) &&
            r.minRaise == (if b.currentBet == 0 then Max(bigBlind, raiseSize)
                           else if full then raiseSize else b.minRaise) &&
            forall i :: 0 <= i < |b.players| && i != seat ==>
              r.players[i] == (if full && CanAct(b.players[i]) then b.players[i].(acted := false) else b.players[i])
  {
  }

  /** The accepted raise to `t`, written out step by step as the table carries it out. */
  lemma RaiseSteps(b: Bets, bigBlind: int, seat: int, request: Option<int>, t: int)
    requires 0 <= seat < |b.players| && CanAct(b.players[seat])
    requires RaiseTarget(b.players[seat], b.currentBet, b.minRaise, bigBlind, request) == Some(t)
    ensures var p := b.players[seat];
            var q := Commit(p, t - p.currentBet).0;
            var raiseSize := q.currentBet - b.currentBet;
            var reopened := b.currentBet == 0 || raiseSize >= b.minRaise;
            var newMin := if b.currentBet == 0 then Max(bigBlind, raiseSize)
                          else if reopened then raiseSize else b.minRaise;
            var ps := b.players[seat := q.(acted := true)];
            Act(b, bigBlind, seat, Raise(request)) ==
              Some(Bets(if reopened then Reopen(ps, seat) else ps, b.pot + (t - p.currentBet), q.currentBet, newMin))
  {
  }

  /** Every step keeps the bounds of WellFormed. */
  lemma ActKeepsWellFormed(b: Bets, bigBlind: int, seat: int, action: Action)
    requires 0 <= seat < |b.players| && WellFormed(b) && bigBlind > 0
    requires Act(b, bigBlind, seat, action).Some?
    ensures WellFormed(Act(b, bigBlind, seat, action).value)
  {
    var r := Act(b, bigBlind, seat, action).value;
    forall i | 0 <= i < |r.players|
      ensures r.players[i].chips >= 0 && 0 <= r.players[i].currentBet <= r.currentBet
    {
    }
  }

  // ---------------------------------------------------------------------------
  // Round completion
  // ---------------------------------------------------------------------------

  /** The players isBettingRoundComplete still waits on: not folded and able to act. */
  function Eligible(ps: seq<Player>): (r: seq<Player>)
    ensures forall p :: p in r <==> p in ps && !p.folded && CanAct(p)
  {
    if ps == [] then []
    else
      var rest := Eligible(ps[1..]);
      assert forall p :: p in ps <==> p == ps[0] || p in ps[1..];
      if !ps[0].folded && CanAct(ps[0]) then [ps[0]] + rest else rest
  }

  /** isBettingRoundComplete. The street is over exactly when every player who can act has
      acted and matched the table bet (vacuously so when nobody can act). */
  predicate BettingRoundComplete(ps: seq<Player>, tableBet: int)
    ensures BettingRoundComplete(ps, tableBet) <==>
            forall i :: 0 <= i < |ps| && CanAct(ps[i]) ==> ps[i].acted && ps[i].currentBet == tableBet
  {
    var eligible := Eligible(ps);
    EligibleAllMatched(ps, tableBet);
    |eligible| == 0 || forall k :: 0 <= k < |eligible| ==> eligible[k].acted && eligible[k].currentBet == tableBet
  }

  /** The filtered list has acted and matched throughout exactly when every player who can
      act has. */
  lemma EligibleAllMatched(ps: seq<Player>, tableBet: int)
    ensures var e := Eligible(ps);
            (forall k :: 0 <= k < |e| ==> e[k].acted && e[k].currentBet == tableBet) <==>
            forall i :: 0 <= i < |ps| && CanAct(ps[i]) ==> ps[i].acted && ps[i].currentBet == tableBet
  {
    var e := Eligible(ps);
    if forall i :: 0 <= i < |ps| && CanAct(ps[i]) ==> ps[i].acted && ps[i].currentBet == tableBet {
      forall k | 0 <= k < |e| ensures e[k].acted && e[k].currentBet == tableBet {
        assert e[k] in e;
      }
    } else {
      var i :| 0 <= i < |ps| && CanAct(ps[i]) && !(ps[i].acted && ps[i].currentBet == tableBet);
      assert ps[i] in e;
      var k :| 0 <= k < |e| && e[k] == ps[i];
    }
  }

  /** After a full raise, nobody else who can act has acted, so the street cannot be over
      while such a player remains. */
  lemma ReopenedRoundIsOpen(b: Bets, bigBlind: int, seat: int, request: Option<int>, other: int)
    requires 0 <= seat < |b.players| && 0 <= other < |b.players| && other != seat
    requires Act(b, bigBlind, seat, Raise(request)).Some?
    requires b.currentBet == 0 || Act(b, bigBlind, seat, Raise(request)).value.currentBet - b.currentBet >= b.minRaise
    requires CanAct(b.players[other])
    ensures var r := Act(b, bigBlind, seat, Raise(request)).value;
            !BettingRoundComplete(r.players, r.currentBet)
  {
    var r := Act(b, bigBlind, seat, Raise(request)).value;
    RaiseOutcome(b, bigBlind, seat, request);
    assert CanAct(r.players[other]) && !r.players[other].acted;
  }

  /** resetStreetBets on the players: bets cleared, and only players who can still choose
      (not folded, not all in) are left to act. */
  function StreetReset(ps: seq<Player>): (r: seq<Player>)
    ensures |r| == |ps|
    ensures forall i :: 0 <= i < |ps| ==>
              r[i] == ps[i].(currentBet := 0, acted := ps[i].folded || ps[i].allIn)
  {
    seq(|ps|, i requires 0 <= i < |ps| => ps[i].(currentBet := 0, acted := ps[i].folded || ps[i].allIn))
  }

  /** After the reset no chips have moved and the new street is over at once exactly when
      nobody can act. */
  lemma StreetResetFacts(ps: seq<Player>)
    ensures SumChips(StreetReset(ps)) == SumChips(ps)
    ensures BettingRoundComplete(StreetReset(ps), 0) <==> forall i :: 0 <= i < |ps| ==> !CanAct(ps[i])
  {
    var r := StreetReset(ps);
    SumChipsSameStacks(r, ps);
    forall i | 0 <= i < |ps|
      ensures (CanAct(r[i]) ==> r[i].acted && r[i].currentBet == 0) <==> !CanAct(ps[i])
    {
      assert r[i].acted == (ps[i].folded || ps[i].allIn) && r[i].currentBet == 0;
    }
  }

  // ---------------------------------------------------------------------------
  // Seat navigation
  // ---------------------------------------------------------------------------

  /** The predicates nextIndex is called with. */
  datatype Want = HasChips | ActsNow

  predicate Wants(w: Want, p: Player)
  {
    match w
    case HasChips => p.chips > 0
    case ActsNow => CanAct(p)
  }

  /** The i-th seat after `from` going round the table, for i in 1..n, written with a
      comparison; SeatIsMod shows it is nextIndex's `(from + i + n) % n`. */
  function Seat(from: int, i: int, n: nat): (s: int)
    requires -1 <= from < n && 1 <= i <= n
    ensures 0 <= s < n
  {
    if from + i < n then from + i else from + i - n
  }

  /** The seat arithmetic of nextIndex: the remainder lands on the same seat. */
  lemma SeatIsMod(from: int, i: int, n: nat)
    requires -1 <= from < n && 1 <= i <= n
    ensures Seat(from, i, n) == (from + i + n) % n
  {
    if from + i < n {
      ModRange(from + i + n, n, 1);
    } else {
      ModRange(from + i + n, n, 2);
    }
  }

  /** How many steps after `from` the scan reaches seat k: 1..n. */
  function StepTo(from: int, k: int, n: nat): (i: int)
    requires -1 <= from < n && 0 <= k < n
    ensures 1 <= i <= n
  {
    if k > from then k - from else k - from + n
  }

  lemma SeatOfStep(from: int, k: int, n: nat)
    requires -1 <= from < n && 0 <= k < n
    ensures Seat(from, StepTo(from, k, n), n) == k
  {
  }

  /** Euclidean remainder of a number known to lie in [n*q, n*q + n). */
  lemma ModRange(x: int, n: int, q: int)
    requires n > 0 && n * q <= x < n * q + n
    ensures x % n == x - n * q
  {
    var d := x / n - q;
    assert x == n * (x / n) + x % n;
    assert n * d == x - x % n - n * q;
    if d >= 1 {
      MulAtLeast(n, d);
    } else if d <= -1 {
      MulAtLeast(n, -d);
    }
  }

  lemma MulAtLeast(n: int, d: int)
    requires n > 0 && d >= 1
    ensures n * d >= n
  {
  }

  /** The scan of nextIndex from step i on. */
  function ScanFrom(ps: seq<Player>, from: int, w: Want, i: int): int
    requires -1 <= from < |ps| && 1 <= i <= |ps| + 1
    decreases |ps| + 1 - i
  {
    if i > |ps| then -1
    else if Wants(w, ps[Seat(from, i, |ps|)]) then Seat(from, i, |ps|)
    else ScanFrom(ps, from, w, i + 1)
  }

  /** The scan from step i finds nothing exactly when no seat at steps i..n qualifies, and
      otherwise the seat of the first step that qualifies. */
  lemma {:induction false} ScanFromFinds(ps: seq<Player>, from: int, w: Want, i: int)
    requires -1 <= from < |ps| && 1 <= i <= |ps| + 1
    ensures var r := ScanFrom(ps, from, w, i);
            (r == -1 <==> forall j :: i <= j <= |ps| ==> !Wants(w, ps[Seat(from, j, |ps|)])) &&
            (r != -1 ==> exists j :: i <= j <= |ps| && r == Seat(from, j, |ps|) && Wants(w, ps[r]) &&
                                     forall l :: i <= l < j ==> !Wants(w, ps[Seat(from, l, |ps|)]))
    decreases |ps| + 1 - i
  {
    var n := |ps|;
    if i <= n {
      var s := Seat(from, i, n);
      if Wants(w, ps[s]) {
        assert ScanFrom(ps, from, w, i) == s;
      } else {
        ScanFromFinds(ps, from, w, i + 1);
        var r := ScanFrom(ps, from, w, i + 1);
        assert ScanFrom(ps, from, w, i) == r;
        if r != -1 {
          var j :| i + 1 <= j <= n && r == Seat(from, j, n) && Wants(w, ps[r]) &&
                   forall l :: i + 1 <= l < j ==> !Wants(w, ps[Seat(from, l, n)]);
          assert forall l :: i <= l < j ==> !Wants(w, ps[Seat(from, l, n)]);
        }
      }
    }
  }

  /** nextIndex on the players: -1, or a seat that qualifies. */
  function NextSeat(ps: seq<Player>, from: int, w: Want): (r: int)
    requires -1 <= from < |ps|
    ensures r == -1 || (0 <= r < |ps| && Wants(w, ps[r]))
  {
    ScanFromFinds(ps, from, w, 1);
    ScanFrom(ps, from, w, 1)
  }

  /** nextIndex returns -1 exactly when no seat qualifies; otherwise a qualifying seat
      that no qualifying seat precedes in the order from+1, from+2, ..., from. */
  lemma NextSeatIsFirstInTurn(ps: seq<Player>, from: int, w: Want)
    requires |ps| > 0 && -1 <= from < |ps|
    ensures var r := NextSeat(ps, from, w);
            (r == -1 <==> forall k :: 0 <= k < |ps| ==> !Wants(w, ps[k])) &&
            (r != -1 ==> 0 <= r < |ps| && Wants(w, ps[r]) &&
                         forall k :: 0 <= k < |ps| && StepTo(from, k, |ps|) < StepTo(from, r, |ps|) ==> !Wants(w, ps[k]))
  {
    NoSeatIff(ps, from, w);
    if NextSeat(ps, from, w) != -1 {
      FoundSeatIsFirst(ps, from, w);
    }
  }

  lemma NoSeatIff(ps: seq<Player>, from: int, w: Want)
    requires |ps| > 0 && -1 <= from < |ps|
    ensures NextSeat(ps, from, w) == -1 <==> forall k :: 0 <= k < |ps| ==> !Wants(w, ps[k])
  {
    var n := |ps|;
    var r := NextSeat(ps, from, w);
    ScanFromFinds(ps, from, w, 1);
    if r == -1 {
      forall k | 0 <= k < n ensures !Wants(w, ps[k]) {
        SeatOfStep(from, k, n);
        assert ps[Seat(from, StepTo(from, k, n), n)] == ps[k];
      }
    } else {
      var j :| 1 <= j <= n && r == Seat(from, j, n) && Wants(w, ps[r]);
      StepOfSeat(from, j, n);
    }
  }

  lemma FoundSeatIsFirst(ps: seq<Player>, from: int, w: Want)
    requires |ps| > 0 && -1 <= from < |ps| && NextSeat(ps, from, w) != -1
    ensures var r := NextSeat(ps, from, w);
            0 <= r < |ps| && Wants(w, ps[r]) &&
            forall k :: 0 <= k < |ps| && StepTo(from, k, |ps|) < StepTo(from, r, |ps|) ==> !Wants(w, ps[k])
  {
    var n := |ps|;
    var r := NextSeat(ps, from, w);
    ScanFromFinds(ps, from, w, 1);
    var j :| 1 <= j <= n && r == Seat(from, j, n) && Wants(w, ps[r]) &&
             forall l :: 1 <= l < j ==> !Wants(w, ps[Seat(from, l, n)]);
    StepOfSeat(from, j, n);
    forall k | 0 <= k < n && StepTo(from, k, n) < j ensures !Wants(w, ps[k]) {
      SeatOfStep(from, k, n);
    }
  }

  /** The scan only looks at what the predicate says of each seat. */
  lemma {:induction false} ScanSameWants(ps: seq<Player>, qs: seq<Player>, from: int, w: Want, i: int)
    requires |ps| == |qs| && -1 <= from < |ps| && 1 <= i <= |ps| + 1
    requires forall k :: 0 <= k < |ps| ==> (Wants(w, ps[k]) <==> Wants(w, qs[k]))
    ensures ScanFrom(ps, from, w, i) == ScanFrom(qs, from, w, i)
    decreases |ps| + 1 - i
  {
    if i <= |ps| {
      ScanSameWants(ps, qs, from, w, i + 1);
    }
  }

  /** Seats with the same stacks give the same next seat with chips. */
  lemma SameStacksSameSeat(ps: seq<Player>, qs: seq<Player>, from: int)
    requires |ps| == |qs| && -1 <= from < |ps|
    requires forall k :: 0 <= k < |ps| ==> ps[k].chips == qs[k].chips
    ensures NextSeat(ps, from, HasChips) == NextSeat(qs, from, HasChips)
  {
    ScanSameWants(ps, qs, from, HasChips, 1);
  }

  /** When another seat qualifies, nextIndex never comes back round to `from` itself. */
  lemma NextSeatLeavesFrom(ps: seq<Player>, from: int, w: Want, other: int)
    requires |ps| > 0 && 0 <= from < |ps| && 0 <= other < |ps| && other != from && Wants(w, ps[other])
    ensures var r := NextSeat(ps, from, w);
            0 <= r < |ps| && r != from && Wants(w, ps[r])
  {
    NextSeatIsFirstInTurn(ps, from, w);
    var r := NextSeat(ps, from, w);
    assert StepTo(from, other, |ps|) < |ps|;
  }

  lemma StepOfSeat(from: int, j: int, n: nat)
    requires -1 <= from < n && 1 <= j <= n
    ensures StepTo(from, Seat(from, j, n), n) == j
  {
  }

  // ---------------------------------------------------------------------------
  // Bot raise sizing
  // ---------------------------------------------------------------------------

  /** botRaiseTarget, with `sizing` standing for the rounded pot fraction
      `Math.round(pot * (0.3 + strength) / bigBlind) * bigBlind`. */
  function BotRaiseTarget(p: Player, tableBet: int, minRaise: int, bigBlind: int, sizing: int): (t: int)
    ensures p.currentBet + p.chips <= tableBet ==> t == tableBet
    ensures p.currentBet + p.chips > tableBet ==> t >= MinTotal(tableBet, minRaise, bigBlind)
  {
    var maxTotal := p.currentBet + p.chips;
    if maxTotal <= tableBet then tableBet
    else
      var minTotal := MinTotal(tableBet, minRaise, bigBlind);
      var target0 := tableBet + Max(bigBlind, sizing);
      var target1 := if tableBet == 0 then Max(target0, bigBlind * 2) else target0;
      var target := Max(minTotal, Min(target1, maxTotal));
      if target < minTotal && maxTotal >= minTotal then minTotal else target
  }

  /** The bot's target never falls below the minimum total (so the final correction never
      fires) and exceeds the all-in total only when that total is below the minimum. */
  lemma BotRaiseTargetBounds(p: Player, tableBet: int, minRaise: int, bigBlind: int, sizing: int)
    requires p.currentBet + p.chips > tableBet
    ensures var t := BotRaiseTarget(p, tableBet, minRaise, bigBlind, sizing);
            var minTotal := MinTotal(tableBet, minRaise, bigBlind);
            t >= minTotal && t >= tableBet + Min(bigBlind, p.currentBet + p.chips - tableBet) &&
            (t > p.currentBet + p.chips ==> t == minTotal)
  {
  }

  /** A bot raise is never refused: when the bot can go above the table bet, applyAction
      accepts its target (clamping an unreachable one to the all-in total). */
  lemma BotRaiseAccepted(p: Player, tableBet: int, minRaise: int, bigBlind: int, sizing: int)
    requires p.currentBet + p.chips > tableBet && p.currentBet <= tableBet
    requires minRaise > 0 && bigBlind > 0 && tableBet >= 0
    ensures var t := BotRaiseTarget(p, tableBet, minRaise, bigBlind, sizing);
            var r := RaiseTarget(p, tableBet, minRaise, bigBlind, Some(t));
            r.Some? && r.value == Min(t, p.currentBet + p.chips)
  {
    var t := BotRaiseTarget(p, tableBet, minRaise, bigBlind, sizing);
    BotRaiseTargetBounds(p, tableBet, minRaise, bigBlind, sizing);
    RaiseAcceptedIff(p, tableBet, minRaise, bigBlind, Some(t));
  }

  // ---------------------------------------------------------------------------
  // Starting a hand
  // ---------------------------------------------------------------------------

  /** playersStillAlive().length: the seats with chips. */
  function CountAlive(ps: seq<Player>): (n: nat)
    ensures n <= |ps|
    ensures n > 0 <==> exists i :: 0 <= i < |ps| && ps[i].chips > 0
  {
    if ps == [] then 0
    else
      var rest := CountAlive(ps[1..]);
      assert forall i :: 0 < i < |ps| ==> ps[i] == ps[1..][i - 1];
      assert (exists i :: 0 <= i < |ps| && ps[i].chips > 0) <==>
             ps[0].chips > 0 || exists i :: 0 <= i < |ps| - 1 && ps[1..][i].chips > 0;
      (if ps[0].chips > 0 then 1 else 0) + rest
  }

  /** At least two seats with chips means two different seats with chips. */
  lemma {:induction false} TwoAlive(ps: seq<Player>, i: int)
    requires CountAlive(ps) >= 2 && 0 <= i < |ps|
    ensures exists j :: 0 <= j < |ps| && j != i && ps[j].chips > 0
  {
    if i == 0 {
      var j :| 0 <= j < |ps| - 1 && ps[1..][j].chips > 0;
      assert ps[j + 1].chips > 0;
    } else if ps[0].chips > 0 {
      assert ps[0].chips > 0;
    } else {
      TwoAlive(ps[1..], i - 1);
      var j :| 0 <= j < |ps| - 1 && j != i - 1 && ps[1..][j].chips > 0;
      assert ps[j + 1].chips > 0;
    }
  }

  /** The per-seat reset at the start of a hand: a seat without chips sits the hand out
      (folded and counted as having acted), everything else is cleared. */
  function ForNewHand(ps: seq<Player>): (r: seq<Player>)
    ensures |r| == |ps|
    ensures forall i :: 0 <= i < |ps| ==>
              r[i] == Player(ps[i].chips, [], ps[i].chips <= 0, false, 0, ps[i].chips <= 0, None)
  {
    seq(|ps|, i requires 0 <= i < |ps| => Player(ps[i].chips, [], ps[i].chips <= 0, false, 0, ps[i].chips <= 0, None))
  }

  /** One round of hole cards over seats 0..k-1: each seat not folded, in seat order,
      receives the card popped from the end of the deck. */
  function DealRound(ps: seq<Player>, deck: seq<Card>, k: nat): (r: (seq<Player>, seq<Card>))
    requires k <= |ps| && k <= |deck|
    ensures |r.0| == |ps| && |deck| - k <= |r.1| <= |deck|
    decreases k
  {
    if k == 0 then (ps, deck)
    else
      var prev := DealRound(ps, deck, k - 1);
      var qs := prev.0;
      var d := prev.1;
      if qs[k - 1].folded then prev
      else (qs[k - 1 := qs[k - 1].(hand := qs[k - 1].hand + [d[|d| - 1]])], d[..|d| - 1])
  }

  /** The hole cards of all seats, as a multiset. */
  function AllHands(ps: seq<Player>): multiset<Card>
  {
    HandsBelow(ps, |ps|)
  }

  /** The hole cards of seats 0..n-1. */
  function HandsBelow(ps: seq<Player>, n: nat): multiset<Card>
    requires n <= |ps|
  {
    if n == 0 then multiset{} else HandsBelow(ps, n - 1) + multiset(ps[n - 1].hand)
  }

  /** Seats with no hole cards hold no cards. */
  lemma {:induction false} AllHandsEmpty(ps: seq<Player>, n: nat)
    requires n <= |ps| && forall i :: 0 <= i < |ps| ==> ps[i].hand == []
    ensures HandsBelow(ps, n) == multiset{}
  {
    if n > 0 {
      AllHandsEmpty(ps, n - 1);
    }
  }

  /** Only the hands count: seats with the same hands hold the same cards. */
  lemma {:induction false} AllHandsSameHands(ps: seq<Player>, qs: seq<Player>, n: nat)
    requires n <= |ps| == |qs| && forall i :: 0 <= i < n ==> ps[i].hand == qs[i].hand
    ensures HandsBelow(ps, n) == HandsBelow(qs, n)
  {
    if n > 0 {
      AllHandsSameHands(ps, qs, n - 1);
    }
  }

  /** Replacing the player at seat i swaps that seat's hand in the multiset. */
  lemma {:induction false} AllHandsUpdate(ps: seq<Player>, i: int, p: Player, n: nat)
    requires 0 <= i < n <= |ps|
    ensures HandsBelow(ps[i := p], n) + multiset(ps[i].hand) == HandsBelow(ps, n) + multiset(p.hand)
  {
    var qs := ps[i := p];
    if i < n - 1 {
      AllHandsUpdate(ps, i, p, n - 1);
      assert qs[n - 1] == ps[n - 1];
      var below := HandsBelow(qs, n - 1);
      var belowP := HandsBelow(ps, n - 1);
      forall c ensures (HandsBelow(qs, n) + multiset(ps[i].hand))[c] == (HandsBelow(ps, n) + multiset(p.hand))[c] {
        assert (below + multiset(ps[i].hand))[c] == (belowP + multiset(p.hand))[c];
      }
    } else {
      AllHandsSameHands(qs, ps, n - 1);
    }
  }

  /** Dealing a round changes only hands and hands one more card exactly to the seats
      among the first k that are not folded; the deck only loses cards from its end. */
  lemma {:induction false} DealRoundShape(ps: seq<Player>, deck: seq<Card>, k: nat)
    requires k <= |ps| && k <= |deck|
    ensures var r := DealRound(ps, deck, k);
            (forall i :: 0 <= i < |ps| ==> r.0[i] == ps[i].(hand := r.0[i].hand)) &&
            (forall i :: 0 <= i < |ps| ==> ps[i].hand <= r.0[i].hand) &&
            (forall i :: 0 <= i < |ps| ==> |r.0[i].hand| == |ps[i].hand| + (if i < k && !ps[i].folded then 1 else 0)) &&
            r.1 <= deck
    decreases k
  {
    if k > 0 {
      DealRoundShape(ps, deck, k - 1);
    }
  }

  /** Dealing neither loses nor duplicates a card: what leaves the deck is in the hands. */
  lemma {:induction false} DealRoundKeepsCards(ps: seq<Player>, deck: seq<Card>, k: nat)
    requires k <= |ps| && k <= |deck|
    ensures var r := DealRound(ps, deck, k);
            multiset(r.1) + AllHands(r.0) == multiset(deck) + AllHands(ps)
    decreases k
  {
    if k > 0 {
      DealRoundKeepsCards(ps, deck, k - 1);
      var prev := DealRound(ps, deck, k - 1);
      var qs := prev.0;
      var d := prev.1;
      if qs[k - 1].folded {
        assert DealRound(ps, deck, k) == prev;
      } else {
        assert DealRound(ps, deck, k) == (qs[k - 1 := qs[k - 1].(hand := qs[k - 1].hand + [d[|d| - 1]])], d[..|d| - 1]);
        DealOneKeepsCards(qs, d, k - 1);
      }
    }
  }

  /** Dealing one card neither loses nor duplicates a card. */
  lemma DealOneKeepsCards(qs: seq<Player>, d: seq<Card>, i: int)
    requires 0 <= i < |qs| && |d| > 0
    ensures var card := d[|d| - 1];
            multiset(d[..|d| - 1]) + AllHands(qs[i := qs[i].(hand := qs[i].hand + [card])]) ==
            multiset(d) + AllHands(qs)
  {
    var card := d[|d| - 1];
    var q := qs[i].(hand := qs[i].hand + [card]);
    AllHandsUpdate(qs, i, q, |qs|);
    assert multiset(q.hand) == multiset(qs[i].hand) + multiset{card};
    assert d == d[..|d| - 1] + [card];
    assert multiset(d) == multiset(d[..|d| - 1]) + multiset{card};
    var after := AllHands(qs[i := q]);
    forall c ensures (multiset(d[..|d| - 1]) + after)[c] == (multiset(d) + AllHands(qs))[c] {
      assert (after + multiset(qs[i].hand))[c] == (AllHands(qs) + multiset(q.hand))[c];
    }
  }

  /** The k cards that k successive draws pop off the end of the deck, in draw order. */
  function Popped(deck: seq<Card>, k: nat): (r: seq<Card>)
    requires k <= |deck|
    ensures |r| == k
  {
    seq(k, i requires 0 <= i < k => deck[|deck| - 1 - i])
  }

  /** Drawing moves cards without losing or duplicating any: the drawn cards and the rest
      of the deck make up the deck. */
  lemma {:induction false} PoppedKeepsCards(deck: seq<Card>, k: nat)
    requires k <= |deck|
    ensures multiset(Popped(deck, k)) + multiset(deck[..|deck| - k]) == multiset(deck)
  {
    var n := |deck|;
    if k == 0 {
      assert deck[..n] == deck;
    } else {
      PoppedKeepsCards(deck, k - 1);
      assert Popped(deck, k) == Popped(deck, k - 1) + [deck[n - k]];
      assert deck[..n - k + 1] == deck[..n - k] + [deck[n - k]];
    }
  }

  /** The players after startHand's re-buy check: everyone gets a fresh stack when at most
      one seat has chips. Afterwards some seat has chips. */
  function Rebought(ps: seq<Player>): (r: seq<Player>)
    ensures |r| == |ps|
    ensures |ps| > 0 ==> exists i :: 0 <= i < |r| && r[i].chips > 0
  {
    if CountAlive(ps) <= 1 then
      var restocked := seq(|ps|, _ => NewPlayer());
      assert |ps| > 0 ==> restocked[0].chips > 0;
      restocked
    else ps
  }

  /** startHand's two rounds of hole cards over every seat. */
  function DealHole(ps: seq<Player>, deck: seq<Card>): (r: (seq<Player>, seq<Card>))
    requires |deck| >= 2 * |ps|
    ensures |r.0| == |ps| && |r.1| >= |deck| - 2 * |ps|
    ensures forall i :: 0 <= i < |ps| ==>
              r.0[i] == ps[i].(hand := r.0[i].hand) &&
              |r.0[i].hand| == |ps[i].hand| + (if ps[i].folded then 0 else 2)
  {
    var first := DealRound(ps, deck, |ps|);
    DealRoundShape(ps, deck, |ps|);
    DealRoundShape(first.0, first.1, |ps|);
    DealRound(first.0, first.1, |ps|)
  }

  /** The seats as startHand deals them: a seat with chips holds its two hole cards, a seat
      without sits the hand out with none; stacks stay, and nobody has a bet yet. */
  lemma DealtSeats(ps: seq<Player>, shuffled: seq<Card>)
    requires |shuffled| >= 2 * |ps|
    ensures var cleared := ForNewHand(ps);
            var r := DealHole(cleared, shuffled).0;
            forall i :: 0 <= i < |ps| ==>
              r[i] == cleared[i].(hand := r[i].hand) && |r[i].hand| == (if ps[i].chips <= 0 then 0 else 2) &&
              r[i].chips == ps[i].chips && r[i].currentBet == 0
  {
  }

  /** Both blinds of startHand: the small blind commits first, then the big blind on the
      players as the small blind left them; with the chips the two put in. Only the blinds'
      stacks, bets and all-in flags change, and every chip they post is counted. */
  function PostBlindsOn(ps: seq<Player>, sb: int, bb: int): (r: (seq<Player>, int))
    requires 0 <= sb < |ps| && 0 <= bb < |ps|
    ensures |r.0| == |ps| && SumChips(r.0) + r.1 == SumChips(ps) && r.1 >= 0
    ensures sb != bb ==> r.0[sb] == Commit(ps[sb], SMALL_BLIND).0 && r.0[bb] == Commit(ps[bb], BIG_BLIND).0
    ensures forall i :: 0 <= i < |ps| && i != sb && i != bb ==> r.0[i] == ps[i]
    ensures forall i :: 0 <= i < |ps| ==>
              r.0[i] == ps[i].(chips := r.0[i].chips, currentBet := r.0[i].currentBet, allIn := r.0[i].allIn) &&
              r.0[i].currentBet >= ps[i].currentBet && (ps[i].chips >= 0 ==> r.0[i].chips >= 0)
  {
    var small := Commit(ps[sb], SMALL_BLIND);
    var mid := ps[sb := small.0];
    var big := Commit(mid[bb], BIG_BLIND);
    SumChipsUpdate(ps, sb, small.0);
    SumChipsUpdate(mid, bb, big.0);
    (mid[bb := big.0], small.1 + big.1)
  }

  /** The last pass of startHand: exactly the players who cannot act count as having acted. */
  function ActedUnlessAble(ps: seq<Player>): (r: seq<Player>)
    ensures |r| == |ps|
    ensures forall i :: 0 <= i < |ps| ==> r[i] == ps[i].(acted := !CanAct(ps[i]))
  {
    seq(|ps|, i requires 0 <= i < |ps| => ps[i].(acted := !CanAct(ps[i])))
  }

  /** The table as startHand leaves it before the first turn. */
  datatype Opening = Opening(players: seq<Player>, deck: seq<Card>, dealer: int, smallBlind: int,
                             bigBlind: int, pot: int, currentBet: int)

  /** startHand from the re-buy on, for the players `ps` and the button `dealer` as the
      re-buy leaves them: the button moves to the next seat with chips and the blinds are the
      next two seats with chips after it; then the hand opens on those seats (OpenAt). */
  function Open(ps: seq<Player>, dealer: int, shuffled: seq<Card>): (o: Opening)
    requires |ps| > 0 && -1 <= dealer < |ps| && |shuffled| >= 2 * |ps|
    requires exists i :: 0 <= i < |ps| && ps[i].chips > 0
    ensures 0 <= o.dealer < |ps| && 0 <= o.smallBlind < |ps| && 0 <= o.bigBlind < |ps|
    ensures ps[o.dealer].chips > 0 && ps[o.smallBlind].chips > 0 && ps[o.bigBlind].chips > 0
    ensures CountAlive(ps) >= 2 ==> o.smallBlind != o.bigBlind
  {
    var button := NextSeat(ps, dealer, HasChips);
    NoSeatIff(ps, dealer, HasChips);
    var sb := NextSeat(ps, button, HasChips);
    NoSeatIff(ps, button, HasChips);
    var bb := NextSeat(ps, sb, HasChips);
    NoSeatIff(ps, sb, HasChips);
    BlindsDiffer(ps, sb);
    OpenAt(ps, button, sb, bb, shuffled)
  }

  /** startHand from the top, for the players `ps` and the button `dealer` before the hand:
      the re-buy check (which also clears the button when it restocks the table), then the
      opening. */
  function StartOpening(ps: seq<Player>, dealer: int, shuffled: seq<Card>): (o: Opening)
    requires |ps| > 0 && -1 <= dealer < |ps| && |shuffled| >= 2 * |ps|
    ensures 0 <= o.dealer < |ps| && 0 <= o.smallBlind < |ps| && 0 <= o.bigBlind < |ps|
  {
    Open(Rebought(ps), if CountAlive(ps) <= 1 then -1 else dealer, shuffled)
  }

  /** The second half of the opening, on players already seated and dealt and the deck
      left after dealing: the small blind is the next seat with chips after the button, the
      big blind the next after that, and the hand opens on them with an empty pot. */
  function BlindsOn(dealt: seq<Player>, rest: seq<Card>, button: int): (o: Opening)
    requires 0 <= button < |dealt| && dealt[button].chips > 0
    ensures 0 <= o.smallBlind < |dealt| && 0 <= o.bigBlind < |dealt| && o.dealer == button
  {
    var sb := NextSeat(dealt, button, HasChips);
    NoSeatIff(dealt, button, HasChips);
    var bb := NextSeat(dealt, sb, HasChips);
    NoSeatIff(dealt, sb, HasChips);
    var posted := PostBlindsOn(dealt, sb, bb);
    Opening(ActedUnlessAble(posted.0), rest, button, sb, bb, posted.1, MaxBet(posted.0))
  }

  /** The opening as startHand computes it: the blind seats found on the players as they
      are once dealt are the seats Open finds before dealing, since dealing leaves every
      stack alone. */
  lemma OpenOnDealt(ps: seq<Player>, dealer: int, shuffled: seq<Card>)
    requires |ps| > 0 && -1 <= dealer < |ps| && |shuffled| >= 2 * |ps|
    requires exists i :: 0 <= i < |ps| && ps[i].chips > 0
    ensures var button := NextSeat(ps, dealer, HasChips);
            var dealt := DealHole(ForNewHand(ps), shuffled);
            0 <= button < |ps| && |dealt.0| == |ps| && dealt.0[button].chips > 0 &&
            Open(ps, dealer, shuffled) == BlindsOn(dealt.0, dealt.1, button)
  {
    var button := NextSeat(ps, dealer, HasChips);
    NoSeatIff(ps, dealer, HasChips);
    var dealt := DealHole(ForNewHand(ps), shuffled).0;
    DealtSeats(ps, shuffled);
    SameStacksSameSeat(dealt, ps, button);
    var sb := NextSeat(ps, button, HasChips);
    SameStacksSameSeat(dealt, ps, sb);
  }

  /** What the opening keeps: every chip is in a stack or the pot, the bets are well
      formed, and every card of the shuffled deck is in a hand or still in the deck. */
  lemma OpenKeeps(ps: seq<Player>, dealer: int, shuffled: seq<Card>)
    requires |ps| > 0 && -1 <= dealer < |ps| && |shuffled| >= 2 * |ps|
    requires exists i :: 0 <= i < |ps| && ps[i].chips > 0
    requires forall i :: 0 <= i < |ps| ==> ps[i].chips >= 0
    ensures var o := Open(ps, dealer, shuffled);
            SumChips(o.players) + o.pot == SumChips(ps) &&
            WellFormed(Bets(o.players, o.pot, o.currentBet, BIG_BLIND)) &&
            multiset(o.deck) + AllHands(o.players) == multiset(shuffled) &&
            |o.deck| >= |shuffled| - 2 * |ps|
  {
    var o := Open(ps, dealer, shuffled);
    OpenKeepsChips(ps, o.dealer, o.smallBlind, o.bigBlind, shuffled);
    OpenKeepsCards(ps, o.dealer, o.smallBlind, o.bigBlind, shuffled);
  }

  /** The table as the opening leaves it, seat by seat: the button is the next seat with
      chips after the old button, the small blind the next after it and the big blind the next
      after that. Every stack plus its bet is the stack the seat came in with; a seat with
      chips holds two hole cards and a seat without sits out folded with none. The blinds have
      posted what they could of 10 and 20 and nobody else has a bet; the pot holds exactly the
      two blinds; the bet to match is the largest bet; exactly the players who cannot act count
      as having acted, and a player is all in only when a blind took its last chip. */
  lemma OpenShape(ps: seq<Player>, dealer: int, shuffled: seq<Card>)
    requires |ps| > 0 && -1 <= dealer < |ps| && |shuffled| >= 2 * |ps|
    requires exists i :: 0 <= i < |ps| && ps[i].chips > 0
    ensures var o := Open(ps, dealer, shuffled);
            o.dealer == NextSeat(ps, dealer, HasChips) && o.smallBlind == NextSeat(ps, o.dealer, HasChips) &&
            o.bigBlind == NextSeat(ps, o.smallBlind, HasChips) && |o.players| == |ps|
    ensures var o := Open(ps, dealer, shuffled);
            forall i :: 0 <= i < |ps| ==>
              o.players[i].chips + o.players[i].currentBet == ps[i].chips &&
              o.players[i].folded == (ps[i].chips <= 0) &&
              |o.players[i].hand| == (if ps[i].chips <= 0 then 0 else 2) &&
              o.players[i].acted == !CanAct(o.players[i]) && o.players[i].showdown.None? &&
              (o.players[i].allIn <==> ps[i].chips > 0 && o.players[i].chips == 0)
    ensures var o := Open(ps, dealer, shuffled);
            o.smallBlind != o.bigBlind ==>
              o.players[o.smallBlind].currentBet == Min(SMALL_BLIND, ps[o.smallBlind].chips) &&
              o.players[o.bigBlind].currentBet == Min(BIG_BLIND, ps[o.bigBlind].chips) &&
              o.pot == o.players[o.smallBlind].currentBet + o.players[o.bigBlind].currentBet &&
              forall i :: 0 <= i < |ps| && i != o.smallBlind && i != o.bigBlind ==> o.players[i].currentBet == 0
    ensures var o := Open(ps, dealer, shuffled);
            (forall i :: 0 <= i < |ps| ==> o.players[i].currentBet <= o.currentBet) &&
            exists i :: 0 <= i < |ps| && o.players[i].currentBet == o.currentBet
  {
    var o := Open(ps, dealer, shuffled);
    OpenAtShape(ps, o.dealer, o.smallBlind, o.bigBlind, shuffled);
  }

  /** OpenShape for given button and blind seats. */
  lemma OpenAtShape(ps: seq<Player>, button: int, sb: int, bb: int, shuffled: seq<Card>)
    requires 0 <= button < |ps| && 0 <= sb < |ps| && 0 <= bb < |ps| && |shuffled| >= 2 * |ps|
    requires ps[sb].chips > 0 && ps[bb].chips > 0
    ensures var o := OpenAt(ps, button, sb, bb, shuffled);
            forall i :: 0 <= i < |ps| ==>
              o.players[i].chips + o.players[i].currentBet == ps[i].chips &&
              o.players[i].folded == (ps[i].chips <= 0) &&
              |o.players[i].hand| == (if ps[i].chips <= 0 then 0 else 2) &&
              o.players[i].acted == !CanAct(o.players[i]) && o.players[i].showdown.None? &&
              (o.players[i].allIn <==> ps[i].chips > 0 && o.players[i].chips == 0)
    ensures var o := OpenAt(ps, button, sb, bb, shuffled);
            sb != bb ==>
              o.players[sb].currentBet == Min(SMALL_BLIND, ps[sb].chips) &&
              o.players[bb].currentBet == Min(BIG_BLIND, ps[bb].chips) &&
              o.pot == o.players[sb].currentBet + o.players[bb].currentBet &&
              forall i :: 0 <= i < |ps| && i != sb && i != bb ==> o.players[i].currentBet == 0
    ensures var o := OpenAt(ps, button, sb, bb, shuffled);
            (forall i :: 0 <= i < |ps| ==> o.players[i].currentBet <= o.currentBet) &&
            exists i :: 0 <= i < |ps| && o.players[i].currentBet == o.currentBet
  {
    var dealt := DealHole(ForNewHand(ps), shuffled).0;
    DealtSeats(ps, shuffled);
    var posted := PostBlindsOn(dealt, sb, bb);
    forall i | 0 <= i < |ps|
      ensures posted.0[i].chips + posted.0[i].currentBet == ps[i].chips
      ensures posted.0[i].folded == (ps[i].chips <= 0) && |posted.0[i].hand| == (if ps[i].chips <= 0 then 0 else 2)
      ensures posted.0[i].showdown.None? && (posted.0[i].allIn <==> ps[i].chips > 0 && posted.0[i].chips == 0)
    {
      PostedSeat(dealt[i], ps[i].chips, posted.0[i]);
    }
  }

  /** One seat through the blinds: a seat dealt in for a new hand with stack `chips` keeps
      stack plus bet, and goes all in only when a blind took its last chip. */
  lemma PostedSeat(dealt: Player, chips: int, posted: Player)
    requires dealt == Player(chips, dealt.hand, chips <= 0, false, 0, chips <= 0, None)
    requires posted == dealt || posted == Commit(dealt, SMALL_BLIND).0 || posted == Commit(dealt, BIG_BLIND).0 ||
             posted == Commit(Commit(dealt, SMALL_BLIND).0, BIG_BLIND).0
    ensures posted.chips + posted.currentBet == chips && posted.folded == (chips <= 0) && posted.hand == dealt.hand
    ensures posted.showdown.None? && (posted.allIn <==> chips > 0 && posted.chips == 0)
  {
  }

  /** With two seats holding chips, the next seat with chips after the small blind is
      another seat. */
  lemma BlindsDiffer(ps: seq<Player>, sb: int)
    requires 0 <= sb < |ps| && ps[sb].chips > 0
    ensures CountAlive(ps) >= 2 ==> NextSeat(ps, sb, HasChips) != sb
  {
    if CountAlive(ps) >= 2 {
      TwoAlive(ps, sb);
      var other :| 0 <= other < |ps| && other != sb && ps[other].chips > 0;
      NextSeatLeavesFrom(ps, sb, HasChips, other);
    }
  }

  /** The hand opening on the chosen seats: every seat is cleared for the new hand and two
      rounds of hole cards are dealt from the end of the shuffled deck; the blinds post into
      the pot; the bet to match is the largest bet; exactly the players who cannot act count
      as having acted. */
  function OpenAt(ps: seq<Player>, button: int, sb: int, bb: int, shuffled: seq<Card>): (o: Opening)
    requires 0 <= button < |ps| && 0 <= sb < |ps| && 0 <= bb < |ps| && |shuffled| >= 2 * |ps|
    ensures |o.players| == |ps| && o.dealer == button && o.smallBlind == sb && o.bigBlind == bb
  {
    var dealt := DealHole(ForNewHand(ps), shuffled);
    var posted := PostBlindsOn(dealt.0, sb, bb);
    Opening(ActedUnlessAble(posted.0), dealt.1, button, sb, bb, posted.1, MaxBet(posted.0))
  }

  /** The opening deals every card of the shuffled deck exactly once: each is in a hand or
      still in the deck. */
  lemma OpenKeepsCards(ps: seq<Player>, button: int, sb: int, bb: int, shuffled: seq<Card>)
    requires 0 <= button < |ps| && 0 <= sb < |ps| && 0 <= bb < |ps| && |shuffled| >= 2 * |ps|
    ensures var o := OpenAt(ps, button, sb, bb, shuffled);
            multiset(o.deck) + AllHands(o.players) == multiset(shuffled)
  {
    var o := OpenAt(ps, button, sb, bb, shuffled);
    var cleared := ForNewHand(ps);
    AllHandsEmpty(cleared, |cleared|);
    var first := DealRound(cleared, shuffled, |ps|);
    DealRoundKeepsCards(cleared, shuffled, |ps|);
    DealRoundKeepsCards(first.0, first.1, |ps|);
    var dealt := DealHole(cleared, shuffled);
    AllHandsSameHands(o.players, dealt.0, |ps|);
  }

  /** The opening moves chips only from the blinds' stacks into the pot, and keeps the bounds
      of WellFormed: nobody is above the bet to match. */
  lemma OpenKeepsChips(ps: seq<Player>, button: int, sb: int, bb: int, shuffled: seq<Card>)
    requires 0 <= button < |ps| && 0 <= sb < |ps| && 0 <= bb < |ps| && |shuffled| >= 2 * |ps|
    requires forall i :: 0 <= i < |ps| ==> ps[i].chips >= 0
    ensures var o := OpenAt(ps, button, sb, bb, shuffled);
            SumChips(o.players) + o.pot == SumChips(ps) &&
            WellFormed(Bets(o.players, o.pot, o.currentBet, BIG_BLIND))
  {
    var d := DealHole(ForNewHand(ps), shuffled);
    var dealt := d.0;
    DealtSeats(ps, shuffled);
    assert forall i :: 0 <= i < |dealt| ==> dealt[i].chips == ps[i].chips && dealt[i].currentBet == 0;
    SumChipsSameStacks(dealt, ps);
    BlindsKeepChips(dealt, sb, bb);
    var posted := PostBlindsOn(dealt, sb, bb);
    assert OpenAt(ps, button, sb, bb, shuffled) ==
           Opening(ActedUnlessAble(posted.0), d.1, button, sb, bb, posted.1, MaxBet(posted.0));
  }

  /** The blinds and the acted pass on freshly dealt players (no bets, no debt). */
  lemma BlindsKeepChips(dealt: seq<Player>, sb: int, bb: int)
    requires 0 <= sb < |dealt| && 0 <= bb < |dealt|
    requires forall i :: 0 <= i < |dealt| ==> dealt[i].chips >= 0 && dealt[i].currentBet == 0
    ensures var posted := PostBlindsOn(dealt, sb, bb);
            var after := ActedUnlessAble(posted.0);
            SumChips(after) + posted.1 == SumChips(dealt) &&
            WellFormed(Bets(after, posted.1, MaxBet(posted.0), BIG_BLIND))
  {
    var posted := PostBlindsOn(dealt, sb, bb);
    var after := ActedUnlessAble(posted.0);
    var m := MaxBet(posted.0);
    SumChipsSameStacks(after, posted.0);
    forall i | 0 <= i < |after|
      ensures after[i].chips >= 0 && 0 <= after[i].currentBet <= m
    {
      assert after[i].chips == posted.0[i].chips && after[i].currentBet == posted.0[i].currentBet;
    }
  }

  /** `Math.max(...players.map((p) => p.currentBet))`. */
  function MaxBet(ps: seq<Player>): (m: int)
    requires ps != []
    ensures forall i :: 0 <= i < |ps| ==> ps[i].currentBet <= m
    ensures exists i :: 0 <= i < |ps| && ps[i].currentBet == m
  {
    if |ps| == 1 then ps[0].currentBet
    else
      var rest := MaxBet(ps[1..]);
      assert forall i :: 0 < i < |ps| ==> ps[i] == ps[1..][i - 1];
      Max(ps[0].currentBet, rest)
  }

}
