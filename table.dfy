/** The table as the game drives it: one object whose fields the steps of a hand update in
    place (src/game.js). Each step is proved against the value-level rules of modules Engine
    and Settlement; the steps that hand over to one another (the end of a betting round, the
    next street, the all-in runout, the next turn) run synchronously. */
module Table {
  import opened Util
  import opened Cards
  import opened HandEval
  import opened Engine
  import opened Settlement

  /** How many streets a stage still has ahead of it: the measure the hand's progress
      decreases on. */
  function StreetRank(s: Stage): nat
  {
    match s
    case Idle => 0
    case Preflop => 4
    case Flop => 3
    case Turn => 2
    case River => 1
  }

  /** The stage concludeBettingRound moves to after dealing. */
  function NextStage(s: Stage): Stage
  {
    match s
    case Idle => Idle
    case Preflop => Flop
    case Flop => Turn
    case Turn => River
    case River => River
  }

  /** What the bot's random draw and strength estimate decided: fold, check or call, or a
      raise whose pot-fraction term (rounded to a multiple of the big blind) is `sizing`. */
  datatype BotChoice = BotFold | BotCall | BotRaise(sizing: int)

  /** The action botAct settles on for a bot holding `p` at the table bet `tableBet`: a fold
      only when the draws say fold and there is a bet to call; a raise to botRaiseTarget only
      when the draws say raise and the stack covers the call plus a big blind; a check or a
      call otherwise. */
  function BotAction(p: Player, tableBet: int, minRaise: int, choice: BotChoice): (a: Action)
    ensures a == Fold <==> choice.BotFold? && tableBet > p.currentBet
    ensures a.Raise? <==> choice.BotRaise? && p.chips > Max(0, tableBet - p.currentBet) + BIG_BLIND
    ensures a.Raise? ==> a.raiseTo == Some(BotRaiseTarget(p, tableBet, minRaise, BIG_BLIND, choice.sizing))
  {
    var toCall := Max(0, tableBet - p.currentBet);
    match choice
    case BotFold => if toCall > 0 then Fold else CheckCall
    case BotCall => CheckCall
    case BotRaise(sizing) =>
      if p.chips > toCall + BIG_BLIND then Raise(Some(BotRaiseTarget(p, tableBet, minRaise, BIG_BLIND, sizing)))
      else CheckCall
  }

  /** A bot that can act is never refused: applyAction accepts whatever botAct settles on. */
  lemma BotActionAccepted(b: Bets, seat: int, choice: BotChoice)
    requires WellFormed(b) && 0 <= seat < |b.players| && CanAct(b.players[seat])
    ensures Act(b, BIG_BLIND, seat, BotAction(b.players[seat], b.currentBet, b.minRaise, choice)).Some?
  {
    var p := b.players[seat];
    var a := BotAction(p, b.currentBet, b.minRaise, choice);
    if a.Raise? {
      BotRaiseAccepted(p, b.currentBet, b.minRaise, BIG_BLIND, choice.sizing);
    }
    ActRejectsIff(b, BIG_BLIND, seat, a);
  }

  /** Everything the table holds except whose turn it is. */
  datatype Snapshot = Snapshot(players: seq<Player>, pot: int, currentBet: int, minRaise: int,
                               dealer: int, smallBlind: int, bigBlind: int, deck: seq<Card>,
                               board: seq<Card>, stage: Stage, handOver: bool, handId: nat)

  // ---------------------------------------------------------------------------
  // What the settling steps keep
  // ---------------------------------------------------------------------------

  /** The win of the last player in the hand keeps it well formed too. */
  lemma SingleWinKeeps(b: Bets)
    requires WellFormed(b) && SingleWin(b.players, b.pot).Some?
    ensures var r := SingleWin(b.players, b.pot).value;
            var after := Bets(r, 0, b.currentBet, b.minRaise);
            WellFormed(after) && Total(after) == Total(b) && AllHands(r) == AllHands(b.players)
  {
    var cs := Contenders(b.players);
    assert cs[0] in cs;
    var r := SingleWin(b.players, b.pot).value;
    AllHandsSameHands(r, b.players, |r|);
  }

  /** Clearing the street's bets leaves a run-out a run-out: still nobody can act and
      somebody is still in the hand. */
  lemma StreetResetRunOut(ps: seq<Player>)
    requires NobodyActs(ps) && |Contenders(ps)| > 0
    ensures NobodyActs(StreetReset(ps)) && |Contenders(StreetReset(ps))| > 0
  {
    var k := Contenders(ps)[0];
    assert k in Contenders(ps);
    assert k in Contenders(StreetReset(ps));
  }

  /** Every hand that opens has a player in it: the re-buy leaves a seat with chips, and
      that seat is dealt in. */
  lemma OpeningHasContender(ps: seq<Player>, dealer: int, shuffled: seq<Card>)
    requires |ps| > 0 && -1 <= dealer < |ps| && |shuffled| >= 2 * |ps|
    ensures |Contenders(StartOpening(ps, dealer, shuffled).players)| > 0
  {
    var rs := Rebought(ps);
    var i :| 0 <= i < |rs| && rs[i].chips > 0;
    OpenShape(rs, if CountAlive(ps) <= 1 then -1 else dealer, shuffled);
    var o := StartOpening(ps, dealer, shuffled);
    assert InHand(o.players[i]);
    assert i in Contenders(o.players);
  }

  /** Paying `amount` out into the stacks keeps the betting state well formed and adds
      exactly `amount` to the chips in play. */
  lemma PaidOutKeeps(b: Bets, after: seq<Player>, amount: int)
    requires WellFormed(b) && PaidOut(b.players, after, amount)
    ensures WellFormed(b.(players := after)) && Total(b.(players := after)) == Total(b) + amount
  {
    assert forall i :: 0 <= i < |after| ==> after[i].currentBet == b.players[i].currentBet;
  }

  /** Dealing k cards from the end of the deck onto the board keeps every card in play. */
  lemma BoardDealKeepsCards(deck: seq<Card>, board: seq<Card>, hands: multiset<Card>, k: nat)
    requires k <= |deck|
    ensures multiset(deck[..|deck| - k]) + multiset(board + Popped(deck, k)) + hands ==
            multiset(deck) + multiset(board) + hands
  {
    PoppedKeepsCards(deck, k);
  }

  /** And so does clearing the street's bets. */
  lemma StreetResetKeeps(b: Bets)
    requires WellFormed(b)
    ensures var r := StreetReset(b.players);
            var after := Bets(r, b.pot, 0, BIG_BLIND);
            WellFormed(after) && Total(after) == Total(b) && AllHands(r) == AllHands(b.players)
  {
    var r := StreetReset(b.players);
    StreetResetFacts(b.players);
    AllHandsSameHands(r, b.players, |r|);
  }

  class Table {
    /** The four seats; the source keeps one object per seat and mutates it. */
    const players: array<Player>
    var pot: int
    var currentBet: int
    var minRaise: int
    var dealerIndex: int
    var smallBlindIndex: int
    var bigBlindIndex: int
    /** Cards are drawn from the end. */
    var deck: seq<Card>
    var communityCards: seq<Card>
    var stage: Stage
    var handOver: bool
    /** Counts hands; a delayed continuation compares it with the hand it was made for. */
    var handId: nat
    var activePlayerIndex: int

    ghost function Betting(): Bets
      reads `pot, `currentBet, `minRaise, players
    {
      Bets(players[..], pot, currentBet, minRaise)
    }

    ghost function State(): Snapshot
      reads this, players
    {
      Snapshot(players[..], pot, currentBet, minRaise, dealerIndex, smallBlindIndex, bigBlindIndex,
               deck, communityCards, stage, handOver, handId)
    }

    /** What an accepted action leaves when the hand goes on within the street (nobody has won
        alone, the street is not over and someone after `seat` can act): the table as it was
        in `before` with the betting state `after`, and the turn with the next player after
        `seat` who can act. */
    ghost predicate PassedTurn(before: Snapshot, after: Bets, seat: int)
      requires -1 <= seat < |after.players|
      reads this, players
    {
      var next := NextSeat(after.players, seat, ActsNow);
      SingleWin(after.players, after.pot).None? && !BettingRoundComplete(after.players, after.currentBet) &&
      next != -1 ==>
        activePlayerIndex == next &&
        State() == before.(players := after.players, pot := after.pot, currentBet := after.currentBet,
                           minRaise := after.minRaise)
    }

    /** What an accepted action leaves when the street does not simply go on: with one
        player left in the hand, that player has taken the pot and the hand is over; when
        the round is complete or nobody after `seat` can act, the round has been concluded,
        so the hand is over or a later street than `rank` has begun. */
    ghost predicate EndedTurn(after: Bets, seat: int, rank: nat)
      requires -1 <= seat < |after.players|
      reads this, players
    {
      var won := SingleWin(after.players, after.pot);
      (won.Some? ==> handOver && pot == 0 && players[..] == won.value) &&
      (won.None? && (BettingRoundComplete(after.players, after.currentBet) ||
                     NextSeat(after.players, seat, ActsNow) == -1) ==>
         handOver || StreetRank(stage) < rank)
    }

    /** The fields an opening sets. */
    ghost function Opened(): Opening
      reads players, `deck, `dealerIndex, `smallBlindIndex, `bigBlindIndex, `pot, `currentBet
    {
      Opening(players[..], deck, dealerIndex, smallBlindIndex, bigBlindIndex, pot, currentBet)
    }

    /** The table holds the opening `o` of a hand, before anyone has the turn. */
    ghost predicate Holds(o: Opening)
      reads players, `deck, `dealerIndex, `smallBlindIndex, `bigBlindIndex, `pot, `currentBet, `minRaise
    {
      Opened() == o && minRaise == BIG_BLIND
    }

    /** Every chip at the table: the stacks and the pot. */
    ghost function Chips(): int
      reads `pot, `currentBet, `minRaise, players
    {
      Total(Betting())
    }

    ghost predicate Valid()
      reads `pot, `currentBet, `minRaise, `dealerIndex, `smallBlindIndex, `bigBlindIndex,
            `activePlayerIndex, `stage, `handOver, `communityCards, `deck, players
    {
      players.Length == SEATS &&
      WellFormed(Betting()) &&
      -1 <= dealerIndex < SEATS && -1 <= smallBlindIndex < SEATS && -1 <= bigBlindIndex < SEATS &&
      -1 <= activePlayerIndex < SEATS &&
      (stage == Idle ==> handOver) &&
      (stage != Idle ==> |communityCards| == BoardSize(stage) && |deck| + |communityCards| >= 5)
    }

    /** createPlayers and the initial state: four full stacks, no hand running. */
    constructor ()
      ensures Valid() && fresh(players)
      ensures players[..] == seq(SEATS, _ => NewPlayer())
      ensures pot == 0 && currentBet == 0 && minRaise == BIG_BLIND
      ensures dealerIndex == -1 && smallBlindIndex == -1 && bigBlindIndex == -1 && activePlayerIndex == -1
      ensures deck == [] && communityCards == [] && stage == Idle && handOver && handId == 0
    {
      players := new Player[SEATS](_ => NewPlayer());
      pot := 0;
      currentBet := 0;
      minRaise := BIG_BLIND;
      dealerIndex := -1;
      smallBlindIndex := -1;
      bigBlindIndex := -1;
      deck := [];
      communityCards := [];
      stage := Idle;
      handOver := true;
      handId := 0;
      activePlayerIndex := -1;
      new;
      assert players[..] == seq(SEATS, _ => NewPlayer());
    }

    // -------------------------------------------------------------------------
    // Primitive steps
    // -------------------------------------------------------------------------

    /** nextIndex: the scan over the seats after `from`. */
    method NextIndex(from: int, w: Want) returns (idx: int)
      requires -1 <= from < players.Length
      ensures idx == NextSeat(players[..], from, w)
    {
      var n := players.Length;
      var i := 1;
      while i <= n
        invariant 1 <= i <= n + 1
        invariant ScanFrom(players[..], from, w, i) == NextSeat(players[..], from, w)
      {
        var k := (from + i + n) % n;
        SeatIsMod(from, i, n);
        if Wants(w, players[k]) {
          return k;
        }
        i := i + 1;
      }
      return -1;
    }

    /** drawCard: pop the last card of the deck. */
    method DrawCard() returns (c: Card)
      requires |deck| > 0
      modifies this`deck
      ensures c == old(deck)[|old(deck)| - 1] && deck == old(deck)[..|old(deck)| - 1]
    {
      c := deck[|deck| - 1];
      deck := deck[..|deck| - 1];
    }

    /** commitChips for the player in `seat`. */
    method CommitChips(seat: int, amount: int) returns (committed: int)
      requires 0 <= seat < players.Length
      modifies players, this`pot
      ensures (players[seat], committed) == Commit(old(players[seat]), amount)
      ensures pot == old(pot) + committed
      ensures forall i :: 0 <= i < players.Length && i != seat ==> players[i] == old(players[i])
    {
      var p := players[seat];
      if amount <= 0 || p.chips <= 0 {
        return 0;
      }
      committed := Min(amount, p.chips);
      p := p.(chips := p.chips - committed, currentBet := p.currentBet + committed);
      pot := pot + committed;
      if p.chips == 0 {
        p := p.(allIn := true);
      }
      players[seat] := p;
    }

    /** postBlind: a blind is a commitment of the blind amount (the label is display only). */
    method PostBlind(seat: int, amount: int) returns (posted: int)
      requires 0 <= seat < players.Length
      modifies players, this`pot
      ensures (players[seat], posted) == Commit(old(players[seat]), amount)
      ensures pot == old(pot) + posted
      ensures forall i :: 0 <= i < players.Length && i != seat ==> players[i] == old(players[i])
    {
      posted := CommitChips(seat, amount);
    }

    /** resetStreetBets. */
    method ResetStreetBets()
      requires WellFormed(Betting())
      modifies players, this`currentBet, this`minRaise
      ensures players[..] == StreetReset(old(players[..]))
      ensures currentBet == 0 && minRaise == BIG_BLIND
      ensures WellFormed(Betting()) && Chips() == old(Chips())
    {
      ghost var b := Betting();
      for i := 0 to players.Length
        invariant forall k :: 0 <= k < i ==>
                    players[k] == old(players[k]).(currentBet := 0, acted := old(players[k]).folded || old(players[k]).allIn)
        invariant forall k :: i <= k < players.Length ==> players[k] == old(players[k])
      {
        var p := players[i].(currentBet := 0);
        if !p.folded && !p.allIn {
          p := p.(acted := false);
        } else {
          p := p.(acted := true);
        }
        players[i] := p;
      }
      currentBet := 0;
      minRaise := BIG_BLIND;
      assert players[..] == StreetReset(b.players);
      StreetResetKeeps(b);
    }

    /** resetTable: everyone re-buys to a full stack and the button is cleared. */
    method ResetTable()
      modifies players, this`dealerIndex, this`smallBlindIndex, this`bigBlindIndex
      ensures players[..] == seq(players.Length, _ => NewPlayer())
      ensures dealerIndex == -1 && smallBlindIndex == -1 && bigBlindIndex == -1
    {
      for i := 0 to players.Length
        invariant forall k :: 0 <= k < i ==> players[k] == NewPlayer()
      {
        players[i] := NewPlayer();
      }
      dealerIndex := -1;
      smallBlindIndex := -1;
      bigBlindIndex := -1;
    }

    // -------------------------------------------------------------------------
    // The betting step
    // -------------------------------------------------------------------------

    /** The part of applyAction that validates and applies the action itself, before it
        looks at what comes next. A refused action changes nothing. */
    method TakeAction(seat: int, action: Action) returns (ok: bool)
      requires Valid() && 0 <= seat < SEATS
      modifies players, this`pot, this`currentBet, this`minRaise
      ensures var r := Act(old(Betting()), BIG_BLIND, seat, action);
              ok == r.Some? && Betting() == (if ok then r.value else old(Betting()))
      ensures !ok ==> unchanged(this) && unchanged(players)
    {
      ghost var b := Betting();
      var p := players[seat];
      if !CanAct(p) {
        return false;
      }
      var toCall := Max(0, currentBet - p.currentBet);
      match action {
      case Fold =>
        players[seat] := p.(folded := true, acted := true);
        assert Act(b, BIG_BLIND, seat, action) == Some(b.(players := players[..]));
      case CheckCall =>
        if toCall == 0 {
          players[seat] := p.(acted := true);
          assert Act(b, BIG_BLIND, seat, action) == Some(b.(players := players[..]));
        } else {
          var paid := CommitChips(seat, toCall);
          players[seat] := players[seat].(acted := true);
          assert players[..] == b.players[seat := Commit(p, toCall).0.(acted := true)];
          assert Act(b, BIG_BLIND, seat, action) == Some(b.(players := players[..], pot := pot));
        }
      case Raise(request) =>
        ok := TakeRaise(seat, request);
        return;
      }
      return true;
    }

    /** The raise branch of applyAction, for a player who can act: refused without any
        change when the clamped total is not a legal raise, otherwise paid, with the new
        table bet and minimum raise, and action reopened after a full raise. */
    method TakeRaise(seat: int, request: Option<int>) returns (ok: bool)
      requires players.Length == SEATS && WellFormed(Betting())
      requires 0 <= seat < SEATS && CanAct(players[seat])
      modifies players, this`pot, this`currentBet, this`minRaise
      ensures var r := Act(old(Betting()), BIG_BLIND, seat, Raise(request));
              ok == r.Some? && Betting() == (if ok then r.value else old(Betting()))
      ensures !ok ==> unchanged(this) && unchanged(players)
    {
      ghost var b := Betting();
      var p := players[seat];
      var prevBet := currentBet;
      var maxTotal := p.currentBet + p.chips;
      if maxTotal <= currentBet {
        return false;
      }
      var minTotal := MinTotal(currentBet, minRaise, BIG_BLIND);
      var requested := if request.Some? then request.value else minTotal;
      var target := Min(Max(requested, p.currentBet), maxTotal);
      var isAllIn := target == maxTotal;
      if (target < minTotal && !isAllIn) || (target <= currentBet && !isAllIn) || target <= p.currentBet {
        return false;
      }
      assert RaiseTarget(p, b.currentBet, b.minRaise, BIG_BLIND, request) == Some(target);
      RaiseTo(seat, request, target);
      return true;
    }

    /** The accepted raise of applyAction: the player pays up to the target, the table bet
        becomes the target, and the minimum raise grows and the betting reopens after a full
        raise (any raise when nobody had bet yet). */
    method RaiseTo(seat: int, request: Option<int>, target: int)
      requires players.Length == SEATS && 0 <= seat < SEATS && CanAct(players[seat])
      requires RaiseTarget(players[seat], currentBet, minRaise, BIG_BLIND, request) == Some(target)
      modifies players, this`pot, this`currentBet, this`minRaise
      ensures Betting() == Act(old(Betting()), BIG_BLIND, seat, Raise(request)).value
      ensures var p := old(players[seat]);
              var q := Commit(p, target - p.currentBet).0;
              var raiseSize := q.currentBet - old(currentBet);
              var reopened := old(currentBet) == 0 || raiseSize >= old(minRaise);
              var ps := old(players[..])[seat := q.(acted := true)];
              players[..] == (if reopened then Reopen(ps, seat) else ps) &&
              pot == old(pot) + (target - p.currentBet) && currentBet == q.currentBet &&
              minRaise == (if old(currentBet) == 0 then Max(BIG_BLIND, raiseSize)
                           else if reopened then raiseSize else old(minRaise))
    {
      RaiseSteps(Betting(), BIG_BLIND, seat, request, target);
      var prevBet := currentBet;
      ghost var before := players[..];
      var paid := CommitChips(seat, target - players[seat].currentBet);
      ghost var q := players[seat];
      // The source refuses the raise here when nothing was paid; that never happens.
      assert paid > 0;
      var total := players[seat].currentBet;
      // The table bet always goes up: the source's test of this is always true.
      assert total > currentBet;
      var raiseSize := total - prevBet;
      currentBet := total;
      var reopened := false;
      if prevBet == 0 {
        minRaise := Max(BIG_BLIND, raiseSize);
        reopened := true;
      } else if raiseSize >= minRaise {
        minRaise := raiseSize;
        reopened := true;
      }
      players[seat] := players[seat].(acted := true);
      assert players[..] == before[seat := q.(acted := true)];
      if reopened {
        ReopenBetting(seat);
      }
    }

    /** After a full raise every other player who can still act has to act again. */
    method ReopenBetting(seat: int)
      modifies players
      ensures players[..] == Reopen(old(players[..]), seat)
    {
      for i := 0 to players.Length
        invariant forall k :: 0 <= k < i ==>
                    players[k] == (if k != seat && CanAct(old(players[k])) then old(players[k]).(acted := false) else old(players[k]))
        invariant forall k :: i <= k < players.Length ==> players[k] == old(players[k])
      {
        if i != seat && CanAct(players[i]) {
          players[i] := players[i].(acted := false);
        }
      }
    }

    // -------------------------------------------------------------------------
    // Settlement
    // -------------------------------------------------------------------------

    /** checkSinglePlayerWin: with exactly one player left in the hand, that player takes
        the pot and the hand ends; otherwise nothing changes. */
    method CheckSinglePlayerWin() returns (won: bool)
      requires Valid()
      modifies players, this`pot, this`handOver
      ensures var r := SingleWin(old(players[..]), old(pot));
              won == r.Some? && (won ==> players[..] == r.value && pot == 0 && handOver)
      ensures !won ==> players[..] == old(players[..]) && pot == old(pot) && handOver == old(handOver)
    {
      var contenders := Contenders(players[..]);
      if |contenders| != 1 {
        return false;
      }
      var winner := contenders[0];
      assert winner in contenders;
      var amount := pot;
      players[winner] := players[winner].(chips := players[winner].chips + amount);
      pot := 0;
      handOver := true;
      return true;
    }

    /** showdown: evaluate every contender's seven cards and record the result on the seat,
        keep the first best, pay the pot to every contender that ties it and end the hand.
        The split itself is PayContenders; here, the pot is emptied into the stacks whenever
        anyone contends, and no chip is created or lost. */
    method Showdown()
      requires Valid()
      modifies players, this`pot, this`handOver
      ensures Valid() && Chips() == old(Chips()) && handOver
      ensures |Contenders(old(players[..]))| > 0 ==>
                pot == 0 && players[..] == ShowdownPayout(old(players[..]), communityCards, old(pot))
      ensures |Contenders(old(players[..]))| == 0 ==> players[..] == old(players[..]) && pot == old(pot)
    {
      var contenders := Contenders(players[..]);
      if |contenders| == 0 {
        handOver := true;
        return;
      }
      ghost var before := players[..];
      ghost var chips := Chips();
      var amount := pot;
      pot := 0;
      handOver := true;
      PayPot(contenders, amount, before, chips);
    }

    /** The pot, already taken off the table, goes into the stacks as SplitPot pays it: the
        table stays valid and holds the `chips` it held before the pot was taken. */
    method PayPot(contenders: seq<nat>, amount: int, ghost before: seq<Player>, ghost chips: int)
      requires Valid() && amount >= 0 && before == players[..] && chips == Chips() + amount
      requires contenders == Contenders(before) && |contenders| > 0
      modifies players
      ensures Valid() && Chips() == chips
      ensures players[..] == ShowdownPayout(before, communityCards, amount)
    {
      ghost var b := Betting();
      PayContenders(contenders, amount);
      PaidOutKeeps(b, players[..], amount);
    }

    /** The evaluation, the choice of winners and the payout of showdown, for a hand with
        contenders. */
    method PayContenders(contenders: seq<nat>, amount: int)
      requires amount >= 0 && contenders == Contenders(players[..]) && |contenders| > 0
      modifies players
      ensures players[..] == SplitPot(old(players[..]), contenders, Evaluations(old(players[..]), communityCards, contenders), amount).0
    {
      var evaluated := EvaluateContenders(contenders);
      RecordShowdown(contenders, evaluated);
      var winners := ChooseWinners(contenders, evaluated);
      InRange(contenders, winners, players.Length);
      PayWinners(winners, amount);
    }

    /** The evaluation map of showdown: each contender's hole cards with the board. */
    method EvaluateContenders(contenders: seq<nat>) returns (evaluated: seq<Eval>)
      requires forall k :: 0 <= k < |contenders| ==> contenders[k] < players.Length
      ensures evaluated == Evaluations(players[..], communityCards, contenders)
    {
      ghost var all := Evaluations(players[..], communityCards, contenders);
      evaluated := [];
      for k := 0 to |contenders|
        invariant evaluated == all[..k]
      {
        var result := EvaluateSeven(players[contenders[k]].hand + communityCards);
        TakeSnoc(all, k);
        evaluated := evaluated + [result];
      }
      assert all[..|contenders|] == all;
    }

    /** The same map's side effect: each contender's evaluation is recorded on the seat. */
    method RecordShowdown(contenders: seq<nat>, evaluated: seq<Eval>)
      requires |contenders| == |evaluated|
      requires forall k :: 0 <= k < |contenders| ==> contenders[k] < players.Length
      modifies players
      ensures players[..] == Record(old(players[..]), contenders, evaluated, |contenders|)
    {
      ghost var ps := players[..];
      for k := 0 to |contenders|
        invariant players[..] == Record(ps, contenders, evaluated, k)
      {
        var seat := contenders[k];
        players[seat] := players[seat].(showdown := Some(evaluated[k]));
      }
    }

    /** The two loops of showdown that pick the winners: the first best evaluation, then
        every contender whose evaluation ties it. */
    method ChooseWinners(contenders: seq<nat>, evaluated: seq<Eval>) returns (winners: seq<nat>)
      requires |contenders| == |evaluated| > 0
      requires forall a, b :: 0 <= a < b < |contenders| ==> contenders[a] < contenders[b]
      ensures winners == Winners(contenders, evaluated)
    {
      var best := BestIndex(evaluated);
      winners := WinnerSeats(contenders, evaluated, best);
    }

    /** The loop that keeps the first best evaluation: its result is at least as good as
        every evaluation. */
    method BestIndex(evaluated: seq<Eval>) returns (best: nat)
      requires |evaluated| > 0
      ensures best == BestUpTo(evaluated, |evaluated|)
      ensures forall j :: 0 <= j < |evaluated| ==> CompareEval(evaluated[best], evaluated[j]) >= 0
    {
      best := 0;
      for i := 1 to |evaluated|
        invariant best == BestUpTo(evaluated, i)
      {
        if CompareEval(evaluated[i], evaluated[best]) > 0 {
          best := i;
        }
      }
      BestUpToIsBest(evaluated, |evaluated|);
    }

    /** The winners filter: the seats whose evaluation compares equal to the best. */
    method WinnerSeats(contenders: seq<nat>, evaluated: seq<Eval>, best: nat) returns (winners: seq<nat>)
      requires |contenders| == |evaluated| && best < |evaluated|
      ensures winners == WinnersUpTo(contenders, evaluated, best, |contenders|)
    {
      winners := [];
      for i := 0 to |contenders|
        invariant winners == WinnersUpTo(contenders, evaluated, best, i)
      {
        if CompareEval(evaluated[i], evaluated[best]) == 0 {
          winners := winners + [contenders[i]];
        }
      }
    }

    /** The payout loop of showdown: the pot split among the winners. */
    method PayWinners(winners: seq<nat>, amount: int)
      requires amount >= 0 && |winners| > 0
      requires forall j :: 0 <= j < |winners| ==> winners[j] < players.Length
      requires forall a, b :: 0 <= a < b < |winners| ==> winners[a] < winners[b]
      modifies players
      ensures players[..] == Share(old(players[..]), winners, amount)
    {
      ghost var recorded := players[..];
      var each := amount / |winners|;
      var remainder := amount - each * |winners|;
      ghost var rem := remainder;
      for j := 0 to |winners|
        invariant players[..] == Payout(recorded, winners[..j], each, rem)
        invariant remainder == if j < rem then rem - j else 0
      {
        var winner := winners[j];
        players[winner] := players[winner].(chips := players[winner].chips + each);
        if remainder > 0 {
          players[winner] := players[winner].(chips := players[winner].chips + 1);
          remainder := remainder - 1;
        }
        assert winners[..j + 1][..j] == winners[..j];
      }
      assert winners[..|winners|] == winners;
    }

    // -------------------------------------------------------------------------
    // Moving the hand on
    // -------------------------------------------------------------------------

    /** The dealing part of concludeBettingRound: three cards for the flop, one for the turn,
        one for the river, each drawn from the end of the deck onto the board. */
    method DealStreet()
      requires Valid() && (stage == Preflop || stage == Flop || stage == Turn)
      modifies this`deck, this`communityCards, this`stage
      ensures stage == NextStage(old(stage))
      ensures var k := BoardSize(stage) - BoardSize(old(stage));
              0 < k <= |old(deck)| && deck == old(deck)[..|old(deck)| - k] &&
              communityCards == old(communityCards) + Popped(old(deck), k)
      ensures Valid()
    {
      ghost var d := deck;
      ghost var k: nat;
      if stage == Preflop {
        var c1 := DrawCard();
        var c2 := DrawCard();
        var c3 := DrawCard();
        communityCards := communityCards + [c1, c2, c3];
        stage := Flop;
        k := 3;
        assert deck == d[..|d| - 3];
      } else {
        var c := DrawCard();
        communityCards := communityCards + [c];
        stage := if stage == Flop then Turn else River;
        k := 1;
      }
      assert Popped(d, k) == communityCards[|old(communityCards)|..];
      assert communityCards == old(communityCards) + Popped(d, k);
    }

    /** concludeBettingRound: deal the next street and set it up, or go to showdown after
        the river. A finished hand is left alone; otherwise the hand ends or moves to a
        later street. */
    method ConcludeBettingRound()
      requires Valid()
      modifies this, players
      ensures Valid() && Chips() == old(Chips()) && handId == old(handId)
      ensures old(handOver) ==> unchanged(this) && unchanged(players)
      ensures !old(handOver) ==> handOver || StreetRank(stage) < old(StreetRank(stage))
      ensures StreetRank(stage) <= old(StreetRank(stage)) && (old(handOver) ==> handOver)
      ensures var k := BoardSize(NextStage(old(stage))) - BoardSize(old(stage));
              var reset := StreetReset(old(players[..]));
              var opener := NextSeat(reset, old(dealerIndex), ActsNow);
              !old(handOver) && (old(stage) == Preflop || old(stage) == Flop || old(stage) == Turn) &&
              |Contenders(reset)| > 1 && opener != -1 ==>
                0 < k <= |old(deck)| && activePlayerIndex == opener &&
                State() == old(State()).(players := reset, currentBet := 0, minRaise := BIG_BLIND,
                                         deck := old(deck)[..|old(deck)| - k],
                                         board := old(communityCards) + Popped(old(deck), k),
                                         stage := NextStage(old(stage)))
      ensures !old(handOver) && old(stage) == River ==>
                handOver &&
                (|Contenders(old(players[..]))| > 0 ==>
                   pot == 0 && players[..] == ShowdownPayout(old(players[..]), old(communityCards), old(pot)))
      ensures var reset := StreetReset(old(players[..]));
              !old(handOver) && (old(stage) == Preflop || old(stage) == Flop || old(stage) == Turn) &&
              |Contenders(reset)| == 1 ==>
                handOver && pot == 0 && players[..] == SingleWin(reset, old(pot)).value
      ensures !old(handOver) && NobodyActs(old(players[..])) && |Contenders(old(players[..]))| > 0 ==> handOver
      decreases StreetRank(stage), 2, 0
    {
      if handOver {
        return;
      }
      if stage == Preflop || stage == Flop || stage == Turn {
        AdvanceStreet();
      } else if stage == River {
        Showdown();
      }
    }

    /** The street half of concludeBettingRound: the next street's cards go onto the board and
        its betting is set up. */
    method AdvanceStreet()
      requires Valid() && !handOver && (stage == Preflop || stage == Flop || stage == Turn)
      modifies this, players
      ensures Valid() && Chips() == old(Chips()) && handId == old(handId)
      ensures StreetRank(stage) < old(StreetRank(stage))
      ensures var k := BoardSize(NextStage(old(stage))) - BoardSize(old(stage));
              var reset := StreetReset(old(players[..]));
              var opener := NextSeat(reset, old(dealerIndex), ActsNow);
              |Contenders(reset)| > 1 && opener != -1 ==>
                0 < k <= |old(deck)| && activePlayerIndex == opener &&
                State() == old(State()).(players := reset, currentBet := 0, minRaise := BIG_BLIND,
                                         deck := old(deck)[..|old(deck)| - k],
                                         board := old(communityCards) + Popped(old(deck), k),
                                         stage := NextStage(old(stage)))
      ensures var reset := StreetReset(old(players[..]));
              |Contenders(reset)| == 1 ==>
                handOver && pot == 0 && players[..] == SingleWin(reset, old(pot)).value
      ensures NobodyActs(old(players[..])) && |Contenders(old(players[..]))| > 0 ==> handOver
      decreases StreetRank(stage), 1, 0
    {
      DealStreet();
      SetupNextStreet();
    }

    /** setupNextStreet: clear the street's bets; end the hand if at most one player is
        left in it, run the board out if nobody can act, or give the turn to the first
        player after the dealer who can. */
    method SetupNextStreet()
      requires Valid()
      modifies this, players
      ensures Valid() && Chips() == old(Chips()) && handId == old(handId)
      ensures StreetRank(stage) <= old(StreetRank(stage)) && (old(handOver) ==> handOver)
      ensures var reset := StreetReset(old(players[..]));
              var opener := NextSeat(reset, old(dealerIndex), ActsNow);
              !old(handOver) && |Contenders(reset)| > 1 && opener != -1 ==>
                activePlayerIndex == opener &&
                State() == old(State()).(players := reset, currentBet := 0, minRaise := BIG_BLIND)
      ensures var reset := StreetReset(old(players[..]));
              !old(handOver) && |Contenders(reset)| > 1 && NextSeat(reset, old(dealerIndex), ActsNow) == -1 ==>
                handOver || StreetRank(stage) < old(StreetRank(stage))
      ensures var reset := StreetReset(old(players[..]));
              |Contenders(reset)| == 1 ==>
                handOver && pot == 0 && players[..] == SingleWin(reset, old(pot)).value
      ensures !old(handOver) && NobodyActs(old(players[..])) && |Contenders(old(players[..]))| > 0 ==> handOver
      decreases StreetRank(stage), 6, 0
    {
      ghost var before := players[..];
      ResetStreetBets();
      if NobodyActs(before) && |Contenders(before)| > 0 {
        StreetResetRunOut(before);
      }
      SettleOrOpen();
    }

    /** The second half of setupNextStreet, on a street whose bets are cleared: the last
        player in the hand takes the pot, or the first player after the dealer who can act
        gets the turn, or the board is run out. */
    method SettleOrOpen()
      requires Valid()
      modifies this, players
      ensures Valid() && Chips() == old(Chips()) && handId == old(handId)
      ensures StreetRank(stage) <= old(StreetRank(stage)) && (old(handOver) ==> handOver)
      ensures var opener := NextSeat(old(players[..]), old(dealerIndex), ActsNow);
              !old(handOver) && |Contenders(old(players[..]))| > 1 && opener != -1 ==>
                activePlayerIndex == opener && State() == old(State())
      ensures !old(handOver) && |Contenders(old(players[..]))| > 1 &&
              NextSeat(old(players[..]), old(dealerIndex), ActsNow) == -1 ==>
                handOver || StreetRank(stage) < old(StreetRank(stage))
      ensures |Contenders(old(players[..]))| == 1 ==>
                handOver && pot == 0 && players[..] == SingleWin(old(players[..]), old(pot)).value
      ensures !old(handOver) && NobodyActs(old(players[..])) && |Contenders(old(players[..]))| > 0 ==> handOver
      decreases StreetRank(stage), 5, 0
    {
      var contenders := Contenders(players[..]);
      if |contenders| <= 1 {
        ghost var c := Betting();
        if |contenders| == 1 {
          SingleWinKeeps(c);
        }
        var _ := CheckSinglePlayerWin();
        return;
      }
      OpenBetting(dealerIndex);
    }

    /** The opening of a betting round in startHand and setupNextStreet: the first player
        after `from` who can act gets the turn; when nobody can, the board is run out (the
        source's autoRunout), which here is concluding the round at once. */
    method OpenBetting(from: int)
      requires Valid() && -1 <= from < SEATS
      modifies this, players
      ensures Valid() && Chips() == old(Chips()) && handId == old(handId)
      ensures StreetRank(stage) <= old(StreetRank(stage)) && (old(handOver) ==> handOver)
      ensures var opener := NextSeat(old(players[..]), from, ActsNow);
              !old(handOver) && opener != -1 ==> activePlayerIndex == opener && State() == old(State())
      ensures !old(handOver) && NextSeat(old(players[..]), from, ActsNow) == -1 ==>
                handOver || StreetRank(stage) < old(StreetRank(stage))
      ensures !old(handOver) && NobodyActs(old(players[..])) && |Contenders(old(players[..]))| > 0 ==> handOver
      decreases StreetRank(stage), 4, 0
    {
      var opener := NextIndex(from, ActsNow);
      if opener == -1 {
        ConcludeBettingRound();
        return;
      }
      NextSeatIsFirstInTurn(players[..], from, ActsNow);
      BeginTurn(opener);
    }

    /** beginTurn: the turn goes to `index` when that player can act; otherwise to the next
        player who can, and when there is none the betting round is over. */
    method BeginTurn(index: int)
      requires Valid() && 0 <= index < SEATS
      modifies this, players
      ensures Valid() && Chips() == old(Chips()) && handId == old(handId)
      ensures StreetRank(stage) <= old(StreetRank(stage)) && (old(handOver) ==> handOver)
      ensures !old(handOver) && old(CanAct(players[index])) ==>
                activePlayerIndex == index && State() == old(State())
      ensures var next := NextSeat(old(players[..]), index, ActsNow);
              !old(handOver) && !old(CanAct(players[index])) && next != -1 ==>
                activePlayerIndex == next && State() == old(State())
      ensures !old(handOver) && NobodyActs(old(players[..])) && |Contenders(old(players[..]))| > 0 ==> handOver
      decreases StreetRank(stage), 3, if CanAct(players[index]) then 0 else 1
    {
      if handOver {
        return;
      }
      if !CanAct(players[index]) {
        var next := NextIndex(index, ActsNow);
        if next == -1 {
          ConcludeBettingRound();
        } else {
          NextSeatIsFirstInTurn(players[..], index, ActsNow);
          BeginTurn(next);
        }
        return;
      }
      activePlayerIndex := index;
    }

    // -------------------------------------------------------------------------
    // Acting
    // -------------------------------------------------------------------------

    /** applyAction for the player in `seat`. A finished hand or a refused action changes
        nothing and returns false. An accepted action is applied; then the hand ends if
        one player is left in it, the round concludes if it is complete or nobody else can
        act, and otherwise the turn passes to the next player who can act. */
    method ApplyAction(seat: int, action: Action) returns (ok: bool)
      requires Valid() && 0 <= seat < SEATS
      modifies this, players
      ensures ok <==> !old(handOver) && Act(old(Betting()), BIG_BLIND, seat, action).Some?
      ensures !ok ==> unchanged(this) && unchanged(players)
      ensures Valid() && Chips() == old(Chips()) && handId == old(handId)
      ensures StreetRank(stage) <= old(StreetRank(stage)) && (old(handOver) ==> handOver)
      ensures ok ==> PassedTurn(old(State()), Act(old(Betting()), BIG_BLIND, seat, action).value, seat)
      ensures ok ==> EndedTurn(Act(old(Betting()), BIG_BLIND, seat, action).value, seat, old(StreetRank(stage)))
    {
      if handOver {
        return false;
      }
      ghost var b := Betting();
      ok := TakeAction(seat, action);
      if !ok {
        return;
      }
      ActKeepsWellFormed(b, BIG_BLIND, seat, action);
      ActConservesChips(b, BIG_BLIND, seat, action);
      MoveOn(seat);
    }

    /** What applyAction does once the action is applied: the hand ends if one player is
        left in it; the round concludes if it is complete or nobody after `seat` can act;
        otherwise the turn passes to the next player after `seat` who can act. */
    method MoveOn(seat: int)
      requires Valid() && 0 <= seat < SEATS
      modifies this, players
      ensures Valid() && Chips() == old(Chips()) && handId == old(handId)
      ensures StreetRank(stage) <= old(StreetRank(stage)) && (old(handOver) ==> handOver)
      ensures !old(handOver) ==> PassedTurn(old(State()), old(Betting()), seat)
      ensures !old(handOver) ==> EndedTurn(old(Betting()), seat, old(StreetRank(stage)))
    {
      ghost var c := Betting();
      if SingleWin(c.players, c.pot).Some? {
        SingleWinKeeps(c);
      }
      var won := CheckSinglePlayerWin();
      if won {
        return;
      }
      if BettingRoundComplete(players[..], currentBet) {
        ConcludeBettingRound();
        return;
      }
      var next := NextIndex(seat, ActsNow);
      if next == -1 {
        ConcludeBettingRound();
        return;
      }
      NextSeatIsFirstInTurn(players[..], seat, ActsNow);
      BeginTurn(next);
    }

    /** botAct for the bot in `seat`, with its random draws and strength estimate already
        turned into `choice`. Facing a bet it folds when the draws say so; it raises to
        botRaiseTarget when the draws say so and its stack covers the call plus a big
        blind; otherwise it checks or calls. A bot that can act is never refused. */
    method BotAct(seat: int, choice: BotChoice) returns (ok: bool)
      requires Valid() && 0 <= seat < SEATS
      modifies this, players
      ensures ok <==> !old(handOver) && old(CanAct(players[seat]))
      ensures ok ==>
                var after := Act(old(Betting()), BIG_BLIND, seat, BotAction(old(players[seat]), old(currentBet), old(minRaise), choice));
                after.Some? && PassedTurn(old(State()), after.value, seat) &&
                EndedTurn(after.value, seat, old(StreetRank(stage)))
      ensures !ok ==> unchanged(this) && unchanged(players)
      ensures Valid() && Chips() == old(Chips()) && handId == old(handId)
      ensures StreetRank(stage) <= old(StreetRank(stage)) && (old(handOver) ==> handOver)
    {
      var p := players[seat];
      if handOver || !CanAct(p) {
        return false;
      }
      var toCall := Max(0, currentBet - p.currentBet);
      var action := CheckCall;
      match choice {
      case BotFold =>
        if toCall > 0 {
          action := Fold;
        }
      case BotCall =>
      case BotRaise(sizing) =>
        if p.chips > toCall + BIG_BLIND {
          action := Raise(Some(BotRaiseTarget(p, currentBet, minRaise, BIG_BLIND, sizing)));
        }
      }
      assert action == BotAction(p, currentBet, minRaise, choice);
      BotActionAccepted(Betting(), seat, choice);
      ok := ApplyAction(seat, action);
    }

    /** The delayed continuation beginTurn schedules for a bot: it acts only if the hand
        it was scheduled in (`hand`) is still the running one. */
    method BotTurn(hand: nat, seat: int, choice: BotChoice) returns (acted: bool)
      requires Valid() && 0 <= seat < SEATS
      modifies this, players
      ensures acted <==> hand == old(handId) && !old(handOver) && old(CanAct(players[seat]))
      ensures acted ==>
                var after := Act(old(Betting()), BIG_BLIND, seat, BotAction(old(players[seat]), old(currentBet), old(minRaise), choice));
                after.Some? && PassedTurn(old(State()), after.value, seat) &&
                EndedTurn(after.value, seat, old(StreetRank(stage)))
      ensures !acted ==> unchanged(this) && unchanged(players)
      ensures Valid() && Chips() == old(Chips()) && handId == old(handId)
    {
      if hand != handId || handOver {
        return false;
      }
      acted := BotAct(seat, choice);
    }

    // -------------------------------------------------------------------------
    // Starting a hand
    // -------------------------------------------------------------------------

    /** startHand, with the shuffled deck as input: the new hand is set up and dealt, and
        the first player after the big blind who can act gets the turn (when nobody can,
        the board is run out to the showdown). The chips at the table are the stacks, or
        fresh stacks after a re-buy; the pot of an unfinished hand is dropped. */
    method StartHand(shuffled: seq<Card>)
      requires Valid() && multiset(shuffled) == multiset(FullDeck()) && |shuffled| == DECK_SIZE
      modifies this, players
      ensures handId == old(handId) + 1
      ensures Valid()
      ensures Chips() == if CountAlive(old(players[..])) <= 1 then SEATS * STARTING_CHIPS
                         else old(SumChips(players[..]))
      ensures var o := StartOpening(old(players[..]), old(dealerIndex), shuffled);
              var opener := NextSeat(o.players, o.bigBlind, ActsNow);
              opener != -1 ==> Holds(o) && activePlayerIndex == opener && stage == Preflop && !handOver &&
                               communityCards == []
      ensures var o := StartOpening(old(players[..]), old(dealerIndex), shuffled);
              NextSeat(o.players, o.bigBlind, ActsNow) == -1 ==> handOver
    {
      SetUpHand(handId + 1, shuffled);
      OpenFirstTurn();
    }

    /** The set-up of startHand before anyone has the turn: the re-buy, the deal and the
        blinds, a new hand number, the preflop street and an empty board. Somebody is in
        the new hand. */
    method SetUpHand(id: nat, shuffled: seq<Card>)
      requires Valid() && multiset(shuffled) == multiset(FullDeck()) && |shuffled| == DECK_SIZE
      modifies this, players
      ensures Valid() && Holds(StartOpening(old(players[..]), old(dealerIndex), shuffled))
      ensures handId == id && !handOver && stage == Preflop && communityCards == []
      ensures 0 <= bigBlindIndex < SEATS && |Contenders(players[..])| > 0
      ensures Chips() == if CountAlive(old(players[..])) <= 1 then SEATS * STARTING_CHIPS
                         else old(SumChips(players[..]))
    {
      RebuyAndDeal(shuffled);
      ResetHand(id);
      OpeningHasContender(old(players[..]), old(dealerIndex), shuffled);
    }

    /** The first turn of a hand: the first player after the big blind who can act gets
        it, and when nobody can, the board is run out and the hand ends. */
    method OpenFirstTurn()
      requires Valid() && 0 <= bigBlindIndex < SEATS
      modifies this, players
      ensures Valid() && Chips() == old(Chips()) && handId == old(handId)
      ensures var opener := NextSeat(old(players[..]), old(bigBlindIndex), ActsNow);
              !old(handOver) && opener != -1 ==> activePlayerIndex == opener && State() == old(State())
      ensures var opener := NextSeat(old(players[..]), old(bigBlindIndex), ActsNow);
              !old(handOver) && opener == -1 && |Contenders(old(players[..]))| > 0 ==> handOver
    {
      NoSeatIff(players[..], bigBlindIndex, ActsNow);
      OpenBetting(bigBlindIndex);
    }

    /** The per-hand reset of startHand: a new hand number, no turn yet, an empty board and
        the preflop street. It touches none of the fields the re-buy and the deal set, so
        the model runs it after them. */
    method ResetHand(id: nat)
      requires players.Length == SEATS && WellFormed(Betting()) && |deck| >= 5
      requires 0 <= dealerIndex < SEATS && 0 <= smallBlindIndex < SEATS && 0 <= bigBlindIndex < SEATS
      modifies this`handId, this`handOver, this`communityCards, this`stage, this`activePlayerIndex
      ensures Valid() && Opened() == old(Opened()) && Chips() == old(Chips()) && minRaise == old(minRaise)
      ensures handId == id && !handOver && communityCards == [] && stage == Preflop && activePlayerIndex == -1
    {
      handId := id;
      handOver := false;
      communityCards := [];
      stage := Preflop;
      activePlayerIndex := -1;
    }

    /** The chips and cards of startHand: the re-buy runs, then the button, seats, hole
        cards and blinds are dealt (the pot is cleared just before the blinds). The table then
        holds the opening StartOpening computes from the players and button before the hand. */
    method RebuyAndDeal(shuffled: seq<Card>)
      requires players.Length == SEATS && forall i :: 0 <= i < SEATS ==> players[i].chips >= 0
      requires -1 <= dealerIndex < SEATS && -1 <= smallBlindIndex < SEATS && -1 <= bigBlindIndex < SEATS
      requires multiset(shuffled) == multiset(FullDeck()) && |shuffled| == DECK_SIZE
      modifies players, this`deck, this`dealerIndex, this`smallBlindIndex, this`bigBlindIndex,
               this`pot, this`currentBet, this`minRaise
      ensures Holds(StartOpening(old(players[..]), old(dealerIndex), shuffled))
      ensures WellFormed(Betting())
      ensures 0 <= dealerIndex < SEATS && 0 <= smallBlindIndex < SEATS && 0 <= bigBlindIndex < SEATS
      ensures Chips() == if CountAlive(old(players[..])) <= 1 then SEATS * STARTING_CHIPS
                         else old(SumChips(players[..]))
      ensures multiset(deck) + AllHands(players[..]) == multiset(FullDeck()) && |deck| >= 5
    {
      Rebuy();
      ghost var ps, button := players[..], dealerIndex;
      OpenKeeps(ps, button, shuffled);
      DealHand(shuffled);
      ghost var o := Open(ps, button, shuffled);
      OpeningKeeps(o, SumChips(ps), multiset(shuffled));
    }

    /** The re-buy of startHand: when at most one player has chips, the table is reset to
        fresh stacks. Afterwards some player has chips. */
    method Rebuy()
      requires players.Length == SEATS && forall i :: 0 <= i < SEATS ==> players[i].chips >= 0
      requires -1 <= dealerIndex < SEATS && -1 <= smallBlindIndex < SEATS && -1 <= bigBlindIndex < SEATS
      modifies players, this`dealerIndex, this`smallBlindIndex, this`bigBlindIndex
      ensures players[..] == Rebought(old(players[..]))
      ensures dealerIndex == if CountAlive(old(players[..])) <= 1 then -1 else old(dealerIndex)
      ensures SumChips(players[..]) == if CountAlive(old(players[..])) <= 1 then SEATS * STARTING_CHIPS
                                       else old(SumChips(players[..]))
      ensures exists i :: 0 <= i < SEATS && players[i].chips > 0
      ensures forall i :: 0 <= i < SEATS ==> players[i].chips >= 0
      ensures -1 <= dealerIndex < SEATS && -1 <= smallBlindIndex < SEATS && -1 <= bigBlindIndex < SEATS
    {
      if CountAlive(players[..]) <= 1 {
        ResetTable();
        assert players[0].chips > 0;
        SumChipsAll(players[..], STARTING_CHIPS);
      }
    }

    /** Everything startHand does between the re-buy and the first turn: the button, the
        seats, the hole cards, the blinds and the opening bets. Only the blinds move chips,
        and they move them into the pot. */
    method DealHand(shuffled: seq<Card>)
      requires players.Length == SEATS && -1 <= dealerIndex < SEATS
      requires multiset(shuffled) == multiset(FullDeck()) && |shuffled| == DECK_SIZE
      requires exists i :: 0 <= i < SEATS && players[i].chips > 0
      requires forall i :: 0 <= i < SEATS ==> players[i].chips >= 0
      modifies players, this`deck, this`dealerIndex, this`smallBlindIndex, this`bigBlindIndex,
               this`pot, this`currentBet, this`minRaise
      ensures Holds(Open(old(players[..]), old(dealerIndex), shuffled))
    {
      OpenOnDealt(players[..], dealerIndex, shuffled);
      SeatAndDeal(shuffled);
      BlindsAndBets(DealHole(ForNewHand(old(players[..])), shuffled), NextSeat(old(players[..]), old(dealerIndex), HasChips));
    }

    /** The fields of a table holding the opening `o` keep what `o` keeps: the chips, the
        well-formed bets and the cards. */
    lemma OpeningKeeps(o: Opening, chips: int, cards: multiset<Card>)
      requires Holds(o) && SumChips(o.players) + o.pot == chips
      requires WellFormed(Bets(o.players, o.pot, o.currentBet, BIG_BLIND))
      requires multiset(o.deck) + AllHands(o.players) == cards
      ensures WellFormed(Betting()) && Chips() == chips
      ensures multiset(deck) + AllHands(players[..]) == cards && |deck| == |o.deck|
    {
    }

    /** The blinds and the opening bets of startHand, on seats just cleared and dealt: the
        pot of the last hand is cleared, the small blind is the next seat with chips after the
        button, the big blind the next after that, and the hand opens on them. */
    method BlindsAndBets(ghost hole: (seq<Player>, seq<Card>), ghost button: int)
      requires players.Length == SEATS && (players[..], deck) == hole && dealerIndex == button
      requires 0 <= button < |hole.0| && hole.0[button].chips > 0
      modifies players, this`smallBlindIndex, this`bigBlindIndex, this`pot, this`currentBet, this`minRaise
      ensures Holds(BlindsOn(hole.0, hole.1, button))
    {
      pot := 0;
      ghost var o := BlindsOn(players[..], deck, dealerIndex);
      var sb, bb := BlindSeats();
      assert o.smallBlind == sb && o.bigBlind == bb;
      OpenHand(sb, bb);
    }

    /** The first half of startHand: the button moves to the next seat with chips, every
        seat is cleared for the new hand (a seat without chips sits it out), and two rounds
        of hole cards are dealt from the shuffled deck. No card is lost or duplicated. */
    method SeatAndDeal(shuffled: seq<Card>)
      requires players.Length == SEATS && -1 <= dealerIndex < SEATS
      requires multiset(shuffled) == multiset(FullDeck()) && |shuffled| == DECK_SIZE
      requires exists i :: 0 <= i < SEATS && players[i].chips > 0
      modifies players, this`deck, this`dealerIndex
      ensures dealerIndex == NextSeat(old(players[..]), old(dealerIndex), HasChips) && 0 <= dealerIndex < SEATS
      ensures (players[..], deck) == DealHole(ForNewHand(old(players[..])), shuffled)
      ensures multiset(deck) + AllHands(players[..]) == multiset(FullDeck())
    {
      var button := NextIndex(dealerIndex, HasChips);
      NoSeatIff(players[..], dealerIndex, HasChips);
      ResetSeats();
      ghost var ps := players[..];
      assert AllHands(ps) == multiset{} by { AllHandsEmpty(ps, |ps|); }
      deck := shuffled;
      DealHoleCards();
      dealerIndex := button;
    }

    /** The blinds and the opening bets of startHand, once the blind seats are chosen: each
        blind posts its blind (or what it has), the bet to match is the largest bet, and
        exactly the players who cannot act count as having acted. */
    method OpenHand(sb: int, bb: int)
      requires 0 <= sb < players.Length && 0 <= bb < players.Length
      modifies players, this`pot, this`currentBet, this`minRaise, this`smallBlindIndex, this`bigBlindIndex
      ensures smallBlindIndex == sb && bigBlindIndex == bb
      ensures var posted := PostBlindsOn(old(players[..]), sb, bb);
              players[..] == ActedUnlessAble(posted.0) && pot == old(pot) + posted.1 &&
              currentBet == MaxBet(posted.0) && minRaise == BIG_BLIND
    {
      PostBlinds(sb, bb);
      var bet := MaxBet(players[..]);
      MarkActed();
      currentBet := bet;
      minRaise := BIG_BLIND;
      smallBlindIndex := sb;
      bigBlindIndex := bb;
    }

    /** The per-seat reset of startHand. */
    method ResetSeats()
      modifies players
      ensures players[..] == ForNewHand(old(players[..]))
    {
      for i := 0 to players.Length
        invariant forall k :: 0 <= k < i ==>
                    players[k] == Player(old(players[k]).chips, [], old(players[k]).chips <= 0, false, 0,
                                         old(players[k]).chips <= 0, None)
        invariant forall k :: i <= k < players.Length ==> players[k] == old(players[k])
      {
        var p := players[i];
        players[i] := Player(p.chips, [], p.chips <= 0, false, 0, p.chips <= 0, None);
      }
    }

    /** The hole-card loop of startHand: two rounds, each round dealing one card to every
        seat that is not folded. Only hands change, and no card is lost or duplicated. */
    method DealHoleCards()
      requires |deck| >= 2 * players.Length
      modifies players, this`deck
      ensures forall i :: 0 <= i < players.Length ==>
                players[i] == old(players[i]).(hand := players[i].hand) &&
                |players[i].hand| == |old(players[i]).hand| + (if old(players[i]).folded then 0 else 2)
      ensures multiset(deck) + AllHands(players[..]) == multiset(old(deck)) + AllHands(old(players[..]))
      ensures |deck| >= |old(deck)| - 2 * players.Length
      ensures (players[..], deck) == DealHole(old(players[..]), old(deck))
    {
      for round := 0 to 2
        invariant round == 0 ==> players[..] == old(players[..]) && deck == old(deck)
        invariant round == 1 ==> (players[..], deck) == DealRound(old(players[..]), old(deck), players.Length)
        invariant round == 2 ==> (players[..], deck) == DealHole(old(players[..]), old(deck))
        invariant forall i :: 0 <= i < players.Length ==>
                    players[i] == old(players[i]).(hand := players[i].hand) &&
                    |players[i].hand| == |old(players[i]).hand| + (if old(players[i]).folded then 0 else round)
        invariant multiset(deck) + AllHands(players[..]) == multiset(old(deck)) + AllHands(old(players[..]))
        invariant |deck| >= |old(deck)| - (if round == 0 then 0 else if round == 1 then players.Length else 2 * players.Length)
      {
        DealHoleRound();
      }
    }

    /** One pass of startHand's hole-card loop: every seat that is not folded, in seat
        order, gets the card drawn from the end of the deck. */
    method DealHoleRound()
      requires |deck| >= players.Length
      modifies players, this`deck
      ensures (players[..], deck) == DealRound(old(players[..]), old(deck), players.Length)
      ensures forall i :: 0 <= i < players.Length ==>
                players[i] == old(players[i]).(hand := players[i].hand) &&
                |players[i].hand| == |old(players[i]).hand| + (if old(players[i]).folded then 0 else 1)
      ensures multiset(deck) + AllHands(players[..]) == multiset(old(deck)) + AllHands(old(players[..]))
      ensures |deck| >= |old(deck)| - players.Length
    {
      ghost var ps := players[..];
      ghost var d := deck;
      for k := 0 to players.Length
        invariant (players[..], deck) == DealRound(ps, d, k)
      {
        if !players[k].folded {
          var c := DrawCard();
          players[k] := players[k].(hand := players[k].hand + [c]);
        }
      }
      DealRoundShape(ps, d, players.Length);
      DealRoundKeepsCards(ps, d, players.Length);
    }

    /** The blind seats of startHand: the small blind is the next seat with chips after
        the button, the big blind the next after that. They differ when two players have chips. */
    method BlindSeats() returns (sb: int, bb: int)
      requires players.Length == SEATS && 0 <= dealerIndex < SEATS
      requires exists i :: 0 <= i < SEATS && players[i].chips > 0
      ensures sb == NextSeat(players[..], dealerIndex, HasChips) && 0 <= sb < SEATS && players[sb].chips > 0
      ensures bb == NextSeat(players[..], sb, HasChips) && 0 <= bb < SEATS && players[bb].chips > 0
      ensures CountAlive(players[..]) >= 2 ==> sb != bb
    {
      sb := NextIndex(dealerIndex, HasChips);
      NextSeatIsFirstInTurn(players[..], dealerIndex, HasChips);
      bb := NextIndex(sb, HasChips);
      NextSeatIsFirstInTurn(players[..], sb, HasChips);
      if CountAlive(players[..]) >= 2 {
        TwoAlive(players[..], sb);
        var other :| 0 <= other < SEATS && other != sb && players[other].chips > 0;
        NextSeatLeavesFrom(players[..], sb, HasChips, other);
      }
    }

    /** postBlind for both blinds: each posts its blind, or what it has. */
    method PostBlinds(sb: int, bb: int)
      requires 0 <= sb < players.Length && 0 <= bb < players.Length
      modifies players, this`pot
      ensures var posted := PostBlindsOn(old(players[..]), sb, bb);
              players[..] == posted.0 && pot == old(pot) + posted.1
    {
      ghost var ps := players[..];
      var posted := PostBlind(sb, SMALL_BLIND);
      assert players[..] == ps[sb := players[sb]];
      SumChipsUpdate(ps, sb, players[sb]);
      ghost var mid := players[..];
      posted := PostBlind(bb, BIG_BLIND);
      assert players[..] == mid[bb := players[bb]];
      SumChipsUpdate(mid, bb, players[bb]);
    }

    /** The last per-seat pass of startHand: exactly the players who cannot act count as
        having acted. */
    method MarkActed()
      modifies players
      ensures players[..] == ActedUnlessAble(old(players[..]))
    {
      for i := 0 to players.Length
        invariant forall k :: 0 <= k < i ==> players[k] == old(players[k]).(acted := !CanAct(old(players[k])))
        invariant forall k :: i <= k < players.Length ==> players[k] == old(players[k])
      {
        players[i] := players[i].(acted := !CanAct(players[i]));
      }
    }
  }
}
