# Texas hold'em table engine

A Dafny model of the poker engine of `src/game.js`: a four-seat no-limit hold'em table
with fixed 10/20 blinds, one human seat and three bots. The model covers:

- the deck and dealing;
- the seat navigation that finds the next player to act or to post;
- the one chip primitive, which moves chips from a stack into the pot;
- the betting step, covering fold, check/call and raise, the minimum raise and the reopening of action;
- how a street ends and the hand moves preflop, flop, turn, river and showdown;
- the uncontested win and the showdown split among tied best hands;
- the seven-card evaluator with its comparison;
- the draw detectors the bots use;
- the bots' raise sizing.

The model has seven modules:

- `Util`: small helpers.
- `Cards`: cards and the 52-card deck.
- `RankLists`: descending rank lists and the straight search, where the ace also counts as 1.
- `HandEval`: evaluation and comparison as pure functions over `seq<Card>`, and the two draw detectors (`HasFlushDraw`, `HasStraightDraw`) as methods with loops whose ensures characterise the result.
- `Engine`: the table's rules on values. `Player` records, `Commit`, the betting step `Act`, round completion, `nextIndex` as `NextSeat`, the bot's raise target and the dealing of hole cards.
- `Settlement`: the uncontested win, the choice of the best hands and winners, and the split of the pot.
- `Table`: a class with the table's fields and an `array<Player>` of seats. Every step of a hand is a method that updates them in place. Each method is proved against the value-level functions of `Engine` and `Settlement`.

Chips are conserved by every step of a hand. Starting a hand is the exception: a re-buy gives every seat a fresh stack, and the pot of an unfinished hand is dropped. An accepted action preserves `Valid()` (no negative stack, no bet above the table bet, a positive minimum raise, a board that matches the stage). After the deal every card is in the deck or in a hand (RebuyAndDeal). Each board deal keeps deck, board and hands the same multiset (DealStreet, BoardDealKeepsCards). The hand's progress is a mutual recursion between:

- `ConcludeBettingRound`;
- `SetupNextStreet`;
- `OpenBetting`;
- `BeginTurn`.

It terminates because each round of the recursion deals a later street.

## Model

| member | source | states |
|---|---|---|
| Cards.FullDeck | src/game.js:124-132 | the deck has 52 cards: suits in the order spades, hearts, diamonds, clubs, each with ranks 2 to 14 |
| Cards.BuildDeck | src/game.js:124-132 | the two nested loops produce exactly FullDeck: card i is rank i mod 13 + 2 of the (i div 13)-th suit |
| Cards.DeckIsComplete | src/game.js:124-132 | the built deck holds no card twice and holds every card of the 4 suits × 13 ranks |
| RankLists.Without | src/game.js:1119 | the filter keeps exactly the entries different from the removed rank, and keeps a strictly descending list strictly descending |
| RankLists.MaxOf | src/game.js:1126 | `Math.max` of a non-empty list is a member of it and at least every member |
| RankLists.DescendingIsUnique | src/game.js:1067 | two strictly descending lists with the same members are equal, so the deduplicated, sorted rank list is determined by which ranks are present |
| RankLists.SortDescIsSortedPermutation | src/game.js:1073 | sorting a suit's ranks with `(a, b) => b - a` yields a descending list with the same multiset of ranks |
| RankLists.HighestRun | src/game.js:1193-1202 | Some(h) only when the five ranks h-4..h are all present and no higher run exists; None exactly when no run ends anywhere in 5..top |
| RankLists.StraightHighIsUnique | src/game.js:1193-1204 | any answer with the highest-run property is the straight search's answer |
| RankLists.StraightHighDependsOnMembers | src/game.js:1188-1191 | the straight search sees only which ranks are present, not their order or repeats |
| RankLists.FindStraightHigh | src/game.js:1187-1205 | the scan from 14 down returns the highest h in 5..14 whose ranks h-4..h are all present, with an ace counting as 1 (A-2-3-4-5 gives 5), or none |
| RankLists.WheelIsFiveHigh | src/game.js:1187-1205 | with A, 2, 3, 4, 5 and neither 6 nor 10, the straight search answers 5: the ace counts low |
| HandEval.CompareFrom | src/game.js:1209-1214 | the loop returns 0 exactly when the lists, with missing entries read as 0, agree on the whole range; otherwise it returns the difference at the first index where they differ |
| HandEval.CompareFromPadding | src/game.js:1208 | comparing further than both lists' lengths gives the same result: only zero padding is read there |
| HandEval.CompareHighCardArrays | src/game.js:1207-1215 | returns 0 exactly when the zero-padded lists agree; otherwise the difference at the first index where they differ |
| HandEval.CompareHighCardArraysAntisymmetric | src/game.js:1207-1215 | swapping the arguments negates the result |
| HandEval.CompareHighCardArraysTransitive | src/game.js:1207-1215 | "at least as high" is transitive, even though each pair is compared over its own length |
| HandEval.CompareEval | src/game.js:1217-1226 | a higher category wins outright; with equal categories the result is positive exactly when the values compare higher |
| HandEval.CompareEvalZero | src/game.js:1217-1226 | two evaluations tie exactly when their categories agree and their zero-padded values agree |
| HandEval.CompareEvalAntisymmetric | src/game.js:1217-1226 | swapping the evaluations negates the result |
| HandEval.CompareEvalTransitive | src/game.js:1217-1226 | "at least as good" is transitive, so with antisymmetry the comparison is a total preorder on evaluations |
| HandEval.RankCountIsMembership | src/game.js:1061-1062 | a rank has a non-zero count in the rank-count map exactly when some card has that rank |
| HandEval.SuitRanksFacts | src/game.js:1063-1064 | every suit bucket holds ranks 2..14, and a suit has a non-empty bucket exactly when it is a key of the bucket map |
| HandEval.SuitOrderDistinct | src/game.js:1063 | the bucket map's keys, in insertion order, are distinct |
| HandEval.TwoSuitsFit | src/game.js:1061-1065 | two different suits' buckets together hold at most as many ranks as there are cards |
| HandEval.RanksWhere | src/game.js:1092-1095 | the filtered and sorted rank-count keys are exactly the ranks that pass the count filter, strictly descending |
| HandEval.UniqueRanksMembers | src/game.js:1067 | the distinct-ranks list is strictly descending and holds exactly the ranks of the cards |
| HandEval.PickFlushNone | src/game.js:1069-1079 | the flush loop picks no suit exactly when every bucket has fewer than five cards |
| HandEval.PickFlushOnly | src/game.js:1069-1079 | when exactly one suit has five or more cards, the flush loop picks that suit's ranks, sorted descending |
| HandEval.FlushRanksOfSmallPool | src/game.js:1069-1079 | for at most nine cards there is no flush exactly when no suit has five cards, and otherwise the flush ranks are that suit's ranks, sorted |
| HandEval.SortedRanksStraight | src/game.js:1073-1082 | sorting a bucket of ranks does not change whether it holds a straight |
| HandEval.StraightFlushIff | src/game.js:1081-1090 | the straight-flush branch is taken exactly when some suit has five cards forming a five-rank run |
| HandEval.QuadsIff | src/game.js:1092-1097 | the four-of-a-kind branch is taken exactly when some rank occurs exactly four times |
| HandEval.FullHouseIff | src/game.js:1107-1130 | the full-house branch is taken exactly when one rank occurs three or more times and a different rank twice or more |
| HandEval.FlushIff | src/game.js:1132-1138 | the flush branch is taken exactly when some suit has five or more cards |
| HandEval.StraightIff | src/game.js:1140-1147 | the straight branch is taken exactly when the cards' ranks hold a five-rank run (ace low or high) |
| HandEval.TripsIff | src/game.js:1149-1157 | the trips list is non-empty exactly when some rank occurs three or more times |
| HandEval.TwoPairIff | src/game.js:1159-1168 | the pairs list has two entries exactly when two different ranks each occur twice or more |
| HandEval.PairIff | src/game.js:1170-1178 | the pairs list is non-empty exactly when some rank occurs twice or more |
| HandEval.EvaluateSeven | src/game.js:1056-1185 | the category of every evaluation lies in 0..8 (high card to straight flush) |
| HandEval.EvaluateSevenCategory | src/game.js:1056-1185 | for a pool of at most nine cards, the category returned is the strongest pattern present. The patterns are checked in the order straight flush, quads, full house, flush, straight, trips, two pair, pair, high card, each defined independently of the evaluator from rank and suit counts |
| HandEval.StraightTieBreak | src/game.js:1140-1147 | a straight's tie-break is the single value of its highest run among the distinct ranks (5 to 14). An ace-to-five wheel without a six or a ten is worth 5 |
| HandEval.HasFlushDraw | src/game.js:1276-1282 | true exactly when some suit has exactly four cards |
| HandEval.HasStraightDraw | src/game.js:1284-1303 | true exactly when four consecutive ranks h-3..h are present for some h in 4..14, the ace counting as 1 too |
| Engine.Commit | src/game.js:455-465 | moves exactly c = min(amount, chips) from the stack to the player's bet and the pot. Nothing moves when amount <= 0 or chips <= 0. allIn is set exactly when the stack reaches 0, and no other field changes |
| Engine.CanAct | src/game.js:165-167 | a player who can act is still in the hand |
| Engine.SumChipsUpdate | src/game.js:455-465 | replacing one seat changes the total of the stacks by that seat's difference |
| Engine.RaiseTarget | src/game.js:724-743 | an accepted total is above both the player's bet and the table bet, within the player's all-in total, and either at least the minimum total or all in. It is the request (or the minimum total when there is none) clamped between the player's bet and the all-in total |
| Engine.RaiseAcceptedIff | src/game.js:724-743 | a raise is refused exactly when the player cannot go above the table bet, or the clamped total is below the minimum total without being all in; the other two checks never fire |
| Engine.Reopen | src/game.js:785-791 | after a full raise every other player who can act has acted reset to false, and nobody else changes |
| Engine.Act | src/game.js:684-791 | an accepted action is by a player who can act, who then counts as having acted. It never shrinks the pot or lowers the table bet, and it changes no other player except for the acted flag. Its partners are ActRejectsIff, ActConservesChips, FoldAndCheckMoveNoChips, FullCallMatches, ShortCallGoesAllIn, RaiseOutcome and ActKeepsWellFormed |
| Engine.ActRejectsIff | src/game.js:684-746 | the betting step refuses exactly when the player cannot act, or the action is a raise whose total is refused; the `paid <= 0` refusal never fires |
| Engine.ActConservesChips | src/game.js:696-780 | every accepted action leaves the pot plus all stacks unchanged |
| Engine.FoldAndCheckMoveNoChips | src/game.js:696-709 | a fold sets folded and acted and changes nothing else; a check with nothing to call only sets acted |
| Engine.FullCallMatches | src/game.js:710-720 | a call the stack covers pays exactly the amount to call. The player's bet becomes the table bet and the stack drops by that amount; the player is all in exactly when the stack reaches 0. The pot grows by the call and nothing else changes |
| Engine.ShortCallGoesAllIn | src/game.js:710-720 | a call the stack cannot cover is accepted and pays the whole stack into the pot. The player ends all in with no chips, and the table bet is unchanged |
| Engine.RaiseOutcome | src/game.js:745-791 | after an accepted raise the table bet is the raiser's new bet, which is RaiseTarget's accepted total and strictly above the old table bet, so the "Call" branch at line 763 is dead. The pot grows by what was paid and the raiser has acted. An opening bet sets the minimum raise to max(big blind, raise size) and a full raise sets it to the raise size, both reopening everyone else who can act. A short all-in raise changes neither |
| Engine.RaiseSteps | src/game.js:745-791 | the accepted raise to a target, written as the sequence of updates the table performs |
| Engine.ActKeepsWellFormed | src/game.js:684-791 | every accepted action keeps stacks non-negative, every bet between 0 and the table bet, and the minimum raise positive |
| Engine.Eligible | src/game.js:833-834 | the players the round still waits on are exactly those not folded who can act |
| Engine.BettingRoundComplete | src/game.js:832-839 | the street is over exactly when every player who can act has acted and matched the table bet (trivially so when nobody can act) |
| Engine.ReopenedRoundIsOpen | src/game.js:785-791 | after a full raise the street cannot be over while another player can act |
| Engine.StreetReset | src/game.js:467-478 | every bet is cleared, and exactly the folded and all-in players count as having acted |
| Engine.StreetResetFacts | src/game.js:467-478 | resetting bets moves no chips, and the new street is over at once exactly when nobody can act |
| Engine.SeatIsMod | src/game.js:149 | the seat reached i steps after `from` is `(from + i + n) % n`, also for from = -1 |
| Engine.NextSeat | src/game.js:146-155 | nextIndex returns -1 or a seat that qualifies; NextSeatIsFirstInTurn pins which one |
| Engine.ScanFromFinds | src/game.js:148-154 | the scan from step i finds nothing exactly when no seat at steps i..n qualifies, and otherwise returns the first seat that does |
| Engine.NextSeatIsFirstInTurn | src/game.js:146-155 | nextIndex returns -1 exactly when no seat qualifies; otherwise a qualifying seat, with no qualifying seat before it in the order from+1, from+2, ..., from |
| Engine.NoSeatIff | src/game.js:146-155 | nextIndex returns -1 exactly when no seat qualifies |
| Engine.FoundSeatIsFirst | src/game.js:146-155 | a found seat qualifies, and no qualifying seat comes before it in turn order |
| Engine.NextSeatLeavesFrom | src/game.js:146-155 | when a seat other than `from` qualifies, nextIndex never returns `from` itself |
| Engine.ScanSameWants | src/game.js:146-155 | the scan depends only on which seats satisfy the predicate |
| Engine.SameStacksSameSeat | src/game.js:532-533 | seats with the same stacks give the same next seat with chips, so dealing cards does not move the blinds |
| Engine.BotRaiseTargetBounds | src/game.js:664-682 | when the bot can go above the table bet, its target is at least the minimum total. It exceeds the all-in total only when the minimum does, so the correction at line 677 never fires |
| Engine.BotRaiseTarget | src/game.js:664-682 | a bot that cannot go above the table bet targets the table bet; otherwise the target is at least the minimum total |
| Engine.BotRaiseAccepted | src/game.js:664-682 | the betting step always accepts a bot's raise target, clamped to its all-in total |
| Engine.CountAlive | src/game.js:157-159 | counts seats with chips: positive exactly when some seat has chips, and at most the number of seats |
| Engine.TwoAlive | src/game.js:532-533 | with at least two seats holding chips, every seat has another seat with chips |
| Engine.ForNewHand | src/game.js:507-516 | at a new hand every seat keeps its chips and nothing else. A seat without chips is folded and counts as having acted |
| Engine.Rebought | src/game.js:499-503 | the re-buy keeps the number of seats and leaves some seat with chips |
| Engine.DealHole | src/game.js:524-530 | two rounds of hole cards keep the seats and take at most two cards per seat. They change only hands, and each unfolded seat gets exactly two more cards |
| Engine.DealtSeats | src/game.js:505-530 | after clearing and dealing, a seat with chips holds two cards and a seat without none. Stacks stay and no seat has a bet |
| Engine.DealRound | src/game.js:525-529 | one round of hole cards keeps the number of seats and takes at most one card per seat from the deck |
| Engine.DealRoundShape | src/game.js:524-530 | a round of hole cards changes only hands. Each of the first k seats that is not folded gets exactly one more card, and the deck only loses cards from its end |
| Engine.DealRoundKeepsCards | src/game.js:524-530 | dealing neither loses nor duplicates a card: the deck plus the hands is the same multiset before and after |
| Engine.AllHandsUpdate | src/game.js:524-530 | replacing one seat swaps exactly that seat's hand in the multiset of hole cards |
| Engine.DealOneKeepsCards | src/game.js:527 | popping one card into a hand neither loses nor duplicates a card |
| Engine.PoppedKeepsCards | src/game.js:142-144 | k pops from the end of the deck and the rest of the deck make up the whole deck, as a multiset |
| Engine.MaxBet | src/game.js:556 | the opening table bet is at least every player's bet and equal to some player's bet |
| Engine.PostBlindsOn | src/game.js:447-465 | the small blind commits 10 and then the big blind 20 on the players as the small blind left them. With different seats each blind's player is its Commit and nobody else changes. The stacks plus what was posted are the old stacks |
| Engine.ActedUnlessAble | src/game.js:559-561 | exactly the players who cannot act count as having acted, and nothing else changes |
| Engine.Open | src/game.js:505-561 | the opening puts the button and both blinds on seats with chips, and the two blinds on different seats whenever two seats have chips |
| Engine.StartOpening | src/game.js:480-561 | from the top of startHand, the button and blinds of the opening are seats |
| Engine.BlindsOn | src/game.js:532-561 | on dealt players the blinds are seats and the button stays where it is |
| Engine.OpenOnDealt | src/game.js:505-535 | the blinds found on the dealt players are the ones found before dealing, so the source's order of steps gives Open's opening |
| Engine.OpenShape | src/game.js:505-561 | seat by seat: the button is the next seat with chips after the old one, and the small and big blinds the next two after it. Every stack plus its bet is the old stack, and a seat with chips holds two cards while one without sits out folded. The blinds post min(10, stack) and min(20, stack) and nobody else has a bet. The pot holds exactly the blinds and the table bet is the largest bet. Exactly those who cannot act have acted, and only a blind that paid its last chip is all in |
| Engine.OpenKeeps | src/game.js:505-561 | the opening conserves the chips and leaves the betting state well formed. Every card of the shuffled deck is in a hand or still in the deck |
| Engine.OpenAt | src/game.js:524-561 | the opening on given seats keeps the seat count and records the button and blinds |
| Engine.OpenKeepsCards | src/game.js:524-530 | dealing the opening loses and duplicates no card |
| Engine.OpenKeepsChips | src/game.js:537-561 | the blinds of the opening conserve the chips and leave the betting state well formed |
| Engine.BlindsKeepChips | src/game.js:537-561 | on freshly dealt players the blinds and the acted pass conserve the chips. No stack goes negative and no bet exceeds the largest |
| Settlement.ContendersFrom | src/game.js:161-163 | the contenders are exactly the seats not folded that hold chips or are all in, in seat order |
| Settlement.Contenders | src/game.js:161-163 | playersInHand: exactly the seats not folded that hold chips or are all in, in increasing seat order |
| Settlement.SingleWin | src/game.js:841-850 | a single winner exists exactly when one player is in the hand. That player, the first contender, gets the whole pot on its stack, and every other seat is unchanged |
| Settlement.BestUpToIsBest | src/game.js:1002-1007 | the evaluation the loop keeps is at least as good as every evaluation |
| Settlement.WinnersAreTheBest | src/game.js:1009-1011 | over every prefix, a contender is a winner exactly when its evaluation is at least as good as every contender's |
| Settlement.WinnersAreMaximal | src/game.js:1009-1011 | the winners are exactly the contenders whose hand is at least as good as every contender's, so ties all win and nobody below the best does |
| Settlement.Winners | src/game.js:1009-1011 | the winners are a non-empty, increasing list of contenders |
| Settlement.PayoutAddsUp | src/game.js:1016-1023 | the payout loop hands out `each` per winner plus one chip to each of the first `rem` winners |
| Settlement.PayoutBySeat | src/game.js:1016-1023 | a winner's player changes only in chips, by `each` or `each + 1`; every other player is unchanged |
| Settlement.PayoutShares | src/game.js:1016-1023 | the j-th winner in seat order gets `each` plus one chip exactly when j < rem; non-winners are unchanged |
| Settlement.Share | src/game.js:1013-1023 | exactly the pot is distributed. Each of the k winners gets floor(pot/k) or one chip more, and no other seat changes |
| Settlement.SplitPot | src/game.js:996-1023 | after recording the evaluations and paying the winners, the pot is emptied into the stacks with the total unchanged. Only stacks and recorded evaluations change, and only the winners' stacks grow, each by floor(pot/k) or one chip more |
| Settlement.SplitPotRecords | src/game.js:996-1023 | after the split each contender's seat holds its own evaluation, and every seat outside the hand is unchanged |
| Settlement.ShowdownPayout | src/game.js:996-1023 | the payout puts the pot into the stacks, none shrinks, and only stacks and recorded evaluations change |
| Settlement.ShowdownPays | src/game.js:996-1023 | exactly the winners (the contenders whose hand, with the board, is at least as good as every other's) gain, each floor(pot/k) or one chip more. Every other stack is unchanged, each contender's evaluation is recorded, and seats outside the hand are untouched |
| Settlement.Record | src/game.js:996-1000 | recording the evaluations changes only the showdown field of each seat |
| Settlement.RecordStores | src/game.js:996-1000 | each contender's seat holds its own evaluation, and every seat outside the contenders is unchanged |
| Table.SingleWinKeeps | src/game.js:841-856 | the uncontested win keeps stacks non-negative and bets bounded, conserves the chips and keeps the hole cards |
| Table.StreetResetKeeps | src/game.js:467-478 | clearing the street's bets keeps the table well formed, conserves the chips and keeps the hole cards |
| Table.BoardDealKeepsCards | src/game.js:858-921 | dealing k cards from the end of the deck onto the board loses and duplicates no card |
| Table.BotAction | src/game.js:631-662 | the bot folds exactly when it chose to fold while facing a bet. It raises exactly when it chose to raise and its stack exceeds the amount to call plus the big blind, and then to botRaiseTarget's total; otherwise it checks or calls |
| Table.BotActionAccepted | src/game.js:631-682 | Act never refuses the bot's move when the bot can act |
| Table.Table.constructor | src/game.js:22-45 | the initial table: four fresh 1,500-chip players, an empty pot, no button, no hand running, stage idle and hand number 0 |
| Table.Table.NextIndex | src/game.js:146-155 | the loop returns NextSeat, the first qualifying seat in turn order or -1 |
| Table.Table.DrawCard | src/game.js:142-144 | returns the last card of the deck and removes it |
| Table.Table.CommitChips | src/game.js:455-465 | the seat's player and the returned amount are Commit's; the pot grows by that amount; no other seat changes |
| Table.Table.PostBlind | src/game.js:447-453 | a blind is a commitment of the blind amount, paid into the pot |
| Table.Table.ResetStreetBets | src/game.js:467-478 | the players become StreetReset of the old players, the table bet 0 and the minimum raise the big blind; the table stays well formed and the chips are conserved |
| Table.Table.ResetTable | src/game.js:97-114 | every seat gets a fresh 1,500-chip player and the button and blind seats are cleared |
| Table.Table.TakeAction | src/game.js:684-783 | returns true exactly when Act accepts, and the new betting state is Act's result. A refused action changes nothing |
| Table.Table.TakeRaise | src/game.js:722-780 | a raise returns true exactly when Act accepts it and leaves Act's betting state; a refused raise changes nothing |
| Table.Table.RaiseTo | src/game.js:745-791 | the accepted raise leaves exactly Act's betting state. The player pays up to the target, the table bet becomes the target, the minimum raise is updated, and the others are reopened after a full raise |
| Table.Table.ReopenBetting | src/game.js:785-791 | the players become Reopen of the old players |
| Table.Table.CheckSinglePlayerWin | src/game.js:841-856 | returns true exactly when one player is in the hand. That player then takes the pot, the pot is emptied and the hand is over; otherwise nothing changes |
| Table.Table.Showdown | src/game.js:986-1042 | the hand ends with the chips conserved and the table valid. With contenders the pot is emptied and the players become ShowdownPayout's result: only the best hands' stacks grow, by floor(pot/k) or one chip more (ShowdownPays). With no contenders, stacks and pot are unchanged |
| Table.Table.PayPot | src/game.js:996-1023 | the players become ShowdownPayout's result: evaluations recorded and the pot split among the best hands. The table stays valid and the chips grow by the pot |
| Table.Table.PayContenders | src/game.js:996-1023 | the players become SplitPot's result for the contenders' evaluations of hole cards plus board |
| Table.Table.EvaluateContenders | src/game.js:996-1000 | each contender's hole cards with the board are evaluated, in contender order |
| Table.Table.RecordShowdown | src/game.js:996-1000 | the players become Record's result; by RecordStores each contender's seat holds its own evaluation and every other seat is unchanged |
| Table.Table.BestIndex | src/game.js:1002-1007 | the loop keeps the first best evaluation, which is at least as good as every evaluation |
| Table.Table.WinnerSeats | src/game.js:1009-1011 | the filter returns the contenders whose evaluation ties the best |
| Table.Table.ChooseWinners | src/game.js:1002-1011 | the best-hand loop followed by the filter returns Winners, the contenders tied with the best |
| Table.Table.PayWinners | src/game.js:1013-1023 | the payout loop leaves exactly Share's result: floor(pot/k) to each winner and one more chip to each of the first pot mod k |
| Table.Table.DealStreet | src/game.js:858-921 | preflop deals three cards, the flop and turn one each, popped from the end of the deck onto the board. The stage advances and the table stays valid |
| Table.Table.ConcludeBettingRound | src/game.js:858-931 | a finished hand is left unchanged. Otherwise the hand ends or moves to a later street, with chips conserved and the table valid. Before the river, when more than one player is in the hand and someone can act, the next street's 3, 1 or 1 cards are popped from the end of the deck onto the board, the bets are cleared, the table bet is 0, the minimum raise the big blind, and the turn goes to the first player after the dealer who can act; nothing else changes. Before the river with one player left in the hand, that player takes the pot and the hand ends. When nobody can act and someone is in the hand, the hand ends. After the river the hand ends, and with contenders the pot is paid out as ShowdownPayout says |
| Table.Table.AdvanceStreet | src/game.js:858-921 | the street half of the conclusion, with ConcludeBettingRound's next-street clause: it always moves to a later street or ends the hand. With one player left in the hand after the bets are cleared, that player takes the pot and the hand ends. When nobody can act and someone is in the hand, the hand ends |
| Table.Table.SetupNextStreet | src/game.js:933-952 | the bets are cleared, the table bet becomes 0 and the minimum raise the big blind. With one player left in the hand, that player takes the pot and the hand ends. With more than one and someone able to act, the first such player after the dealer gets the turn and nothing else changes. When nobody can act and someone is in the hand, the hand ends. Chips are conserved and the table stays valid |
| Table.Table.SettleOrOpen | src/game.js:937-951 | on a street whose bets are cleared: with one player in the hand, that player takes the pot and the hand ends; with more and someone able to act, the first such player after the dealer gets the turn and nothing else changes; when nobody can act and someone is in the hand, the hand ends |
| Table.StreetResetRunOut | src/game.js:467-478 | clearing the street's bets keeps a run-out a run-out: still nobody can act and someone is still in the hand |
| Table.Table.OpenBetting | src/game.js:563-579 | when some player after `from` can act, the first of them in turn order gets the turn and nothing else at the table changes. Otherwise the hand ends or moves to a later street, and when someone is in the hand it ends. Chips are conserved and the table stays valid |
| Table.Table.BeginTurn | src/game.js:582-614 | a player who can act gets the turn and nothing else at the table changes. Otherwise the turn goes to the next player after `index` who can act, with nothing else changed, and when there is none the round concludes; when nobody can act and someone is in the hand, the hand ends. Chips are conserved |
| Table.Table.ApplyAction | src/game.js:684-830 | returns true exactly when the hand is running and Act accepts the action. A refused action changes nothing. After an accepted one, with `after` Act's result: if one player is left in the hand, that player has the pot and the hand is over; if the round is complete or nobody after the actor can act, the round is concluded, so the hand is over or a later street has begun; otherwise the stacks, bets, pot, table bet and minimum raise are `after`'s, the turn goes to the next player after the actor who can act, and nothing else at the table changes. Chips are conserved, the table stays valid and the hand never goes back a street |
| Table.Table.MoveOn | src/game.js:803-829 | with one player left in the hand, that player takes the pot and the hand ends; if the round is complete or nobody after the actor can act, the hand ends or a later street begins; otherwise the turn goes to the first player after the actor who can act and nothing else at the table changes |
| Table.Table.BotAct | src/game.js:631-662 | a bot acts exactly when the hand is running and it can act. It then plays BotAction's move, which Act always accepts, with ApplyAction's effect on all three outcomes: the uncontested win, the concluded round, or the betting state Act's result with the turn passed on. Otherwise nothing changes |
| Table.Table.BotTurn | src/game.js:608-613 | the delayed bot move acts only if its hand is still the running hand and the bot can act, and then has BotAct's effect (BotAction's move, with each of its three outcomes); a stale one changes nothing |
| Table.Table.StartHand | src/game.js:480-580 | a new hand number and a valid table, holding StartOpening's opening. That means the re-buy, the button, seats, hole cards, blinds, pot and table bet, with the minimum raise the big blind. Preflop, an empty board and the hand running, the turn with the first player after the big blind who can act. When nobody can act the hand is over. The chips are the old stacks, or fresh stacks after a re-buy |
| Table.Table.SetUpHand | src/game.js:480-561 | the table holds StartOpening's opening, with a new hand number, the hand running, preflop and an empty board, and at least one player in the hand |
| Table.Table.OpenFirstTurn | src/game.js:562-579 | the first player after the big blind who can act gets the turn and nothing else changes; when nobody can and someone is in the hand, the hand ends |
| Table.OpeningHasContender | src/game.js:499-516 | every opening has a player in the hand: the re-buy leaves a seat with chips, and that seat is dealt in and not folded |
| Table.Table.ResetHand | src/game.js:480-495 | the new hand number, the hand running, an empty board, preflop and no turn yet; the opening, chips and minimum raise are untouched |
| Table.Table.RebuyAndDeal | src/game.js:492-561 | the table holds StartOpening's opening of the old players and button. The betting state is well formed, the button and blinds are seats, the chips are the stacks or fresh stacks, and the deck plus the hands is the full deck |
| Table.Table.Rebuy | src/game.js:499-503 | the players become Rebought's result. With at most one seat holding chips every seat gets a fresh stack and the button is cleared; otherwise nothing changes. Afterwards some seat has chips and the total is the old one or four fresh stacks |
| Table.Table.DealHand | src/game.js:505-561 | the table holds Open's opening of the players and button as the re-buy left them. That covers the button, the cleared and dealt seats, the blinds, the pot, the table bet, and the minimum raise at the big blind |
| Table.Table.BlindsAndBets | src/game.js:532-561 | on seats just dealt, the table holds BlindsOn's opening. The small blind is the next seat with chips after the button and the big blind the next after that. Their commitments are the only bets, the pot holds exactly them, the table bet is the largest bet and the minimum raise the big blind |
| Table.Table.SeatAndDeal | src/game.js:505-530 | the button moves to the next seat with chips and every seat is cleared for the new hand. Seats with chips get two hole cards and seats without none, and no card is lost or duplicated |
| Table.Table.OpenHand | src/game.js:537-561 | the blind seats are recorded. The players are the blinds' commitments with acted set exactly for those who cannot act, the pot grows by what the blinds paid, the table bet is MaxBet of the bets and the minimum raise the big blind |
| Table.Table.ResetSeats | src/game.js:507-516 | the players become ForNewHand of the old players |
| Table.Table.DealHoleCards | src/game.js:524-530 | two rounds give each unfolded seat two cards and change nothing else. The deck plus the hands is unchanged as a multiset |
| Table.Table.DealHoleRound | src/game.js:525-529 | the loop produces DealRound: each unfolded seat, in seat order, gets the card popped from the deck |
| Table.Table.BlindSeats | src/game.js:532-535 | the small blind is the next seat with chips after the button and the big blind the next after that. They differ when two seats have chips |
| Table.Table.PostBlinds | src/game.js:537-538 | each blind posts its blind or what it has, and the chips are conserved |
| Table.Table.MarkActed | src/game.js:559-561 | exactly the players who cannot act are marked as having acted |

## Left out

- Presentation: `src/poker3d.js`, `src/poker3d3.js`, and the DOM, status, sound and 3D calls in `src/game.js`. This includes `render`, `setStatus`, `setPeek`, `cue3D`, the chip throws and `finalizeHand`, which only updates the display. `name`, `lastAction`, `actionTone`, `dealtHoleCounts` and `communityVisible` exist only for display and are not fields of the model.
- Timers and awaits are made synchronous. The animations in `concludeBettingRound` and `startHand`, and the `setTimeout` continuations of `beginTurn` and `applyAction`, run at once. The flags `roundTransitioning`, `animatingDeal`, `autoRunoutInProgress`, `waitingForHuman` and `actionLock` are therefore always false and are not modelled. Only `handId`, which a stale continuation compares against, is kept (BotTurn).
- Table.Table.ConcludeBettingRound: the re-check of `handId` and `handOver` after each board animation always passes in a synchronous model, so it is not modelled.
- `autoRunout` is not a separate loop. When nobody can act, OpenBetting concludes the round at once. This deals the same streets, in the same order, up to the showdown that the source's loop reaches.
- `shuffle` uses `Math.random`. StartHand takes the shuffled deck as an input, which may be any permutation of the full deck.
- `estimateStrength` and the random thresholds of `botAct` are float heuristics. Their outcome is the input `BotChoice`: fold, check or call, or raise with an integer pot-fraction term `sizing` standing for `Math.round(pot * (0.3 + strength) / bigBlind) * bigBlind`.
- Which seat is human (`isHuman`) is not modelled. `beginTurn` uses it to choose between waiting for the human and scheduling `botAct`. In the model, ApplyAction stands for the human's move and BotTurn for a bot's, and both accept a move for any seat.
- `humanAction` acts only for the player whose turn it is (`activePlayerIndex`), only when that seat is human, and only when no UI flag blocks it. None of these checks is modelled; the human's move is ApplyAction itself. An unknown action string cannot be expressed, because `Action` has only the three moves.
- A raise request that is not a finite number is `None` and uses the minimum total. A fractional request, which the source floors, is not modelled: requests are integers.
- Table.Table.StartHand: `startHand` resets the hand number, board, stage and turn, and sets `currentBet` and `minRaise`, before the re-buy, then sets the last two again after the blinds. The model does the re-buy and the deal first (RebuyAndDeal), then the per-hand reset (ResetHand), and sets `currentBet` and `minRaise` once, after the blinds. The two groups of fields are disjoint, so the end state is the same.
- Table.Table.StartHand: the pot of an unfinished hand, which `startHand` sets to 0, is dropped. Its chips therefore claim conservation only from the stacks, not across an abandoned hand.
- Table.Table.DrawCard: requires a non-empty deck. The source's `pop` would yield `undefined` on an empty deck, which the 52-card deck never reaches (Valid keeps at least the five board cards available).
- `state.smallBlind` and `state.bigBlind` are the constants SMALL_BLIND and BIG_BLIND, since nothing in the source changes them.
- HandEval.EvaluateSevenCategory: is stated for pools of at most nine cards. With ten or more cards two suits could both hold five, and the flush loop's choice could then hide a straight flush in the other suit. The source only evaluates seven cards.
- HandEval.EvaluateSeven: its own contract states only the category bounds. The tie-break values are modelled as the source computes them. Beyond the comparison lemmas, only the straight's tie-break is given in closed form (StraightTieBreak, WheelIsFiveHigh); the other categories' value lists are not.
- Table.Table.ConcludeBettingRound, AdvanceStreet, SetupNextStreet, SettleOrOpen, OpenBetting, BeginTurn, OpenFirstTurn and StartHand: when nobody can act, the source's `autoRunout` deals the rest of the board and pays the pot through `showdown`. These contracts state only that the hand is over, not which cards the run-out deals or how the pot is paid. The payout of a showdown is stated by Showdown. The payout of a showdown is stated by Showdown.
- Table.Table.SetupNextStreet: when nobody at all is left in the hand, the source's `checkSinglePlayerWin` does nothing and the hand stalls. The model does the same, but the contract (and SettleOrOpen's, AdvanceStreet's and ConcludeBettingRound's) states it only through chip conservation and Valid, and the run-out clauses assume some player is in the hand. Play never reaches this case: a stack that reaches 0 is all in, and the last player who has not folded wins at once.
- Card conservation through the streets is proved for each deal separately (DealStreet and BoardDealKeepsCards), not as an invariant of `Valid()`.
