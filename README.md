# PrefHub game engine in Dafny

A verified model of the engine of PrefHub, a server for three-player
Preferans. It models:

- the card and contract model: suits, ranks, the 27 contracts and their
  `isHigherThan` order, the deck, tricks, players and the game state;
- the rule variants and the rules validator (`validateBid`,
  `getAvailableBids`, `validateWhist`, `canExitMizer`);
- the game service. It runs the phase machine: players join, the cards are
  dealt, the auction is held, the declarer exchanges the widow, ten tricks
  are played, the round is scored and the next round begins. It also
  builds each player's view of a game;
- the account and session service, and the password hash it stores;
- the scenario runner's card parser and custom deal;
- the web client's card helpers: symbols, colours, labels and hand sorting.

The Java classes whose fields change in place are Dafny classes:
`Player`, `Trick`, `GameState`, `Deck`, `GameService` and `AuthService`.
Their methods state the whole new state, usually as
`Snapshot() == <transition>(old(Snapshot()))`, with a named function for
each transition. `GameState.Valid()` is the invariant every service
operation keeps:

- at most three distinct seats, all filled before play starts;
- the turn index is in range;
- every seat has a tally, and the tallies add up to the number of
  completed tricks;
- bids come only from seated players;
- a declarer and a non-pass contract exist from the widow exchange on;
- a round in play has an open trick and fewer than ten completed tricks,
  and a complete round has exactly ten.

Enums, records and the rules are datatypes, and the pure logic is
functions with lemmas. Each Java exception is an error value
(`Result`/`Outcome`), and the contracts say which check raises it, in the
source's order.

Some things the model makes explicit:

- Java's `HashMap` iteration order is left open. Loops over maps choose
  any remaining key and return the order they took as a ghost value.
- `Trick.getWinner` compares each card with the suit of the running
  winner, not with the lead suit. So the winner depends on that order:
  `OffSuitCanWinWhenVisitedFirst` shows an off-suit seven winning.
  `LeadSuitRule` shows the lead-suit rule holds when the lead is visited
  first.
- `String.hashCode` is modelled exactly (`HashCode`), including 32-bit wrap-around.
  Two different passwords can therefore verify against the same account
  (`DistinctPasswordsCollide`).
- An auction in which everybody passes goes through `nextRound`, so the
  round number grows by one.
- `joinGame` does not reject a username that is already seated. Facts
  about per-name maps (view counters, scoring sums) are therefore stated
  for games whose seats have distinct names (`DistinctNames`).

## Model

| member | source | states |
|---|---|---|
| Cards.SuitOrdinal | prefhub-core/src/main/java/com/prefhub/core/model/Suit.java:3-7 | Suit.values() lists every suit, at its ordinal |
| Cards.RankOrdinal | prefhub-core/src/main/java/com/prefhub/core/model/Rank.java:3-11 | Rank.values() lists every rank, at its ordinal |
| Cards.Value | prefhub-core/src/main/java/com/prefhub/core/model/Rank.java:27-29 | getValue is 7 plus the declaration position, so 7..14 |
| Cards.RankValuesInDeclarationOrder | prefhub-core/src/main/java/com/prefhub/core/model/Rank.java:4-11 | the values run 7, 8, ..., 14 in declaration order |
| Cards.ValueMonotone | prefhub-core/src/main/java/com/prefhub/core/model/Rank.java:4-11 | a later rank has a strictly larger value, so getValue is injective |
| Cards.Symbol | prefhub-core/src/main/java/com/prefhub/core/model/Rank.java:4-11 | a rank symbol has one character, two for TEN |
| Cards.RussianName | prefhub-core/src/main/java/com/prefhub/core/model/Rank.java:17-19 | getRussianName: non-empty, the symbol for SEVEN to TEN |
| Cards.CardText | prefhub-core/src/main/java/com/prefhub/core/model/Card.java:5-7 | Card.toString: the rank symbol followed by the one-character suit symbol |
| Cards.SuitSymbol | prefhub-core/src/main/java/com/prefhub/core/model/Suit.java:17-19 | getSymbol: one character per suit |
| Cards.RankName | prefhub-core/src/main/java/com/prefhub/core/model/Rank.java:4-11 | name() of a rank: upper-case letters only, so it holds no underscore |
| Cards.SuitName | prefhub-core/src/main/java/com/prefhub/core/model/Suit.java:4-7 | name() of a suit: upper-case letters only, so it holds no underscore |
| Cards.ShortRanksNamedBySymbol | prefhub-core/src/main/java/com/prefhub/core/model/Rank.java:17-19 | the ranks built by the two-argument constructor have their symbol as Russian name |
| Cards.SymbolsDistinct | prefhub-core/src/main/java/com/prefhub/core/model/Rank.java:4-11 | no two ranks share a symbol, and no two suits do |
| Contracts.TrumpPriority | prefhub-core/src/main/java/com/prefhub/core/model/Contract.java:5-9 | within a level the trump choices are ranked 0..4: spades, clubs, diamonds, hearts, no trump |
| Contracts.Ordinal | prefhub-core/src/main/java/com/prefhub/core/model/Contract.java:5-39 | ordinal() is a position in values() |
| Contracts.ListedAtOrdinal | prefhub-core/src/main/java/com/prefhub/core/model/Contract.java:5-39 | values() holds every contract at its ordinal |
| Contracts.SortOrder | prefhub-core/src/main/java/com/prefhub/core/model/Contract.java:53-55 | getSortOrder: values() holds each contract at its sort order |
| Contracts.Tricks | prefhub-core/src/main/java/com/prefhub/core/model/Contract.java:57-59 | getTricks: 6..10 exactly for the game contracts, 0 exactly for MISER, negative exactly for PASS |
| Contracts.TrumpSuit | prefhub-core/src/main/java/com/prefhub/core/model/Contract.java:61-63 | getTrumpSuit: a suit exactly for a game contract with a trump, and then that trump |
| Contracts.IsMiser | prefhub-core/src/main/java/com/prefhub/core/model/Contract.java:69-71 | isMiser: exactly the contract of zero tricks, and it has no trump |
| Contracts.IsPass | prefhub-core/src/main/java/com/prefhub/core/model/Contract.java:73-75 | isPass: exactly the contract of negative tricks, the last of values() |
| Contracts.DisplayName | prefhub-core/src/main/java/com/prefhub/core/model/Contract.java:77-79 | getDisplayName: two to five characters long |
| Contracts.DisplayNameInjective | prefhub-core/src/main/java/com/prefhub/core/model/Contract.java:5-39 | no two contracts share a display name |
| Contracts.IsHigherThan | prefhub-core/src/main/java/com/prefhub/core/model/Contract.java:81-103 | isHigherThan: PASS is never higher or beaten, and no contract beats itself |
| Contracts.HigherIffKeyGreater | prefhub-core/src/main/java/com/prefhub/core/model/Contract.java:81-103 | apart from PASS, isHigherThan is the strict order of one numeric key, with MISER between the 7 and 8 levels |
| Contracts.PassIncomparable | prefhub-core/src/main/java/com/prefhub/core/model/Contract.java:82-84 | PASS is neither higher nor lower than any contract |
| Contracts.Irreflexive | prefhub-core/src/main/java/com/prefhub/core/model/Contract.java:85-87 | no contract is higher than itself |
| Contracts.MiserBetweenSevenAndEight | prefhub-core/src/main/java/com/prefhub/core/model/Contract.java:89-95 | MISER beats exactly the game contracts of at most 7 tricks and loses to those of 8 or more |
| Contracts.MoreTricksHigher | prefhub-core/src/main/java/com/prefhub/core/model/Contract.java:97-99 | between games of different levels, the higher level is higher |
| Contracts.SameLevelByTrumpPriority | prefhub-core/src/main/java/com/prefhub/core/model/Contract.java:101-102 | at one level, the trump order spades < clubs < diamonds < hearts < no trump decides |
| Contracts.Asymmetric | prefhub-core/src/main/java/com/prefhub/core/model/Contract.java:81-103 | isHigherThan never holds in both directions |
| Contracts.Transitive | prefhub-core/src/main/java/com/prefhub/core/model/Contract.java:81-103 | isHigherThan is transitive |
| Contracts.Connected | prefhub-core/src/main/java/com/prefhub/core/model/Contract.java:81-103 | any two distinct contracts other than PASS are comparable |
| Contracts.IsNoTrump | prefhub-core/src/main/java/com/prefhub/core/model/Contract.java:65-67 | isNoTrump: exactly the game contracts without a trump suit |
| Contracts.NoTrumpExactly | prefhub-core/src/main/java/com/prefhub/core/model/Contract.java:65-67 | isNoTrump holds for exactly the five no-trump contracts, never for MISER or PASS |
| Decks.FullDeck | prefhub-core/src/main/java/com/prefhub/core/model/Deck.java:11-18 | a fresh deck has 32 cards |
| Decks.InDeckOrderIsFullDeck | prefhub-core/src/main/java/com/prefhub/core/model/Deck.java:11-18 | the order the constructor builds, suit by suit, is the full deck |
| Decks.FullDeckIsEveryCardOnce | prefhub-core/src/main/java/com/prefhub/core/model/Deck.java:11-18 | a fresh deck holds every suit and rank pair exactly once |
| Decks.PositionInFullDeck | prefhub-core/src/main/java/com/prefhub/core/model/Deck.java:11-18 | each position of the fresh deck holds the card that belongs there |
| Decks.NextInDeckOrder | prefhub-core/src/main/java/com/prefhub/core/model/Deck.java:13-16 | each step of the nested loops appends the next card of the full deck |
| Decks.NextInt | prefhub-core/src/main/java/com/prefhub/core/model/Deck.java:20-22 | a drawn index is below its bound |
| Decks.ShuffleStep | prefhub-core/src/main/java/com/prefhub/core/model/Deck.java:20-22 | one step of the shuffle keeps the cards, only reordered |
| Decks.ShuffleFrom | prefhub-core/src/main/java/com/prefhub/core/model/Deck.java:20-22 | the remaining steps, from i down to 2, leave every position from i upward untouched |
| Decks.Shuffled | prefhub-core/src/main/java/com/prefhub/core/model/Deck.java:20-22 | the whole shuffle keeps the same cards, only reordered, whatever the random source yields |
| Decks.ShufflePermutes | prefhub-core/src/main/java/com/prefhub/core/model/Deck.java:20-22 | whatever the random source yields, the shuffle is a permutation of the deck |
| Decks.Deck.constructor | prefhub-core/src/main/java/com/prefhub/core/model/Deck.java:11-18 | new Deck() holds the full deck, in suit-then-rank order |
| Decks.Deck.Shuffle | prefhub-core/src/main/java/com/prefhub/core/model/Deck.java:20-22 | shuffle() leaves the Fisher-Yates shuffle of the old cards for the given draws: the same cards, reordered |
| Decks.Deck.DealCards | prefhub-core/src/main/java/com/prefhub/core/model/Deck.java:24-33 | dealCards fails and changes nothing when too few cards remain; otherwise it returns the first count cards in order and keeps the rest |
| Decks.Deck.Size | prefhub-core/src/main/java/com/prefhub/core/model/Deck.java:35-37 | every copy of a card counts; a new deck holds 32 |
| Decks.DealSplitsDeck | prefhub-core/src/main/java/com/prefhub/core/model/Deck.java:24-33 | what is dealt plus what remains is the deck before: no card is lost or copied |
| TrickTaking.Winner | prefhub-core/src/main/java/com/prefhub/core/model/Trick.java:43-80 | the getWinner fold: a winner exactly for a non-empty trick, and it is one of the entries |
| TrickTaking.TakesOver | prefhub-core/src/main/java/com/prefhub/core/model/Trick.java:61-75 | a card takes over only when it differs from the winning card and is a trump or a higher card of the winner's suit |
| TrickTaking.WinnerAppend | prefhub-core/src/main/java/com/prefhub/core/model/Trick.java:51-77 | the getWinner loop, unfolded by one more entry |
| TrickTaking.TakesOverRules | prefhub-core/src/main/java/com/prefhub/core/model/Trick.java:61-75 | a trump takes over from a non-trump; a non-trump never takes over from a trump; otherwise only a higher card of the running winner's suit does |
| TrickTaking.WinnerIsAnEntry | prefhub-core/src/main/java/com/prefhub/core/model/Trick.java:43-80 | getWinner gives null exactly for an empty trick, otherwise one of the entries |
| TrickTaking.WinnerDominates | prefhub-core/src/main/java/com/prefhub/core/model/Trick.java:43-80 | in any visiting order, the winner holds the highest trump if one was played, otherwise the highest card of the first visited card's suit |
| TrickTaking.LeadSuitRule | prefhub-core/src/main/java/com/prefhub/core/model/Trick.java:43-80 | when the lead card is visited first, the winner is the highest trump, or failing that the highest card of the lead suit |
| TrickTaking.OffSuitCanWinWhenVisitedFirst | prefhub-core/src/main/java/com/prefhub/core/model/Trick.java:43-80 | an off-suit card visited before the lead wins a trick without trumps, so the HashMap order matters |
| TrickTaking.Trick.constructor | prefhub-core/src/main/java/com/prefhub/core/model/Trick.java:15-17 | a new trick is empty, with no lead |
| TrickTaking.Trick.PlayCard | prefhub-core/src/main/java/com/prefhub/core/model/Trick.java:19-25 | the card is recorded under the player; only the first card sets the lead player and the lead suit |
| TrickTaking.Trick.IsComplete | prefhub-core/src/main/java/com/prefhub/core/model/Trick.java:39-41 | never complete for a negative count; complete for none exactly when nobody has played |
| TrickTaking.Trick.GetWinner | prefhub-core/src/main/java/com/prefhub/core/model/Trick.java:43-80 | null for an empty trick; otherwise the player of the fold's winning entry, over an order that visits every entry once |
| Players.RemoveFirst | prefhub-core/src/main/java/com/prefhub/core/model/Player.java:39-44 | List.remove drops one card when the card is held, and nothing otherwise |
| Players.FirstIndex | prefhub-core/src/main/java/com/prefhub/core/model/Player.java:39-44 | the first position holding the card |
| Players.RemoveFirstCounts | prefhub-core/src/main/java/com/prefhub/core/model/Player.java:39-44 | removing a held card takes exactly one copy of it out of the hand |
| Players.RemoveFirstAt | prefhub-core/src/main/java/com/prefhub/core/model/Player.java:39-44 | removing keeps the other cards in their order |
| Players.Player.constructor | prefhub-core/src/main/java/com/prefhub/core/model/Player.java:15-21 | a new player has the username, an empty hand and no points |
| Players.Player.AddCard | prefhub-core/src/main/java/com/prefhub/core/model/Player.java:31-33 | the card is appended to the hand |
| Players.Player.AddCards | prefhub-core/src/main/java/com/prefhub/core/model/Player.java:35-37 | the cards are appended to the hand, in order |
| Players.Player.RemoveCard | prefhub-core/src/main/java/com/prefhub/core/model/Player.java:39-44 | a card not held is refused with nothing changed; otherwise one occurrence leaves the hand and the card is returned |
| Players.Player.ClearHand | prefhub-core/src/main/java/com/prefhub/core/model/Player.java:46-48 | the hand becomes empty |
| Players.Player.SetHand | prefhub-server/src/main/java/com/prefhub/server/scenario/ScenarioRunner.java:155-157 | the hand is replaced by the given cards |
| Players.Player.SetScore | prefhub-core/src/main/java/com/prefhub/core/model/Player.java:54-56 | the score becomes the given value |
| Players.Player.AddScore | prefhub-core/src/main/java/com/prefhub/core/model/Player.java:58-60 | the points are added to the score |
| Players.Player.SetBullet | prefhub-core/src/main/java/com/prefhub/core/model/Player.java:66-68 | the bullet becomes the given value |
| Players.Player.AddBullet | prefhub-core/src/main/java/com/prefhub/core/model/Player.java:70-72 | the amount is added to the bullet |
| Players.Player.SetMountain | prefhub-core/src/main/java/com/prefhub/core/model/Player.java:78-80 | the mountain becomes the given value |
| Players.Player.AddMountain | prefhub-core/src/main/java/com/prefhub/core/model/Player.java:82-84 | the amount is added to the mountain |
| States.FindPlayerIndex | prefhub-server/src/main/java/com/prefhub/server/game/GameService.java:446-451 | the first seat with the username; none exactly when no seat has it |
| States.SumOverRemove | prefhub-core/src/main/java/com/prefhub/core/model/GameState.java:186-188 | a tally total can be taken apart at any key |
| States.SumOverAgree | prefhub-core/src/main/java/com/prefhub/core/model/GameState.java:186-188 | a tally total depends only on the counts summed |
| States.TotalIncrement | prefhub-core/src/main/java/com/prefhub/core/model/GameState.java:186-188 | one more trick for a player adds one to the total of the tallies |
| States.SumOverZeros | prefhub-core/src/main/java/com/prefhub/core/model/GameState.java:190-194 | tallies of zero total zero |
| States.TotalNewZero | prefhub-core/src/main/java/com/prefhub/core/model/GameState.java:82 | a new tally of zero leaves the total as it was, apart from an overwritten one |
| States.SeatOfAppend | prefhub-core/src/main/java/com/prefhub/core/model/GameState.java:77-83 | where a player first sits after players are appended |
| States.DistinctSeatsAppend | prefhub-core/src/main/java/com/prefhub/core/model/GameState.java:77-83 | seating a player not yet seated keeps the seats distinct |
| States.GameState.constructor | prefhub-core/src/main/java/com/prefhub/core/model/GameState.java:55-67 | a new game waits for players in round 1, with no seats, bids, tricks, declarer or contract, dealer and turn at seat 0, and the given rules or the defaults |
| States.GameState.AddPlayer | prefhub-core/src/main/java/com/prefhub/core/model/GameState.java:77-83 | refused with nothing changed when three are seated; otherwise the player is appended and given a tally of 0 |
| States.GameState.IsFull | prefhub-core/src/main/java/com/prefhub/core/model/GameState.java:85-87 | in a consistent game, full exactly when addPlayer refuses another player |
| States.GameState.NextPlayer | prefhub-core/src/main/java/com/prefhub/core/model/GameState.java:129-131 | the turn moves one seat on, modulo the number of seats, and stays in range |
| States.GameState.SetWidow | prefhub-core/src/main/java/com/prefhub/core/model/GameState.java:137-140 | the widow becomes exactly the given cards; nothing else changes |
| States.GameState.SetPhase | prefhub-core/src/main/java/com/prefhub/core/model/GameState.java:93-95 | only the phase changes |
| States.GameState.SetCurrentPlayerIndex | prefhub-core/src/main/java/com/prefhub/core/model/GameState.java:117-119 | only the turn index changes |
| States.GameState.SetDealerIndex | prefhub-core/src/main/java/com/prefhub/core/model/GameState.java:101-103 | only the dealer index changes |
| States.GameState.SetDeclarer | prefhub-core/src/main/java/com/prefhub/core/model/GameState.java:154-156 | only the declarer changes |
| States.GameState.SetContract | prefhub-core/src/main/java/com/prefhub/core/model/GameState.java:162-164 | only the contract changes |
| States.GameState.SetCurrentTrick | prefhub-core/src/main/java/com/prefhub/core/model/GameState.java:170-172 | only the open trick changes |
| States.GameState.AddCompletedTrick | prefhub-core/src/main/java/com/prefhub/core/model/GameState.java:178-180 | the trick is appended to the completed ones; nothing else changes |
| States.GameState.PlaceBid | prefhub-core/src/main/java/com/prefhub/core/model/GameState.java:146-148 | the player's bid is recorded or overwritten; a valid game stays valid for a seated player |
| States.GameState.IncrementTricksWon | prefhub-core/src/main/java/com/prefhub/core/model/GameState.java:186-188 | the player's tally grows by one, from 0 when absent; the other tallies stay |
| States.GameState.ResetTricksWon | prefhub-core/src/main/java/com/prefhub/core/model/GameState.java:190-194 | every seated player's tally becomes 0; other tallies stay |
| States.GameState.NextRound | prefhub-core/src/main/java/com/prefhub/core/model/GameState.java:208-218 | the round number grows by one, the dealer moves one seat on, and bids, declarer, contract, tricks, widow and open trick are cleared with the tallies at 0 |
| States.Reset | prefhub-core/src/main/java/com/prefhub/core/model/GameState.java:190-194 | a 0 tally under every given name; the other tallies are kept |
| States.ResetOneMore | prefhub-core/src/main/java/com/prefhub/core/model/GameState.java:190-194 | each turn of the reset loop extends the reset by one name |
| States.ResetAllIsZero | prefhub-core/src/main/java/com/prefhub/core/model/GameState.java:190-194 | on the tallies of exactly the seated names, the reset zeroes all of them |
| States.ZeroTallies | prefhub-core/src/main/java/com/prefhub/core/model/GameState.java:190-194 | a tally of 0 under each name, and nothing else |
| States.ResetTotal | prefhub-core/src/main/java/com/prefhub/core/model/GameState.java:215 | after the reset the tallies total 0 |
| States.NamesOfAppend | prefhub-core/src/main/java/com/prefhub/core/model/GameState.java:81 | seating one more player adds exactly their name |
| Rules.DefaultRules | prefhub-core/src/main/java/com/prefhub/core/model/GameRules.java:177-204 | the default rules: an opening minimum between 6 and 10, flat exit, closed whist |
| Rules.DefaultValues | prefhub-core/src/main/java/com/prefhub/core/model/GameRules.java:177-204 | the default rules: opening minimum 6, flat exit, checked ten game, closed whist, and the other defaults |
| Rules.SetterChangesOnlyItsField | prefhub-core/src/main/java/com/prefhub/core/model/GameRules.java:284-286 | setting the minimum changes that field and no other |
| Rules.GetRules | prefhub-server/src/main/java/com/prefhub/server/game/RulesLoader.java:67-74 | the loaded variant for a known id, otherwise a not-found error |
| Rules.GetDefaultRules | prefhub-server/src/main/java/com/prefhub/server/game/RulesLoader.java:94-102 | leningradka when loaded, else some loaded variant, else the defaults |
| Validation.TopBidUnique | prefhub-server/src/main/java/com/prefhub/server/game/RulesValidator.java:34-39 | the highest non-pass bid is unique, whatever order the loop visits the bids in |
| Validation.TopBidIsMaximum | prefhub-server/src/main/java/com/prefhub/server/game/RulesValidator.java:34-39 | the top bid is at least every non-pass bid |
| Validation.AboveTopIsAboveAll | prefhub-server/src/main/java/com/prefhub/server/game/RulesValidator.java:41-44 | beating the top bid is beating every non-pass bid |
| Validation.MaxBid | prefhub-server/src/main/java/com/prefhub/server/game/RulesValidator.java:34-39 | the running maximum is absent exactly when all bids pass; otherwise it is the top bid, and its holder made it |
| Validation.TopBidFrom | prefhub-server/src/main/java/com/prefhub/server/game/RulesValidator.java:34-39 | a contract found by the scan is the top bid; none found means none from that position is |
| Validation.TopBidFound | prefhub-server/src/main/java/com/prefhub/server/game/RulesValidator.java:34-39 | once a non-pass bid exists, some contract is the top bid |
| Validation.TopBid | prefhub-server/src/main/java/com/prefhub/server/game/RulesValidator.java:34-39 | the highest non-pass bid, absent exactly when all bids pass |
| Validation.BidCheck | prefhub-server/src/main/java/com/prefhub/server/game/RulesValidator.java:16-45 | PASS is always accepted; otherwise a bid is accepted exactly when it meets the minimum (MISER exempt) and beats every non-pass bid, and each refusal names its reason |
| Validation.ValidateBid | prefhub-server/src/main/java/com/prefhub/server/game/RulesValidator.java:16-45 | validateBid returns BidCheck's verdict |
| Validation.Offered | prefhub-server/src/main/java/com/prefhub/server/game/RulesValidator.java:106-123 | the filter of getAvailableBids: never PASS, and before any game bid only contracts that meet the opening minimum |
| Validation.OfferedInMembers | prefhub-server/src/main/java/com/prefhub/server/game/RulesValidator.java:106-123 | the kept contracts are exactly the offered ones of the list |
| Validation.SkippedIffNotOffered | prefhub-server/src/main/java/com/prefhub/server/game/RulesValidator.java:107-120 | the loop's three skip conditions are exactly the contracts that are not offered |
| Validation.KeepOffered | prefhub-server/src/main/java/com/prefhub/server/game/RulesValidator.java:106-123 | the loop keeps the offered contracts of the list, in order |
| Validation.GetAvailableBids | prefhub-server/src/main/java/com/prefhub/server/game/RulesValidator.java:90-126 | PASS first, then every offered contract in declaration order, and no other PASS |
| Validation.AcceptedIsOffered | prefhub-server/src/main/java/com/prefhub/server/game/RulesValidator.java:16-45 | every non-pass bid validateBid accepts is offered by getAvailableBids |
| Validation.HigherGameNeedsNoFewerTricks | prefhub-core/src/main/java/com/prefhub/core/model/Contract.java:97-102 | a game that beats another game has at least as many tricks |
| Validation.OfferedIsAccepted | prefhub-server/src/main/java/com/prefhub/server/game/RulesValidator.java:90-126 | an offered contract is accepted when the bids so far met the minimum and the minimum is at most 8 |
| Validation.OfferedButRefusedAboveEight | prefhub-server/src/main/java/com/prefhub/server/game/RulesValidator.java:113-118 | with a minimum of 9, EIGHT_SPADES is offered after MISER but refused |
| Validation.AcceptedKeepsMinimum | prefhub-server/src/main/java/com/prefhub/server/game/RulesValidator.java:24-27 | an accepted bid keeps every recorded bid meeting the minimum |
| Validation.ValidateWhist | prefhub-server/src/main/java/com/prefhub/server/game/RulesValidator.java:50-85 | refused without a contract, for declining the mandatory whist on SIX_SPADES, for a half whist the rules forbid, and for a half whist after another player's pass when that is forbidden; Ok otherwise |
| Validation.DefaultWhistRules | prefhub-server/src/main/java/com/prefhub/server/game/RulesValidator.java:50-85 | under the defaults, only a missing contract and declining the SIX_SPADES whist are refused |
| Validation.RequiredExitTricks | prefhub-server/src/main/java/com/prefhub/server/game/RulesValidator.java:141-158 | the exit table gives 6 to 8 tricks, and 6 for flat exit or after one all-pass round |
| Validation.ExitTables | prefhub-server/src/main/java/com/prefhub/server/game/RulesValidator.java:143-158 | a table never asks for fewer tricks after more all-pass rounds, and the 6-7-8 table never asks for fewer than the 6-7-7 one |
| Validation.CanExitMizer | prefhub-server/src/main/java/com/prefhub/server/game/RulesValidator.java:131-167 | the exit is allowed in every case |
| Views.AllowedActions | prefhub-server/src/main/java/com/prefhub/server/game/GameService.java:109-152 | BID and PLAY_CARD only on the player's turn in their phase, EXCHANGE_WIDOW only to the declarer, VIEW_SCORES to all once the round is complete, nothing otherwise |
| Views.OtherNamesMembers | prefhub-server/src/main/java/com/prefhub/server/game/GameService.java:198-204 | the other players are exactly the seated names other than the viewer's |
| Views.OtherPlayers | prefhub-server/src/main/java/com/prefhub/server/game/GameService.java:198-204 | the loop builds the other-players list |
| Views.CounterMapFacts | prefhub-server/src/main/java/com/prefhub/server/game/GameService.java:188-196 | every seated name has an entry, holding the counter of the last seat with that name |
| Views.CounterMaps | prefhub-server/src/main/java/com/prefhub/server/game/GameService.java:188-196 | the loop builds the scores, bullets and mountains maps |
| Views.BidNames | prefhub-server/src/main/java/com/prefhub/server/game/GameService.java:155-158 | every bid appears, under its bidder, by its display name |
| Views.CounterAtSeat | prefhub-server/src/main/java/com/prefhub/server/game/GameService.java:192-196 | with distinct names, each seat's entry is its own counter |
| Views.ViewFacts | prefhub-server/src/main/java/com/prefhub/server/game/GameService.java:95-230 | the widow is shown only to the declarer during the exchange; the view lists every other player, the viewer's own hand, whose turn it is, the top bid and, with distinct names, each seat's counters |
| Views.ViewOf | prefhub-server/src/main/java/com/prefhub/server/game/GameService.java:206-229 | getPlayerView's result belongs to the viewer: their own seat's hand, themselves not among the others, and a widow only for the declarer during the exchange |
| Views.BuildView | prefhub-server/src/main/java/com/prefhub/server/game/GameService.java:101-229 | the view is built part by part, the maps by their loops |
| Service.Hand | prefhub-server/src/main/java/com/prefhub/server/game/GameService.java:238-241 | each seat is dealt ten cards |
| Service.WidowOf | prefhub-server/src/main/java/com/prefhub/server/game/GameService.java:244 | the widow gets two cards |
| Service.DealtDeckFacts | prefhub-server/src/main/java/com/prefhub/server/game/GameService.java:234-235 | a dealt deck is a shuffled fresh deck of 32 cards |
| Service.DealIsPartition | prefhub-server/src/main/java/com/prefhub/server/game/GameService.java:237-244 | every card is dealt exactly once, to one hand or to the widow |
| Service.CountsAddUp | prefhub-server/src/main/java/com/prefhub/server/game/GameService.java:286-296 | the game bids and the passes together are all the bids |
| Service.SingleGameBid | prefhub-server/src/main/java/com/prefhub/server/game/GameService.java:295-296 | with one game bid, its holder is the only one |
| Service.NoGameBidCount | prefhub-server/src/main/java/com/prefhub/server/game/GameService.java:291-293 | no game bid exactly when the game-bid count is 0 |
| Service.IsBiddingComplete | prefhub-server/src/main/java/com/prefhub/server/game/GameService.java:280-298 | isBiddingComplete: only with three bids in, and at most one of them a game bid |
| Service.BiddingCompleteMeans | prefhub-server/src/main/java/com/prefhub/server/game/GameService.java:280-297 | fewer than three bids never complete; with three the auction is over exactly when at most one player bid a game, so the declarer is unique |
| Service.DeclarerAward | prefhub-server/src/main/java/com/prefhub/server/game/GameService.java:407-420 | on MISER 10 to the score for no trick taken, else 10 to the mountain; on a game the contract's tricks to the score if made, else to the mountain |
| Service.DefenderAward | prefhub-server/src/main/java/com/prefhub/server/game/GameService.java:422-428 | nothing on MISER; otherwise the defender's own tricks to the score |
| Service.GameScoring | prefhub-server/src/main/java/com/prefhub/server/game/GameService.java:414-420 | a made game scores exactly the contract, overtricks bring nothing, a miss costs the same on the mountain |
| Service.RemoveEach | prefhub-server/src/main/java/com/prefhub/server/game/GameService.java:350-352 | each discard takes at most one card |
| Service.RedealForgetsBids | prefhub-server/src/main/java/com/prefhub/server/game/GameService.java:315-318 | the bid that ends an all-pass auction does not matter once nextRound clears the bids |
| Service.GameBidder | prefhub-server/src/main/java/com/prefhub/server/game/GameService.java:306-313 | the one game bidder of a finished auction |
| Service.GameBidderFacts | prefhub-server/src/main/java/com/prefhub/server/game/GameService.java:306-313 | the game bidder holds the top bid and is the only one who did not pass |
| Service.Discard | prefhub-server/src/main/java/com/prefhub/server/game/GameService.java:350-352 | a missing card is one of the cards to discard |
| Service.DiscardMeans | prefhub-server/src/main/java/com/prefhub/server/game/GameService.java:350-352 | the discard goes through exactly when the cards, with multiplicity, are in the hand, and then removes exactly them |
| Service.DiscardStops | prefhub-server/src/main/java/com/prefhub/server/game/GameService.java:350-352 | the first missing card stops the discard |
| Service.StaysStopped | prefhub-server/src/main/java/com/prefhub/server/game/GameService.java:350-352 | a stopped discard stays stopped |
| Service.DeclarerSeat | prefhub-server/src/main/java/com/prefhub/server/game/GameService.java:356 | the declarer's seat holds the declarer's name |
| Service.PlayingFacts | prefhub-server/src/main/java/com/prefhub/server/game/GameService.java:380-397 | a game in play has three distinct seats, can be scored and has an open trick |
| Service.NextTurnIsCoherent | prefhub-server/src/main/java/com/prefhub/server/game/GameService.java:395-397 | passing the turn keeps the game invariant |
| Service.SettledIsCoherent | prefhub-server/src/main/java/com/prefhub/server/game/GameService.java:381-394 | settling a trick keeps the invariant: the tally total is the number of completed tricks and the round completes exactly at ten |
| Service.TakenIsScorable | prefhub-server/src/main/java/com/prefhub/server/game/GameService.java:384-385 | archiving a trick keeps the game scorable |
| Service.GameService.constructor | prefhub-server/src/main/java/com/prefhub/server/game/GameService.java:19-23 | a service with the loaded rule variants and no games |
| Service.GameService.CreateGame | prefhub-server/src/main/java/com/prefhub/server/game/GameService.java:37-53 | refused for an id in use or an unknown rule id; otherwise a new waiting game with the chosen or default rules is filed under its id |
| Service.GameService.AvailableBids | prefhub-server/src/main/java/com/prefhub/server/game/GameService.java:59-65 | refused for an unknown game; otherwise PASS, then the offered contracts in Contract.values() order, each once, and no other contract |
| Service.GameService.JoinGame | prefhub-server/src/main/java/com/prefhub/server/game/GameService.java:67-85 | refused for an unknown or full game; otherwise the player takes the next seat and the third join deals |
| Service.GameService.PlaceBid | prefhub-server/src/main/java/com/prefhub/server/game/GameService.java:251-278 | refused for an unknown game; otherwise the checks in order, then the bid is recorded and the auction ends, redeals or passes the turn |
| Service.GameService.ExchangeWidow | prefhub-server/src/main/java/com/prefhub/server/game/GameService.java:327-360 | refused for an unknown game; otherwise the checks, then the widow goes to the declarer's hand, the cards are discarded and play starts |
| Service.GameService.PlayCard | prefhub-server/src/main/java/com/prefhub/server/game/GameService.java:362-400 | refused for an unknown game; otherwise the checks, then the card leaves the hand and joins the trick, which is settled when complete |
| Service.GameService.StartNextRound | prefhub-server/src/main/java/com/prefhub/server/game/GameService.java:432-444 | refused for an unknown game or an unfinished round; otherwise the round is cleared and dealt again |
| Service.GameService.GetPlayerView | prefhub-server/src/main/java/com/prefhub/server/game/GameService.java:95-104 | refused for an unknown game or a user without a seat; otherwise the view ViewOf describes, with nothing changed |
| Service.StartNextRoundIn | prefhub-server/src/main/java/com/prefhub/server/game/GameService.java:437-443 | an unfinished round is refused with nothing changed; otherwise nextRound then startRound |
| Service.DealRound | prefhub-server/src/main/java/com/prefhub/server/game/GameService.java:237-248 | the seats hold the deal, the widow its last two cards, and the seat after the dealer bids |
| Service.DealHands | prefhub-server/src/main/java/com/prefhub/server/game/GameService.java:238-241 | each seat's hand is replaced by its ten cards, and two remain in the deck |
| Service.ClearRound | prefhub-core/src/main/java/com/prefhub/core/model/GameState.java:208-218 | nextRound on a valid game of three seats, with every tally at 0 |
| Service.DealtIsValid | prefhub-server/src/main/java/com/prefhub/server/game/GameService.java:244-248 | a freshly dealt game satisfies the invariant |
| Service.Redeal | prefhub-server/src/main/java/com/prefhub/server/game/GameService.java:317-318 | nextRound then a fresh deal; the game stays valid and the seats stay |
| Service.StartRoundOf | prefhub-server/src/main/java/com/prefhub/server/game/GameService.java:232-249 | a shuffled fresh deck is dealt ten to each seat and two to the widow, and bidding starts with the seat after the dealer |
| Service.Declare | prefhub-server/src/main/java/com/prefhub/server/game/GameService.java:320-323 | the holder becomes declarer with their bid as contract and takes the turn for the widow exchange |
| Service.FinalizeBidding | prefhub-server/src/main/java/com/prefhub/server/game/GameService.java:299-325 | all passes redeal the round; otherwise the only game bidder declares |
| Service.PlaceBidIn | prefhub-server/src/main/java/com/prefhub/server/game/GameService.java:256-275 | the checks in their order, then the bid |
| Service.CheckBid | prefhub-server/src/main/java/com/prefhub/server/game/GameService.java:256-266 | refused outside the auction, for an unseated name, out of turn, or as validateBid refuses |
| Service.Bid | prefhub-server/src/main/java/com/prefhub/server/game/GameService.java:268-275 | the bid is recorded, then the auction ends or the turn passes on; hands change only with a redeal |
| Service.BidAndPass | prefhub-server/src/main/java/com/prefhub/server/game/GameService.java:273-275 | a bid that does not end the auction is recorded and the turn passes on |
| Service.BidAndRedeal | prefhub-server/src/main/java/com/prefhub/server/game/GameService.java:315-318 | the last pass of an all-pass auction redeals the round |
| Service.BidAndDeclare | prefhub-server/src/main/java/com/prefhub/server/game/GameService.java:319-324 | the bid that ends the auction with a game makes its only game bidder declarer |
| Service.ExchangeWidowIn | prefhub-server/src/main/java/com/prefhub/server/game/GameService.java:332-357 | the checks, then the exchange |
| Service.CheckExchange | prefhub-server/src/main/java/com/prefhub/server/game/GameService.java:332-343 | refused outside the exchange, for anyone but the declarer, or unless exactly two cards are named |
| Service.Exchange | prefhub-server/src/main/java/com/prefhub/server/game/GameService.java:345-357 | the declarer's hand is hand plus widow minus the discards; a missing card stops the exchange with the phase unchanged |
| Service.DiscardCards | prefhub-server/src/main/java/com/prefhub/server/game/GameService.java:350-352 | each card is removed in turn, stopping at the first that is not held |
| Service.StartPlay | prefhub-server/src/main/java/com/prefhub/server/game/GameService.java:354-357 | play starts with the declarer leading to a new, empty trick |
| Service.Join | prefhub-server/src/main/java/com/prefhub/server/game/GameService.java:76-81 | a new player takes the next seat, and the third seat deals |
| Service.DealIfFull | prefhub-server/src/main/java/com/prefhub/server/game/GameService.java:79-81 | the round is dealt exactly when the third seat is taken |
| Service.SeatNewPlayer | prefhub-server/src/main/java/com/prefhub/server/game/GameService.java:76-77 | a new player with no points takes the next seat with a tally of 0 |
| Service.SeatedIsValid | prefhub-server/src/main/java/com/prefhub/server/game/GameService.java:76-77 | a waiting game stays valid when one more distinct player sits down |
| Service.PlayCardIn | prefhub-server/src/main/java/com/prefhub/server/game/GameService.java:367-397 | the checks in order, then the play, keeping the invariant |
| Service.PlayChecked | prefhub-server/src/main/java/com/prefhub/server/game/GameService.java:367-397 | the checks, then the card is placed and the trick settled or the turn passed on |
| Service.Play | prefhub-server/src/main/java/com/prefhub/server/game/GameService.java:376-397 | an accepted card leaves the hand and joins the trick; a third card settles the trick, any other passes the turn |
| Service.PlayKeepsValid | prefhub-server/src/main/java/com/prefhub/server/game/GameService.java:380-397 | settling a trick or passing the turn keeps the game valid |
| Service.CheckPlay | prefhub-server/src/main/java/com/prefhub/server/game/GameService.java:367-377 | refused outside the play, for an unseated name, out of turn, or for a card not held |
| Service.PlaceCard | prefhub-server/src/main/java/com/prefhub/server/game/GameService.java:377-378 | the card leaves the player's hand and joins the trick under the player's name |
| Service.FinishPlay | prefhub-server/src/main/java/com/prefhub/server/game/GameService.java:380-397 | a complete trick is settled, otherwise the turn passes on |
| Service.TrickBound | prefhub-server/src/main/java/com/prefhub/server/game/GameService.java:381 | a trick holds at most one card per seat |
| Service.SettleTrick | prefhub-server/src/main/java/com/prefhub/server/game/GameService.java:381-394 | the winner by the fold takes the trick; the tenth trick scores the round, any other opens a trick led by the winner |
| Service.TakeTrick | prefhub-server/src/main/java/com/prefhub/server/game/GameService.java:382-385 | getWinner with the contract's trump, the winner's tally, the archive |
| Service.CloseTrick | prefhub-server/src/main/java/com/prefhub/server/game/GameService.java:387-394 | the tenth trick completes the round with the scores calculated; any other opens an empty trick led by the winner's seat |
| Service.EndRound | prefhub-server/src/main/java/com/prefhub/server/game/GameService.java:388-390 | the tenth trick scores the round and completes it |
| Service.OpenTrick | prefhub-server/src/main/java/com/prefhub/server/game/GameService.java:391-393 | a new empty trick, led by the winner's seat |
| Service.CalculateScores | prefhub-server/src/main/java/com/prefhub/server/game/GameService.java:402-430 | every seat's score and mountain grow by its award; bullets stay |
| Service.AwardedParts | prefhub-server/src/main/java/com/prefhub/server/game/GameService.java:403-429 | a seat's award is the declarer's part, for the declarer's seat only, plus its tricks on a game contract |
| Service.HandedOutSoFar | prefhub-server/src/main/java/com/prefhub/server/game/GameService.java:423-428 | the score handed out to the first seats, summed |
| Service.OthersSum | prefhub-server/src/main/java/com/prefhub/server/game/GameService.java:423-428 | with distinct names, the defenders' tallies sum to the tallies of the names other than the declarer's |
| Service.RoundScoreTotal | prefhub-server/src/main/java/com/prefhub/server/game/GameService.java:402-430 | besides the declarer's award, exactly the tricks the declarer did not take are handed out on a game, nothing on MISER |
| Service.AwardDeclarerSeat | prefhub-server/src/main/java/com/prefhub/server/game/GameService.java:403-420 | the declarer's award goes to the declarer's seat alone; every other seat's counters are unchanged |
| Service.ScoreDeclarer | prefhub-server/src/main/java/com/prefhub/server/game/GameService.java:403-420 | the declarer's award is added to the score or the mountain |
| Service.PayDefenders | prefhub-server/src/main/java/com/prefhub/server/game/GameService.java:423-428 | every seat not named as the declarer adds its tricks to its score |
| Auth.Units | prefhub-server/src/main/java/com/prefhub/server/auth/User.java:12 | a character becomes one UTF-16 unit, or a surrogate pair beyond the basic plane |
| Auth.HashUnits | prefhub-server/src/main/java/com/prefhub/server/auth/User.java:12 | the hash stays in the signed 32-bit range |
| Auth.HashCode | prefhub-server/src/main/java/com/prefhub/server/auth/User.java:12 | String.hashCode: the polynomial of the UTF-16 code units, reduced to a signed 32-bit value |
| Auth.HashIsPolynomial | prefhub-server/src/main/java/com/prefhub/server/auth/User.java:12 | wrapping at each step of hashCode equals wrapping the whole polynomial once |
| Auth.DigitsInjective | prefhub-server/src/main/java/com/prefhub/server/auth/User.java:12 | different numbers have different digits |
| Auth.DecimalTextInjective | prefhub-server/src/main/java/com/prefhub/server/auth/User.java:12 | String.valueOf is injective on ints |
| Auth.HashPassword | prefhub-server/src/main/java/com/prefhub/server/auth/User.java:11-13 | hashPassword: decimal text of the hashCode, an optional minus sign followed by digits |
| Auth.VerifyPassword | prefhub-server/src/main/java/com/prefhub/server/auth/User.java:7-9 | verifyPassword: accepts only against a non-empty stored hash text (VerifyMeansSameHash gives the iff) |
| Auth.VerifyMeansSameHash | prefhub-server/src/main/java/com/prefhub/server/auth/User.java:7-13 | a password verifies exactly when its hashCode equals the registered password's |
| Auth.DistinctPasswordsCollide | prefhub-server/src/main/java/com/prefhub/server/auth/User.java:7-13 | "BB" verifies against an account registered with "Aa" |
| Auth.AuthService.constructor | prefhub-server/src/main/java/com/prefhub/server/auth/AuthService.java:9-10 | no users and no sessions |
| Auth.AuthService.Register | prefhub-server/src/main/java/com/prefhub/server/auth/AuthService.java:12-17 | refused for a taken name; otherwise exactly that account is added, its password then verifies, and sessions stay |
| Auth.AuthService.Login | prefhub-server/src/main/java/com/prefhub/server/auth/AuthService.java:19-27 | refused for an unknown user or wrong password; otherwise the token opens a session that validateToken resolves to the user |
| Auth.AuthService.Logout | prefhub-server/src/main/java/com/prefhub/server/auth/AuthService.java:29-31 | the token's session ends, every other session stays |
| Auth.AuthService.ValidateToken | prefhub-server/src/main/java/com/prefhub/server/auth/AuthService.java:33-35 | the username of the token's session, absent exactly without one |
| Auth.AuthService.IsAuthenticated | prefhub-server/src/main/java/com/prefhub/server/auth/AuthService.java:37-39 | true exactly when validateToken finds a user |
| Auth.RegisteredCanLogIn | prefhub-server/src/main/java/com/prefhub/server/auth/AuthService.java:12-27 | a registered account logs in with its password |
| Scenario.Pieces | prefhub-server/src/main/java/com/prefhub/server/scenario/ScenarioRunner.java:176 | the text between underscores: at least one piece, none holding an underscore |
| Scenario.PiecesJoin | prefhub-server/src/main/java/com/prefhub/server/scenario/ScenarioRunner.java:176 | joining the pieces with underscores gives the text back |
| Scenario.WithoutTrailingEmpty | prefhub-server/src/main/java/com/prefhub/server/scenario/ScenarioRunner.java:176 | a prefix ending in a non-empty piece, with only empty pieces dropped |
| Scenario.SplitOnUnderscore | prefhub-server/src/main/java/com/prefhub/server/scenario/ScenarioRunner.java:176 | split("_"): the whole text when there is no underscore, otherwise the pieces without trailing empty ones |
| Scenario.RankNamed | prefhub-server/src/main/java/com/prefhub/server/scenario/ScenarioRunner.java:181 | Rank.valueOf finds the rank exactly when one has that name |
| Scenario.SuitNamed | prefhub-server/src/main/java/com/prefhub/server/scenario/ScenarioRunner.java:182 | Suit.valueOf finds the suit exactly when one has that name |
| Scenario.NamesParseBack | prefhub-server/src/main/java/com/prefhub/server/scenario/ScenarioRunner.java:181-182 | valueOf inverts name(), and names are non-empty with no underscore |
| Scenario.ParseCard | prefhub-server/src/main/java/com/prefhub/server/scenario/ScenarioRunner.java:174-185 | a text not splitting into two parts is an invalid format; a parsed card's name is its two parts; an unknown rank or suit name is refused |
| Scenario.ParseCardRankError | prefhub-server/src/main/java/com/prefhub/server/scenario/ScenarioRunner.java:174-182 | a rank error reports the first of exactly two parts, and no rank has that name |
| Scenario.ParseCardExactly | prefhub-server/src/main/java/com/prefhub/server/scenario/ScenarioRunner.java:174-185 | a text parses to a card exactly when it splits into that card's rank and suit names |
| Scenario.ParseCardName | prefhub-server/src/main/java/com/prefhub/server/scenario/ScenarioRunner.java:174-185 | RANK_SUIT names parse back to their card |
| Scenario.TrailingUnderscoresAccepted | prefhub-server/src/main/java/com/prefhub/server/scenario/ScenarioRunner.java:176-179 | trailing underscores after a card name are accepted |
| Scenario.ParseCards | prefhub-server/src/main/java/com/prefhub/server/scenario/ScenarioRunner.java:166-172 | succeeds exactly when every text parses, giving the cards in order; otherwise fails at the first bad text |
| Scenario.ParseCardNames | prefhub-server/src/main/java/com/prefhub/server/scenario/ScenarioRunner.java:166-172 | the names of a list of cards parse back to that list |
| Scenario.SetupCustomDeck | prefhub-server/src/main/java/com/prefhub/server/scenario/ScenarioRunner.java:141-164 | succeeds exactly when all four lists parse; then the hands and the widow hold the parsed cards; a failure changes nothing |
| Scenario.SetUpScenarioGame | prefhub-server/src/main/java/com/prefhub/server/scenario/ScenarioRunner.java:99-117 | a valid game with South, West and East seated, the hands and widow from the setup, bidding at seat 0 in round 1 |
| Scenario.SeatScenarioPlayers | prefhub-server/src/main/java/com/prefhub/server/scenario/ScenarioRunner.java:103-109 | South, West and East sit in that order |
| Scenario.OpenBidding | prefhub-server/src/main/java/com/prefhub/server/scenario/ScenarioRunner.java:114-117 | dealer and turn at seat 0, phase bidding |
| Frontend.SuitSymbolOf | prefhub-frontend/src/types/index.ts:123-131 | one character, the suit's symbol |
| Frontend.RankSymbolOf | prefhub-frontend/src/types/index.ts:133-145 | one or two characters, the rank's symbol |
| Frontend.SuitColour | prefhub-frontend/src/types/index.ts:147-149 | red exactly for diamonds and hearts, black for spades and clubs |
| Frontend.CardToString | prefhub-frontend/src/types/index.ts:151-153 | rank symbol followed by suit symbol, the same text as Card.toString |
| Frontend.CardToStringInjective | prefhub-frontend/src/types/index.ts:151-153 | different cards print differently |
| Frontend.SuitOrder | prefhub-frontend/src/types/index.ts:157-162 | the suit's position spades, clubs, diamonds, hearts |
| Frontend.RankOrder | prefhub-frontend/src/types/index.ts:164-173 | the rank's position from seven to ace |
| Frontend.Key | prefhub-frontend/src/types/index.ts:175-181 | a key in 0..31 |
| Frontend.Compare | prefhub-frontend/src/types/index.ts:175-181 | the sortCards comparator: zero exactly for equal cards; cards of different suits are ordered by suit |
| Frontend.CompareIsKeyOrder | prefhub-frontend/src/types/index.ts:175-181 | the comparator orders cards as their keys do |
| Frontend.KeyInjective | prefhub-frontend/src/types/index.ts:175-181 | different cards have different keys |
| Frontend.SortedByComparator | prefhub-frontend/src/types/index.ts:175-181 | sorted by key exactly when the comparator never puts a later card first |
| Frontend.Insert | prefhub-frontend/src/types/index.ts:175-181 | inserting keeps the list sorted and adds exactly the card |
| Frontend.SortCards | prefhub-frontend/src/types/index.ts:156-182 | the result is sorted and a permutation of the input |
| Frontend.SortedPermutationUnique | prefhub-frontend/src/types/index.ts:156-182 | two sorted permutations of the same cards are equal |
| Frontend.SortIgnoresOrder | prefhub-frontend/src/types/index.ts:156-182 | sorting depends only on which cards are given, not their order |

## Left out

- Persistence: saving games, users and sessions to repositories, and loading stored games when the service starts, are I/O.
- Concurrency: the concurrent maps and `synchronized` of the services are not modelled; each operation is modelled as one atomic step.
- HTTP, WebSocket, controllers, console client and the scenario HTTP client are outside the engine.
- Randomness: `Collections.shuffle` draws are the parameter `rnd`, and the login token (a random UUID) is a parameter of `Login`.
- `getRulesDescription`, `getAvailableRules`, `getAvailableRulesList` and the rule variants' names and descriptions are display text and are not modelled. Loading rule files is I/O; the loaded variants are a constructor parameter of `GameService`.
- `getGame`, `getAllGames`, `hasRules` and `setRules` are plain accessors, and the core never calls `setRules`; `GameState.rules` is fixed at construction.
- Display strings: the Russian names of suits, `Player.toString` and the `nextActionDescription` text of the view are not modelled. The Russian names of ranks (`Cards.RussianName`) and the allowed actions are.
- Views.ViewOf: the `rules` argument that `getPlayerView` passes has no matching parameter in the `PlayerView` constructor, so the view is modelled without it.
- Suit following: `playCard` does not check that a player follows suit, and neither does the model.
- Scenario.SetUpScenarioGame: registering the game with the service, the "sochinka" variant and loading the scenario file are not modelled. The game is built directly, and its rules are a parameter.
- Frontend.SortCards: modelled on values. JavaScript's in-place `sort` on a copied array and its comparator calls are not modelled; the result is characterised as the unique sorted permutation.
- Players.Player.SetHand: `Player.java` declares no `setHand`; its hand is a final list, and only `ScenarioRunner` calls the setter. The model assumes the call replaces the hand with the given cards.
- States.GameState.NextPlayer and States.GameState.NextRound: both require at least one seat. With no seats, Java's `% players.size()` throws `ArithmeticException`; the service never calls either on a game without seats.
- Java `int` overflow: `score`, `bullet`, `mountain`, `roundNumber`, the tricks-won counts and the player indices are unbounded integers here. The source's 32-bit wrap-around of these counters is not modelled. `String.hashCode` is the one place where wrap-around is modelled.
- Whist play: `validateWhist` and `canExitMizer` are modelled, but the service never calls them and whisting is not part of the phase machine.
