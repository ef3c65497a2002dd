/** The game service (GameService.java): the active games by id and the
    phase machine join → deal → bidding → widow exchange → ten tricks →
    scoring → round complete → next round. Saving a game to the repository
    is not modelled; randomness of the deal is the parameter `rnd` (see
    Decks.Shuffled). */
module Service {
  import opened Wrappers
  import opened Cards
  import opened Contracts
  import opened Rules
  import opened TrickTaking
  import opened Players
  import opened Decks
  import opened States
  import opened Validation
  import opened Views

  // ---------------------------------------------------------------------
  // The deal of startRound

  /** The ten cards of seat `seat` (0, 1, 2) from the deck `d`: the deck is
      dealt ten at a time from the front, in seating order. */
  function Hand(d: seq<Card>, seat: nat): (h: seq<Card>)
    requires |d| == 32 && seat < 3
    ensures |h| == 10
  {
    d[10 * seat..10 * seat + 10]
  }

  /** The two cards left for the widow. */
  function WidowOf(d: seq<Card>): (w: seq<Card>)
    requires |d| == 32
    ensures |w| == 2
  {
    d[30..]
  }

  /** `deck` is a fresh deck shuffled with the random source `rnd`. */
  ghost predicate IsDealtDeck(deck: seq<Card>, rnd: nat -> nat) {
    exists initial :: InDeckOrder(initial) && deck == Shuffled(initial, rnd)
  }

  /** The deck of a deal is the shuffle of FullDeck, and still its 32 cards. */
  lemma DealtDeckFacts(deck: seq<Card>, rnd: nat -> nat)
    requires IsDealtDeck(deck, rnd)
    ensures deck == Shuffled(FullDeck(), rnd)
    ensures |deck| == 32 && multiset(deck) == multiset(FullDeck())
  {
    var initial :| InDeckOrder(initial) && deck == Shuffled(initial, rnd);
    InDeckOrderIsFullDeck(initial);
    ShufflePermutes(initial, 32, rnd);
  }

  /** Every one of the 32 cards is dealt exactly once, into one of the three
      hands or the widow. */
  lemma DealIsPartition(d: seq<Card>, c: Card)
    requires |d| == 32 && multiset(d) == multiset(FullDeck())
    ensures multiset(Hand(d, 0) + Hand(d, 1) + Hand(d, 2) + WidowOf(d))[c] == 1
  {
    assert Hand(d, 0) + Hand(d, 1) + Hand(d, 2) + WidowOf(d) == d;
    FullDeckIsEveryCardOnce(c);
  }

  /** The seats hold the hands dealt from the deck `d`, and the widow its
      last two cards. */
  ghost predicate HoldsDeal(g: GameState, d: seq<Card>)
    reads g, g.players
  {
    |d| == 32 && |g.players| == 3 &&
    g.players[0].hand == Hand(d, 0) && g.players[1].hand == Hand(d, 1) && g.players[2].hand == Hand(d, 2) &&
    g.widow == WidowOf(d)
  }

  // ---------------------------------------------------------------------
  // The auction

  function GameBidCount(bids: map<string, Contract>): nat {
    |set k | k in bids && !IsPass(bids[k])|
  }

  function PassCount(bids: map<string, Contract>): nat {
    |set k | k in bids && IsPass(bids[k])|
  }

  /** Non-pass and pass bids together are all the bids. */
  lemma CountsAddUp(bids: map<string, Contract>)
    ensures GameBidCount(bids) + PassCount(bids) == |bids|
  {
    var games := set k | k in bids && !IsPass(bids[k]);
    var passes := set k | k in bids && IsPass(bids[k]);
    assert games + passes == bids.Keys;
    assert games * passes == {};
  }

  /** With exactly one non-pass bid, its holder is the only one. */
  lemma SingleGameBid(bids: map<string, Contract>, k1: string, k2: string)
    requires GameBidCount(bids) == 1
    requires k1 in bids && !IsPass(bids[k1]) && k2 in bids && !IsPass(bids[k2])
    ensures k1 == k2
  {
    var games := set k | k in bids && !IsPass(bids[k]);
    assert k1 in games && k2 in games;
    assert |games - {k1}| == 0;
    assert games - {k1} == {};
    assert k2 in {k1};
  }

  /** With no non-pass bid, NoGameBid holds, and conversely. */
  lemma NoGameBidCount(bids: map<string, Contract>)
    ensures NoGameBid(bids) <==> GameBidCount(bids) == 0
  {
    var games := set k | k in bids && !IsPass(bids[k]);
    if !NoGameBid(bids) {
      var k :| k in bids && !IsPass(bids[k]);
      assert k in games;
    }
  }

  /** isBiddingComplete: at least three bids, and either all passed or
      exactly one non-pass bid against two passes. */
  predicate IsBiddingComplete(bids: map<string, Contract>): (r: bool)
    ensures r ==> |bids| >= 3 && GameBidCount(bids) <= 1
  {
    |bids| >= 3 && (GameBidCount(bids) == 0 || (GameBidCount(bids) == 1 && PassCount(bids) == 2))
  }

  /** With the three seats' bids in, the auction is over exactly when at
      most one player bid a game; a finished auction then has a single
      non-pass bid, if any, so the declarer does not depend on the order the
      bids are visited in. */
  lemma BiddingCompleteMeans(bids: map<string, Contract>)
    ensures |bids| < 3 ==> !IsBiddingComplete(bids)
    ensures |bids| == 3 ==> (IsBiddingComplete(bids) <==> GameBidCount(bids) <= 1)
    ensures IsBiddingComplete(bids) ==> (NoGameBid(bids) <==> GameBidCount(bids) == 0)
    ensures IsBiddingComplete(bids) ==>
      forall k1, k2 :: k1 in bids && k2 in bids && !IsPass(bids[k1]) && !IsPass(bids[k2]) ==> k1 == k2
  {
    CountsAddUp(bids);
    NoGameBidCount(bids);
    forall k1, k2 | GameBidCount(bids) == 1 && k1 in bids && k2 in bids && !IsPass(bids[k1]) && !IsPass(bids[k2])
      ensures k1 == k2
    {
      SingleGameBid(bids, k1, k2);
    }
  }

  // ---------------------------------------------------------------------
  // Scoring

  /** A change to a player's score and mountain. */
  datatype Award = Award(score: int, mountain: int)

  /** What calculateScores gives the declarer: on MISER 10 to the score for
      no trick taken, else 10 to the mountain; on a game, the contract's
      trick count to the score if it was made, else to the mountain. */
  function DeclarerAward(contract: Contract, taken: int): (a: Award)
    ensures a.score == 0 || a.mountain == 0
    ensures IsMiser(contract) ==> a.score + a.mountain == 10 && (a.score == 10 <==> taken == 0)
    ensures !IsMiser(contract) ==> a.score + a.mountain == Tricks(contract) && (a.mountain == 0 <==> taken >= Tricks(contract) || Tricks(contract) == 0)
  {
    if IsMiser(contract) then
      (if taken == 0 then Award(10, 0) else Award(0, 10))
    else if taken >= Tricks(contract) then Award(Tricks(contract), 0)
    else Award(0, Tricks(contract))
  }

  /** What calculateScores gives a defender: nothing on MISER, otherwise the
      tricks they took added to the score. */
  function DefenderAward(contract: Contract, taken: int): (a: Award)
    ensures a.mountain == 0
    ensures a.score == (if IsMiser(contract) then 0 else taken)
  {
    if IsMiser(contract) then Award(0, 0) else Award(taken, 0)
  }

  /** A game contract's declarer scores exactly the contract, overtricks
      bring nothing, and a miss costs the same amount on the mountain. */
  lemma GameScoring(contract: Contract, taken: int)
    requires IsGame(contract)
    ensures taken >= Tricks(contract) ==> DeclarerAward(contract, taken) == Award(Tricks(contract), 0)
    ensures taken < Tricks(contract) ==> DeclarerAward(contract, taken) == Award(0, Tricks(contract))
    ensures 6 <= Tricks(contract) <= 10
  {
  }

  datatype ServiceError =
    | GameAlreadyExists(gameId: string)
    | UnknownRules(ruleId: string)
    | GameNotFound(gameId: string)
    | GameIsFull
    | PlayerNotInGame(username: string)
    | NotYourTurn
    | NotInBiddingPhase
    | InvalidBid(bidError: BidError)
    | NotInWidowExchangePhase
    | OnlyDeclarerCanExchange
    | MustDiscardExactlyTwo
    | InvalidCard(cardError: PlayerError)
    | NotInPlayingPhase
    | RoundNotComplete

  /** The hand after taking each of `cards` out in turn (List.remove each). */
  function RemoveEach(hand: seq<Card>, cards: seq<Card>): (r: seq<Card>)
    ensures |r| >= |hand| - |cards|
  {
    if |cards| == 0 then hand
    else RemoveFirst(RemoveEach(hand, cards[..|cards| - 1]), cards[|cards| - 1])
  }

  /** The fields after nextRound followed by startRound dealt `deck`: the
      next round number, the dealer moved on, the auction, contract and
      tricks cleared, every tally at 0, the widow dealt, and bidding opened
      by the seat after the new dealer. */
  function AfterRedeal(f: Fields, deck: seq<Card>): Fields
    requires |deck| == 32
  {
    Dealt(Cleared(f), deck)
  }

  /** The fields after nextRound of a game with three seats. */
  function Cleared(f: Fields): Fields {
    f.(roundNumber := f.roundNumber + 1, dealerIndex := (f.dealerIndex + 1) % 3,
       bids := map[], declarer := None, contract := None, completedTricks := [],
       tricksWon := ZeroTallies(Names(f.players)), widow := [], currentTrick := null)
  }

  /** The fields after startRound dealt `deck`: the widow is its last two
      cards and the seat after the dealer opens the bidding. */
  function Dealt(f: Fields, deck: seq<Card>): Fields
    requires |deck| == 32
  {
    f.(widow := WidowOf(deck), phase := Bidding, currentPlayerIndex := (f.dealerIndex + 1) % 3)
  }

  /** The fields after gameState.placeBid recorded `bid` for `username`. */
  function Recorded(f: Fields, username: string, bid: Contract): Fields {
    f.(bids := f.bids[username := bid])
  }

  /** The fields after a bid that does not end the auction: the bid is
      recorded and the turn passes to the next of the three seats. */
  function Passed(f: Fields, username: string, bid: Contract): Fields {
    Recorded(f, username, bid).(currentPlayerIndex := (f.currentPlayerIndex + 1) % 3)
  }

  /** The bids before a redeal do not matter: nextRound clears them. */
  lemma RedealForgetsBids(f: Fields, username: string, bid: Contract, deck: seq<Card>)
    requires |deck| == 32
    ensures AfterRedeal(Recorded(f, username, bid), deck) == AfterRedeal(f, deck)
  {
  }

  /** The seats hold a fresh deal: `deck` is a shuffle by `rnd`, dealt
      ten cards to each seat and two to the widow. */
  ghost predicate DealtFrom(g: GameState, deck: seq<Card>, rnd: nat -> nat)
    reads g, g.players
  {
    IsDealtDeck(deck, rnd) && HoldsDeal(g, deck)
  }

  /** The state after a player joined a game with a free seat: a new
      player with that name and no points sits in the next seat, nobody
      else changed, and the third player's arrival dealt the round from
      `deck`. */
  twostate predicate Seated(g: GameState, username: string, deck: seq<Card>, rnd: nat -> nat)
    reads g, g.players
  {
    var n := |old(g.players)|;
    n < 3 && |g.players| == n + 1 && g.players[..n] == old(g.players) &&
    fresh(g.players[n]) && g.players[n].username == username &&
    g.players[n].score == 0 && g.players[n].bullet == 0 && g.players[n].mountain == 0 &&
    unchanged(old(g.players)`score, old(g.players)`bullet, old(g.players)`mountain) &&
    (n < 2 ==>
      g.players[n].hand == [] && unchanged(old(g.players)`hand) &&
      g.Snapshot() == old(g.Snapshot()).(players := g.players, tricksWon := old(g.tricksWon)[username := 0])) &&
    (n == 2 ==>
      DealtFrom(g, deck, rnd) &&
      g.Snapshot() == Dealt(old(g.Snapshot()).(players := g.players, tricksWon := old(g.tricksWon)[username := 0]), deck))
  }

  /** The game did not change at all. */
  twostate predicate Untouched(g: GameState)
    reads g, g.players, g.currentTrick
  {
    unchanged(g) && unchanged(g.players) && (g.currentTrick != null ==> unchanged(g.currentTrick))
  }

  /** The declaring branch of finalizeBidding: `holder` becomes declarer
      with their bid as the contract and takes the turn for the widow
      exchange. */
  function Declared(f: Fields, holder: string): Fields
    requires holder in f.bids && holder in Names(f.players)
  {
    f.(declarer := Some(holder), contract := Some(f.bids[holder]), phase := WidowExchange,
       currentPlayerIndex := FindPlayerIndex(f.players, holder).value)
  }

  /** The one player who bid a game in a finished auction that was not all
      passes. */
  ghost function GameBidder(bids: map<string, Contract>): (k: string)
    requires IsBiddingComplete(bids) && !NoGameBid(bids)
    ensures k in bids && !IsPass(bids[k])
  {
    var k :| k in bids && !IsPass(bids[k]); k
  }

  /** The game bidder of a finished auction holds the top bid, and is the
      only player who did not pass. */
  lemma GameBidderFacts(bids: map<string, Contract>)
    requires IsBiddingComplete(bids) && !NoGameBid(bids)
    ensures IsTopBid(bids, bids[GameBidder(bids)])
    ensures forall k :: k in bids && !IsPass(bids[k]) ==> k == GameBidder(bids)
  {
    var d := GameBidder(bids);
    BiddingCompleteMeans(bids);
    Asymmetric(bids[d], bids[d]);
  }

  /** Taking `bid` from `username` ends the auction with all passes, so the
      round is dealt again. */
  predicate BidRedeals(bids: map<string, Contract>, username: string, bid: Contract) {
    IsBiddingComplete(bids[username := bid]) && NoGameBid(bids[username := bid])
  }

  /** The fields after placeBid took `bid` from `username` in a game whose
      fields were `before`: the bid is recorded; an auction that is not over
      passes the turn to the next seat; an all-pass auction is played again
      with the new deal `deck`; otherwise the game bidder declares. */
  ghost predicate BidTaken(before: Fields, g: GameState, username: string, bid: Contract, deck: seq<Card>, rnd: nat -> nat)
    requires username in Names(before.players) && before.bids.Keys <= Names(before.players)
    reads g, g.players
  {
    var bids := before.bids[username := bid];
    (!IsBiddingComplete(bids) ==> g.Snapshot() == Passed(before, username, bid)) &&
    (BidRedeals(before.bids, username, bid) ==>
      DealtFrom(g, deck, rnd) && g.Snapshot() == AfterRedeal(before, deck)) &&
    (IsBiddingComplete(bids) && !NoGameBid(bids) ==>
      g.Snapshot() == Declared(Recorded(before, username, bid), GameBidder(bids)))
  }

  /** The verdict of placeBid's checks on a game whose fields are `f` and
      whose rules are `rules`: the bid is refused outside the auction, for a
      name that is not seated, out of turn, or as validateBid refuses it
      (checked in that order). */
  ghost predicate BidVerdict(f: Fields, rules: GameRules, username: string, bid: Contract, r: Outcome<ServiceError>) {
    var onTurn := f.phase == Bidding && username in Names(f.players) &&
                  0 <= f.currentPlayerIndex < |f.players| && f.players[f.currentPlayerIndex].username == username;
    (r.Ok? <==> onTurn && BidAcceptable(rules, f.bids, bid)) &&
    (f.phase != Bidding ==> r == Fail(NotInBiddingPhase)) &&
    (f.phase == Bidding && username !in Names(f.players) ==> r == Fail(PlayerNotInGame(username))) &&
    (f.phase == Bidding && username in Names(f.players) && !onTurn ==> r == Fail(NotYourTurn)) &&
    (onTurn && r.Fail? ==>
      r.error.InvalidBid? &&
      (!MeetsMinimum(rules, bid) ==> r.error.bidError == BelowMinimum(rules.minimumOpeningBid)) &&
      (MeetsMinimum(rules, bid) ==> r.error.bidError.NotHigherThanCurrent? && IsTopBid(f.bids, r.error.bidError.current)))
  }

  /** What placeBid does to a found game: a refused bid changes nothing;
      otherwise the bid is taken, the seats stay, and the hands change only
      with a new deal (the scores are outside placeBid's frame). */
  twostate predicate BidHandled(g: GameState, username: string, bid: Contract, new r: Outcome<ServiceError>, deck: seq<Card>, rnd: nat -> nat)
    requires old(g.Valid())
    reads g, g.players, g.currentTrick
  {
    BidVerdict(old(g.Snapshot()), g.rules, username, bid, r) &&
    (r.Fail? ==> Untouched(g)) &&
    (r.Ok? ==>
      BidTaken(old(g.Snapshot()), g, username, bid, deck, rnd) &&
      g.players == old(g.players) &&
      (!BidRedeals(old(g.bids), username, bid) ==> unchanged(g.players`hand)))
  }

  // ---------------------------------------------------------------------
  // The widow exchange

  /** The hand left after discarding `cards` one at a time, and the first
      card that was not held when its turn came, if any (the discard stops
      there). */
  datatype Discarded = Discarded(hand: seq<Card>, missing: Option<Card>)

  function Discard(hand: seq<Card>, cards: seq<Card>): (d: Discarded)
    ensures d.missing.Some? ==> d.missing.value in cards
  {
    if |cards| == 0 then Discarded(hand, None)
    else
      var before := Discard(hand, cards[..|cards| - 1]);
      var c := cards[|cards| - 1];
      if before.missing.Some? then before
      else if c in before.hand then Discarded(RemoveFirst(before.hand, c), None)
      else Discarded(before.hand, Some(c))
  }

  /** The discard goes through exactly when the cards, counted with
      multiplicity, are among the hand; it then takes out exactly those
      cards, and is RemoveEach. */
  lemma {:induction false} DiscardMeans(hand: seq<Card>, cards: seq<Card>)
    ensures Discard(hand, cards).missing.None? <==> multiset(cards) <= multiset(hand)
    ensures Discard(hand, cards).missing.None? ==>
      Discard(hand, cards).hand == RemoveEach(hand, cards) &&
      multiset(Discard(hand, cards).hand) == multiset(hand) - multiset(cards)
    decreases |cards|
  {
    if |cards| > 0 {
      var init, c := cards[..|cards| - 1], cards[|cards| - 1];
      assert cards == init + [c];
      assert multiset(cards) == multiset(init) + multiset{c};
      DiscardMeans(hand, init);
      var before := Discard(hand, init);
      if before.missing.None? {
        if c in before.hand {
          RemoveFirstCounts(before.hand, c);
          DiscardOneMore(multiset(hand), multiset(init), c);
        } else {
          assert multiset(before.hand)[c] == 0;
          assert multiset(cards)[c] > multiset(hand)[c];
        }
      } else {
        assert multiset(init) <= multiset(cards);
      }
    }
  }

  /** Multiset arithmetic of one more discard: with `c` still left after
      taking `taken` out of `held`, taking `c` too stays within `held`. */
  lemma DiscardOneMore(held: multiset<Card>, taken: multiset<Card>, c: Card)
    requires taken <= held && c in held - taken
    ensures taken + multiset{c} <= held
    ensures (held - taken) - multiset{c} == held - (taken + multiset{c})
  {
    assert (held - taken)[c] >= 1;
    forall x ensures ((held - taken) - multiset{c})[x] == (held - (taken + multiset{c}))[x] {
    }
  }

  /** The verdict of exchangeWidow's checks on a game whose fields are `f`:
      refused outside the widow exchange, for anyone but the declarer, or
      unless exactly two cards are named (checked in that order). */
  ghost predicate ExchangeVerdict(f: Fields, username: string, cards: seq<Card>, r: Outcome<ServiceError>) {
    var passes := f.phase == WidowExchange && f.declarer == Some(username) && |cards| == 2;
    (r.Ok? <==> passes) &&
    (f.phase != WidowExchange ==> r == Fail(NotInWidowExchangePhase)) &&
    (f.phase == WidowExchange && f.declarer != Some(username) ==> r == Fail(OnlyDeclarerCanExchange)) &&
    (f.phase == WidowExchange && f.declarer == Some(username) && |cards| != 2 ==> r == Fail(MustDiscardExactlyTwo))
  }

  /** The fields once the play starts: the declarer at `seat` leads to the
      open, empty `trick`. */
  function PlayStarted(f: Fields, seat: nat, trick: Trick?): Fields {
    f.(phase := Playing, currentPlayerIndex := seat, currentTrick := trick)
  }

  /** The seat of the declarer named in `f`. */
  function DeclarerSeat(f: Fields): (seat: nat)
    requires f.declarer.Some? && f.declarer.value in Names(f.players)
    ensures seat < |f.players| && f.players[seat].username == f.declarer.value
  {
    FindPlayerIndex(f.players, f.declarer.value).value
  }

  /** What exchangeWidow does to a found game: refused with nothing changed
      as ExchangeVerdict says; otherwise the declarer takes the widow into
      the hand and discards the cards in turn. A card not held stops it with
      InvalidCard, leaving the hand as far as it got and everything else as
      it was; when both are discarded the play starts with the declarer to
      lead an empty trick. No other hand and no counter changes. */
  twostate predicate ExchangeHandled(g: GameState, username: string, cards: seq<Card>, new r: Outcome<ServiceError>)
    requires old(g.Valid())
    reads g, g.players, g.currentTrick
  {
    var f := old(g.Snapshot());
    var passes := f.phase == WidowExchange && f.declarer == Some(username) && |cards| == 2;
    (!passes ==> ExchangeVerdict(f, username, cards, r) && Untouched(g)) &&
    (passes ==>
      var seat := DeclarerSeat(f);
      var out := Discard(old(g.players[seat].hand) + f.widow, cards);
      g.players == f.players && g.players[seat].hand == out.hand &&
      (forall i :: 0 <= i < |g.players| && i != seat ==> g.players[i].hand == old(g.players[i].hand)) &&
      unchanged(g.players`score, g.players`bullet, g.players`mountain) &&
      (out.missing.Some? ==> r == Fail(InvalidCard(CardNotInHand(out.missing.value))) && g.Snapshot() == f) &&
      (out.missing.None? ==>
        r == Ok && g.Snapshot() == PlayStarted(f, seat, g.currentTrick) &&
        fresh(g.currentTrick) && g.currentTrick.cardsPlayed == map[] &&
        g.currentTrick.leadPlayer.None? && g.currentTrick.leadSuit.None?))
  }

  // ---------------------------------------------------------------------
  // The play

  /** The hand of the first seat named `name` (the one findPlayer returns);
      empty when nobody has that name. */
  ghost function HandOf(ps: seq<Player>, name: string): seq<Card>
    reads ps
  {
    var seat := FindPlayerIndex(ps, name);
    if seat.Some? then ps[seat.value].hand else []
  }

  /** `username` sits in the seat whose turn it is (getCurrentPlayer, compared
      by username as Player.equals does). */
  predicate OnTurn(f: Fields, username: string) {
    0 <= f.currentPlayerIndex < |f.players| && f.players[f.currentPlayerIndex].username == username
  }

  /** The verdict of playCard's checks on a game whose fields are `f`, where
      `hand` is the hand of the seat findPlayer finds: refused outside the
      play, for a name that is not seated, out of turn, or for a card that
      hand does not hold (checked in that order; the last is removeCard
      throwing before anything changed). */
  ghost predicate PlayVerdict(f: Fields, hand: seq<Card>, username: string, card: Card, r: Outcome<ServiceError>) {
    var passes := f.phase == Playing && OnTurn(f, username) && card in hand;
    (r.Ok? <==> passes) &&
    (f.phase != Playing ==> r == Fail(NotInPlayingPhase)) &&
    (f.phase == Playing && username !in Names(f.players) ==> r == Fail(PlayerNotInGame(username))) &&
    (f.phase == Playing && username in Names(f.players) && !OnTurn(f, username) ==> r == Fail(NotYourTurn)) &&
    (f.phase == Playing && OnTurn(f, username) && card !in hand ==> r == Fail(InvalidCard(CardNotInHand(card))))
  }

  /** The fields after a card that does not complete the trick: the turn
      passes to the next seat. */
  function NextTurn(f: Fields): Fields
    requires |f.players| > 0
  {
    f.(currentPlayerIndex := (f.currentPlayerIndex + 1) % |f.players|)
  }

  /** The fields after a complete `trick` went to `winner`: one more trick in
      the winner's tally and the trick archived. */
  function TrickTaken(f: Fields, winner: string, trick: Trick): Fields
    requires winner in f.tricksWon
  {
    f.(tricksWon := f.tricksWon[winner := f.tricksWon[winner] + 1], completedTricks := f.completedTricks + [trick])
  }

  /** The fields after a trick other than the tenth: the winner's seat leads
      the open `trick`. */
  function NextTrick(f: Fields, winner: string, trick: Trick?): Fields
    requires winner in Names(f.players)
  {
    f.(currentTrick := trick, currentPlayerIndex := FindPlayerIndex(f.players, winner).value)
  }

  /** The fields after a complete `trick` went to `winner`: the tenth trick
      completes the round, any other makes `next` the open trick. */
  function Settled(f: Fields, winner: string, trick: Trick, next: Trick?): Fields
    requires winner in f.tricksWon && winner in Names(f.players)
  {
    var taken := TrickTaken(f, winner, trick);
    if |taken.completedTricks| == 10 then taken.(phase := RoundComplete) else NextTrick(taken, winner, next)
  }

  /** The player who takes a trick whose entries getWinner visited in
      `order`. */
  function TrickWinner(order: seq<Play>, trump: Option<Suit>): string
    requires |order| > 0
  {
    Winner(order, trump).value.player
  }

  /** A game being played has three distinct seats, can be scored, and has
      an open trick. */
  lemma PlayingFacts(f: Fields)
    requires Coherent(f)
    ensures f.phase == Playing ==>
      Scorable(f) && DistinctSeats(f.players) && |f.players| == 3 && 0 <= f.currentPlayerIndex < 3 &&
      f.currentTrick != null
  {
  }

  /** Passing the turn keeps the invariant. */
  lemma NextTurnIsCoherent(f: Fields)
    requires Coherent(f) && f.phase == Playing
    ensures Coherent(NextTurn(f))
  {
  }

  /** Settling a trick taken by a seated player keeps the invariant: the
      tally total grows with the number of completed tricks, and a round
      is complete exactly when ten tricks are. */
  lemma SettledIsCoherent(f: Fields, winner: string, trick: Trick, next: Trick?)
    requires Coherent(f) && f.phase == Playing && |f.completedTricks| < 10 && winner in f.tricksWon && next != null
    ensures winner in Names(f.players)
    ensures Coherent(Settled(f, winner, trick, next))
    ensures Settled(f, winner, trick, next).phase == Playing ==>
      |Settled(f, winner, trick, next).completedTricks| < 10 && Settled(f, winner, trick, next).currentTrick == next
  {
    TotalIncrement(f.tricksWon, winner);
  }

  /** Archiving a trick keeps a game scorable. */
  lemma TakenIsScorable(f: Fields, winner: string, trick: Trick)
    requires Scorable(f) && winner in f.tricksWon
    ensures Scorable(TrickTaken(f, winner, trick))
  {
  }

  /** A seat's counters. */
  datatype Points = Points(score: int, bullet: int, mountain: int)

  /** The counters of each seat, in seating order. */
  ghost function PointsOf(ps: seq<Player>): (r: seq<Points>)
    reads ps`score, ps`bullet, ps`mountain
    ensures |r| == |ps|
    ensures forall i :: 0 <= i < |ps| ==> r[i] == Points(ps[i].score, ps[i].bullet, ps[i].mountain)
  {
    if |ps| == 0 then []
    else PointsOf(ps[..|ps| - 1]) + [Points(ps[|ps| - 1].score, ps[|ps| - 1].bullet, ps[|ps| - 1].mountain)]
  }

  /** `before` lists the counters of the seats `ps`, in seating order. */
  ghost predicate CountersAre(ps: seq<Player>, before: seq<Points>)
    reads ps`score, ps`bullet, ps`mountain
  {
    |before| == |ps| && forall i :: 0 <= i < |ps| ==> before[i] == Points(ps[i].score, ps[i].bullet, ps[i].mountain)
  }

  /** A game whose declarer is seated, whose contract is set and whose
      tallies are those of its seats: what calculateScores reads. */
  ghost predicate Scorable(f: Fields) {
    f.declarer.Some? && f.declarer.value in Names(f.players) && f.contract.Some? &&
    f.tricksWon.Keys == Names(f.players)
  }

  /** What calculateScores gives the seat `seat` of a game whose fields are
      `f`: the declarer's seat (the first with the declarer's name) its
      DeclarerAward; on a game contract every seat with another name its
      DefenderAward; nothing to anybody else. */
  function Awarded(f: Fields, seat: nat): Award
    requires Scorable(f) && seat < |f.players|
  {
    var name := f.players[seat].username;
    if seat == DeclarerSeat(f) then DeclarerAward(f.contract.value, f.tricksWon[f.declarer.value])
    else if name == f.declarer.value then Award(0, 0)
    else DefenderAward(f.contract.value, f.tricksWon[name])
  }

  /** Every seat's score and mountain grew from `before` by what
      calculateScores awards it on the fields `f`; the bullets stayed. */
  ghost predicate Scored(ps: seq<Player>, f: Fields, before: seq<Points>)
    requires Scorable(f) && ps == f.players && |before| == |ps|
    reads ps
  {
    forall i :: 0 <= i < |ps| ==>
      ps[i].score == before[i].score + Awarded(f, i).score &&
      ps[i].mountain == before[i].mountain + Awarded(f, i).mountain &&
      ps[i].bullet == before[i].bullet
  }

  /** What playCard does with the complete trick `t` of a game whose fields
      were `f` and whose seats' counters were `before`, having visited its
      entries in `order`: the winner by the fold gets one more trick and `t`
      is archived; the tenth trick completes the round and scores it, any
      other opens an empty trick led by the winner with the counters as they
      were. */
  ghost predicate TrickSettled(f: Fields, before: seq<Points>, g: GameState, t: Trick, cards: map<string, Card>, order: seq<Play>)
    requires Scorable(f) && |before| == |f.players|
    reads g, g.players, g.currentTrick
  {
    Enumerates(order, cards) && |order| > 0 &&
    var w := TrickWinner(order, TrumpSuit(f.contract.value));
    w in f.tricksWon && w in Names(f.players) &&
    g.Snapshot() == Settled(f, w, t, g.currentTrick) &&
    (|f.completedTricks| == 9 ==> Scored(g.players, TrickTaken(f, w, t), before)) &&
    (|f.completedTricks| != 9 ==>
      g.currentTrick != null && g.currentTrick.cardsPlayed == map[] &&
      g.currentTrick.leadPlayer.None? && g.currentTrick.leadSuit.None? &&
      CountersAre(g.players, before))
  }

  /** The seat `seat` gave up one occurrence of `card`; no other hand
      changed. */
  twostate predicate HandPlayed(ps: seq<Player>, seat: nat, card: Card)
    reads ps`hand
  {
    seat < |ps| && ps[seat].hand == RemoveFirst(old(ps[seat].hand), card) &&
    forall i :: 0 <= i < |ps| && i != seat ==> ps[i].hand == old(ps[i].hand)
  }

  /** Trick.playCard: `card` recorded under `username`; the first card of
      the trick sets the lead. */
  twostate predicate CardAdded(t: Trick, username: string, card: Card)
    reads t
  {
    t.cardsPlayed == old(t.cardsPlayed)[username := card] &&
    (old(t.cardsPlayed) == map[] ==> t.leadPlayer == Some(username) && t.leadSuit == Some(card.suit)) &&
    (old(t.cardsPlayed) != map[] ==> t.leadPlayer == old(t.leadPlayer) && t.leadSuit == old(t.leadSuit))
  }

  /** What playCard does to a found game whose open trick was `t`: refused
      with nothing changed as PlayVerdict says; otherwise the card leaves the
      hand of the player's seat and goes into `t` under the player's name. A
      third card completes the trick, which is settled as TrickSettled says
      (the next trick is a new object); otherwise the turn passes on with the
      counters as they were. */
  twostate predicate PlayHandled(g: GameState, t: Trick?, before: seq<Points>, username: string, card: Card, new r: Outcome<ServiceError>, order: seq<Play>)
    requires old(g.currentTrick) == t
    reads g, g.players, g.currentTrick, t
  {
    var f := old(g.Snapshot());
    var hand := old(HandOf(g.players, username));
    var passes := f.phase == Playing && OnTurn(f, username) && card in hand;
    PlayVerdict(f, hand, username, card, r) &&
    (!passes ==> Untouched(g)) &&
    (passes ==> PlayTaken(g, f, t, before, username, card, order))
  }

  /** A card accepted from `username` in a game whose fields were `f`: it
      leaves the hand of the player's seat and goes into the open trick `t`
      under the player's name. A third card completes the trick, which is
      settled as TrickSettled says (the next trick is a new object);
      otherwise the turn passes on with the counters as they were. */
  twostate predicate PlayTaken(g: GameState, f: Fields, t: Trick?, before: seq<Points>, username: string, card: Card, order: seq<Play>)
    reads g, g.players, g.currentTrick, t
  {
    t != null && Scorable(f) && g.players == f.players &&
    username in Names(f.players) &&
    HandPlayed(g.players, FindPlayerIndex(f.players, username).value, card) &&
    CardAdded(t, username, card) &&
    (|t.cardsPlayed| == 3 ==>
      |before| == |f.players| && TrickSettled(f, before, g, t, t.cardsPlayed, order) &&
      (|f.completedTricks| != 9 ==> fresh(g.currentTrick))) &&
    (|t.cardsPlayed| != 3 ==>
      g.Snapshot() == NextTurn(f) && CountersAre(g.players, before))
  }

  class GameService {
    var activeGames: map<string, GameState>
    const availableRules: map<string, GameRules>

    /** Each game is filed under its own id. */
    ghost predicate Valid()
      reads this
    {
      forall id :: id in activeGames ==> activeGames[id].gameId == id
    }

    /** The objects of one game: its state, its seats and its open trick. */
    ghost function GameObjects(id: string): set<object>
      reads this, if id in activeGames then {activeGames[id]} else {}
    {
      if id !in activeGames then {}
      else
        var g := activeGames[id];
        {g as object} + (set i | 0 <= i < |g.players| :: g.players[i] as object) +
        (if g.currentTrick == null then {} else {g.currentTrick as object})
    }

    /** The game `id` as a frame: empty when there is no such game. */
    ghost function Games(id: string): set<GameState>
      reads this
    {
      if id in activeGames then {activeGames[id]} else {}
    }

    /** The seats of the game `id`, whose hands a deal replaces. */
    ghost function Seats(id: string): seq<Player>
      reads this, Games(id)
    {
      if id in activeGames then activeGames[id].players else []
    }

    /** A service with the loaded rule variants and no games (stored games
        are not loaded in this model). */
    constructor (availableRules: map<string, GameRules>)
      ensures activeGames == map[] && this.availableRules == availableRules
      ensures Valid()
    {
      activeGames := map[];
      this.availableRules := availableRules;
    }

    /** The game `id`, when it exists, satisfies its invariant. */
    ghost predicate GameIsValid(id: string)
      reads this, GameObjects(id)
    {
      id in activeGames ==> activeGames[id].Valid()
    }

    /** createGame: refused for an id in use; a non-empty rule id must name a
        loaded variant, otherwise the default variant is taken. The new game
        waits for players. */
    method CreateGame(gameId: string, ruleId: Option<string>) returns (r: Result<GameState, ServiceError>)
      requires Valid()
      modifies this
      ensures Valid()
      ensures r.Success? <==>
        gameId !in old(activeGames) && (ruleId.None? || ruleId.value == "" || ruleId.value in availableRules)
      ensures gameId in old(activeGames) ==> r == Failure(GameAlreadyExists(gameId))
      ensures gameId !in old(activeGames) && ruleId.Some? && ruleId.value != "" && ruleId.value !in availableRules ==>
        r == Failure(UnknownRules(ruleId.value))
      ensures r.Failure? ==> activeGames == old(activeGames)
      ensures r.Success? ==>
        fresh(r.value) && activeGames == old(activeGames)[gameId := r.value] &&
        r.value.gameId == gameId && r.value.players == [] && r.value.phase == WaitingForPlayers &&
        r.value.roundNumber == 1 && r.value.Valid() &&
        (if ruleId.Some? && ruleId.value != "" then r.value.rules == availableRules[ruleId.value]
         else IsDefaultChoice(availableRules, r.value.rules))
    {
      if gameId in activeGames {
        return Failure(GameAlreadyExists(gameId));
      }
      var rules: GameRules;
      if ruleId.Some? && ruleId.value != "" {
        var found := GetRules(availableRules, ruleId.value);
        if found.Failure? {
          return Failure(UnknownRules(ruleId.value));
        }
        rules := found.value;
      } else {
        rules := GetDefaultRules(availableRules);
      }
      var g := new GameState(gameId, Some(rules));
      activeGames := activeGames[gameId := g];
      return Success(g);
    }

    /** joinGame: refused for an unknown or a full game; otherwise a new
        player takes the next seat and the third join deals. `deck` is the
        deck of that deal. */
    method JoinGame(gameId: string, username: string, rnd: nat -> nat) returns (r: Result<GameState, ServiceError>, ghost deck: seq<Card>)
      requires Valid() && GameIsValid(gameId)
      modifies GameObjects(gameId)
      ensures activeGames == old(activeGames) && Valid() && GameIsValid(gameId)
      ensures gameId !in activeGames ==> r == Failure(GameNotFound(gameId))
      ensures gameId in activeGames && old(|activeGames[gameId].players|) == 3 ==>
        r == Failure(GameIsFull) && unchanged(activeGames[gameId])
      ensures gameId in activeGames && old(|activeGames[gameId].players|) < 3 ==>
        r == Success(activeGames[gameId]) && Seated(activeGames[gameId], username, deck, rnd)
    {
      deck := [];
      if gameId !in activeGames {
        return Failure(GameNotFound(gameId)), deck;
      }
      var g := activeGames[gameId];
      if g.IsFull() {
        return Failure(GameIsFull), deck;
      }
      deck := Join(g, username, rnd);
      return Success(g), deck;
    }

    /** placeBid: refused for an unknown game; otherwise as BidHandled
        says. */
    method PlaceBid(gameId: string, username: string, bid: Contract, rnd: nat -> nat) returns (r: Outcome<ServiceError>, ghost deck: seq<Card>)
      requires Valid() && GameIsValid(gameId)
      modifies Games(gameId), Seats(gameId)`hand
      ensures activeGames == old(activeGames) && Valid() && GameIsValid(gameId)
      ensures gameId !in activeGames ==> r == Fail(GameNotFound(gameId))
      ensures gameId in activeGames ==> BidHandled(activeGames[gameId], username, bid, r, deck, rnd)
    {
      deck := [];
      if gameId !in activeGames {
        return Fail(GameNotFound(gameId)), deck;
      }
      r, deck := PlaceBidIn(activeGames[gameId], username, bid, rnd);
      assert activeGames == old(activeGames);
    }

    /** exchangeWidow: refused for an unknown game; otherwise as
        ExchangeHandled says. */
    method ExchangeWidow(gameId: string, username: string, cards: seq<Card>) returns (r: Outcome<ServiceError>)
      requires Valid() && GameIsValid(gameId)
      modifies GameObjects(gameId)
      ensures activeGames == old(activeGames) && Valid() && GameIsValid(gameId)
      ensures gameId !in activeGames ==> r == Fail(GameNotFound(gameId))
      ensures gameId in activeGames ==> ExchangeHandled(activeGames[gameId], username, cards, r)
    {
      if gameId !in activeGames {
        return Fail(GameNotFound(gameId));
      }
      r := ExchangeWidowIn(activeGames[gameId], username, cards);
      assert activeGames == old(activeGames);
    }

    /** playCard: refused for an unknown game; otherwise as PlayHandled
        says, the counters compared with those before the call. */
    method PlayCard(gameId: string, username: string, card: Card) returns (r: Outcome<ServiceError>, ghost order: seq<Play>)
      requires Valid() && GameIsValid(gameId)
      modifies GameObjects(gameId)
      ensures activeGames == old(activeGames) && Valid() && GameIsValid(gameId)
      ensures gameId !in activeGames ==> r == Fail(GameNotFound(gameId))
      ensures gameId in activeGames ==>
        PlayHandled(activeGames[gameId], old(activeGames[gameId].currentTrick),
                    old(PointsOf(activeGames[gameId].players)), username, card, r, order)
    {
      order := [];
      if gameId !in activeGames {
        return Fail(GameNotFound(gameId)), order;
      }
      var g := activeGames[gameId];
      r, order := PlayCardIn(g, username, card);
      assert activeGames == old(activeGames);
    }

    /** startNextRound: refused for an unknown game; otherwise as
        NextRoundHandled says. The seats' counters carry over: only hands
        change. */
    method StartNextRound(gameId: string, rnd: nat -> nat) returns (r: Outcome<ServiceError>, ghost deck: seq<Card>)
      requires Valid() && GameIsValid(gameId)
      modifies Games(gameId), Seats(gameId)`hand
      ensures activeGames == old(activeGames) && Valid() && GameIsValid(gameId)
      ensures gameId !in activeGames ==> r == Fail(GameNotFound(gameId))
      ensures gameId in activeGames ==> NextRoundHandled(activeGames[gameId], r, deck, rnd)
    {
      deck := [];
      if gameId !in activeGames {
        return Fail(GameNotFound(gameId)), deck;
      }
      r, deck := StartNextRoundIn(activeGames[gameId], rnd);
      assert activeGames == old(activeGames);
    }

    /** getAvailableBids: refused for an unknown game; otherwise PASS, then
        every contract the game's rules and bids so far offer, in
        declaration order. Nothing changes. */
    method AvailableBids(gameId: string) returns (r: Result<seq<Contract>, ServiceError>)
      ensures gameId !in activeGames ==> r == Failure(GameNotFound(gameId))
      ensures gameId in activeGames ==>
        r.Success? && r.value == [Pass] + OfferedIn(activeGames[gameId].rules, activeGames[gameId].bids, AllContracts) &&
        (forall c :: c in r.value[1..] <==>
           Offered(activeGames[gameId].rules, activeGames[gameId].bids, c))
    {
      if gameId !in activeGames {
        return Failure(GameNotFound(gameId));
      }
      var g := activeGames[gameId];
      var available := GetAvailableBids(g.rules, g.bids);
      return Success(available);
    }

    /** getPlayerView: refused for an unknown game and for a user without a
        seat; otherwise the view ViewOf describes (ViewFacts says what it
        shows). Nothing changes. */
    method GetPlayerView(gameId: string, username: string) returns (r: Result<PlayerView, ServiceError>)
      requires Valid() && GameIsValid(gameId)
      ensures gameId !in activeGames ==> r == Failure(GameNotFound(gameId))
      ensures gameId in activeGames && username !in Names(activeGames[gameId].players) ==>
        r == Failure(PlayerNotInGame(username))
      ensures gameId in activeGames && username in Names(activeGames[gameId].players) ==>
        0 <= activeGames[gameId].currentPlayerIndex < |activeGames[gameId].players| &&
        r == Success(ViewOf(activeGames[gameId], username))
    {
      if gameId !in activeGames {
        return Failure(GameNotFound(gameId));
      }
      var g := activeGames[gameId];
      var seat := FindPlayerIndex(g.players, username);
      if seat.None? {
        return Failure(PlayerNotInGame(username));
      }
      var view := BuildView(g, username);
      return Success(view);
    }
  }

  /** What startNextRound does to a found game: refused with nothing
      changed unless the round is complete; otherwise the round is cleared
      (nextRound) and dealt again from `deck` (startRound). */
  twostate predicate NextRoundHandled(g: GameState, new r: Outcome<ServiceError>, deck: seq<Card>, rnd: nat -> nat)
    reads g, g.players, g.currentTrick
  {
    (old(g.phase) != RoundComplete ==> r == Fail(RoundNotComplete) && Untouched(g)) &&
    (old(g.phase) == RoundComplete ==>
      r == Ok && g.players == old(g.players) && DealtFrom(g, deck, rnd) &&
      g.Snapshot() == AfterRedeal(old(g.Snapshot()), deck))
  }

  /** startNextRound on a found game. */
  method StartNextRoundIn(g: GameState, rnd: nat -> nat) returns (r: Outcome<ServiceError>, ghost deck: seq<Card>)
    requires g.Valid()
    modifies g, g.players`hand
    ensures g.Valid() && NextRoundHandled(g, r, deck, rnd)
  {
    deck := [];
    if g.phase != RoundComplete {
      return Fail(RoundNotComplete), deck;
    }
    deck := Redeal(g, rnd);
    r := Ok;
  }

  /** The dealing part of startRound, from the shuffled deck `d`. */
  method DealRound(g: GameState, d: Deck)
    requires |g.players| == 3 && DistinctSeats(g.players) && |d.cards| == 32
    modifies g, g.players`hand, d
    ensures g.Snapshot() == Dealt(old(g.Snapshot()), old(d.cards))
    ensures HoldsDeal(g, old(d.cards))
  {
    ghost var deck := d.cards;
    DealHands(g.players, d);
    var widow := d.DealCards(2);
    assert widow.value == WidowOf(deck);
    g.SetWidow(widow.value);
    g.SetPhase(Bidding);
    g.SetCurrentPlayerIndex((g.dealerIndex + 1) % 3);
  }

  /** The loop of startRound over the seats: each hand is cleared and
      refilled with the next ten cards of the deck. */
  method DealHands(ps: seq<Player>, d: Deck)
    requires |ps| == 3 && DistinctSeats(ps) && |d.cards| == 32
    modifies ps`hand, d
    ensures ps[0].hand == Hand(old(d.cards), 0) && ps[1].hand == Hand(old(d.cards), 1) && ps[2].hand == Hand(old(d.cards), 2)
    ensures d.cards == old(d.cards)[30..]
  {
    ghost var deck := d.cards;
    var i := 0;
    while i < |ps|
      invariant 0 <= i <= 3
      invariant d.cards == deck[10 * i..]
      invariant forall j :: 0 <= j < i ==> ps[j].hand == Hand(deck, j)
    {
      var p := ps[i];
      p.ClearHand();
      var dealt := d.DealCards(10);
      p.AddCards(dealt.value);
      i := i + 1;
    }
  }

  /** nextRound on a valid game with three seats: every tally is 0. */
  method ClearRound(g: GameState)
    requires g.Valid() && |g.players| == 3
    modifies g
    ensures g.Snapshot() == Cleared(old(g.Snapshot()))
  {
    ResetAllIsZero(g.tricksWon, Names(g.players));
    g.NextRound();
  }

  /** A game just dealt, with every tally at 0 and bids only from its seats, is valid. */
  lemma DealtIsValid(g: GameState)
    requires |g.players| == 3 && DistinctSeats(g.players)
    requires g.phase == Bidding && g.bids.Keys <= Names(g.players) && g.completedTricks == []
    requires g.tricksWon == ZeroTallies(Names(g.players))
    requires 0 <= g.currentPlayerIndex < 3 && 0 <= g.dealerIndex < 3
    ensures g.Valid()
  {
    ResetTotal(g.tricksWon);
  }

  /** nextRound followed by startRound, as done after an all-pass auction
      and by startNextRound. */
  method Redeal(g: GameState, rnd: nat -> nat) returns (ghost deck: seq<Card>)
    requires g.Valid() && |g.players| == 3
    modifies g, g.players`hand
    ensures g.Valid() && DealtFrom(g, deck, rnd) && g.players == old(g.players)
    ensures g.Snapshot() == AfterRedeal(old(g.Snapshot()), deck)
  {
    ClearRound(g);
    ghost var cleared := g.Snapshot();
    deck := StartRoundOf(g, rnd);
    assert g.Snapshot() == Dealt(cleared, deck);
    DealtIsValid(g);
  }

  /** startRound: a fresh deck is shuffled, each seat's hand replaced by
      the next ten cards, the widow set to the next two; bidding starts
      with the seat after the dealer. `deck` is the shuffled deck. */
  method StartRoundOf(g: GameState, rnd: nat -> nat) returns (ghost deck: seq<Card>)
    requires |g.players| == 3 && DistinctSeats(g.players)
    modifies g, g.players`hand
    ensures DealtFrom(g, deck, rnd)
    ensures g.Snapshot() == Dealt(old(g.Snapshot()), deck)
  {
    var d := new Deck();
    ghost var initial := d.cards;
    d.Shuffle(rnd);
    deck := d.cards;
    assert InDeckOrder(initial) && deck == Shuffled(initial, rnd);
    DealRound(g, d);
  }

  /** The declaring branch of finalizeBidding. */
  method Declare(g: GameState, holder: string)
    requires g.Valid() && g.phase == Bidding && holder in g.bids && !IsPass(g.bids[holder])
    modifies g
    ensures g.Valid()
    ensures g.Snapshot() == Declared(old(g.Snapshot()), holder)
  {
    g.SetDeclarer(Some(holder));
    g.SetContract(Some(g.bids[holder]));
    g.SetPhase(WidowExchange);
    g.SetCurrentPlayerIndex(FindPlayerIndex(g.players, holder).value);
  }

  /** finalizeBidding: the running maximum over the bids finds the
      declarer; with none the round is played again. */
  method FinalizeBidding(g: GameState, rnd: nat -> nat) returns (ghost deck: seq<Card>)
    requires g.Valid() && g.phase == Bidding && IsBiddingComplete(g.bids)
    modifies g, g.players`hand
    ensures g.Valid() && g.players == old(g.players)
    ensures NoGameBid(old(g.bids)) ==>
      DealtFrom(g, deck, rnd) && g.Snapshot() == AfterRedeal(old(g.Snapshot()), deck)
    ensures !NoGameBid(old(g.bids)) ==>
      unchanged(g.players`hand) && g.Snapshot() == Declared(old(g.Snapshot()), GameBidder(old(g.bids)))
  {
    var holder, maxBid := MaxBid(g.bids);
    if holder.None? {
      deck := Redeal(g, rnd);
    } else {
      deck := [];
      GameBidderFacts(g.bids);
      Declare(g, holder.value);
    }
  }

  /** placeBid on a found game: the checks in their order, then the bid. */
  method PlaceBidIn(g: GameState, username: string, bid: Contract, rnd: nat -> nat) returns (r: Outcome<ServiceError>, ghost deck: seq<Card>)
    requires g.Valid()
    modifies g, g.players`hand
    ensures g.Valid() && BidHandled(g, username, bid, r, deck, rnd)
  {
    deck := [];
    r := CheckBid(g, username, bid);
    if r.Ok? {
      deck := Bid(g, username, bid, rnd);
    }
  }

  /** The checks of placeBid, in their order; validateBid's verdict is
      BidCheck, the result of ValidateBid. */
  function CheckBid(g: GameState, username: string, bid: Contract): (r: Outcome<ServiceError>)
    requires g.Valid()
    reads g, g.currentTrick
    ensures BidVerdict(g.Snapshot(), g.rules, username, bid, r)
  {
    if g.phase != Bidding then Fail(NotInBiddingPhase)
    else if FindPlayerIndex(g.players, username).None? then Fail(PlayerNotInGame(username))
    else if g.players[g.currentPlayerIndex].username != username then Fail(NotYourTurn)
    else match BidCheck(g.rules, g.bids, bid)
      case Fail(e) => Fail(InvalidBid(e))
      case Ok => Ok
  }

  /** The part of placeBid after its checks: the bid is recorded, then the
      auction is finalized or the turn passes on. */
  method Bid(g: GameState, username: string, bid: Contract, rnd: nat -> nat) returns (ghost deck: seq<Card>)
    requires g.Valid() && g.phase == Bidding && username in Names(g.players)
    modifies g, g.players`hand
    ensures g.players == old(g.players)
    ensures !BidRedeals(old(g.bids), username, bid) ==> unchanged(g.players`hand)
    ensures g.Valid() && BidTaken(old(g.Snapshot()), g, username, bid, deck, rnd)
  {
    var bids := g.bids[username := bid];
    if !IsBiddingComplete(bids) {
      BidAndPass(g, username, bid);
      deck := [];
    } else if NoGameBid(bids) {
      deck := BidAndRedeal(g, username, bid, rnd);
    } else {
      BidAndDeclare(g, username, bid, rnd);
      deck := [];
    }
  }

  /** placeBid on an auction that is not over yet: the turn passes on. */
  method BidAndPass(g: GameState, username: string, bid: Contract)
    requires g.Valid() && g.phase == Bidding && username in Names(g.players)
    requires !IsBiddingComplete(g.bids[username := bid])
    modifies g
    ensures g.Valid()
    ensures g.Snapshot() == Passed(old(g.Snapshot()), username, bid)
    ensures unchanged(g.players`hand)
  {
    g.PlaceBid(username, bid);
    g.NextPlayer();
  }

  /** placeBid on the last pass of an all-pass auction: finalizeBidding
      plays the round again. */
  method BidAndRedeal(g: GameState, username: string, bid: Contract, rnd: nat -> nat) returns (ghost deck: seq<Card>)
    requires g.Valid() && g.phase == Bidding && username in Names(g.players)
    requires BidRedeals(g.bids, username, bid)
    modifies g, g.players`hand
    ensures g.Valid() && DealtFrom(g, deck, rnd) && g.players == old(g.players)
    ensures g.Snapshot() == AfterRedeal(old(g.Snapshot()), deck)
  {
    ghost var before := g.Snapshot();
    g.PlaceBid(username, bid);
    assert g.Snapshot() == Recorded(before, username, bid);
    deck := FinalizeBidding(g, rnd);
    RedealForgetsBids(before, username, bid, deck);
  }

  /** placeBid on the bid that ends an auction with a game: finalizeBidding
      names the declarer. */
  method BidAndDeclare(g: GameState, username: string, bid: Contract, rnd: nat -> nat)
    requires g.Valid() && g.phase == Bidding && username in Names(g.players)
    requires IsBiddingComplete(g.bids[username := bid]) && !NoGameBid(g.bids[username := bid])
    modifies g, g.players`hand
    ensures g.Valid() && g.players == old(g.players) && unchanged(g.players`hand)
    ensures g.Snapshot() == Declared(Recorded(old(g.Snapshot()), username, bid), GameBidder(old(g.bids)[username := bid]))
  {
    ghost var before := g.Snapshot();
    g.PlaceBid(username, bid);
    assert g.Snapshot() == Recorded(before, username, bid);
    var deck := FinalizeBidding(g, rnd);
  }

  /** exchangeWidow on a found game: the checks, then the exchange. */
  method ExchangeWidowIn(g: GameState, username: string, cards: seq<Card>) returns (r: Outcome<ServiceError>)
    requires g.Valid()
    modifies g, g.players`hand
    ensures g.Valid() && ExchangeHandled(g, username, cards, r)
  {
    r := CheckExchange(g, username, cards);
    if r.Ok? {
      r := Exchange(g, cards);
    }
  }

  /** The checks of exchangeWidow, in their order. */
  function CheckExchange(g: GameState, username: string, cards: seq<Card>): (r: Outcome<ServiceError>)
    requires g.phase == WidowExchange ==> g.declarer.Some?
    reads g
    ensures ExchangeVerdict(g.Snapshot(), username, cards, r)
  {
    if g.phase != WidowExchange then Fail(NotInWidowExchangePhase)
    else if g.declarer.value != username then Fail(OnlyDeclarerCanExchange)
    else if |cards| != 2 then Fail(MustDiscardExactlyTwo)
    else Ok
  }

  /** The exchange itself: the widow into the declarer's hand, the discard,
      then the play starts. */
  method Exchange(g: GameState, cards: seq<Card>) returns (r: Outcome<ServiceError>)
    requires g.Valid() && g.phase == WidowExchange
    modifies g, g.players`hand
    ensures g.Valid() && g.players == old(g.players)
    ensures var seat := DeclarerSeat(old(g.Snapshot()));
      var out := Discard(old(g.players[seat].hand) + old(g.widow), cards);
      g.players[seat].hand == out.hand &&
      (forall i :: 0 <= i < |g.players| && i != seat ==> g.players[i].hand == old(g.players[i].hand)) &&
      (out.missing.Some? ==> r == Fail(InvalidCard(CardNotInHand(out.missing.value))) && g.Snapshot() == old(g.Snapshot())) &&
      (out.missing.None? ==>
        r == Ok && g.Snapshot() == PlayStarted(old(g.Snapshot()), seat, g.currentTrick) &&
        fresh(g.currentTrick) && g.currentTrick.cardsPlayed == map[] &&
        g.currentTrick.leadPlayer.None? && g.currentTrick.leadSuit.None?)
  {
    var seat := FindPlayerIndex(g.players, g.declarer.value).value;
    var declarer := g.players[seat];
    declarer.AddCards(g.widow);
    var discarded := DiscardCards(declarer, cards);
    if discarded.Fail? {
      return Fail(InvalidCard(discarded.error));
    }
    StartPlay(g, seat);
    r := Ok;
  }

  /** The loop of exchangeWidow over the cards to discard: removeCard on
      each, stopping at the first that throws. */
  method DiscardCards(p: Player, cards: seq<Card>) returns (r: Outcome<PlayerError>)
    modifies p`hand
    ensures p.hand == Discard(old(p.hand), cards).hand
    ensures Discard(old(p.hand), cards).missing.None? ==> r == Ok
    ensures Discard(old(p.hand), cards).missing.Some? ==> r == Fail(CardNotInHand(Discard(old(p.hand), cards).missing.value))
  {
    var i := 0;
    while i < |cards|
      invariant 0 <= i <= |cards|
      invariant Discard(old(p.hand), cards[..i]) == Discarded(p.hand, None)
    {
      assert cards[..i + 1][..i] == cards[..i];
      var removed := p.RemoveCard(cards[i]);
      if removed.Failure? {
        DiscardStops(old(p.hand), cards, i);
        return Fail(removed.error);
      }
      i := i + 1;
    }
    assert cards[..i] == cards;
    return Ok;
  }

  /** Once a card is missing, the cards after it do not matter. */
  lemma {:induction false} DiscardStops(hand: seq<Card>, cards: seq<Card>, i: nat)
    requires i < |cards| && Discard(hand, cards[..i]).missing.None?
    requires cards[i] !in Discard(hand, cards[..i]).hand
    ensures Discard(hand, cards) == Discarded(Discard(hand, cards[..i]).hand, Some(cards[i]))
    decreases |cards| - i
  {
    var stopped := Discarded(Discard(hand, cards[..i]).hand, Some(cards[i]));
    assert cards[..i + 1][..i] == cards[..i];
    assert Discard(hand, cards[..i + 1]) == stopped;
    StaysStopped(hand, cards, i + 1);
  }

  /** A stopped discard stays stopped. */
  lemma {:induction false} StaysStopped(hand: seq<Card>, cards: seq<Card>, k: nat)
    requires k <= |cards| && Discard(hand, cards[..k]).missing.Some?
    ensures Discard(hand, cards) == Discard(hand, cards[..k])
    decreases |cards| - k
  {
    if k < |cards| {
      assert cards[..k + 1][..k] == cards[..k];
      assert Discard(hand, cards[..k + 1]) == Discard(hand, cards[..k]);
      StaysStopped(hand, cards, k + 1);
    } else {
      assert cards[..k] == cards;
    }
  }

  /** The end of exchangeWidow: the phase, the declarer's turn, a new trick. */
  method StartPlay(g: GameState, seat: nat)
    requires g.Valid() && g.phase == WidowExchange && seat < |g.players|
    modifies g
    ensures g.Valid()
    ensures g.Snapshot() == PlayStarted(old(g.Snapshot()), seat, g.currentTrick)
    ensures fresh(g.currentTrick) && g.currentTrick.cardsPlayed == map[]
    ensures g.currentTrick.leadPlayer.None? && g.currentTrick.leadSuit.None?
  {
    g.SetPhase(Playing);
    g.SetCurrentPlayerIndex(seat);
    var trick := new Trick();
    g.SetCurrentTrick(trick);
  }

  /** The seating part of joinGame, on a game with a free seat. */
  method Join(g: GameState, username: string, rnd: nat -> nat) returns (ghost deck: seq<Card>)
    requires g.Valid() && |g.players| < 3
    modifies g, g.players
    ensures g.Valid() && Seated(g, username, deck, rnd)
  {
    var player := SeatNewPlayer(g, username);
    deck := DealIfFull(g, rnd);
  }

  /** The last step of joinGame: the round is dealt once the third seat is
      taken. */
  method DealIfFull(g: GameState, rnd: nat -> nat) returns (ghost deck: seq<Card>)
    requires g.Valid() && g.phase == WaitingForPlayers && DistinctSeats(g.players)
    requires g.tricksWon == ZeroTallies(Names(g.players))
    modifies g, g.players`hand
    ensures g.Valid() && g.players == old(g.players)
    ensures |g.players| < 3 ==> deck == [] && unchanged(g) && unchanged(g.players)
    ensures |g.players| == 3 ==>
      DealtFrom(g, deck, rnd) &&
      g.Snapshot() == Dealt(old(g.Snapshot()), deck)
  {
    deck := [];
    if g.IsFull() {
      deck := StartRoundOf(g, rnd);
      DealtIsValid(g);
    }
  }

  /** new Player(username) and addPlayer on a waiting game with a free
      seat. */
  method SeatNewPlayer(g: GameState, username: string) returns (p: Player)
    requires g.Valid() && |g.players| < 3
    modifies g
    ensures fresh(p) && p.username == username && p.hand == []
    ensures p.score == 0 && p.bullet == 0 && p.mountain == 0
    ensures g.Valid() && DistinctSeats(g.players)
    ensures g.Snapshot() == old(g.Snapshot()).(players := old(g.players) + [p],
                                               tricksWon := old(g.tricksWon)[username := 0])
    ensures g.tricksWon == ZeroTallies(Names(g.players))
  {
    p := new Player(username);
    var added := g.AddPlayer(p);
    SeatedIsValid(g, old(g.players), p);
  }

  /** A waiting game is still valid after one more distinct player sits
      down with a tally of 0. */
  lemma SeatedIsValid(g: GameState, before: seq<Player>, p: Player)
    requires |before| < 3 && DistinctSeats(before) && p !in before && g.players == before + [p]
    requires g.phase == WaitingForPlayers && g.currentPlayerIndex == 0 && 0 <= g.dealerIndex < 3
    requires g.bids.Keys <= Names(before) && g.completedTricks == []
    requires forall k :: k in g.tricksWon ==> g.tricksWon[k] == 0
    requires g.tricksWon.Keys == Names(before) + {p.username}
    ensures g.Valid() && DistinctSeats(g.players)
    ensures g.tricksWon == ZeroTallies(Names(g.players))
  {
    NamesOfAppend(before, p);
    DistinctSeatsAppend(before, p);
    ResetTotal(g.tricksWon);
  }

  /** playCard on a found game: the checks in their order, then the play. */
  method PlayCardIn(g: GameState, username: string, card: Card) returns (r: Outcome<ServiceError>, ghost order: seq<Play>)
    requires g.Valid()
    modifies g, g.currentTrick, g.players`hand, g.players`score, g.players`mountain
    ensures PlayHandled(g, old(g.currentTrick), old(PointsOf(g.players)), username, card, r, order)
    ensures g.Valid()
  {
    ghost var f, before := g.Snapshot(), PointsOf(g.players);
    r, order := PlayChecked(g, username, card, f, before);
  }

  /** playCard on a game whose fields are `f` and whose seats' counters are
      `before`: the checks, then the card is placed and the trick settled or
      the turn passed on. */
  method PlayChecked(g: GameState, username: string, card: Card, ghost f: Fields, ghost before: seq<Points>)
      returns (r: Outcome<ServiceError>, ghost order: seq<Play>)
    requires g.Valid() && g.Snapshot() == f && CountersAre(g.players, before)
    modifies g, g.currentTrick, g.players`hand, g.players`score, g.players`mountain
    ensures PlayHandled(g, f.currentTrick, before, username, card, r, order)
    ensures g.Valid()
  {
    order := [];
    r := CheckPlay(g, username, card);
    if r.Fail? {
      return;
    }
    PlayingFacts(f);
    order := Play(g, username, card, f, before);
    PlayKeepsValid(g, f, f.currentTrick, before, order);
  }

  /** An accepted card: it is placed, then the trick is settled or the turn
      passed on. */
  method Play(g: GameState, username: string, card: Card, ghost f: Fields, ghost before: seq<Points>)
      returns (ghost order: seq<Play>)
    requires g.Snapshot() == f && CountersAre(g.players, before) && Coherent(f)
    requires f.phase == Playing && OnTurn(f, username) && card in HandOf(f.players, username)
    requires Scorable(f) && f.currentTrick != null && f.currentTrick.cardsPlayed.Keys <= Names(f.players)
    modifies g, g.currentTrick, g.players`hand, g.players`score, g.players`mountain
    ensures g.players == f.players && username in Names(f.players)
    ensures HandPlayed(g.players, FindPlayerIndex(f.players, username).value, card)
    ensures CardAdded(f.currentTrick, username, card)
    ensures |f.currentTrick.cardsPlayed| == 3 ==>
      TrickSettled(f, before, g, f.currentTrick, f.currentTrick.cardsPlayed, order)
    ensures |f.currentTrick.cardsPlayed| == 3 && |f.completedTricks| != 9 ==> fresh(g.currentTrick)
    ensures |f.currentTrick.cardsPlayed| != 3 ==> g.Snapshot() == NextTurn(f) && CountersAre(g.players, before)
  {
    PlaceCard(g, username, card, f);
    order := FinishPlay(g, f, before);
  }

  /** A played card keeps the game valid: a settled trick keeps the
      invariant (SettledIsCoherent), and so does passing the turn with a
      trick of fewer than three cards. */
  lemma PlayKeepsValid(g: GameState, f: Fields, t: Trick, before: seq<Points>, order: seq<Play>)
    requires Coherent(f) && Scorable(f) && f.phase == Playing && f.currentTrick == t && |f.completedTricks| < 10
    requires t.cardsPlayed.Keys <= Names(f.players) && |before| == |f.players|
    requires |t.cardsPlayed| == 3 ==> TrickSettled(f, before, g, t, t.cardsPlayed, order)
    requires |t.cardsPlayed| != 3 ==> g.Snapshot() == NextTurn(f)
    ensures g.Valid()
  {
    if |t.cardsPlayed| == 3 {
      SettledIsCoherent(f, TrickWinner(order, TrumpSuit(f.contract.value)), t, g.currentTrick);
    } else {
      NextTurnIsCoherent(f);
      TrickBound(t.cardsPlayed, f.players);
    }
  }

  /** The checks of playCard, in their order; a card the player's seat does
      not hold is removeCard's refusal, which comes before any change. */
  function CheckPlay(g: GameState, username: string, card: Card): (r: Outcome<ServiceError>)
    requires g.phase == Playing ==> 0 <= g.currentPlayerIndex < |g.players|
    reads g, g.players
    ensures PlayVerdict(g.Snapshot(), HandOf(g.players, username), username, card, r)
  {
    if g.phase != Playing then Fail(NotInPlayingPhase)
    else match FindPlayerIndex(g.players, username)
      case None => Fail(PlayerNotInGame(username))
      case Some(seat) =>
        if g.players[g.currentPlayerIndex].username != username then Fail(NotYourTurn)
        else if card !in g.players[seat].hand then Fail(InvalidCard(CardNotInHand(card)))
        else Ok
  }

  /** The first part of playCard after its checks: the card leaves the
      hand of the player's seat and joins the open trick under the player's
      name. */
  method PlaceCard(g: GameState, username: string, card: Card, ghost f: Fields)
    requires g.Snapshot() == f && OnTurn(f, username) && card in HandOf(f.players, username)
    requires f.currentTrick != null && f.currentTrick.cardsPlayed.Keys <= Names(f.players) && DistinctSeats(f.players)
    modifies g.players`hand, g.currentTrick
    ensures HandPlayed(f.players, FindPlayerIndex(f.players, username).value, card)
    ensures CardAdded(f.currentTrick, username, card)
    ensures f.currentTrick.cardsPlayed.Keys <= Names(f.players) && |f.currentTrick.cardsPlayed| <= |f.players|
  {
    var seat := FindPlayerIndex(g.players, username).value;
    var removed := g.players[seat].RemoveCard(card);
    g.currentTrick.PlayCard(username, card);
    TrickBound(g.currentTrick.cardsPlayed, g.players);
  }

  /** The rest of playCard: a complete trick is settled, otherwise the turn
      passes on. */
  method FinishPlay(g: GameState, ghost f: Fields, ghost before: seq<Points>) returns (ghost order: seq<Play>)
    requires g.Snapshot() == f && CountersAre(g.players, before)
    requires f.currentTrick != null && f.currentTrick.cardsPlayed.Keys <= Names(f.players)
    requires Scorable(f) && DistinctSeats(f.players) && |f.players| == 3
    modifies g, g.players`score, g.players`mountain
    ensures g.players == f.players
    ensures unchanged(f.currentTrick) && unchanged(f.players`hand)
    ensures |f.currentTrick.cardsPlayed| == 3 ==>
      TrickSettled(f, before, g, f.currentTrick, f.currentTrick.cardsPlayed, order)
    ensures |f.currentTrick.cardsPlayed| == 3 && |f.completedTricks| != 9 ==> fresh(g.currentTrick)
    ensures |f.currentTrick.cardsPlayed| != 3 ==> g.Snapshot() == NextTurn(f) && CountersAre(g.players, before)
  {
    if g.currentTrick.IsComplete(3) {
      var winner;
      winner, order := SettleTrick(g, f, before, g.currentTrick.cardsPlayed);
    } else {
      order := [];
      g.NextPlayer();
    }
  }

  /** A trick holds at most one card per seated name. */
  lemma TrickBound(cards: map<string, Card>, ps: seq<Player>)
    requires cards.Keys <= Names(ps)
    ensures |cards| <= |ps|
  {
    NamesBound(ps);
    assert Names(ps) == cards.Keys + (Names(ps) - cards.Keys);
  }

  /** At most as many names as seats. */
  lemma {:induction false} NamesBound(ps: seq<Player>)
    ensures |Names(ps)| <= |ps|
  {
    if |ps| > 0 {
      var init := ps[..|ps| - 1];
      NamesBound(init);
      NamesOfAppend(init, ps[|ps| - 1]);
      assert init + [ps[|ps| - 1]] == ps;
    }
  }

  /** The settlement of a complete trick: the winner takes it, then the
      round ends or the next trick opens. */
  method SettleTrick(g: GameState, ghost f: Fields, ghost before: seq<Points>, ghost cards: map<string, Card>)
      returns (winner: string, ghost order: seq<Play>)
    requires g.Snapshot() == f && CountersAre(g.players, before)
    requires f.currentTrick != null && f.currentTrick.cardsPlayed == cards && Scorable(f) && DistinctSeats(f.players)
    requires |cards| == 3 && cards.Keys <= Names(f.players)
    modifies g, g.players`score, g.players`mountain
    ensures g.players == f.players && |before| == |f.players|
    ensures TrickSettled(f, before, g, f.currentTrick, cards, order)
    ensures |f.completedTricks| != 9 ==> fresh(g.currentTrick)
  {
    winner, order := TakeTrick(g, cards);
    TakenIsScorable(f, winner, f.currentTrick);
    CloseTrick(g, TrickTaken(f, winner, f.currentTrick), before, winner);
  }

  /** After the archive: the tenth trick completes the round with the
      scores calculated, any other opens a new trick led by the winner's
      seat. */
  method CloseTrick(g: GameState, ghost taken: Fields, ghost before: seq<Points>, winner: string)
    requires g.Snapshot() == taken && CountersAre(g.players, before)
    requires Scorable(taken) && DistinctSeats(taken.players) && winner in Names(taken.players)
    modifies g, g.players`score, g.players`mountain
    ensures g.players == taken.players
    ensures |taken.completedTricks| == 10 ==>
      g.Snapshot() == taken.(phase := RoundComplete) && Scored(g.players, taken, before)
    ensures |taken.completedTricks| != 10 ==>
      g.Snapshot() == NextTrick(taken, winner, g.currentTrick) && CountersAre(g.players, before) &&
      fresh(g.currentTrick) && g.currentTrick.cardsPlayed == map[] &&
      g.currentTrick.leadPlayer.None? && g.currentTrick.leadSuit.None?
  {
    if |g.completedTricks| == 10 {
      EndRound(g, taken, before);
    } else {
      OpenTrick(g, winner);
    }
  }

  /** getWinner with the contract's trump, the winner's tally, the
      archive. */
  method TakeTrick(g: GameState, ghost cards: map<string, Card>) returns (winner: string, ghost order: seq<Play>)
    requires g.currentTrick != null && g.currentTrick.cardsPlayed == cards && g.contract.Some? && cards != map[]
    requires cards.Keys <= Names(g.players) && g.tricksWon.Keys == Names(g.players)
    modifies g
    ensures Enumerates(order, cards) && |order| > 0
    ensures winner == TrickWinner(order, TrumpSuit(old(g.contract).value))
    ensures winner in old(g.tricksWon) && winner in Names(g.players)
    ensures g.Snapshot() == TrickTaken(old(g.Snapshot()), winner, old(g.currentTrick))
  {
    ghost var f := g.Snapshot();
    var trick := g.currentTrick;
    var found, visited := trick.GetWinner(TrumpSuit(g.contract.value));
    winner, order := found.value, visited;
    assert winner in f.tricksWon;
    g.IncrementTricksWon(winner);
    assert g.Snapshot() == f.(tricksWon := f.tricksWon[winner := f.tricksWon[winner] + 1]);
    g.AddCompletedTrick(trick);
  }

  /** The tenth trick: calculateScores, then the round is complete. */
  method EndRound(g: GameState, ghost f: Fields, ghost before: seq<Points>)
    requires g.Snapshot() == f && CountersAre(g.players, before) && Scorable(f) && DistinctSeats(f.players)
    modifies g, g.players`score, g.players`mountain
    ensures g.Snapshot() == f.(phase := RoundComplete)
    ensures Scored(g.players, f, before)
  {
    CalculateScores(g, f, before);
    g.SetPhase(RoundComplete);
  }

  /** Any other trick: a new trick, led by the winner's seat. */
  method OpenTrick(g: GameState, winner: string)
    requires winner in Names(g.players)
    modifies g
    ensures g.Snapshot() == NextTrick(old(g.Snapshot()), winner, g.currentTrick)
    ensures fresh(g.currentTrick) && g.currentTrick.cardsPlayed == map[]
    ensures g.currentTrick.leadPlayer.None? && g.currentTrick.leadSuit.None?
  {
    var next := new Trick();
    g.SetCurrentTrick(next);
    g.SetCurrentPlayerIndex(FindPlayerIndex(g.players, winner).value);
  }

  /** calculateScores: the declarer's award first, then, on a game
      contract, each seat with another name scores its own tricks. */
  method CalculateScores(g: GameState, ghost f: Fields, ghost before: seq<Points>)
    requires g.Snapshot() == f && CountersAre(g.players, before) && Scorable(f) && DistinctSeats(f.players)
    modifies g.players`score, g.players`mountain
    ensures Scored(g.players, f, before)
  {
    var contract, name := g.contract.value, g.declarer.value;
    var ps := g.players;
    var seat := FindPlayerIndex(ps, name).value;
    var taken := g.tricksWon[name];
    AwardDeclarerSeat(ps, seat, contract, taken, before);
    if !IsMiser(contract) {
      PayDefenders(ps, name, g.tricksWon);
    }
    forall j | 0 <= j < |ps|
      ensures ps[j].score == before[j].score + Awarded(f, j).score &&
        ps[j].mountain == before[j].mountain + Awarded(f, j).mountain &&
        ps[j].bullet == before[j].bullet
    {
      AwardedParts(f, j);
    }
  }

  /** Awarded split into the declarer's part, which only the declarer's seat
      gets, and the defenders' tricks on a game contract. */
  lemma AwardedParts(f: Fields, j: nat)
    requires Scorable(f) && j < |f.players|
    ensures var name := f.players[j].username;
      Awarded(f, j).score ==
        (if j == DeclarerSeat(f) then DeclarerAward(f.contract.value, f.tricksWon[f.declarer.value]).score else 0) +
        (if !IsMiser(f.contract.value) && name != f.declarer.value then f.tricksWon[name] else 0)
    ensures Awarded(f, j).mountain ==
      (if j == DeclarerSeat(f) then DeclarerAward(f.contract.value, f.tricksWon[f.declarer.value]).mountain else 0)
  {
  }

  /** The score calculateScores hands out to the first `n` seats. */
  ghost function ScoreHandedOut(f: Fields, n: nat): int
    requires Scorable(f) && n <= |f.players|
  {
    if n == 0 then 0 else ScoreHandedOut(f, n - 1) + Awarded(f, n - 1).score
  }

  /** The tallies of the first `n` seats not named `d`. */
  ghost function TricksOfOthers(m: map<string, int>, ps: seq<Player>, d: string, n: nat): int
    requires n <= |ps| && forall i :: 0 <= i < |ps| ==> ps[i].username in m
  {
    if n == 0 then 0
    else TricksOfOthers(m, ps, d, n - 1) + (if ps[n - 1].username != d then m[ps[n - 1].username] else 0)
  }

  /** The first `n` seats get the declarer's award if the declarer's seat
      is among them and, on a game contract, the tricks of every seat among
      them with another name. */
  lemma {:induction false} HandedOutSoFar(f: Fields, n: nat)
    requires Scorable(f) && n <= |f.players|
    ensures forall i :: 0 <= i < |f.players| ==> f.players[i].username in f.tricksWon
    ensures ScoreHandedOut(f, n) ==
      (if DeclarerSeat(f) < n then DeclarerAward(f.contract.value, f.tricksWon[f.declarer.value]).score else 0) +
      (if IsMiser(f.contract.value) then 0 else TricksOfOthers(f.tricksWon, f.players, f.declarer.value, n))
  {
    if n > 0 {
      HandedOutSoFar(f, n - 1);
      AwardedParts(f, n - 1);
    }
  }

  /** With distinct names, the tallies of the first `n` seats not named `d`
      sum to the tally total over their names other than `d`. */
  lemma {:induction false} OthersSum(m: map<string, int>, ps: seq<Player>, d: string, n: nat)
    requires n <= |ps| && DistinctNames(ps) && forall i :: 0 <= i < |ps| ==> ps[i].username in m
    ensures Names(ps[..n]) <= m.Keys
    ensures TricksOfOthers(m, ps, d, n) == SumOver(m, Names(ps[..n]) - {d})
  {
    if n == 0 {
      assert Names(ps[..0]) == {};
    } else {
      OthersSum(m, ps, d, n - 1);
      var init, x := ps[..n - 1], ps[n - 1].username;
      NamesOfPrefix(ps, n);
      forall i | 0 <= i < |init| ensures init[i].username != x {
        assert init[i] == ps[i];
      }
      if x == d {
        assert Names(ps[..n]) - {d} == Names(init) - {d};
      } else {
        assert (Names(ps[..n]) - {d}) - {x} == Names(init) - {d};
        SumOverRemove(m, Names(ps[..n]) - {d}, x);
      }
    }
  }

  /** calculateScores hands out, besides the declarer's award, exactly the
      tricks the declarer did not take on a game contract (the defenders'
      tricks) and nothing more on MISER, when the names are distinct and
      the tallies count the ten tricks of the round. */
  lemma RoundScoreTotal(f: Fields)
    requires Scorable(f) && DistinctNames(f.players) && Total(f.tricksWon) == 10
    ensures var taken := f.tricksWon[f.declarer.value];
      ScoreHandedOut(f, |f.players|) ==
        DeclarerAward(f.contract.value, taken).score + (if IsMiser(f.contract.value) then 0 else 10 - taken)
  {
    var ps := f.players;
    HandedOutSoFar(f, |ps|);
    OthersSum(f.tricksWon, ps, f.declarer.value, |ps|);
    assert ps[..|ps|] == ps;
    SumOverRemove(f.tricksWon, f.tricksWon.Keys, f.declarer.value);
  }

  /** The declarer's award goes to its seat alone; every other seat's
      counters stay as they were. */
  method AwardDeclarerSeat(ps: seq<Player>, seat: nat, contract: Contract, taken: int, ghost before: seq<Points>)
    requires seat < |ps| && DistinctSeats(ps) && CountersAre(ps, before)
    modifies ps`score, ps`mountain
    ensures forall j :: 0 <= j < |ps| ==>
      ps[j].score == before[j].score + (if j == seat then DeclarerAward(contract, taken).score else 0) &&
      ps[j].mountain == before[j].mountain + (if j == seat then DeclarerAward(contract, taken).mountain else 0) &&
      ps[j].bullet == before[j].bullet
  {
    ScoreDeclarer(ps[seat], contract, taken);
  }

  /** The declarer's part of calculateScores: DeclarerAward added to the
      score or to the mountain. */
  method ScoreDeclarer(declarer: Player, contract: Contract, taken: int)
    modifies declarer`score, declarer`mountain
    ensures declarer.score == old(declarer.score) + DeclarerAward(contract, taken).score
    ensures declarer.mountain == old(declarer.mountain) + DeclarerAward(contract, taken).mountain
  {
    var needed := Tricks(contract);
    if IsMiser(contract) {
      if taken == 0 {
        declarer.AddScore(10);
      } else {
        declarer.AddMountain(10);
      }
    } else {
      if taken >= needed {
        declarer.AddScore(needed);
      } else {
        declarer.AddMountain(needed);
      }
    }
  }

  /** The defenders' part of calculateScores on a game contract: every seat
      whose name is not the declarer's adds the tricks it took to its
      score. */
  method PayDefenders(ps: seq<Player>, declarer: string, tricksWon: map<string, int>)
    requires DistinctSeats(ps) && Names(ps) <= tricksWon.Keys
    modifies ps`score
    ensures forall j :: 0 <= j < |ps| ==>
      ps[j].score == old(ps[j].score) + (if ps[j].username != declarer then tricksWon[ps[j].username] else 0)
  {
    var i := 0;
    while i < |ps|
      invariant 0 <= i <= |ps|
      invariant forall j :: 0 <= j < |ps| ==>
        ps[j].score == old(ps[j].score) + (if j < i && ps[j].username != declarer then tricksWon[ps[j].username] else 0)
    {
      var p := ps[i];
      if p.username != declarer {
        p.AddScore(tricksWon[p.username]);
      }
      i := i + 1;
    }
  }
}
