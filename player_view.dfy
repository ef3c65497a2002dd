/** What one player is shown of a game (PlayerView.java and the projection
    built by GameService.getPlayerView). The free-text description of the
    next step is not part of this model. */
module Views {
  import opened Wrappers
  import opened Cards
  import opened Contracts
  import opened Players
  import opened States
  import opened Validation

  /** The action names of allowedActions: "BID", "EXCHANGE_WIDOW",
      "PLAY_CARD", "VIEW_SCORES". */
  datatype Action = BidAction | ExchangeWidowAction | PlayCardAction | ViewScoresAction

  /** The view. Absent values (Java null) are None; PlayerView turns a null
      list into an empty one. */
  datatype PlayerView = PlayerView(
    gameId: string,
    playerUsername: string,
    phase: GamePhase,
    roundNumber: int,
    hand: seq<Card>,
    otherPlayers: seq<string>,
    currentPlayerUsername: Option<string>,
    isYourTurn: bool,
    allowedActions: seq<Action>,
    bids: map<string, string>,
    highestBid: Option<Contract>,
    widow: seq<Card>,
    contract: Option<Contract>,
    declarerUsername: Option<string>,
    trumpSuit: Option<Suit>,
    currentTrick: map<string, Card>,
    tricksWon: map<string, int>,
    scores: map<string, int>,
    bullets: map<string, int>,
    mountains: map<string, int>)

  /** The switch over the phase in getPlayerView: bidding and playing are
      offered to the player whose turn it is, the widow exchange to the
      declarer, the scores to everyone once the round is complete. */
  function AllowedActions(phase: GamePhase, isYourTurn: bool, isDeclarer: bool): (actions: seq<Action>)
    ensures |actions| <= 1
    ensures BidAction in actions <==> phase == Bidding && isYourTurn
    ensures PlayCardAction in actions <==> phase == Playing && isYourTurn
    ensures ExchangeWidowAction in actions <==> phase == WidowExchange && isDeclarer
    ensures ViewScoresAction in actions <==> phase == RoundComplete
    ensures phase.WaitingForPlayers? || phase.GameComplete? ==> actions == []
  {
    match phase
    case WaitingForPlayers => []
    case Bidding => if isYourTurn then [BidAction] else []
    case WidowExchange => if isDeclarer then [ExchangeWidowAction] else []
    case Playing => if isYourTurn then [PlayCardAction] else []
    case RoundComplete => [ViewScoresAction]
    case GameComplete => []
  }

  /** The usernames of the seats other than `name`'s, in seating order. */
  function OtherNames(ps: seq<Player>, name: string): seq<string> {
    if |ps| == 0 then []
    else OtherNames(ps[..|ps| - 1], name) + (if ps[|ps| - 1].username != name then [ps[|ps| - 1].username] else [])
  }

  /** otherPlayers lists every seated player except the viewer. */
  lemma {:induction false} OtherNamesMembers(ps: seq<Player>, name: string)
    ensures forall n :: n in OtherNames(ps, name) <==> n in Names(ps) && n != name
    ensures |OtherNames(ps, name)| <= |ps|
  {
    if |ps| > 0 {
      var init := ps[..|ps| - 1];
      OtherNamesMembers(init, name);
      NamesOfAppend(init, ps[|ps| - 1]);
      assert init + [ps[|ps| - 1]] == ps;
    }
  }

  /** The loop building otherPlayers. */
  method OtherPlayers(ps: seq<Player>, name: string) returns (others: seq<string>)
    ensures others == OtherNames(ps, name)
  {
    others := [];
    var i := 0;
    while i < |ps|
      invariant 0 <= i <= |ps|
      invariant others == OtherNames(ps[..i], name)
    {
      assert ps[..i + 1][..i] == ps[..i];
      if ps[i].username != name {
        others := others + [ps[i].username];
      }
      i := i + 1;
    }
    assert ps[..i] == ps;
  }

  datatype Counter = ScoreCounter | BulletCounter | MountainCounter

  function CounterOf(p: Player, which: Counter): int
    reads p
  {
    match which
    case ScoreCounter => p.score
    case BulletCounter => p.bullet
    case MountainCounter => p.mountain
  }

  /** The map built by putting every seat's counter under its username in
      seating order; a later seat with the same name overwrites. */
  function CounterMap(ps: seq<Player>, which: Counter): map<string, int>
    reads ps
  {
    if |ps| == 0 then map[]
    else CounterMap(ps[..|ps| - 1], which)[ps[|ps| - 1].username := CounterOf(ps[|ps| - 1], which)]
  }

  /** Every seated name has an entry, and it is the counter of the last seat
      with that name (the only one when names are distinct). */
  lemma {:induction false} CounterMapFacts(ps: seq<Player>, which: Counter)
    ensures CounterMap(ps, which).Keys == Names(ps)
    ensures forall j :: 0 <= j < |ps| && (forall l :: j < l < |ps| ==> ps[l].username != ps[j].username) ==>
              CounterMap(ps, which)[ps[j].username] == CounterOf(ps[j], which)
  {
    if |ps| > 0 {
      var init := ps[..|ps| - 1];
      CounterMapFacts(init, which);
      NamesOfAppend(init, ps[|ps| - 1]);
      assert init + [ps[|ps| - 1]] == ps;
      forall j | 0 <= j < |ps| - 1 && (forall l :: j < l < |ps| ==> ps[l].username != ps[j].username)
        ensures CounterMap(ps, which)[ps[j].username] == CounterOf(ps[j], which)
      {
        assert init[j] == ps[j];
        assert forall l :: j < l < |init| ==> init[l].username != init[j].username by {
          forall l | j < l < |init| ensures init[l].username != init[j].username {
            assert init[l] == ps[l];
          }
        }
      }
    }
  }

  /** The loop building the scores, bullets and mountains maps. */
  method CounterMaps(ps: seq<Player>) returns (scores: map<string, int>, bullets: map<string, int>, mountains: map<string, int>)
    ensures scores == CounterMap(ps, ScoreCounter)
    ensures bullets == CounterMap(ps, BulletCounter)
    ensures mountains == CounterMap(ps, MountainCounter)
  {
    scores, bullets, mountains := map[], map[], map[];
    var i := 0;
    while i < |ps|
      invariant 0 <= i <= |ps|
      invariant scores == CounterMap(ps[..i], ScoreCounter)
      invariant bullets == CounterMap(ps[..i], BulletCounter)
      invariant mountains == CounterMap(ps[..i], MountainCounter)
    {
      assert ps[..i + 1][..i] == ps[..i];
      var p := ps[i];
      scores := scores[p.username := p.score];
      bullets := bullets[p.username := p.bullet];
      mountains := mountains[p.username := p.mountain];
      i := i + 1;
    }
    assert ps[..i] == ps;
  }

  /** The bids map of the view: each bid by its display name. */
  function BidNames(bids: map<string, Contract>): (shown: map<string, string>)
    ensures shown.Keys == bids.Keys
    ensures forall k :: k in bids ==> shown[k] == DisplayName(bids[k])
  {
    map k | k in bids :: DisplayName(bids[k])
  }

  /** The counter map of the seats, read at the seat of `name`: with distinct
      names it is that seat's own counter. */
  lemma CounterAtSeat(ps: seq<Player>, which: Counter, seat: nat)
    requires seat < |ps| && DistinctNames(ps)
    ensures ps[seat].username in CounterMap(ps, which)
    ensures CounterMap(ps, which)[ps[seat].username] == CounterOf(ps[seat], which)
  {
    CounterMapFacts(ps, which);
  }

  /** What getPlayerView shows `username`, who sits in the game `g`: the
      hand of their seat, the other seats, whose turn it is, the actions
      offered, every bid by its display name with the highest one, the widow
      only to the declarer during the exchange, the contract and its trump,
      the open trick, the tallies and the counters of every seat. */
  function ViewOf(g: GameState, username: string): (v: PlayerView)
    requires username in Names(g.players) && 0 <= g.currentPlayerIndex < |g.players|
    reads g, g.players, g.currentTrick
    ensures v.playerUsername == username && username !in v.otherPlayers
    ensures v.widow != [] ==> g.phase == WidowExchange && g.declarer == Some(username)
    ensures exists seat :: 0 <= seat < |g.players| && g.players[seat].username == username && v.hand == g.players[seat].hand
  {
    OtherNamesMembers(g.players, username);
    var seat := FindPlayerIndex(g.players, username).value;
    var current := g.players[g.currentPlayerIndex].username;
    var isYourTurn := current == username;
    var isDeclarer := g.declarer == Some(username);
    PlayerView(
      g.gameId, username, g.phase, g.roundNumber, g.players[seat].hand,
      OtherNames(g.players, username), Some(current), isYourTurn,
      AllowedActions(g.phase, isYourTurn, isDeclarer),
      BidNames(g.bids), TopBid(g.bids),
      if g.phase == WidowExchange && isDeclarer then g.widow else [],
      g.contract, g.declarer,
      if g.contract.Some? then TrumpSuit(g.contract.value) else None,
      if g.currentTrick == null then map[] else g.currentTrick.cardsPlayed,
      g.tricksWon,
      CounterMap(g.players, ScoreCounter), CounterMap(g.players, BulletCounter),
      CounterMap(g.players, MountainCounter))
  }

  /** What the view keeps from the viewer and what it shows them: the widow
      only to the declarer while the widow is being exchanged; every other
      seated player and not the viewer; bidding and playing offered only on
      the viewer's turn; the highest bid other than PASS; the viewer's own
      hand; with distinct names, each seat's counters under its name. */
  lemma ViewFacts(g: GameState, username: string)
    requires username in Names(g.players) && 0 <= g.currentPlayerIndex < |g.players|
    ensures var v := ViewOf(g, username);
      (v.widow != [] ==> g.phase == WidowExchange && g.declarer == Some(username)) &&
      (g.phase == WidowExchange && g.declarer == Some(username) ==> v.widow == g.widow) &&
      (forall n :: n in v.otherPlayers <==> n in Names(g.players) && n != username) &&
      (v.isYourTurn <==> g.players[g.currentPlayerIndex].username == username) &&
      (BidAction in v.allowedActions <==> g.phase == Bidding && v.isYourTurn) &&
      (PlayCardAction in v.allowedActions <==> g.phase == Playing && v.isYourTurn) &&
      (ExchangeWidowAction in v.allowedActions <==> g.phase == WidowExchange && g.declarer == Some(username)) &&
      (v.highestBid.None? <==> NoGameBid(g.bids)) &&
      (v.highestBid.Some? ==> IsTopBid(g.bids, v.highestBid.value)) &&
      v.bids.Keys == g.bids.Keys &&
      (exists seat :: 0 <= seat < |g.players| && g.players[seat].username == username && v.hand == g.players[seat].hand)
    ensures DistinctNames(g.players) ==>
      forall seat :: 0 <= seat < |g.players| ==>
        var v := ViewOf(g, username);
        var name := g.players[seat].username;
        name in v.scores && name in v.bullets && name in v.mountains &&
        v.scores[name] == g.players[seat].score && v.bullets[name] == g.players[seat].bullet &&
        v.mountains[name] == g.players[seat].mountain
  {
    OtherNamesMembers(g.players, username);
    var seat := FindPlayerIndex(g.players, username).value;
    assert g.players[seat].username == username;
    if DistinctNames(g.players) {
      forall k | 0 <= k < |g.players|
        ensures var v := ViewOf(g, username);
          var name := g.players[k].username;
          name in v.scores && name in v.bullets && name in v.mountains &&
          v.scores[name] == g.players[k].score && v.bullets[name] == g.players[k].bullet &&
          v.mountains[name] == g.players[k].mountain
      {
        CounterAtSeat(g.players, ScoreCounter, k);
        CounterAtSeat(g.players, BulletCounter, k);
        CounterAtSeat(g.players, MountainCounter, k);
      }
    }
  }

  /** The body of getPlayerView past its lookups: each part of the view in
      turn, the maps by their loops. */
  method BuildView(g: GameState, username: string) returns (v: PlayerView)
    requires username in Names(g.players) && 0 <= g.currentPlayerIndex < |g.players|
    ensures v == ViewOf(g, username)
  {
    var seat := FindPlayerIndex(g.players, username).value;
    var current := g.players[g.currentPlayerIndex].username;
    var isYourTurn := current == username;
    var isDeclarer := g.declarer == Some(username);
    var actions := AllowedActions(g.phase, isYourTurn, isDeclarer);
    var _, highestBid := MaxBid(g.bids);
    if highestBid.Some? {
      TopBidUnique(g.bids, highestBid.value, TopBid(g.bids).value);
    }
    var widow := if g.phase == WidowExchange && isDeclarer then g.widow else [];
    var trick := if g.currentTrick == null then map[] else g.currentTrick.cardsPlayed;
    var scores, bullets, mountains := CounterMaps(g.players);
    var others := OtherPlayers(g.players, username);
    var trump := if g.contract.Some? then TrumpSuit(g.contract.value) else None;
    v := PlayerView(
      g.gameId, username, g.phase, g.roundNumber, g.players[seat].hand,
      others, Some(current), isYourTurn, actions, BidNames(g.bids), highestBid,
      widow, g.contract, g.declarer, trump, trick, g.tricksWon, scores, bullets, mountains);
  }
}
