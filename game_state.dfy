/** The state of one game (GameState.java): seats, widow, phase, dealer and
    turn, auction, tricks and the round counter. Players are identified by
    username, as Player.equals does, so the bid and trick maps are keyed by
    username and the declarer is held by name. */
module States {
  import opened Wrappers
  import opened Cards
  import opened Contracts
  import opened Rules
  import opened TrickTaking
  import opened Players

  /** GamePhase */
  datatype GamePhase = WaitingForPlayers | Bidding | WidowExchange | Playing | RoundComplete | GameComplete

  /** The usernames of the seated players. */
  function Names(ps: seq<Player>): set<string> {
    set i | 0 <= i < |ps| :: ps[i].username
  }

  /** No two seats carry the same username (joinGame does not check it). */
  predicate DistinctNames(ps: seq<Player>) {
    forall i, j :: 0 <= i < j < |ps| ==> ps[i].username != ps[j].username
  }

  /** findPlayer and List.indexOf: the first seat whose username matches. */
  function FindPlayerIndex(ps: seq<Player>, name: string): (r: Option<nat>)
    ensures r.None? <==> name !in Names(ps)
    ensures r.Some? ==> r.value < |ps| && ps[r.value].username == name
    ensures r.Some? ==> forall j :: 0 <= j < r.value ==> ps[j].username != name
    decreases |ps|
  {
    if |ps| == 0 then None
    else if ps[0].username == name then Some(0)
    else match FindPlayerIndex(ps[1..], name)
      case None =>
        assert Names(ps) == {ps[0].username} + Names(ps[1..]) by {
          forall n | n in Names(ps) ensures n in {ps[0].username} + Names(ps[1..]) {
            var i :| 0 <= i < |ps| && ps[i].username == n;
            if i > 0 { assert ps[1..][i - 1] == ps[i]; }
          }
        }
        None
      case Some(i) =>
        assert ps[1..][i] == ps[i + 1];
        Some(i + 1)
  }

  // ---------------------------------------------------------------------
  // Sum of a tally map (the tricks won), independent of the order in which
  // the keys are visited.

  ghost function Pick(s: set<string>): string
    requires s != {}
  {
    var x :| x in s; x
  }

  ghost function SumOver(m: map<string, int>, keys: set<string>): int
    requires keys <= m.Keys
    decreases keys
  {
    if keys == {} then 0 else var k := Pick(keys); m[k] + SumOver(m, keys - {k})
  }

  /** The total of all counts in a tally. */
  ghost function Total(m: map<string, int>): int {
    SumOver(m, m.Keys)
  }

  /** Any key may be taken out first. */
  lemma {:induction false} SumOverRemove(m: map<string, int>, keys: set<string>, k: string)
    requires keys <= m.Keys && k in keys
    ensures SumOver(m, keys) == m[k] + SumOver(m, keys - {k})
    decreases keys
  {
    var p := Pick(keys);
    if p != k {
      SumOverRemove(m, keys - {p}, k);
      SumOverRemove(m, keys - {k}, p);
      assert keys - {p} - {k} == keys - {k} - {p};
    }
  }

  /** The sum only depends on the counts of the keys summed over. */
  lemma {:induction false} SumOverAgree(m1: map<string, int>, m2: map<string, int>, keys: set<string>)
    requires keys <= m1.Keys && keys <= m2.Keys
    requires forall k :: k in keys ==> m1[k] == m2[k]
    ensures SumOver(m1, keys) == SumOver(m2, keys)
    decreases keys
  {
    if keys != {} {
      var p := Pick(keys);
      SumOverAgree(m1, m2, keys - {p});
    }
  }

  /** Adding one to one count adds one to the total. */
  lemma TotalIncrement(m: map<string, int>, k: string)
    requires k in m
    ensures Total(m[k := m[k] + 1]) == Total(m) + 1
  {
    var m' := m[k := m[k] + 1];
    assert m'.Keys == m.Keys;
    SumOverRemove(m, m.Keys, k);
    SumOverRemove(m', m.Keys, k);
    SumOverAgree(m, m', m.Keys - {k});
  }

  /** A tally of zeros totals zero. */
  lemma {:induction false} SumOverZeros(m: map<string, int>, keys: set<string>)
    requires keys <= m.Keys
    requires forall k :: k in keys ==> m[k] == 0
    ensures SumOver(m, keys) == 0
    decreases keys
  {
    if keys != {} {
      SumOverZeros(m, keys - {Pick(keys)});
    }
  }

  /** A tally that gains a new key at zero keeps its total. */
  lemma TotalNewZero(m: map<string, int>, k: string)
    ensures Total(m[k := 0]) == (if k in m then Total(m) - m[k] else Total(m))
  {
    var m' := m[k := 0];
    SumOverRemove(m', m'.Keys, k);
    SumOverAgree(m, m', m'.Keys - {k});
    if k in m {
      assert m'.Keys == m.Keys;
      SumOverRemove(m, m.Keys, k);
    } else {
      assert m'.Keys - {k} == m.Keys;
    }
  }

  // ---------------------------------------------------------------------

  /** Every field of a state, for "only these fields change" contracts. */
  datatype Fields = Fields(
    players: seq<Player>, widow: seq<Card>, phase: GamePhase,
    dealerIndex: int, currentPlayerIndex: int,
    bids: map<string, Contract>, declarer: Option<string>, contract: Option<Contract>,
    currentTrick: Trick?, completedTricks: seq<Trick>, tricksWon: map<string, int>,
    roundNumber: int)

  /** The first seat holding the object `p`; |ps| when no seat holds it. */
  ghost function SeatOf(ps: seq<Player>, p: Player): (i: nat)
    ensures i <= |ps|
    decreases |ps|
  {
    if |ps| == 0 || ps[0] == p then 0 else 1 + SeatOf(ps[1..], p)
  }

  /** The seats are distinct objects: each is the first seat holding its
      player. */
  ghost predicate DistinctSeats(ps: seq<Player>) {
    forall i :: 0 <= i < |ps| ==> SeatOf(ps, ps[i]) == i
  }

  /** Where a player first sits in a concatenation of seatings. */
  lemma {:induction false} SeatOfAppend(s: seq<Player>, t: seq<Player>, p: Player)
    ensures SeatOf(s + t, p) == if p in s then SeatOf(s, p) else |s| + SeatOf(t, p)
    decreases |s|
  {
    if |s| == 0 {
      assert s + t == t;
    } else if s[0] == p {
      assert (s + t)[0] == p;
    } else {
      var u := (s + t)[1..];
      assert u == s[1..] + t;
      SeatOfAppend(s[1..], t, p);
      assert SeatOf(s + t, p) == 1 + SeatOf(u, p);
      assert p in s <==> p in s[1..] by {
        if p in s {
          var k :| 0 <= k < |s| && s[k] == p;
          assert s[1..][k - 1] == p;
        }
      }
    }
  }

  /** Seating a player who is not seated yet keeps the seats distinct. */
  lemma DistinctSeatsAppend(ps: seq<Player>, p: Player)
    requires DistinctSeats(ps) && p !in ps
    ensures DistinctSeats(ps + [p])
  {
    forall i | 0 <= i < |ps| + 1
      ensures SeatOf(ps + [p], (ps + [p])[i]) == i
    {
      SeatOfAppend(ps, [p], (ps + [p])[i]);
    }
  }

  /** The part of the game invariant that is about the fields alone: at
      most three distinct seats, filled before play starts; turn index in
      range; a tally for every seat whose total is the number of completed
      tricks (none before the play starts, ten once the round is complete);
      bids only from seated players; a declarer and a non-pass contract from
      the widow exchange on; an open trick while playing. */
  ghost predicate Coherent(f: Fields) {
    |f.players| <= 3 &&
    DistinctSeats(f.players) &&
    (f.phase != WaitingForPlayers ==> |f.players| == 3) &&
    (f.phase == WaitingForPlayers ==> f.currentPlayerIndex == 0 && forall k :: k in f.tricksWon ==> f.tricksWon[k] == 0) &&
    (f.phase.WaitingForPlayers? || f.phase.Bidding? || f.phase.WidowExchange? ==> f.completedTricks == []) &&
    (f.phase == RoundComplete ==> |f.completedTricks| == 10) &&
    0 <= f.currentPlayerIndex && (|f.players| > 0 ==> f.currentPlayerIndex < |f.players|) &&
    0 <= f.dealerIndex < 3 &&
    f.tricksWon.Keys == Names(f.players) &&
    (forall k :: k in f.tricksWon ==> f.tricksWon[k] >= 0) &&
    Total(f.tricksWon) == |f.completedTricks| &&
    f.bids.Keys <= Names(f.players) &&
    (f.phase.WidowExchange? || f.phase.Playing? || f.phase.RoundComplete? ==>
      f.declarer.Some? && f.declarer.value in Names(f.players) &&
      f.contract.Some? && !IsPass(f.contract.value)) &&
    (f.phase == Playing ==> f.currentTrick != null)
  }

  datatype StateError = GameAlreadyHasThreePlayers

  class GameState {
    const gameId: string
    var players: seq<Player>
    var widow: seq<Card>
    var phase: GamePhase
    var dealerIndex: int
    var currentPlayerIndex: int
    const rules: GameRules
    var bids: map<string, Contract>
    var declarer: Option<string>
    var contract: Option<Contract>
    var currentTrick: Trick?
    var completedTricks: seq<Trick>
    var tricksWon: map<string, int>
    var roundNumber: int

    ghost function Snapshot(): Fields
      reads this
    {
      Fields(players, widow, phase, dealerIndex, currentPlayerIndex, bids,
             declarer, contract, currentTrick, completedTricks, tricksWon, roundNumber)
    }

    /** What the game service keeps true of every game it holds: at most
        three distinct seats, filled before play starts; turn index in
        range; a tally for every seat whose total is the number of completed
        tricks (no tricks before the play starts); bids only from seated players; a declarer and a non-pass
        contract from the widow exchange on; an open trick from seated
        players, with fewer than three cards, while playing. */
    ghost predicate Valid()
      reads this, currentTrick
    {
      Consistent() &&
      (phase == Playing ==> |currentTrick.cardsPlayed| < 3 && |completedTricks| < 10)
    }

    /** Valid() without the bounds on the open trick and on the number of
        completed tricks: what holds in the middle of playCard, between the
        third card of a trick and the trick's settlement. */
    ghost predicate Consistent()
      reads this, currentTrick
    {
      Coherent(Snapshot()) &&
      (phase == Playing ==> currentTrick.cardsPlayed.Keys <= Names(players))
    }

    /** new GameState(gameId, rules): an empty game waiting for players in
        round 1; no rules (null) means the defaults. */
    constructor (gameId: string, rules: Option<GameRules>)
      ensures this.gameId == gameId
      ensures players == [] && widow == [] && phase == WaitingForPlayers
      ensures bids == map[] && completedTricks == [] && tricksWon == map[]
      ensures dealerIndex == 0 && currentPlayerIndex == 0 && roundNumber == 1
      ensures declarer == None && contract == None && currentTrick == null
      ensures this.rules == (if rules.Some? then rules.value else DefaultRules())
      ensures Valid()
    {
      this.gameId := gameId;
      players := [];
      widow := [];
      phase := WaitingForPlayers;
      bids := map[];
      completedTricks := [];
      tricksWon := map[];
      dealerIndex := 0;
      currentPlayerIndex := 0;
      roundNumber := 1;
      this.rules := if rules.Some? then rules.value else DefaultRules();
      declarer := None;
      contract := None;
      currentTrick := null;
    }

    /** addPlayer: refused with three seated; otherwise the player is
        appended and their tally set to 0. */
    method AddPlayer(player: Player) returns (r: Outcome<StateError>)
      modifies this
      ensures r.Fail? <==> |old(players)| >= 3
      ensures r.Fail? ==> r.error == GameAlreadyHasThreePlayers && Snapshot() == old(Snapshot())
      ensures r.Ok? ==> Snapshot() == old(Snapshot()).(players := old(players) + [player],
                                                     tricksWon := old(tricksWon)[player.username := 0])
    {
      if |players| >= 3 {
        return Fail(GameAlreadyHasThreePlayers);
      }
      players := players + [player];
      tricksWon := tricksWon[player.username := 0];
      return Ok;
    }

    /** isFull: in a consistent game, full exactly when addPlayer would
        refuse another player. */
    predicate IsFull(): (b: bool)
      reads this, currentTrick
      ensures Consistent() ==> (b <==> |players| >= 3)
    {
      |players| == 3
    }

    /** nextPlayer: the turn moves one seat on, modulo the number of seats. */
    method NextPlayer()
      requires |players| > 0
      modifies this
      ensures players == old(players)
      ensures Snapshot() == old(Snapshot()).(currentPlayerIndex := (old(currentPlayerIndex) + 1) % |players|)
      ensures 0 <= currentPlayerIndex < |players|
      ensures old(Valid()) && phase != WaitingForPlayers ==> Valid()
    {
      currentPlayerIndex := (currentPlayerIndex + 1) % |players|;
    }

    /** setWidow: the widow becomes exactly the given cards. */
    method SetWidow(cards: seq<Card>)
      modifies this
      ensures Snapshot() == old(Snapshot()).(widow := cards)
    {
      widow := cards;
    }

    /** setPhase */
    method SetPhase(phase: GamePhase)
      modifies this
      ensures Snapshot() == old(Snapshot()).(phase := phase)
    {
      this.phase := phase;
    }

    /** setCurrentPlayerIndex */
    method SetCurrentPlayerIndex(index: int)
      modifies this
      ensures Snapshot() == old(Snapshot()).(currentPlayerIndex := index)
    {
      currentPlayerIndex := index;
    }

    /** setDealerIndex */
    method SetDealerIndex(index: int)
      modifies this
      ensures Snapshot() == old(Snapshot()).(dealerIndex := index)
    {
      dealerIndex := index;
    }

    /** setDeclarer */
    method SetDeclarer(declarer: Option<string>)
      modifies this
      ensures Snapshot() == old(Snapshot()).(declarer := declarer)
    {
      this.declarer := declarer;
    }

    /** setContract */
    method SetContract(contract: Option<Contract>)
      modifies this
      ensures Snapshot() == old(Snapshot()).(contract := contract)
    {
      this.contract := contract;
    }

    /** setCurrentTrick */
    method SetCurrentTrick(trick: Trick?)
      modifies this
      ensures Snapshot() == old(Snapshot()).(currentTrick := trick)
    {
      currentTrick := trick;
    }

    /** addCompletedTrick: the trick is appended to the completed ones. */
    method AddCompletedTrick(trick: Trick)
      modifies this
      ensures Snapshot() == old(Snapshot()).(completedTricks := old(completedTricks) + [trick])
    {
      completedTricks := completedTricks + [trick];
    }

    /** placeBid: records or overwrites the player's bid. */
    method PlaceBid(player: string, bid: Contract)
      modifies this
      ensures Snapshot() == old(Snapshot()).(bids := old(bids)[player := bid])
      ensures old(Valid()) && player in Names(players) ==> Valid()
    {
      bids := bids[player := bid];
    }

    /** incrementTricksWon: one more trick for the player (from 0 when the
        player has no tally yet); the other tallies are unchanged. */
    method IncrementTricksWon(player: string)
      modifies this
      ensures tricksWon == old(tricksWon)[player := (if player in old(tricksWon) then old(tricksWon)[player] else 0) + 1]
      ensures Snapshot() == old(Snapshot()).(tricksWon := tricksWon)
    {
      var n := if player in tricksWon then tricksWon[player] else 0;
      tricksWon := tricksWon[player := n + 1];
    }

    /** resetTricksWon: every seated player's tally becomes 0. */
    method ResetTricksWon()
      modifies this
      ensures players == old(players)
      ensures tricksWon == Reset(old(tricksWon), Names(players))
      ensures Snapshot() == old(Snapshot()).(tricksWon := tricksWon)
    {
      var i := 0;
      while i < |players|
        invariant 0 <= i <= |players|
        invariant tricksWon == Reset(old(tricksWon), Names(players[..i]))
        invariant Snapshot() == old(Snapshot()).(tricksWon := tricksWon)
      {
        assert Names(players[..i + 1]) == Names(players[..i]) + {players[i].username} by {
          assert forall j :: 0 <= j < i ==> players[..i + 1][j] == players[..i][j];
        }
        ResetOneMore(old(tricksWon), Names(players[..i]), players[i].username);
        tricksWon := tricksWon[players[i].username := 0];
        i := i + 1;
      }
      assert players[..i] == players;
    }

    method NextRound()
      requires |players| > 0
      modifies this
      ensures Snapshot() == old(Snapshot()).(
        roundNumber := old(roundNumber) + 1,
        dealerIndex := (old(dealerIndex) + 1) % |old(players)|,
        bids := map[], declarer := None, contract := None, completedTricks := [],
        tricksWon := Reset(old(tricksWon), Names(old(players))), widow := [], currentTrick := null)
    {
      // The fields are independent, so the tallies are reset first.
      var next := (dealerIndex + 1) % |players|;
      ResetTricksWon();
      roundNumber, dealerIndex, bids, declarer, contract, completedTricks, widow, currentTrick :=
        roundNumber + 1, next, map[], None, None, [], [], null;
    }
  }

  /** resetTricksWon: a 0 tally is put under every name in `names`; the
      other tallies are kept. */
  function Reset(m: map<string, int>, names: set<string>): (r: map<string, int>)
    ensures r.Keys == m.Keys + names
    ensures forall k :: k in r ==> r[k] == (if k in names then 0 else m[k])
  {
    map k | k in m.Keys + names :: if k in names then 0 else m[k]
  }

  /** Putting a 0 under one more name extends the reset by that name. */
  lemma ResetOneMore(m: map<string, int>, names: set<string>, n: string)
    ensures Reset(m, names)[n := 0] == Reset(m, names + {n})
  {
  }

  /** On a map whose keys are exactly `names`, the reset zeroes every tally. */
  lemma ResetAllIsZero(m: map<string, int>, names: set<string>)
    requires m.Keys == names
    ensures Reset(m, names) == ZeroTallies(names)
  {
  }

  /** A tally of 0 under each name. */
  function ZeroTallies(names: set<string>): (m: map<string, int>)
    ensures m.Keys == names && forall k :: k in m ==> m[k] == 0
  {
    map k | k in names :: 0
  }

  /** After nextRound of a valid game, every tally is 0 and so is their total. */
  lemma ResetTotal(m: map<string, int>)
    requires forall k :: k in m ==> m[k] == 0
    ensures Total(m) == 0
  {
    SumOverZeros(m, m.Keys);
  }

  /** Seating one more player adds exactly their name. */
  lemma NamesOfAppend(ps: seq<Player>, p: Player)
    ensures Names(ps + [p]) == Names(ps) + {p.username}
  {
    var qs := ps + [p];
    forall n | n in Names(ps) ensures n in Names(qs) {
      var i :| 0 <= i < |ps| && ps[i].username == n;
      assert qs[i] == ps[i];
    }
    assert qs[|ps|] == p;
  }

  /** The names of the first `n` seats: those of the first n - 1 and one more. */
  lemma NamesOfPrefix(ps: seq<Player>, n: nat)
    requires 0 < n <= |ps|
    ensures Names(ps[..n]) == Names(ps[..n - 1]) + {ps[n - 1].username}
  {
    assert ps[..n] == ps[..n - 1] + [ps[n - 1]];
    NamesOfAppend(ps[..n - 1], ps[n - 1]);
  }
}
