/** The test-scenario setup of ScenarioRunner.java: "RANK_SUIT" card names
    are parsed into cards and dealt as a fixed deal in a fresh game. Reading
    the scenario file, the dependency wiring and starting the server are
    not part of this model. */
module Scenario {
  import opened Wrappers
  import opened Cards
  import opened Players
  import opened Rules
  import opened States
  import opened Service

  // ---------------------------------------------------------------------
  // String.split("_")

  /** The pieces of `s` between its underscores, empty ones included:
      one more piece than there are underscores. */
  function Pieces(s: string): (ps: seq<string>)
    ensures |ps| >= 1
    ensures forall i :: 0 <= i < |ps| ==> '_' !in ps[i]
  {
    if |s| == 0 then [""]
    else
      var rest := Pieces(s[1..]);
      if s[0] == '_' then [""] + rest else [[s[0]] + rest[0]] + rest[1..]
  }

  /** The pieces joined back with underscores. */
  function Joined(ps: seq<string>): string
    requires |ps| >= 1
  {
    if |ps| == 1 then ps[0] else ps[0] + "_" + Joined(ps[1..])
  }

  /** Splitting loses nothing: joining the pieces gives the string back. */
  lemma {:induction false} PiecesJoin(s: string)
    ensures Joined(Pieces(s)) == s
  {
    if |s| > 0 {
      var rest := Pieces(s[1..]);
      PiecesJoin(s[1..]);
      if s[0] == '_' {
        assert [""] + rest == [""] + rest;
        assert ([""] + rest)[1..] == rest;
        assert s == "" + "_" + s[1..];
      } else {
        var ps := [[s[0]] + rest[0]] + rest[1..];
        if |rest| == 1 {
          assert s == [s[0]] + s[1..];
        } else {
          assert ps[1..] == rest[1..];
          assert Joined(rest) == rest[0] + "_" + Joined(rest[1..]);
          assert s == [s[0]] + s[1..];
        }
      }
    }
  }

  /** A string without underscores is a single piece. */
  lemma {:induction false} PiecesOfPlain(a: string)
    requires '_' !in a
    ensures Pieces(a) == [a]
  {
    if |a| > 0 {
      PiecesOfPlain(a[1..]);
      assert [a[0]] + a[1..] == a;
    }
  }

  /** An underscore-free prefix followed by an underscore is the first
      piece. */
  lemma {:induction false} PiecesAfter(a: string, b: string)
    requires '_' !in a
    ensures Pieces(a + "_" + b) == [a] + Pieces(b)
  {
    var s := a + "_" + b;
    if |a| == 0 {
      assert s == "_" + b && s[1..] == b;
    } else {
      assert s[1..] == a[1..] + "_" + b;
      PiecesAfter(a[1..], b);
      assert [a[0]] + a[1..] == a;
    }
  }

  /** The trailing empty pieces removed, as split with limit 0 does. */
  function WithoutTrailingEmpty(ps: seq<string>): (qs: seq<string>)
    ensures |qs| <= |ps| && qs == ps[..|qs|]
    ensures |qs| == 0 || qs[|qs| - 1] != ""
    ensures forall i :: |qs| <= i < |ps| ==> ps[i] == ""
  {
    if |ps| == 0 then []
    else if ps[|ps| - 1] == "" then WithoutTrailingEmpty(ps[..|ps| - 1])
    else ps
  }

  /** cardString.split("_"): the string itself when it has no underscore;
      otherwise its pieces without the trailing empty ones (a leading empty
      piece is kept). */
  function SplitOnUnderscore(s: string): (parts: seq<string>)
    ensures '_' !in s ==> parts == [s]
    ensures '_' in s ==> |parts| <= |Pieces(s)| && parts == Pieces(s)[..|parts|]
    ensures '_' in s ==> forall i :: |parts| <= i < |Pieces(s)| ==> Pieces(s)[i] == ""
  {
    if '_' !in s then [s] else WithoutTrailingEmpty(Pieces(s))
  }

  // ---------------------------------------------------------------------
  // Rank.valueOf, Suit.valueOf

  /** Rank.valueOf: the rank of that exact name, if any. */
  function RankNamed(name: string): (r: Option<Rank>)
    ensures r.Some? ==> RankName(r.value) == name
    ensures r.None? ==> forall k: Rank :: RankName(k) != name
  {
    if name == "SEVEN" then Some(Seven)
    else if name == "EIGHT" then Some(Eight)
    else if name == "NINE" then Some(Nine)
    else if name == "TEN" then Some(Ten)
    else if name == "JACK" then Some(Jack)
    else if name == "QUEEN" then Some(Queen)
    else if name == "KING" then Some(King)
    else if name == "ACE" then Some(Ace)
    else None
  }

  /** Suit.valueOf: the suit of that exact name, if any. */
  function SuitNamed(name: string): (s: Option<Suit>)
    ensures s.Some? ==> SuitName(s.value) == name
    ensures s.None? ==> forall k: Suit :: SuitName(k) != name
  {
    if name == "SPADES" then Some(Spades)
    else if name == "CLUBS" then Some(Clubs)
    else if name == "DIAMONDS" then Some(Diamonds)
    else if name == "HEARTS" then Some(Hearts)
    else None
  }

  /** valueOf inverts name(), and no enum name holds an underscore. */
  lemma NamesParseBack(r: Rank, s: Suit)
    ensures RankNamed(RankName(r)) == Some(r) && SuitNamed(SuitName(s)) == Some(s)
    ensures '_' !in RankName(r) && '_' !in SuitName(s)
    ensures RankName(r) != "" && SuitName(s) != ""
  {
    match r
    case Seven =>
    case Eight =>
    case Nine =>
    case Ten =>
    case Jack =>
    case Queen =>
    case King =>
    case Ace =>
  }

  // ---------------------------------------------------------------------
  // parseCard, parseCards

  /** The IllegalArgumentExceptions of parseCard. */
  datatype ParseError =
    | InvalidCardFormat(text: string)
    | NoSuchRank(name: string)
    | NoSuchSuit(name: string)

  /** The "RANK_SUIT" name of a card. */
  function CardName(c: Card): string {
    RankName(c.rank) + "_" + SuitName(c.suit)
  }

  /** parseCard: exactly two parts, the first naming the rank and the
      second the suit. */
  function ParseCard(text: string): (r: Result<Card, ParseError>)
    ensures |SplitOnUnderscore(text)| != 2 ==> r == Failure(InvalidCardFormat(text))
    ensures r.Success? ==> SplitOnUnderscore(text) == [RankName(r.value.rank), SuitName(r.value.suit)]
  {
    var parts := SplitOnUnderscore(text);
    if |parts| != 2 then Failure(InvalidCardFormat(text))
    else match (RankNamed(parts[0]), SuitNamed(parts[1]))
      case (None, _) => Failure(NoSuchRank(parts[0]))
      case (Some(_), None) => Failure(NoSuchSuit(parts[1]))
      case (Some(rank), Some(suit)) => Success(Card(suit, rank))
  }

  /** A rank error reports the first of two parts, which names no rank. */
  lemma ParseCardRankError(text: string)
    ensures ParseCard(text).Failure? && ParseCard(text).error.NoSuchRank? ==>
      |SplitOnUnderscore(text)| == 2 && ParseCard(text).error == NoSuchRank(SplitOnUnderscore(text)[0]) &&
      forall k: Rank :: RankName(k) != SplitOnUnderscore(text)[0]
  {
    var parts := SplitOnUnderscore(text);
    if |parts| == 2 && RankNamed(parts[0]).None? {
      forall k: Rank ensures RankName(k) != parts[0] {
        NamesParseBack(k, Spades);
      }
    }
  }

  /** A string parses to a card exactly when it splits into that card's
      rank name and suit name. */
  lemma ParseCardExactly(text: string, c: Card)
    ensures ParseCard(text) == Success(c) <==> SplitOnUnderscore(text) == [RankName(c.rank), SuitName(c.suit)]
  {
    NamesParseBack(c.rank, c.suit);
  }

  /** Round trip: every card's "RANK_SUIT" name parses back to that card. */
  lemma ParseCardName(c: Card)
    ensures ParseCard(CardName(c)) == Success(c)
  {
    var a, b := RankName(c.rank), SuitName(c.suit);
    NamesParseBack(c.rank, c.suit);
    PiecesAfter(a, b);
    PiecesOfPlain(b);
    assert CardName(c)[|a|] == '_';
    ParseCardExactly(CardName(c), c);
  }

  /** split drops trailing empty strings, so trailing underscores after a
      card name are accepted too. */
  lemma TrailingUnderscoresAccepted(c: Card, n: nat)
    ensures ParseCard(CardName(c) + Underscores(n)) == Success(c)
  {
    var a, b := RankName(c.rank), SuitName(c.suit);
    NamesParseBack(c.rank, c.suit);
    var text := CardName(c) + Underscores(n);
    assert text == a + "_" + (b + Underscores(n));
    SplitWithTrailing(a, b, n);
    ParseCardExactly(text, c);
  }

  function Underscores(n: nat): (u: string)
    ensures |u| == n && forall i :: 0 <= i < n ==> u[i] == '_'
  {
    if n == 0 then "" else "_" + Underscores(n - 1)
  }

  /** Two plain words joined by an underscore and followed by n more split
      into the two words. */
  lemma SplitWithTrailing(a: string, b: string, n: nat)
    requires '_' !in a && '_' !in b && b != ""
    ensures SplitOnUnderscore(a + "_" + (b + Underscores(n))) == [a, b]
  {
    var text := a + "_" + (b + Underscores(n));
    PiecesAfter(a, b + Underscores(n));
    PiecesOfUnderscores(b, n);
    assert text[|a|] == '_';
    assert Pieces(text) == [a, b] + seq(n, _ => "");
    DropEmptyTail([a, b], n);
  }

  /** Trailing empty pieces go, up to the last non-empty one. */
  lemma {:induction false} DropEmptyTail(ps: seq<string>, n: nat)
    requires |ps| > 0 && ps[|ps| - 1] != ""
    ensures WithoutTrailingEmpty(ps + seq(n, _ => "")) == ps
  {
    if n > 0 {
      var qs := ps + seq(n, _ => "");
      assert qs[..|qs| - 1] == ps + seq(n - 1, _ => "");
      DropEmptyTail(ps, n - 1);
    } else {
      assert ps + seq(0, _ => "") == ps;
    }
  }

  /** A non-empty plain word followed by n underscores: the word, then n
      empty pieces. */
  lemma {:induction false} PiecesOfUnderscores(b: string, n: nat)
    requires '_' !in b && b != ""
    ensures Pieces(b + Underscores(n)) == [b] + seq(n, _ => "")
  {
    if n == 0 {
      assert b + Underscores(0) == b;
      PiecesOfPlain(b);
    } else {
      PiecesAfter(b, Underscores(n - 1));
      assert b + Underscores(n) == b + "_" + Underscores(n - 1);
      EmptyPieces(n - 1);
      assert [b] + ([""] + seq(n - 1, _ => "")) == [b] + seq(n, _ => "");
    }
  }

  /** n underscores are n + 1 empty pieces. */
  lemma {:induction false} EmptyPieces(n: nat)
    ensures Pieces(Underscores(n)) == [""] + seq(n, _ => "")
  {
    if n > 0 {
      EmptyPieces(n - 1);
      assert Underscores(n)[1..] == Underscores(n - 1);
      assert [""] + ([""] + seq(n - 1, _ => "")) == [""] + seq(n, _ => "");
    }
  }

  /** The cards are the parses of the texts, one for one and in order. */
  ghost predicate ParsedAs(cards: seq<Card>, texts: seq<string>) {
    |cards| == |texts| && forall i :: 0 <= i < |texts| ==> ParseCard(texts[i]) == Success(cards[i])
  }

  /** Every text names a card. */
  ghost predicate AllParse(texts: seq<string>) {
    forall i :: 0 <= i < |texts| ==> ParseCard(texts[i]).Success?
  }

  /** parseCards: the cards of the texts, in order; the first text that does
      not parse ends it with that text's error. */
  method ParseCards(texts: seq<string>) returns (r: Result<seq<Card>, ParseError>)
    ensures r.Success? <==> AllParse(texts)
    ensures r.Success? ==> ParsedAs(r.value, texts)
    ensures r.Failure? ==>
      exists i :: 0 <= i < |texts| && ParseCard(texts[i]) == Failure(r.error) && AllParse(texts[..i])
  {
    var cards: seq<Card> := [];
    for i := 0 to |texts|
      invariant ParsedAs(cards, texts[..i])
    {
      var c := ParseCard(texts[i]);
      if c.Failure? {
        return Failure(c.error);
      }
      cards := cards + [c.value];
    }
    assert texts[..|texts|] == texts;
    return Success(cards);
  }

  /** The names of the cards, in order, parse back to the same cards. */
  lemma ParseCardNames(cards: seq<Card>)
    ensures ParsedAs(cards, seq(|cards|, i requires 0 <= i < |cards| => CardName(cards[i])))
  {
    forall i | 0 <= i < |cards| {
      ParseCardName(cards[i]);
    }
  }

  // ---------------------------------------------------------------------
  // setupCustomDeck

  /** TestScenario.DeckSetup: the card names of each hand and of the widow
      ("prikup"). */
  datatype DeckSetup = DeckSetup(playerWest: seq<string>, playerEast: seq<string>,
                                 playerSouth: seq<string>, prikup: seq<string>)

  /** Every list of the setup names cards only. */
  ghost predicate SetupParses(setup: DeckSetup) {
    AllParse(setup.playerWest) && AllParse(setup.playerEast) &&
    AllParse(setup.playerSouth) && AllParse(setup.prikup)
  }

  /** setupCustomDeck: all four lists are parsed first, so a bad name
      changes nothing; otherwise each hand becomes its parsed list (a later
      assignment wins when the same player is passed twice) and the widow
      the parsed prikup. */
  method SetupCustomDeck(g: GameState, setup: DeckSetup, west: Player, east: Player, south: Player)
    returns (r: Outcome<ParseError>)
    modifies g, west`hand, east`hand, south`hand
    ensures r.Ok? <==> SetupParses(setup)
    ensures r.Fail? ==> unchanged(g, west, east, south)
    ensures r.Ok? ==>
      ParsedAs(south.hand, setup.playerSouth) &&
      (east != south ==> ParsedAs(east.hand, setup.playerEast)) &&
      (west != east && west != south ==> ParsedAs(west.hand, setup.playerWest)) &&
      exists w :: ParsedAs(w, setup.prikup) && g.Snapshot() == old(g.Snapshot()).(widow := w)
  {
    var westCards := ParseCards(setup.playerWest);
    if westCards.Failure? { return Fail(westCards.error); }
    var eastCards := ParseCards(setup.playerEast);
    if eastCards.Failure? { return Fail(eastCards.error); }
    var southCards := ParseCards(setup.playerSouth);
    if southCards.Failure? { return Fail(southCards.error); }
    var prikupCards := ParseCards(setup.prikup);
    if prikupCards.Failure? { return Fail(prikupCards.error); }
    west.SetHand(westCards.value);
    east.SetHand(eastCards.value);
    south.SetHand(southCards.value);
    g.SetWidow(prikupCards.value);
    return Ok;
  }

  /** The scenario game of ScenarioRunner.run: three new players seated
      South, West, East; the custom deal; then South deals and bids first,
      the game being in the bidding phase. The game's rules are a parameter
      (the runner looks up "sochinka"). */
  method SetUpScenarioGame(gameId: string, rules: Option<GameRules>, setup: DeckSetup)
    returns (r: Result<GameState, ParseError>)
    ensures r.Success? <==> SetupParses(setup)
    ensures r.Success? ==>
      var g := r.value;
      fresh(g) && g.Valid() && |g.players| == 3 &&
      g.phase == Bidding && g.dealerIndex == 0 && g.currentPlayerIndex == 0 &&
      g.players[0].username == "playerSouth" && g.players[1].username == "playerWest" &&
      g.players[2].username == "playerEast" &&
      ParsedAs(g.players[0].hand, setup.playerSouth) &&
      ParsedAs(g.players[1].hand, setup.playerWest) &&
      ParsedAs(g.players[2].hand, setup.playerEast) &&
      ParsedAs(g.widow, setup.prikup) &&
      g.roundNumber == 1 && g.bids == map[] && g.completedTricks == []
  {
    var g, south, west, east := SeatScenarioPlayers(gameId, rules);
    var dealt := SetupCustomDeck(g, setup, west, east, south);
    if dealt.Fail? {
      return Failure(dealt.error);
    }
    OpenBidding(g);
    return Success(g);
  }

  /** A new game with three new players seated South, West, East, each
      with an empty hand. */
  method SeatScenarioPlayers(gameId: string, rules: Option<GameRules>)
    returns (g: GameState, south: Player, west: Player, east: Player)
    ensures fresh(g) && fresh(south) && fresh(west) && fresh(east)
    ensures g.Valid() && g.phase == WaitingForPlayers && g.players == [south, west, east]
    ensures south.username == "playerSouth" && west.username == "playerWest" && east.username == "playerEast"
    ensures g.roundNumber == 1 && g.bids == map[] && g.completedTricks == []
  {
    g := new GameState(gameId, rules);
    south := SeatNewPlayer(g, "playerSouth");
    west := SeatNewPlayer(g, "playerWest");
    east := SeatNewPlayer(g, "playerEast");
  }

  /** setDealerIndex(0), setCurrentPlayerIndex(0), setPhase(BIDDING) on a
      full waiting game. */
  method OpenBidding(g: GameState)
    requires g.Valid() && g.phase == WaitingForPlayers && |g.players| == 3
    modifies g
    ensures g.Valid()
    ensures g.Snapshot() == old(g.Snapshot()).(dealerIndex := 0, currentPlayerIndex := 0, phase := Bidding)
  {
    g.SetDealerIndex(0);
    g.SetCurrentPlayerIndex(0);
    g.SetPhase(Bidding);
  }
}
