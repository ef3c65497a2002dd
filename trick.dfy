/** One trick: the cards played keyed by player, the lead, and the winner
    (Trick.java). Players are identified by username, as Player.equals and
    Player.hashCode do. */
module TrickTaking {
  import opened Wrappers
  import opened Cards

  /** One entry of the cardsPlayed map, in the order getWinner visits it. */
  datatype Play = Play(player: string, card: Card)

  predicate IsTrump(c: Card, trump: Option<Suit>) {
    trump.Some? && c.suit == trump.value
  }

  /** The body of getWinner's loop: does `card` take over from the running
      winning card? Note that it compares with the running winner's suit,
      not with the lead suit. */
  function TakesOver(card: Card, winning: Card, trump: Option<Suit>): (r: bool)
    ensures r ==> card != winning
    ensures r ==> IsTrump(card, trump) || (card.suit == winning.suit && Outranks(card, winning))
  {
    var currentIsTrump := IsTrump(card, trump);
    var winningIsTrump := IsTrump(winning, trump);
    if currentIsTrump && !winningIsTrump then true
    else if !currentIsTrump && winningIsTrump then false
    else if card.suit == winning.suit then Outranks(card, winning)
    else false
  }

  /** Comparing rank().getValue() of two cards. */
  predicate Outranks(card: Card, other: Card) {
    Value(card.rank) > Value(other.rank)
  }

  /** getWinner as a fold over the entries in visiting order: the first entry
      starts as winner, each later one replaces it when `TakesOver` says so. */
  function Winner(plays: seq<Play>, trump: Option<Suit>): (w: Option<Play>)
    decreases |plays|
    ensures w.Some? <==> |plays| > 0
    ensures w.Some? ==> w.value in plays
  {
    if |plays| == 0 then None
    else
      var running := Winner(plays[..|plays| - 1], trump);
      var entry := plays[|plays| - 1];
      if running.None? then Some(entry)
      else if TakesOver(entry.card, running.value.card, trump) then Some(entry)
      else running
  }

  /** Unfolding the fold by one entry. */
  lemma WinnerAppend(before: seq<Play>, e: Play, trump: Option<Suit>)
    ensures Winner(before + [e], trump) ==
      if Winner(before, trump).None? || TakesOver(e.card, Winner(before, trump).value.card, trump) then Some(e)
      else Winner(before, trump)
    ensures PlayersOf(before + [e]) == PlayersOf(before) + [e.player]
  {
    assert (before + [e])[..|before|] == before;
  }

  predicate HasTrump(plays: seq<Play>, trump: Option<Suit>) {
    exists k :: 0 <= k < |plays| && IsTrump(plays[k].card, trump)
  }

  /** The card beats, or is, every trump played. */
  predicate TopTrump(c: Card, plays: seq<Play>, trump: Option<Suit>) {
    IsTrump(c, trump) &&
    forall k :: 0 <= k < |plays| && IsTrump(plays[k].card, trump) ==> Value(plays[k].card.rank) <= Value(c.rank)
  }

  /** The card has suit `s` and beats, or is, every card of suit `s` played. */
  predicate TopOfSuit(c: Card, plays: seq<Play>, s: Suit) {
    c.suit == s &&
    forall k :: 0 <= k < |plays| && plays[k].card.suit == s ==> Value(plays[k].card.rank) <= Value(c.rank)
  }

  /** The rules of one step: a trump takes over from a non-trump; a non-trump
      never takes over from a trump; otherwise only a strictly higher card of
      the running winner's suit takes over. */
  lemma TakesOverRules(card: Card, winning: Card, trump: Option<Suit>)
    ensures IsTrump(card, trump) && !IsTrump(winning, trump) ==> TakesOver(card, winning, trump)
    ensures !IsTrump(card, trump) && IsTrump(winning, trump) ==> !TakesOver(card, winning, trump)
    ensures IsTrump(card, trump) == IsTrump(winning, trump) ==>
      (TakesOver(card, winning, trump) <==> card.suit == winning.suit && Value(card.rank) > Value(winning.rank))
    ensures trump.None? ==> !IsTrump(card, trump)
  {
  }

  /** The fold yields nothing on an empty trick and otherwise one of the entries. */
  lemma {:induction false} WinnerIsAnEntry(plays: seq<Play>, trump: Option<Suit>)
    ensures Winner(plays, trump).None? <==> |plays| == 0
    ensures Winner(plays, trump).Some? ==> Winner(plays, trump).value in plays
    decreases |plays|
  {
    if |plays| > 0 {
      var prefix := plays[..|plays| - 1];
      WinnerIsAnEntry(prefix, trump);
      if Winner(prefix, trump).Some? {
        assert Winner(prefix, trump).value in plays;
      }
    }
  }

  /** What the fold computes in any visiting order: when a trump was played
      the winner holds the highest trump; otherwise it holds the highest card
      of the suit of the FIRST VISITED entry (with no trump suit nothing
      counts as trump). */
  lemma {:induction false} WinnerDominates(plays: seq<Play>, trump: Option<Suit>)
    requires |plays| > 0
    ensures Winner(plays, trump).Some?
    ensures HasTrump(plays, trump) ==> TopTrump(Winner(plays, trump).value.card, plays, trump)
    ensures !HasTrump(plays, trump) ==> TopOfSuit(Winner(plays, trump).value.card, plays, plays[0].card.suit)
    decreases |plays|
  {
    var n := |plays|;
    if n == 1 {
      assert Winner(plays, trump) == Some(plays[0]);
    } else {
      var prefix, e := plays[..n - 1], plays[n - 1];
      assert plays == prefix + [e];
      WinnerDominates(prefix, trump);
      WinnerAppend(prefix, e, trump);
      var w := Winner(prefix, trump).value;
      assert prefix[0] == plays[0];
      if HasTrump(prefix, trump) {
        HasTrumpExtends(prefix, e, trump);
        if IsTrump(e.card, trump) && Value(e.card.rank) > Value(w.card.rank) {
          TopExtends(e.card, e.card.suit, prefix, e);
        } else {
          TopExtends(w.card, w.card.suit, prefix, e);
        }
      } else if IsTrump(e.card, trump) {
        NoTrumpBefore(prefix, e, trump);
      } else {
        assert !HasTrump(plays, trump) by {
          NoTrumpBefore(prefix, e, trump);
        }
        if e.card.suit == w.card.suit && Value(e.card.rank) > Value(w.card.rank) {
          TopExtends(e.card, e.card.suit, prefix, e);
        } else {
          TopExtends(w.card, w.card.suit, prefix, e);
        }
      }
    }
  }

  /** A card of suit `s` at least as high as every card of suit `s` so far,
      and as the next one if that has suit `s`, is at least as high as all. */
  lemma TopExtends(c: Card, s: Suit, prefix: seq<Play>, e: Play)
    requires c.suit == s
    requires forall k :: 0 <= k < |prefix| && prefix[k].card.suit == s ==> Value(prefix[k].card.rank) <= Value(c.rank)
    requires e.card.suit == s ==> Value(e.card.rank) <= Value(c.rank)
    ensures forall k :: 0 <= k < |prefix| + 1 && (prefix + [e])[k].card.suit == s ==> Value((prefix + [e])[k].card.rank) <= Value(c.rank)
  {
    forall k | 0 <= k < |prefix| + 1 && (prefix + [e])[k].card.suit == s
      ensures Value((prefix + [e])[k].card.rank) <= Value(c.rank)
    {
      if k < |prefix| {
        assert (prefix + [e])[k] == prefix[k];
      }
    }
  }

  /** A trump played before is still played after one more card. */
  lemma HasTrumpExtends(prefix: seq<Play>, e: Play, trump: Option<Suit>)
    requires HasTrump(prefix, trump)
    ensures HasTrump(prefix + [e], trump)
  {
    var k :| 0 <= k < |prefix| && IsTrump(prefix[k].card, trump);
    assert (prefix + [e])[k] == prefix[k];
  }

  /** With no trump among the first cards, the last card is the only
      possible trump. */
  lemma NoTrumpBefore(prefix: seq<Play>, e: Play, trump: Option<Suit>)
    requires !HasTrump(prefix, trump)
    ensures forall k :: 0 <= k < |prefix| ==> !IsTrump((prefix + [e])[k].card, trump)
    ensures HasTrump(prefix + [e], trump) <==> IsTrump(e.card, trump)
  {
    forall k | 0 <= k < |prefix| ensures !IsTrump((prefix + [e])[k].card, trump) {
      assert (prefix + [e])[k] == prefix[k];
    }
    if IsTrump(e.card, trump) {
      assert (prefix + [e])[|prefix|] == e;
    }
  }

  /** The lead-suit rule, for a visiting order that starts with the lead card:
      a trump wins if one was played, and then the highest trump; otherwise
      the highest card of the lead suit, so an off-suit card never wins. */
  lemma LeadSuitRule(plays: seq<Play>, trump: Option<Suit>, leadSuit: Suit)
    requires |plays| > 0 && plays[0].card.suit == leadSuit
    ensures Winner(plays, trump).Some? && Winner(plays, trump).value in plays
    ensures HasTrump(plays, trump) ==> TopTrump(Winner(plays, trump).value.card, plays, trump)
    ensures !HasTrump(plays, trump) ==> TopOfSuit(Winner(plays, trump).value.card, plays, leadSuit)
  {
    WinnerIsAnEntry(plays, trump);
    WinnerDominates(plays, trump);
  }

  /** HashMap order matters: with no trump, if the off-suit seven of clubs
      is visited before the spade lead, the seven wins. */
  lemma OffSuitCanWinWhenVisitedFirst()
    ensures Winner([Play("east", Card(Clubs, Seven)), Play("south", Card(Spades, Ace)), Play("west", Card(Spades, King))], None)
         == Some(Play("east", Card(Clubs, Seven)))
  {
    var plays := [Play("east", Card(Clubs, Seven)), Play("south", Card(Spades, Ace)), Play("west", Card(Spades, King))];
    assert plays[..2][..1] == plays[..1] == [plays[0]];
    assert Winner(plays[..1], None) == Some(plays[0]);
    assert !TakesOver(plays[1].card, plays[0].card, None);
    assert Winner(plays[..2], None) == Some(plays[0]);
    assert !TakesOver(plays[2].card, plays[0].card, None);
  }

  function PlayersOf(plays: seq<Play>): (ps: seq<string>)
    ensures |ps| == |plays|
    ensures forall k :: 0 <= k < |plays| ==> ps[k] == plays[k].player
  {
    if |plays| == 0 then [] else PlayersOf(plays[..|plays| - 1]) + [plays[|plays| - 1].player]
  }

  /** `order` visits every entry of `m` exactly once. */
  ghost predicate Enumerates(order: seq<Play>, m: map<string, Card>) {
    (forall k :: 0 <= k < |order| ==> order[k].player in m && m[order[k].player] == order[k].card) &&
    (forall i, j :: 0 <= i < j < |order| ==> order[i].player != order[j].player) &&
    (forall p :: p in m ==> p in PlayersOf(order))
  }

  /** Part way through the visit: `order` lists entries of `m` once each,
      none of them still `remaining`, and every entry is in one of the two. */
  ghost predicate VisitedSoFar(order: seq<Play>, m: map<string, Card>, remaining: set<string>) {
    remaining <= m.Keys &&
    (forall k :: 0 <= k < |order| ==> order[k].player in m && m[order[k].player] == order[k].card) &&
    (forall k :: 0 <= k < |order| ==> order[k].player !in remaining) &&
    (forall i, j :: 0 <= i < j < |order| ==> order[i].player != order[j].player) &&
    (forall p :: p in m ==> p in remaining || p in PlayersOf(order))
  }

  /** Visiting one more remaining entry keeps VisitedSoFar. */
  lemma VisitOne(order: seq<Play>, m: map<string, Card>, remaining: set<string>, player: string)
    requires VisitedSoFar(order, m, remaining) && player in remaining
    ensures VisitedSoFar(order + [Play(player, m[player])], m, remaining - {player})
  {
    var next := order + [Play(player, m[player])];
    assert forall k :: 0 <= k < |order| ==> next[k] == order[k];
    assert PlayersOf(next) == PlayersOf(order) + [player];
  }

  class Trick {
    var cardsPlayed: map<string, Card>
    var leadPlayer: Option<string>
    var leadSuit: Option<Suit>

    constructor ()
      ensures cardsPlayed == map[] && leadPlayer == None && leadSuit == None
    {
      cardsPlayed := map[];
      leadPlayer := None;
      leadSuit := None;
    }

    /** playCard: the first card fixes the lead; the card is recorded under
        the player, overwriting an earlier card of the same player. */
    method PlayCard(player: string, card: Card)
      modifies this
      ensures cardsPlayed == old(cardsPlayed)[player := card]
      ensures old(cardsPlayed) == map[] ==> leadPlayer == Some(player) && leadSuit == Some(card.suit)
      ensures old(cardsPlayed) != map[] ==> leadPlayer == old(leadPlayer) && leadSuit == old(leadSuit)
    {
      if cardsPlayed == map[] {
        leadPlayer := Some(player);
        leadSuit := Some(card.suit);
      }
      cardsPlayed := cardsPlayed[player := card];
    }

    /** isComplete(n): exactly n distinct players have played. A trick is
        never complete for a negative count, and complete for none exactly
        when nobody has played. */
    predicate IsComplete(playerCount: int): (b: bool)
      reads this
      ensures playerCount < 0 ==> !b
      ensures playerCount == 0 ==> (b <==> cardsPlayed == map[])
    {
      |cardsPlayed| == playerCount
    }

    /** getWinner: the loop over the entry set, in an order this model leaves
        open (HashMap order); `order` is the order it took. */
    method GetWinner(trump: Option<Suit>) returns (winner: Option<string>, ghost order: seq<Play>)
      ensures Enumerates(order, cardsPlayed)
      ensures winner.None? <==> cardsPlayed == map[]
      ensures cardsPlayed != map[] ==> |order| > 0
      ensures Winner(order, trump).Some? ==> winner == Some(Winner(order, trump).value.player)
      ensures winner.Some? ==> winner.value in cardsPlayed
    {
      if cardsPlayed == map[] {
        order := [];
        return None, order;
      }
      var remaining := cardsPlayed.Keys;
      var winningCard: Option<Card> := None;
      winner := None;
      order := [];
      while remaining != {}
        invariant VisitedSoFar(order, cardsPlayed, remaining)
        invariant winningCard.None? <==> |order| == 0
        invariant winner.Some? <==> winningCard.Some?
        invariant |order| > 0 ==> Winner(order, trump) == Some(Play(winner.value, winningCard.value))
        decreases remaining
      {
        var player :| player in remaining;
        var card := cardsPlayed[player];
        if winningCard.None? || TakesOver(card, winningCard.value, trump) {
          winner := Some(player);
          winningCard := Some(card);
        }
        WinnerAppend(order, Play(player, card), trump);
        VisitOne(order, cardsPlayed, remaining, player);
        order := order + [Play(player, card)];
        remaining := remaining - {player};
      }
      assert Enumerates(order, cardsPlayed);
      var someone :| someone in cardsPlayed;
      assert someone in PlayersOf(order);
      WinnerIsAnEntry(order, trump);
    }
  }
}
