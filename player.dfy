/** A seated player: identity, hand and the three counters (Player.java).
    Player.equals and hashCode compare usernames only, so every map of the
    engine is keyed by the username. */
module Players {
  import opened Wrappers
  import opened Cards

  /** List.remove(Object): drops the first occurrence, if there is one. */
  function RemoveFirst(s: seq<Card>, c: Card): (r: seq<Card>)
    ensures c in s ==> |r| == |s| - 1
    ensures c !in s ==> r == s
    decreases |s|
  {
    if |s| == 0 then []
    else if s[0] == c then s[1..]
    else [s[0]] + RemoveFirst(s[1..], c)
  }

  /** Index of the first occurrence. */
  function FirstIndex(s: seq<Card>, c: Card): (i: nat)
    requires c in s
    ensures i < |s| && s[i] == c && forall j :: 0 <= j < i ==> s[j] != c
  {
    if s[0] == c then 0 else 1 + FirstIndex(s[1..], c)
  }

  /** Removing a held card takes exactly one copy of it out of the hand. */
  lemma {:induction false} RemoveFirstCounts(s: seq<Card>, c: Card)
    requires c in s
    ensures multiset(RemoveFirst(s, c)) == multiset(s) - multiset{c}
    decreases |s|
  {
    assert s == [s[0]] + s[1..];
    if s[0] != c {
      RemoveFirstCounts(s[1..], c);
      assert multiset(s) == multiset{s[0]} + multiset(s[1..]);
    }
  }

  /** Removing the first occurrence keeps the other cards, in their order. */
  lemma {:induction false} RemoveFirstAt(s: seq<Card>, c: Card, i: nat)
    requires i < |s| && s[i] == c && forall j :: 0 <= j < i ==> s[j] != c
    ensures RemoveFirst(s, c) == s[..i] + s[i + 1..]
    decreases |s|
  {
    if i == 0 {
      assert s[..i] + s[i + 1..] == s[1..];
    } else {
      var t := s[1..];
      assert t[i - 1] == c;
      assert forall j :: 0 <= j < i - 1 ==> t[j] == s[j + 1];
      RemoveFirstAt(t, c, i - 1);
      assert RemoveFirst(s, c) == [s[0]] + (t[..i - 1] + t[i..]);
      assert [s[0]] + t[..i - 1] == s[..i];
      assert t[i..] == s[i + 1..];
    }
  }

  datatype PlayerError = CardNotInHand(card: Card)

  class Player {
    const username: string
    var hand: seq<Card>
    var score: int
    var bullet: int
    var mountain: int

    constructor (username: string)
      ensures this.username == username
      ensures hand == [] && score == 0 && bullet == 0 && mountain == 0
    {
      this.username := username;
      hand := [];
      score := 0;
      bullet := 0;
      mountain := 0;
    }

    method AddCard(card: Card)
      modifies this`hand
      ensures hand == old(hand) + [card]
    {
      hand := hand + [card];
    }

    method AddCards(cards: seq<Card>)
      modifies this`hand
      ensures hand == old(hand) + cards
    {
      hand := hand + cards;
    }

    /** removeCard: throws, changing nothing, for a card not held; otherwise
        removes one occurrence and returns the card. */
    method RemoveCard(card: Card) returns (r: Result<Card, PlayerError>)
      modifies this`hand
      ensures r.Failure? <==> card !in old(hand)
      ensures r.Failure? ==> r.error == CardNotInHand(card) && hand == old(hand)
      ensures r.Success? ==> r.value == card && hand == RemoveFirst(old(hand), card)
    {
      if card !in hand {
        return Failure(CardNotInHand(card));
      }
      hand := RemoveFirst(hand, card);
      r := Success(card);
    }

    method ClearHand()
      modifies this`hand
      ensures hand == []
    {
      hand := [];
    }

    /** The hand setter ScenarioRunner calls: replaces the hand. */
    method SetHand(cards: seq<Card>)
      modifies this`hand
      ensures hand == cards
    {
      hand := cards;
    }

    method SetScore(score: int)
      modifies this`score
      ensures this.score == score
    {
      this.score := score;
    }

    method AddScore(points: int)
      modifies this`score
      ensures score == old(score) + points
    {
      score := score + points;
    }

    method SetBullet(bullet: int)
      modifies this`bullet
      ensures this.bullet == bullet
    {
      this.bullet := bullet;
    }

    method AddBullet(amount: int)
      modifies this`bullet
      ensures bullet == old(bullet) + amount
    {
      bullet := bullet + amount;
    }

    method SetMountain(mountain: int)
      modifies this`mountain
      ensures this.mountain == mountain
    {
      this.mountain := mountain;
    }

    method AddMountain(amount: int)
      modifies this`mountain
      ensures mountain == old(mountain) + amount
    {
      mountain := mountain + amount;
    }
  }

  /** The hands of the seats, in seating order. */
  ghost function Hands(ps: seq<Player>): (hs: seq<seq<Card>>)
    reads ps`hand
    ensures |hs| == |ps| && forall i :: 0 <= i < |ps| ==> hs[i] == ps[i].hand
  {
    if |ps| == 0 then [] else Hands(ps[..|ps| - 1]) + [ps[|ps| - 1].hand]
  }
}
