/** The 32-card deck: building, shuffling, dealing from the front (Deck.java). */
module Decks {
  import opened Wrappers
  import opened Cards

  /** The deck as the constructor builds it: suits in declaration order, and
      within each suit the ranks in declaration order. */
  function FullDeck(): (d: seq<Card>)
    ensures |d| == 32
  {
    seq(32, i requires 0 <= i < 32 => Card(AllSuits[i / 8], AllRanks[i % 8]))
  }

  /** A deck in the order the constructor builds it: position 8s+r holds
      the s-th suit and the r-th rank. */
  ghost predicate InDeckOrder(d: seq<Card>) {
    |d| == 32 && forall i :: 0 <= i < 32 ==> d[i] == Card(AllSuits[i / 8], AllRanks[i % 8])
  }

  /** That order is FullDeck. */
  lemma InDeckOrderIsFullDeck(d: seq<Card>)
    requires InDeckOrder(d)
    ensures d == FullDeck()
  {
  }

  /** Where each card sits in a fresh deck. */
  function DeckPosition(c: Card): nat {
    8 * SuitOrdinal(c.suit) + RankOrdinal(c.rank)
  }

  /** A new deck holds every (suit, rank) pair exactly once: each lies at its
      own position and no two positions hold the same card. */
  lemma FullDeckIsEveryCardOnce(c: Card)
    ensures DeckPosition(c) < 32 && FullDeck()[DeckPosition(c)] == c
    ensures forall i, j :: 0 <= i < j < 32 ==> FullDeck()[i] != FullDeck()[j]
    ensures multiset(FullDeck())[c] == 1
  {
    var d := FullDeck();
    forall i, j | 0 <= i < j < 32 ensures d[i] != d[j] {
      PositionInFullDeck(i);
      PositionInFullDeck(j);
    }
    var p := DeckPosition(c);
    assert d[p] == c;
    DistinctOccursOnce(d, p);
  }

  /** The card at position i of a fresh deck has position i. */
  lemma PositionInFullDeck(i: nat)
    requires i < 32
    ensures DeckPosition(FullDeck()[i]) == i
  {
    var c := FullDeck()[i];
    assert SuitOrdinal(c.suit) == i / 8 && RankOrdinal(c.rank) == i % 8;
  }

  lemma DistinctOccursOnce<T>(s: seq<T>, p: nat)
    requires p < |s|
    requires forall i, j :: 0 <= i < j < |s| ==> s[i] != s[j]
    ensures multiset(s)[s[p]] == 1
  {
    assert s == s[..p] + [s[p]] + s[p + 1..];
    assert s[p] !in s[..p];
    assert s[p] !in s[p + 1..];
  }

  function Swap(s: seq<Card>, i: nat, j: nat): (r: seq<Card>)
    requires i < |s| && j < |s|
    ensures |r| == |s| && multiset(r) == multiset(s)
  {
    s[i := s[j]][j := s[i]]
  }

  /** Random.nextInt(bound): a number drawn from the source, brought below `bound`. */
  function NextInt(x: nat, bound: nat): (r: nat)
    requires bound > 0
    ensures r < bound
  {
    x % bound
  }

  /** Collections.shuffle on a random-access list: for i from the size down
      to 2, swap position i-1 with a position drawn below i. `rnd(k)` is the
      k-th number the random source yields, reduced to the range as
      Random.nextInt(i) does. Here the steps with i, i-1, ..., 2 remain. */
  function ShuffleFrom(s: seq<Card>, i: nat, rnd: nat -> nat): (r: seq<Card>)
    requires i <= |s|
    ensures |r| == |s| && r[i..] == s[i..]
    decreases i, s
  {
    if i <= 1 then s
    else ShuffleFrom(ShuffleStep(s, i, rnd), i - 1, rnd)
  }

  /** One step of the shuffle: swap position i-1 with the drawn position. */
  function ShuffleStep(s: seq<Card>, i: nat, rnd: nat -> nat): (r: seq<Card>)
    requires 1 <= i <= |s|
    ensures |r| == |s| && multiset(r) == multiset(s)
  {
    Swap(s, i - 1, NextInt(rnd(|s| - i), i))
  }

  /** Collections.shuffle of the whole list: whatever the random source
      yields, the same cards in some order. */
  function Shuffled(s: seq<Card>, rnd: nat -> nat): (r: seq<Card>)
    ensures |r| == |s| && multiset(r) == multiset(s)
  {
    ShufflePermutes(s, |s|, rnd);
    ShuffleFrom(s, |s|, rnd)
  }

  /** Whatever the random source yields, a shuffle only reorders. */
  lemma {:induction false} ShufflePermutes(s: seq<Card>, i: nat, rnd: nat -> nat)
    requires i <= |s|
    ensures |ShuffleFrom(s, i, rnd)| == |s|
    ensures multiset(ShuffleFrom(s, i, rnd)) == multiset(s)
    decreases i
  {
    if i > 1 {
      ShufflePermutes(ShuffleStep(s, i, rnd), i - 1, rnd);
    }
  }

  /** The card the constructor's loops add after the first 8s+r cards. */
  lemma NextInDeckOrder(cards: seq<Card>, s: nat, r: nat)
    requires s < 4 && r < 8 && |cards| == 8 * s + r && cards == FullDeck()[..|cards|]
    ensures cards + [Card(AllSuits[s], AllRanks[r])] == FullDeck()[..|cards| + 1]
  {
    var n := |cards|;
    assert n / 8 == s && n % 8 == r;
    assert FullDeck()[n] == Card(AllSuits[s], AllRanks[r]);
    assert FullDeck()[..n + 1] == FullDeck()[..n] + [FullDeck()[n]];
  }

  datatype DeckError = NotEnoughCards

  class Deck {
    var cards: seq<Card>

    /** Deck(): the nested loops over Suit.values() and Rank.values(). */
    constructor ()
      ensures InDeckOrder(cards)
    {
      cards := [];
      new;
      var si := 0;
      while si < |AllSuits|
        invariant 0 <= si <= |AllSuits|
        invariant |cards| == 8 * si && cards == FullDeck()[..|cards|]
      {
        var ri := 0;
        while ri < |AllRanks|
          invariant 0 <= ri <= |AllRanks|
          invariant |cards| == 8 * si + ri && cards == FullDeck()[..|cards|]
        {
          NextInDeckOrder(cards, si, ri);
          cards := cards + [Card(AllSuits[si], AllRanks[ri])];
          ri := ri + 1;
        }
        si := si + 1;
      }
      assert cards == FullDeck();
    }

    /** shuffle(): Collections.shuffle with the random source as a parameter. */
    method Shuffle(rnd: nat -> nat)
      modifies this
      ensures cards == Shuffled(old(cards), rnd)
      ensures multiset(cards) == multiset(old(cards)) && |cards| == |old(cards)|
    {
      var i := |cards|;
      while i > 1
        invariant 0 <= i <= |cards| == |old(cards)|
        invariant ShuffleFrom(cards, i, rnd) == Shuffled(old(cards), rnd)
        decreases i
      {
        cards := ShuffleStep(cards, i, rnd);
        i := i - 1;
      }
      ShufflePermutes(old(cards), |old(cards)|, rnd);
    }

    /** dealCards(count): fails, changing nothing, when fewer than `count`
        cards remain; otherwise removes the first `count` cards one at a
        time from the front and returns them in order. A negative count
        deals nothing. */
    method DealCards(count: int) returns (r: Result<seq<Card>, DeckError>)
      modifies this
      ensures r.Failure? <==> count > |old(cards)|
      ensures r.Failure? ==> cards == old(cards)
      ensures r.Success? ==>
        var n := if count < 0 then 0 else count;
        r.value == old(cards)[..n] && cards == old(cards)[n..]
    {
      if count > |cards| {
        return Failure(NotEnoughCards);
      }
      var dealt: seq<Card> := [];
      var i := 0;
      while i < count
        invariant 0 <= i && (count >= 0 ==> i <= count) && (count < 0 ==> i == 0)
        invariant i <= |old(cards)|
        invariant dealt == old(cards)[..i] && cards == old(cards)[i..]
      {
        dealt := dealt + [cards[0]];
        cards := cards[1..];
        i := i + 1;
      }
      r := Success(dealt);
    }

    /** size(): every copy of a card counts; a new deck holds 32. */
    function Size(): (n: nat)
      reads this
      ensures n == |multiset(cards)|
      ensures InDeckOrder(cards) ==> n == 32
    {
      |cards|
    }
  }

  /** Dealing loses and duplicates nothing: what was dealt followed by what
      remains is the deck before, and the size drops by exactly `count`. */
  lemma DealSplitsDeck(before: seq<Card>, count: nat)
    requires count <= |before|
    ensures before[..count] + before[count..] == before
    ensures |before[count..]| == |before| - count
    ensures multiset(before[..count]) + multiset(before[count..]) == multiset(before)
  {
    assert before[..count] + before[count..] == before;
  }
}
