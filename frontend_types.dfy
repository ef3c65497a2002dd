/** The card helpers of the web front end (prefhub-frontend/src/types/index.ts):
    symbols, suit colour, the card label and the hand sort. The symbol
    tables are those of the server's Rank and Suit. */
module Frontend {
  import opened Cards

  /** getSuitSymbol */
  function SuitSymbolOf(s: Suit): (t: string)
    ensures |t| == 1 && t == SuitSymbol(s)
  {
    match s
    case Spades => "♠"
    case Clubs => "♣"
    case Diamonds => "♦"
    case Hearts => "♥"
  }

  /** getRankSymbol */
  function RankSymbolOf(r: Rank): (t: string)
    ensures 1 <= |t| <= 2 && t == Symbol(r)
  {
    match r
    case Seven => "7"
    case Eight => "8"
    case Nine => "9"
    case Ten => "10"
    case Jack => "В"
    case Queen => "Д"
    case King => "К"
    case Ace => "Т"
  }

  datatype Colour = Red | Black

  /** getSuitColor */
  function SuitColour(s: Suit): (c: Colour)
    ensures c == Red <==> s == Diamonds || s == Hearts
    ensures c == Black <==> s.Spades? || s.Clubs?
  {
    if s == Diamonds || s == Hearts then Red else Black
  }

  /** cardToString: the rank symbol, then the suit symbol. */
  function CardToString(c: Card): (t: string)
    ensures |t| >= 2
    ensures t[..|t| - 1] == RankSymbolOf(c.rank) && t[|t| - 1..] == SuitSymbolOf(c.suit)
    ensures t == CardText(c)
  {
    RankSymbolOf(c.rank) + SuitSymbolOf(c.suit)
  }

  /** Different cards get different labels: the suit symbol is the last
      character and the rank symbol the rest. */
  lemma CardToStringInjective(c1: Card, c2: Card)
    requires CardToString(c1) == CardToString(c2)
    ensures c1 == c2
  {
    var t := CardToString(c1);
    assert RankSymbolOf(c1.rank) == t[..|t| - 1] == RankSymbolOf(c2.rank);
    assert SuitSymbolOf(c1.suit) == t[|t| - 1..] == SuitSymbolOf(c2.suit);
    SymbolsDistinct(c1.rank, c2.rank, c1.suit, c2.suit);
  }

  // ---------------------------------------------------------------------
  // sortCards

  /** suitOrder and rankOrder of sortCards. */
  function SuitOrder(s: Suit): (n: int)
    ensures n == SuitOrdinal(s)
  {
    match s
    case Spades => 0
    case Clubs => 1
    case Diamonds => 2
    case Hearts => 3
  }

  function RankOrder(r: Rank): (n: int)
    ensures n == RankOrdinal(r)
  {
    match r
    case Seven => 0
    case Eight => 1
    case Nine => 2
    case Ten => 3
    case Jack => 4
    case Queen => 5
    case King => 6
    case Ace => 7
  }

  /** The comparator of sortCards: the suit difference, or the rank
      difference within a suit. */
  function Compare(a: Card, b: Card): (d: int)
    ensures d == 0 <==> a == b
    ensures a.suit != b.suit ==> (d < 0 <==> SuitOrder(a.suit) < SuitOrder(b.suit))
  {
    var suitDiff := SuitOrder(a.suit) - SuitOrder(b.suit);
    if suitDiff != 0 then suitDiff else RankOrder(a.rank) - RankOrder(b.rank)
  }

  /** The position of a card in the sorted order of the 32 cards. */
  function Key(c: Card): (k: int)
    ensures 0 <= k < 32
  {
    8 * SuitOrder(c.suit) + RankOrder(c.rank)
  }

  /** The comparator orders cards as their keys do, and only equal cards
      compare equal. */
  lemma CompareIsKeyOrder(a: Card, b: Card)
    ensures Compare(a, b) < 0 <==> Key(a) < Key(b)
    ensures Compare(a, b) == 0 <==> a == b
    ensures Compare(a, b) > 0 <==> Key(a) > Key(b)
  {
  }

  /** Each card has its own key. */
  lemma KeyInjective(a: Card, b: Card)
    requires Key(a) == Key(b)
    ensures a == b
  {
    CompareIsKeyOrder(a, b);
  }

  /** Ordered by suit (spades, clubs, diamonds, hearts), then by rank
      (seven up to ace). */
  predicate Sorted(cs: seq<Card>) {
    forall i, j :: 0 <= i < j < |cs| ==> Key(cs[i]) <= Key(cs[j])
  }

  /** A sorted hand is one in which sortCards' comparator puts no card
      after a later one. */
  lemma SortedByComparator(cs: seq<Card>)
    ensures Sorted(cs) <==> forall i, j :: 0 <= i < j < |cs| ==> Compare(cs[i], cs[j]) <= 0
  {
    forall a, b {
      CompareIsKeyOrder(a, b);
    }
  }

  /** One card put into its place in a sorted hand. */
  function Insert(c: Card, cs: seq<Card>): (r: seq<Card>)
    requires Sorted(cs)
    ensures Sorted(r) && multiset(r) == multiset(cs) + multiset{c}
    ensures |r| == |cs| + 1 && (r[0] == c || (|cs| > 0 && r[0] == cs[0]))
  {
    if |cs| == 0 then [c]
    else if Key(c) <= Key(cs[0]) then
      SortedCons(c, cs);
      [c] + cs
    else
      assert cs == [cs[0]] + cs[1..];
      var rest := Insert(c, cs[1..]);
      SortedCons(cs[0], rest);
      [cs[0]] + rest
  }

  /** A card no later than the first of a sorted hand goes in front. */
  lemma SortedCons(a: Card, cs: seq<Card>)
    requires Sorted(cs) && (|cs| == 0 || Key(a) <= Key(cs[0]))
    ensures Sorted([a] + cs)
  {
  }

  /** sortCards: a sorted copy of the cards; the argument is a value, so the
      caller's array is untouched. */
  function SortCards(cs: seq<Card>): (r: seq<Card>)
    ensures Sorted(r) && multiset(r) == multiset(cs)
  {
    if |cs| == 0 then []
    else
      assert cs == [cs[0]] + cs[1..];
      Insert(cs[0], SortCards(cs[1..]))
  }

  /** A sorted arrangement of a collection of cards is unique: sortCards
      returns the only one, whatever order the hand came in. */
  lemma {:induction false} SortedPermutationUnique(xs: seq<Card>, ys: seq<Card>)
    requires Sorted(xs) && Sorted(ys) && multiset(xs) == multiset(ys)
    ensures xs == ys
    decreases |xs|
  {
    assert |xs| == |multiset(xs)| == |ys|;
    if |xs| > 0 {
      SameFirst(xs, ys);
      SameRest(xs, ys);
      SortedPermutationUnique(xs[1..], ys[1..]);
      assert xs == [xs[0]] + xs[1..] && ys == [ys[0]] + ys[1..];
    }
  }

  /** Two sorted arrangements of the same cards start with the same card,
      the one of least key. */
  lemma SameFirst(xs: seq<Card>, ys: seq<Card>)
    requires Sorted(xs) && Sorted(ys) && multiset(xs) == multiset(ys) && |xs| > 0 && |ys| > 0
    ensures xs[0] == ys[0]
  {
    assert ys[0] in multiset(xs) && xs[0] in multiset(ys);
    var i :| 0 <= i < |xs| && xs[i] == ys[0];
    var j :| 0 <= j < |ys| && ys[j] == xs[0];
    assert Key(xs[0]) <= Key(xs[i]) && Key(ys[0]) <= Key(ys[j]);
    KeyInjective(xs[0], ys[0]);
  }

  /** Taking the same first card off the same collection leaves the same
      collection. */
  lemma SameRest(xs: seq<Card>, ys: seq<Card>)
    requires multiset(xs) == multiset(ys) && |xs| > 0 && |ys| > 0 && xs[0] == ys[0]
    ensures multiset(xs[1..]) == multiset(ys[1..])
  {
    assert xs == [xs[0]] + xs[1..] && ys == [ys[0]] + ys[1..];
    assert multiset(xs[1..]) == multiset(xs) - multiset{xs[0]};
    assert multiset(ys[1..]) == multiset(ys) - multiset{ys[0]};
  }

  /** Sorting depends on the cards only, not on their order. */
  lemma SortIgnoresOrder(xs: seq<Card>, ys: seq<Card>)
    requires multiset(xs) == multiset(ys)
    ensures SortCards(xs) == SortCards(ys)
  {
    SortedPermutationUnique(SortCards(xs), SortCards(ys));
  }
}
