/** Suits, ranks and cards (Suit.java, Rank.java, Card.java). */
module Cards {

  /** Suit.java: declaration order SPADES, CLUBS, DIAMONDS, HEARTS. */
  datatype Suit = Spades | Clubs | Diamonds | Hearts

  /** Rank.java: declaration order SEVEN ... ACE. */
  datatype Rank = Seven | Eight | Nine | Ten | Jack | Queen | King | Ace

  /** Card.java: an immutable (suit, rank) record. */
  datatype Card = Card(suit: Suit, rank: Rank)

  /** Suit.values() */
  const AllSuits: seq<Suit> := [Spades, Clubs, Diamonds, Hearts]

  /** Rank.values() */
  const AllRanks: seq<Rank> := [Seven, Eight, Nine, Ten, Jack, Queen, King, Ace]

  function SuitOrdinal(s: Suit): (n: nat)
    ensures n < |AllSuits| && AllSuits[n] == s
  {
    match s
    case Spades => 0
    case Clubs => 1
    case Diamonds => 2
    case Hearts => 3
  }

  function RankOrdinal(r: Rank): (n: nat)
    ensures n < |AllRanks| && AllRanks[n] == r
  {
    match r
    case Seven => 0
    case Eight => 1
    case Nine => 2
    case Ten => 3
    case Jack => 4
    case Queen => 5
    case King => 6
    case Ace => 7
  }

  /** Rank.getValue: the value used to compare cards of one suit. */
  function Value(r: Rank): (v: int)
    ensures v == 7 + RankOrdinal(r)
    ensures 7 <= v <= 14
  {
    match r
    case Seven => 7
    case Eight => 8
    case Nine => 9
    case Ten => 10
    case Jack => 11
    case Queen => 12
    case King => 13
    case Ace => 14
  }

  /** Rank.getSymbol: the short label printed on a card. */
  function Symbol(r: Rank): (s: string)
    ensures 1 <= |s| <= 2
    ensures |s| == 2 <==> r == Ten
  {
    match r
    case Seven => "7"
    case Eight => "8"
    case Nine => "9"
    case Ten => "10"
    case Jack => "В"
    case Queen => "Д"
    case King => "К"
    case Ace => "Т"
  }

  /** Rank.getRussianName: the four number ranks use the two-argument enum
      constructor, which passes the symbol on as the Russian name. */
  function RussianName(r: Rank): (s: string)
    ensures |s| >= 1
    ensures RankOrdinal(r) <= 3 ==> s == Symbol(r)
  {
    match r
    case Seven | Eight | Nine | Ten => Symbol(r)
    case Jack => "Валет"
    case Queen => "Дама"
    case King => "Король"
    case Ace => "Туз"
  }

  /** Suit.getSymbol: one character per suit. */
  function SuitSymbol(s: Suit): (t: string)
    ensures |t| == 1
  {
    match s
    case Spades => "♠"
    case Clubs => "♣"
    case Diamonds => "♦"
    case Hearts => "♥"
  }

  /** Enum.name() of a rank, the spelling Rank.valueOf accepts. */
  function RankName(r: Rank): (t: string)
    ensures |t| >= 3 && forall i :: 0 <= i < |t| ==> 'A' <= t[i] <= 'Z'
  {
    match r
    case Seven => "SEVEN"
    case Eight => "EIGHT"
    case Nine => "NINE"
    case Ten => "TEN"
    case Jack => "JACK"
    case Queen => "QUEEN"
    case King => "KING"
    case Ace => "ACE"
  }

  /** Enum.name() of a suit, the spelling Suit.valueOf accepts. */
  function SuitName(s: Suit): (t: string)
    ensures |t| >= 5 && forall i :: 0 <= i < |t| ==> 'A' <= t[i] <= 'Z'
  {
    match s
    case Spades => "SPADES"
    case Clubs => "CLUBS"
    case Diamonds => "DIAMONDS"
    case Hearts => "HEARTS"
  }

  /** Card.toString: rank symbol followed by suit symbol. */
  function CardText(c: Card): (t: string)
    ensures |t| == |Symbol(c.rank)| + 1 && t[|t| - 1] == SuitSymbol(c.suit)[0]
  {
    Symbol(c.rank) + SuitSymbol(c.suit)
  }

  /** The values are 7, 8, ..., 14 in declaration order. */
  lemma RankValuesInDeclarationOrder()
    ensures |AllRanks| == 8
    ensures forall i :: 0 <= i < |AllRanks| ==> Value(AllRanks[i]) == 7 + i
  {
  }

  /** getValue is strictly increasing in declaration order, hence injective. */
  lemma ValueMonotone(r1: Rank, r2: Rank)
    ensures RankOrdinal(r1) < RankOrdinal(r2) <==> Value(r1) < Value(r2)
    ensures Value(r1) == Value(r2) ==> r1 == r2
  {
  }

  /** The four ranks built by the two-argument constructor carry their symbol
      as Russian name. */
  lemma ShortRanksNamedBySymbol(r: Rank)
    requires r in {Seven, Eight, Nine, Ten}
    ensures RussianName(r) == Symbol(r)
  {
  }

  /** The eight rank symbols are pairwise distinct, and so are the four suit symbols. */
  lemma SymbolsDistinct(r1: Rank, r2: Rank, s1: Suit, s2: Suit)
    ensures Symbol(r1) == Symbol(r2) ==> r1 == r2
    ensures SuitSymbol(s1) == SuitSymbol(s2) ==> s1 == s2
  {
  }
}
