/** The 27 contracts of the auction and their ordering (Contract.java). */
module Contracts {
  import opened Wrappers
  import opened Cards

  /** The number of tricks a game contract undertakes. */
  type Level = t: int | 6 <= t <= 10 witness 6

  /** Contract.java's constants: the 25 game contracts SIX_SPADES ...
      TEN_NO_TRUMP, each a level and a trump suit (`None` for no trump,
      Java's null), then MISER and PASS. */
  datatype Contract = Game(level: Level, trump: Option<Suit>) | Miser | Pass

  const SixSpades: Contract := Game(6, Some(Spades))
  const SixClubs: Contract := Game(6, Some(Clubs))
  const SixDiamonds: Contract := Game(6, Some(Diamonds))
  const SixHearts: Contract := Game(6, Some(Hearts))
  const SixNoTrump: Contract := Game(6, None)
  const SevenSpades: Contract := Game(7, Some(Spades))
  const SevenClubs: Contract := Game(7, Some(Clubs))
  const SevenDiamonds: Contract := Game(7, Some(Diamonds))
  const SevenHearts: Contract := Game(7, Some(Hearts))
  const SevenNoTrump: Contract := Game(7, None)
  const EightSpades: Contract := Game(8, Some(Spades))
  const EightClubs: Contract := Game(8, Some(Clubs))
  const EightDiamonds: Contract := Game(8, Some(Diamonds))
  const EightHearts: Contract := Game(8, Some(Hearts))
  const EightNoTrump: Contract := Game(8, None)
  const NineSpades: Contract := Game(9, Some(Spades))
  const NineClubs: Contract := Game(9, Some(Clubs))
  const NineDiamonds: Contract := Game(9, Some(Diamonds))
  const NineHearts: Contract := Game(9, Some(Hearts))
  const NineNoTrump: Contract := Game(9, None)
  const TenSpades: Contract := Game(10, Some(Spades))
  const TenClubs: Contract := Game(10, Some(Clubs))
  const TenDiamonds: Contract := Game(10, Some(Diamonds))
  const TenHearts: Contract := Game(10, Some(Hearts))
  const TenNoTrump: Contract := Game(10, None)

  /** The five game contracts of one level, in declaration order: spades,
      clubs, diamonds, hearts, no trump. */
  function Row(t: Level): seq<Contract> {
    [Game(t, Some(Spades)), Game(t, Some(Clubs)), Game(t, Some(Diamonds)), Game(t, Some(Hearts)), Game(t, None)]
  }

  /** Contract.values(), in declaration order. */
  const AllContracts: seq<Contract> := Row(6) + Row(7) + Row(8) + Row(9) + Row(10) + [Miser, Pass]

  /** Within a level the constants are declared spades, clubs, diamonds,
      hearts, no trump. */
  function TrumpPriority(t: Option<Suit>): (p: nat)
    ensures p < 5
  {
    match t
    case Some(Spades) => 0
    case Some(Clubs) => 1
    case Some(Diamonds) => 2
    case Some(Hearts) => 3
    case None => 4
  }

  /** Enum.ordinal(): the position in declaration order. */
  function Ordinal(c: Contract): (n: nat)
    ensures n < |AllContracts|
  {
    match c
    case Game(t, s) => 5 * (t - 6) + TrumpPriority(s)
    case Miser => 25
    case Pass => 26
  }

  /** values() lists every contract at its ordinal. */
  lemma ListedAtOrdinal(c: Contract)
    ensures AllContracts[Ordinal(c)] == c
  {
    match c
    case Game(t, s) =>
      assert Row(t)[TrumpPriority(s)] == c;
    case Miser =>
    case Pass =>
  }

  // The four fields every constant carries (Contract.java's constructor
  // arguments).

  /** getSortOrder: every constant is given its declaration position, so
      values() holds each contract at its sort order. */
  function SortOrder(c: Contract): (n: int)
    ensures 0 <= n < |AllContracts| && AllContracts[n] == c
  {
    ListedAtOrdinal(c);
    Ordinal(c)
  }

  /** getTricks: the tricks the declarer undertakes; 0 for MISER, -1 for PASS. */
  function Tricks(c: Contract): (t: int)
    ensures c.Game? <==> 6 <= t <= 10
    ensures t == 0 <==> c == Miser
    ensures t < 0 <==> c == Pass
  {
    match c
    case Game(t, _) => t
    case Miser => 0
    case Pass => -1
  }

  /** getTrumpSuit: `None` (null) for no trump, MISER and PASS. */
  function TrumpSuit(c: Contract): (s: Option<Suit>)
    ensures s.Some? <==> c.Game? && c.trump.Some?
    ensures s.Some? ==> s == c.trump
  {
    match c
    case Game(_, s) => s
    case Miser => None
    case Pass => None
  }

  /** getDisplayName: the level and the suit symbol ("БК" for no trump),
      "Мизер" and "Пас". */
  function DisplayName(c: Contract): (t: string)
    ensures 2 <= |t| <= 5
  {
    match c
    case Game(t, s) => LevelText(t) + (if s.None? then "БК" else SuitSymbol(s.value))
    case Miser => "Мизер"
    case Pass => "Пас"
  }

  function LevelText(t: Level): string {
    ["6", "7", "8", "9", "10"][t - 6]
  }

  /** No two contracts share a display name, so the bids a view shows by
      display name tell every contract apart. */
  lemma DisplayNameInjective(a: Contract, b: Contract)
    requires DisplayName(a) == DisplayName(b)
    ensures a == b
  {
    var name := DisplayName(a);
    if a.Game? && b.Game? {
      var n := |LevelText(a.level)|;
      assert name[0] == LevelText(a.level)[0] && name[0] == LevelText(b.level)[0];
      assert a.level == b.level;
      assert name[n..] == (if a.trump.None? then "БК" else SuitSymbol(a.trump.value));
      assert name[n..] == (if b.trump.None? then "БК" else SuitSymbol(b.trump.value));
    } else {
      assert name[0] in "МП" && !(name[0] in "16789");
    }
  }

  predicate IsNoTrump(c: Contract): (r: bool)
    ensures r <==> c.Game? && c.trump.None?
  {
    TrumpSuit(c).None? && Tricks(c) > 0
  }

  /** isMiser: MISER is the only contract of zero tricks, and it has no trump. */
  function IsMiser(c: Contract): (r: bool)
    ensures r <==> Tricks(c) == 0
    ensures r ==> TrumpSuit(c).None?
  {
    c == Miser
  }

  /** isPass: PASS is the only contract of negative tricks, the last of values(). */
  function IsPass(c: Contract): (r: bool)
    ensures r <==> Tricks(c) < 0
    ensures r <==> Ordinal(c) == |AllContracts| - 1
  {
    c == Pass
  }

  /** A contract that names a trick level (6-10), i.e. neither MISER nor PASS. */
  predicate IsGame(c: Contract) {
    !IsMiser(c) && !IsPass(c)
  }

  /** Contract.isHigherThan, branch for branch. */
  predicate IsHigherThan(a: Contract, b: Contract): (r: bool)
    ensures r ==> !IsPass(a) && !IsPass(b) && a != b
  {
    if IsPass(a) || IsPass(b) then false
    else if a == b then false
    else if IsMiser(a) && !IsMiser(b) then Tricks(b) < 7 || Tricks(b) == 7
    else if !IsMiser(a) && IsMiser(b) then Tricks(a) >= 8
    else if Tricks(a) != Tricks(b) then Tricks(a) > Tricks(b)
    else Ordinal(a) > Ordinal(b)
  }

  /** A numeric key that places MISER between SEVEN_NO_TRUMP and EIGHT_SPADES. */
  function Key(c: Contract): int {
    if IsMiser(c) then 19 else 2 * Ordinal(c)
  }

  /** On the 26 contracts other than PASS, isHigherThan is exactly the order of Key. */
  lemma HigherIffKeyGreater(a: Contract, b: Contract)
    requires !IsPass(a) && !IsPass(b)
    ensures IsHigherThan(a, b) <==> Key(a) > Key(b)
  {
  }

  /** PASS is never higher than anything, and nothing is higher than PASS. */
  lemma PassIncomparable(c: Contract)
    ensures !IsHigherThan(Pass, c) && !IsHigherThan(c, Pass)
  {
  }

  /** No contract is higher than itself. */
  lemma Irreflexive(c: Contract)
    ensures !IsHigherThan(c, c)
  {
  }

  /** MISER sits between level 7 and level 8. */
  lemma MiserBetweenSevenAndEight(c: Contract)
    requires IsGame(c)
    ensures IsHigherThan(Miser, c) <==> Tricks(c) <= 7
    ensures IsHigherThan(c, Miser) <==> Tricks(c) >= 8
  {
  }

  /** Between game contracts of different levels the higher level wins. */
  lemma MoreTricksHigher(a: Contract, b: Contract)
    requires IsGame(a) && IsGame(b) && Tricks(a) != Tricks(b)
    ensures IsHigherThan(a, b) <==> Tricks(a) > Tricks(b)
  {
  }

  /** At one level the trump choice decides: spades < clubs < diamonds <
      hearts < no trump. */
  lemma SameLevelByTrumpPriority(a: Contract, b: Contract)
    requires IsGame(a) && IsGame(b) && Tricks(a) == Tricks(b)
    ensures IsHigherThan(a, b) <==> TrumpPriority(TrumpSuit(a)) > TrumpPriority(TrumpSuit(b))
  {
  }

  lemma Asymmetric(a: Contract, b: Contract)
    ensures IsHigherThan(a, b) ==> !IsHigherThan(b, a)
  {
    if !IsPass(a) && !IsPass(b) {
      HigherIffKeyGreater(a, b);
      HigherIffKeyGreater(b, a);
    }
  }

  lemma Transitive(a: Contract, b: Contract, c: Contract)
    requires IsHigherThan(a, b) && IsHigherThan(b, c)
    ensures IsHigherThan(a, c)
  {
    HigherIffKeyGreater(a, b);
    HigherIffKeyGreater(b, c);
    HigherIffKeyGreater(a, c);
  }

  /** Any two distinct contracts other than PASS are comparable. */
  lemma Connected(a: Contract, b: Contract)
    requires !IsPass(a) && !IsPass(b) && a != b
    ensures IsHigherThan(a, b) || IsHigherThan(b, a)
  {
    HigherIffKeyGreater(a, b);
    HigherIffKeyGreater(b, a);
  }

  /** isNoTrump holds for exactly the five *_NO_TRUMP constants. */
  lemma NoTrumpExactly(c: Contract)
    ensures IsNoTrump(c) <==> c in {SixNoTrump, SevenNoTrump, EightNoTrump, NineNoTrump, TenNoTrump}
    ensures !IsNoTrump(Miser) && !IsNoTrump(Pass)
  {
  }
}
