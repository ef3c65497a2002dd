/** Legality of bids and whists (RulesValidator.java). The checks read only
    the variant's rules, the bids so far and the contract, so they take those
    instead of the whole game state. */
module Validation {
  import opened Wrappers
  import opened Cards
  import opened Contracts
  import opened Rules

  /** No bid other than PASS has been made. */
  predicate NoGameBid(bids: map<string, Contract>) {
    forall k :: k in bids ==> IsPass(bids[k])
  }

  /** `c` is the highest bid other than PASS: one of the bids, and no other
      non-pass bid is higher. */
  predicate IsTopBid(bids: map<string, Contract>, c: Contract) {
    !IsPass(c) &&
    (exists k :: k in bids && bids[k] == c) &&
    forall k :: k in bids && !IsPass(bids[k]) ==> !IsHigherThan(bids[k], c)
  }

  /** `c` is higher than every non-pass bid. */
  predicate AboveAllBids(bids: map<string, Contract>, c: Contract) {
    forall k :: k in bids && !IsPass(bids[k]) ==> IsHigherThan(c, bids[k])
  }

  /** The opening-bid minimum: MISER is exempt. */
  predicate MeetsMinimum(rules: GameRules, c: Contract) {
    IsMiser(c) || Tricks(c) >= rules.minimumOpeningBid
  }

  /** The bids validateBid lets through: PASS always; anything else must meet
      the minimum and beat every non-pass bid so far. */
  predicate BidAcceptable(rules: GameRules, bids: map<string, Contract>, c: Contract) {
    IsPass(c) || (MeetsMinimum(rules, c) && AboveAllBids(bids, c))
  }

  /** The contracts getAvailableBids lists after PASS: with no game bid,
      those meeting the minimum; with one, those above it (and then the
      minimum is not consulted). */
  ghost predicate Offered(rules: GameRules, bids: map<string, Contract>, c: Contract): (r: bool)
    ensures r ==> !IsPass(c) && (NoGameBid(bids) ==> MeetsMinimum(rules, c))
  {
    !IsPass(c) &&
    (if NoGameBid(bids) then MeetsMinimum(rules, c) else AboveAllBids(bids, c))
  }

  /** Every recorded non-pass bid meets the minimum. */
  ghost predicate AllMeetMinimum(rules: GameRules, bids: map<string, Contract>) {
    forall k :: k in bids && !IsPass(bids[k]) ==> MeetsMinimum(rules, bids[k])
  }

  /** The top bid is unique, whatever order the bids are visited in. */
  lemma TopBidUnique(bids: map<string, Contract>, c1: Contract, c2: Contract)
    requires IsTopBid(bids, c1) && IsTopBid(bids, c2)
    ensures c1 == c2
  {
    var k1 :| k1 in bids && bids[k1] == c1;
    var k2 :| k2 in bids && bids[k2] == c2;
    if c1 != c2 {
      Connected(c1, c2);
      assert false;
    }
  }

  /** The top bid is at least every non-pass bid. */
  lemma TopBidIsMaximum(bids: map<string, Contract>, c: Contract)
    requires IsTopBid(bids, c)
    ensures forall k :: k in bids && !IsPass(bids[k]) ==> bids[k] == c || IsHigherThan(c, bids[k])
  {
    forall k | k in bids && !IsPass(bids[k]) && bids[k] != c
      ensures IsHigherThan(c, bids[k])
    {
      Connected(c, bids[k]);
    }
  }

  /** Beating the top bid is beating every non-pass bid. */
  lemma AboveTopIsAboveAll(bids: map<string, Contract>, top: Contract, c: Contract)
    requires IsTopBid(bids, top)
    ensures IsHigherThan(c, top) <==> AboveAllBids(bids, c)
  {
    TopBidIsMaximum(bids, top);
    if IsHigherThan(c, top) {
      forall k | k in bids && !IsPass(bids[k])
        ensures IsHigherThan(c, bids[k])
      {
        if bids[k] != top {
          Transitive(c, top, bids[k]);
        }
      }
    }
  }

  /** The running maximum of validateBid, getAvailableBids, finalizeBidding
      and getPlayerView: over the bids in map order (left open here), a
      non-pass bid replaces the maximum when there is none yet or when it is
      higher. Also returns whose bid it is. */
  method MaxBid(bids: map<string, Contract>) returns (holder: Option<string>, maxBid: Option<Contract>)
    ensures maxBid.None? <==> NoGameBid(bids)
    ensures holder.Some? <==> maxBid.Some?
    ensures holder.Some? ==> holder.value in bids && maxBid == Some(bids[holder.value])
    ensures maxBid.Some? ==> IsTopBid(bids, maxBid.value)
  {
    var remaining := bids.Keys;
    holder, maxBid := None, None;
    while remaining != {}
      invariant remaining <= bids.Keys
      invariant holder.Some? <==> maxBid.Some?
      invariant holder.Some? ==> holder.value in bids && holder.value !in remaining && maxBid == Some(bids[holder.value])
      invariant maxBid.None? ==> forall k :: k in bids && k !in remaining ==> IsPass(bids[k])
      invariant maxBid.Some? ==> !IsPass(maxBid.value)
      invariant maxBid.Some? ==> forall k :: k in bids && k !in remaining && !IsPass(bids[k]) ==> !IsHigherThan(bids[k], maxBid.value)
      decreases remaining
    {
      var k :| k in remaining;
      var bid := bids[k];
      if !IsPass(bid) && (maxBid.None? || IsHigherThan(bid, maxBid.value)) {
        if maxBid.Some? {
          var old_max := maxBid.value;
          forall j | j in bids && j !in remaining && !IsPass(bids[j])
            ensures !IsHigherThan(bids[j], bid)
          {
            if IsHigherThan(bids[j], bid) {
              Transitive(bids[j], bid, old_max);
            }
          }
        }
        Asymmetric(bid, bid);
        holder, maxBid := Some(k), Some(bid);
      }
      remaining := remaining - {k};
    }
  }

  /** `k` holds, among `keys`, a non-pass bid of the greatest Key. */
  ghost predicate Unbeaten(bids: map<string, Contract>, keys: set<string>, k: string)
    requires keys <= bids.Keys
  {
    k in keys && !IsPass(bids[k]) &&
    forall j :: j in keys && !IsPass(bids[j]) ==> Key(bids[j]) <= Key(bids[k])
  }

  /** Any set of bidders with a non-pass bid among them has an unbeaten one. */
  lemma {:induction false} TopAmong(bids: map<string, Contract>, keys: set<string>) returns (k: string)
    requires keys <= bids.Keys && exists j :: j in keys && !IsPass(bids[j])
    ensures Unbeaten(bids, keys, k)
    decreases keys
  {
    var p :| p in keys;
    var rest := keys - {p};
    if exists j :: j in rest && !IsPass(bids[j]) {
      var t := TopAmong(bids, rest);
      k := if !IsPass(bids[p]) && Key(bids[p]) > Key(bids[t]) then p else t;
    } else {
      k := p;
    }
  }

  /** Scanning the contracts in declaration order from position `i` for
      the top bid. */
  function TopBidFrom(bids: map<string, Contract>, i: nat): (r: Option<Contract>)
    requires i <= |AllContracts|
    ensures r.Some? ==> IsTopBid(bids, r.value)
    ensures r.None? ==> forall j :: i <= j < |AllContracts| ==> !IsTopBid(bids, AllContracts[j])
    decreases |AllContracts| - i
  {
    if i == |AllContracts| then None
    else if IsTopBid(bids, AllContracts[i]) then Some(AllContracts[i])
    else TopBidFrom(bids, i + 1)
  }

  /** Some contract is the top bid once a non-pass bid was made. */
  lemma TopBidFound(bids: map<string, Contract>)
    ensures !NoGameBid(bids) ==> TopBidFrom(bids, 0).Some?
  {
    if !NoGameBid(bids) {
      var k := TopAmong(bids, bids.Keys);
      forall j | j in bids && !IsPass(bids[j]) ensures !IsHigherThan(bids[j], bids[k]) {
        HigherIffKeyGreater(bids[j], bids[k]);
      }
      ListedAtOrdinal(bids[k]);
      assert IsTopBid(bids, AllContracts[Ordinal(bids[k])]);
    }
  }

  /** The highest non-pass bid, absent when every bid is PASS. */
  function TopBid(bids: map<string, Contract>): (r: Option<Contract>)
    ensures r.None? <==> NoGameBid(bids)
    ensures r.Some? ==> IsTopBid(bids, r.value)
  {
    TopBidFound(bids);
    TopBidFrom(bids, 0)
  }

  datatype BidError = BelowMinimum(minimum: int) | NotHigherThanCurrent(current: Contract)

  /** The verdict of validateBid: PASS passes; otherwise the minimum is
      checked first, then the bid must beat the highest bid so far. */
  function BidCheck(rules: GameRules, bids: map<string, Contract>, bid: Contract): (r: Outcome<BidError>)
    ensures r.Ok? <==> BidAcceptable(rules, bids, bid)
    ensures r.Fail? && !MeetsMinimum(rules, bid) ==> r.error == BelowMinimum(rules.minimumOpeningBid)
    ensures r.Fail? && MeetsMinimum(rules, bid) ==> r.error.NotHigherThanCurrent? && IsTopBid(bids, r.error.current)
  {
    if IsPass(bid) then Ok
    else if !IsMiser(bid) && Tricks(bid) < rules.minimumOpeningBid then Fail(BelowMinimum(rules.minimumOpeningBid))
    else match TopBid(bids)
      case None => Ok
      case Some(top) =>
        AboveTopIsAboveAll(bids, top, bid);
        if IsHigherThan(bid, top) then Ok else Fail(NotHigherThanCurrent(top))
  }

  /** validateBid: the checks in their order, the current maximum found by
      the loop of MaxBid. */
  method ValidateBid(rules: GameRules, bids: map<string, Contract>, bid: Contract) returns (r: Outcome<BidError>)
    ensures r == BidCheck(rules, bids, bid)
  {
    if IsPass(bid) {
      return Ok;
    }
    if !IsMiser(bid) && Tricks(bid) < rules.minimumOpeningBid {
      return Fail(BelowMinimum(rules.minimumOpeningBid));
    }
    var _, maxBid := MaxBid(bids);
    if maxBid.Some? {
      TopBidUnique(bids, maxBid.value, TopBid(bids).value);
      if !IsHigherThan(bid, maxBid.value) {
        return Fail(NotHigherThanCurrent(maxBid.value));
      }
    }
    return Ok;
  }

  /** The offered contracts of `s`, in their order in `s`. */
  ghost function OfferedIn(rules: GameRules, bids: map<string, Contract>, s: seq<Contract>): seq<Contract> {
    if |s| == 0 then []
    else OfferedIn(rules, bids, s[..|s| - 1]) + (if Offered(rules, bids, s[|s| - 1]) then [s[|s| - 1]] else [])
  }

  /** OfferedIn keeps exactly the offered elements. */
  lemma {:induction false} OfferedInMembers(rules: GameRules, bids: map<string, Contract>, s: seq<Contract>)
    ensures forall c :: c in OfferedIn(rules, bids, s) <==> c in s && Offered(rules, bids, c)
  {
    if |s| > 0 {
      OfferedInMembers(rules, bids, s[..|s| - 1]);
      assert s == s[..|s| - 1] + [s[|s| - 1]];
    }
  }

  /** The three skip conditions of getAvailableBids are the negation of Offered. */
  lemma SkippedIffNotOffered(rules: GameRules, bids: map<string, Contract>, maxBid: Option<Contract>, c: Contract)
    requires maxBid.None? <==> NoGameBid(bids)
    requires maxBid.Some? ==> IsTopBid(bids, maxBid.value)
    ensures (IsPass(c) ||
             (maxBid.None? && Tricks(c) < rules.minimumOpeningBid && !IsMiser(c)) ||
             (maxBid.Some? && !IsHigherThan(c, maxBid.value))) <==> !Offered(rules, bids, c)
  {
    if maxBid.Some? {
      AboveTopIsAboveAll(bids, maxBid.value, c);
    }
  }

  /** The loop of getAvailableBids over a list of contracts, given the
      running maximum of the bids: keeps the contracts it does not skip. */
  method KeepOffered(rules: GameRules, bids: map<string, Contract>, maxBid: Option<Contract>, cs: seq<Contract>)
    returns (kept: seq<Contract>)
    requires maxBid.None? <==> NoGameBid(bids)
    requires maxBid.Some? ==> IsTopBid(bids, maxBid.value)
    ensures kept == OfferedIn(rules, bids, cs)
  {
    kept := [];
    var n := 0;
    while n < |cs|
      invariant 0 <= n <= |cs|
      invariant kept == OfferedIn(rules, bids, cs[..n])
    {
      var c := cs[n];
      var skip :=
        IsPass(c) ||
        (maxBid.None? && Tricks(c) < rules.minimumOpeningBid && !IsMiser(c)) ||
        (maxBid.Some? && !IsHigherThan(c, maxBid.value));
      SkippedIffNotOffered(rules, bids, maxBid, c);
      assert cs[..n + 1][..n] == cs[..n];
      if !skip {
        kept := kept + [c];
      }
      n := n + 1;
    }
    assert cs[..n] == cs;
  }

  /** getAvailableBids: PASS, then the offered contracts in declaration
      order. */
  method GetAvailableBids(rules: GameRules, bids: map<string, Contract>) returns (available: seq<Contract>)
    ensures available == [Pass] + OfferedIn(rules, bids, AllContracts)
    ensures forall i :: 1 <= i < |available| ==> available[i] != Pass
    ensures forall c :: c in available[1..] <==> Offered(rules, bids, c)
  {
    var _, maxBid := MaxBid(bids);
    var kept := KeepOffered(rules, bids, maxBid, AllContracts);
    available := [Pass] + kept;
    OfferedInMembers(rules, bids, AllContracts);
    assert available[1..] == kept;
    forall c | Offered(rules, bids, c) ensures c in AllContracts {
      ListedAtOrdinal(c);
    }
  }

  /** Every non-pass bid validateBid accepts is offered. */
  lemma AcceptedIsOffered(rules: GameRules, bids: map<string, Contract>, c: Contract)
    requires BidAcceptable(rules, bids, c) && !IsPass(c)
    ensures Offered(rules, bids, c)
  {
  }

  /** A game contract that beats a game contract needs at least as many tricks. */
  lemma HigherGameNeedsNoFewerTricks(a: Contract, b: Contract)
    requires IsGame(a) && IsGame(b) && IsHigherThan(a, b)
    ensures Tricks(a) >= Tricks(b)
  {
    if Tricks(a) != Tricks(b) {
      MoreTricksHigher(a, b);
    }
  }

  /** Conversely, every offered contract is accepted, provided the recorded
      bids met the minimum and the minimum is at most 8 (the level of the
      lowest contract above MISER). */
  lemma OfferedIsAccepted(rules: GameRules, bids: map<string, Contract>, c: Contract)
    requires rules.minimumOpeningBid <= 8
    requires AllMeetMinimum(rules, bids)
    requires Offered(rules, bids, c)
    ensures BidAcceptable(rules, bids, c)
  {
    if !NoGameBid(bids) && !IsMiser(c) {
      var k :| k in bids && !IsPass(bids[k]);
      var b := bids[k];
      assert IsHigherThan(c, b);
      if IsMiser(b) {
        MiserBetweenSevenAndEight(c);
      } else {
        HigherGameNeedsNoFewerTricks(c, b);
      }
    }
  }

  /** With a minimum above 8 the converse fails: after a MISER bid,
      EIGHT_SPADES is offered, but validateBid refuses it as below the
      minimum. */
  lemma OfferedButRefusedAboveEight()
    ensures var rules := DefaultRules().(minimumOpeningBid := 9);
            var bids := map["south" := Miser];
            AllMeetMinimum(rules, bids) && Offered(rules, bids, EightSpades) && !BidAcceptable(rules, bids, EightSpades)
  {
    var bids := map["south" := Miser];
    assert !NoGameBid(bids) by { assert "south" in bids; }
    MiserBetweenSevenAndEight(EightSpades);
  }

  /** An accepted bid keeps the bids meeting the minimum. */
  lemma AcceptedKeepsMinimum(rules: GameRules, bids: map<string, Contract>, k: string, c: Contract)
    requires AllMeetMinimum(rules, bids) && BidAcceptable(rules, bids, c)
    ensures AllMeetMinimum(rules, bids[k := c])
  {
  }

  datatype WhistError = NoContract | SixSpadesWhistMandatory | HalfWhistForbidden | HalfWhistAfterPassForbidden

  /** Some player other than the declarer has passed. */
  predicate DefenderPassed(bids: map<string, Contract>, declarer: Option<string>) {
    exists k :: k in bids && Some(k) != declarer && IsPass(bids[k])
  }

  /** validateWhist: the checks in order; Ok when none refuses. */
  function ValidateWhist(rules: GameRules, bids: map<string, Contract>, declarer: Option<string>,
                         contract: Option<Contract>, isWhisting: bool, isHalfWhist: bool): (r: Outcome<WhistError>)
    ensures contract.None? ==> r == Fail(NoContract)
    ensures contract.Some? && contract.value == SixSpades && rules.mandatory6SpadesWhist && !isWhisting ==>
              r == Fail(SixSpadesWhistMandatory)
    ensures r.Ok? <==>
              contract.Some? &&
              !(rules.mandatory6SpadesWhist && contract.value == SixSpades && !isWhisting) &&
              (isHalfWhist ==> rules.allowHalfWhist && (rules.allowHalfWhistAfterPass || !DefenderPassed(bids, declarer)))
  {
    if contract.None? then Fail(NoContract)
    else
      var c := contract.value;
      assert Tricks(c) == 6 && TrumpSuit(c) == Some(Spades) <==> c == SixSpades;
      if rules.mandatory6SpadesWhist && Tricks(c) == 6 && TrumpSuit(c) == Some(Spades) && !isWhisting then
        Fail(SixSpadesWhistMandatory)
      else if isHalfWhist && !rules.allowHalfWhist then Fail(HalfWhistForbidden)
      else if isHalfWhist && !rules.allowHalfWhistAfterPass && DefenderPassed(bids, declarer) then
        Fail(HalfWhistAfterPassForbidden)
      else Ok
  }

  /** Under the default rules a whist decision is refused only without a
      contract or for declining to whist on SIX_SPADES. */
  lemma DefaultWhistRules(bids: map<string, Contract>, declarer: Option<string>,
                          contract: Option<Contract>, isWhisting: bool, isHalfWhist: bool)
    ensures ValidateWhist(DefaultRules(), bids, declarer, contract, isWhisting, isHalfWhist).Fail? <==>
              contract.None? || (contract.value == SixSpades && !isWhisting)
  {
  }

  /** The number of tricks required to leave the all-pass rounds, by exit
      type and number of all-pass rounds played (computed by canExitMizer
      and then not used). */
  function RequiredExitTricks(exitType: MizerExitType, mizerCount: int): (n: int)
    ensures 6 <= n <= 8
    ensures exitType == Flat6 || mizerCount == 1 ==> n == 6
  {
    match exitType
    case Flat6 => 6
    case Escalating678 => if mizerCount == 1 then 6 else if mizerCount == 2 then 7 else 8
    case Escalating677 => if mizerCount == 1 then 6 else 7
  }

  /** The escalating tables never ask for fewer tricks after more all-pass
      rounds, and the 6-7-8 table never asks for fewer than the 6-7-7 one. */
  lemma ExitTables(exitType: MizerExitType, count: int, later: int)
    requires 1 <= count <= later
    ensures RequiredExitTricks(exitType, count) <= RequiredExitTricks(exitType, later)
    ensures RequiredExitTricks(Escalating678, count) >= RequiredExitTricks(Escalating677, count)
  {
  }

  /** canExitMizer: a placeholder that allows the exit in every case, with
      or without all-pass rounds behind the player and whatever the table
      above requires. */
  function CanExitMizer(rules: GameRules, mountain: int): (allowed: bool)
    ensures allowed
  {
    true
  }
}
