/** The rule variant of a game (GameRules.java) and its lookup by identifier
    (RulesLoader.getRules and getDefaultRules, over an already loaded map). */
module Rules {
  import opened Wrappers

  /** GameRules.MizerExitType */
  datatype MizerExitType = Flat6 | Escalating678 | Escalating677

  /** GameRules.TenGameMode */
  datatype TenGameMode = Checked | Whisted

  /** GameRules.WhistType */
  datatype WhistType = Open | Closed

  /** The fields of GameRules in declaration order. Each Java setter is the
      update expression `r.(field := v)`, and each getter the field itself. */
  datatype GameRules = GameRules(
    name: string,
    description: string,
    mizerExitType: MizerExitType,
    mizerExitOnFailedContract: bool,
    allowExitWithoutThree: bool,
    mandatory6SpadesWhist: bool,
    allowHalfWhist: bool,
    allowRefas: bool,
    allowDarkGame: bool,
    minimumOpeningBid: int,
    tenGameMode: TenGameMode,
    whistType: WhistType,
    allowHalfWhistAfterPass: bool,
    poolEnabled: bool,
    poolSize: int,
    poolValue: int,
    sansAtoutPriority: bool,
    trickPointsMultiplier: int,
    undertrickPenalty: int,
    exactContractBonus: int,
    usePoolRecording: bool,
    poolRecordingThreshold: int,
    allowAgreements: bool,
    moveTimeLimit: int,
    biddingTimeLimit: int)

  /** `new GameRules()`: the defaults. */
  function DefaultRules(): (r: GameRules)
    ensures 6 <= r.minimumOpeningBid <= 10 && r.mizerExitType == Flat6 && r.whistType == Closed
  {
    GameRules(
      name := "Default",
      description := "Стандартные правила",
      mizerExitType := Flat6,
      mizerExitOnFailedContract := false,
      allowExitWithoutThree := false,
      mandatory6SpadesWhist := true,
      allowHalfWhist := true,
      allowRefas := true,
      allowDarkGame := false,
      minimumOpeningBid := 6,
      tenGameMode := Checked,
      whistType := Closed,
      allowHalfWhistAfterPass := true,
      poolEnabled := false,
      poolSize := 0,
      poolValue := 0,
      sansAtoutPriority := true,
      trickPointsMultiplier := 2,
      undertrickPenalty := 2,
      exactContractBonus := 0,
      usePoolRecording := false,
      poolRecordingThreshold := 10,
      allowAgreements := false,
      moveTimeLimit := 0,
      biddingTimeLimit := 0)
  }

  /** The defaults the engine and the validator read, and those it does not. */
  lemma DefaultValues()
    ensures DefaultRules().minimumOpeningBid == 6 && DefaultRules().mizerExitType == Flat6
    ensures DefaultRules().tenGameMode == Checked && DefaultRules().whistType == Closed
    ensures DefaultRules().mandatory6SpadesWhist && DefaultRules().allowHalfWhist
    ensures DefaultRules().allowRefas && DefaultRules().allowHalfWhistAfterPass && !DefaultRules().allowDarkGame
    ensures DefaultRules().trickPointsMultiplier == 2 && DefaultRules().undertrickPenalty == 2
    ensures DefaultRules().exactContractBonus == 0 && !DefaultRules().usePoolRecording
    ensures DefaultRules().poolRecordingThreshold == 10
    ensures !DefaultRules().poolEnabled && DefaultRules().poolSize == 0 && DefaultRules().poolValue == 0
    ensures DefaultRules().moveTimeLimit == 0 && DefaultRules().biddingTimeLimit == 0
  {
  }

  /** A setter changes its own field and keeps every other one; shown for
      minimumOpeningBid, the field the validator reads. */
  lemma SetterChangesOnlyItsField(r: GameRules, v: int)
    ensures r.(minimumOpeningBid := v).minimumOpeningBid == v
    ensures r.(minimumOpeningBid := v).(minimumOpeningBid := r.minimumOpeningBid) == r
  {
  }

  datatype RulesError = RulesNotFound(ruleId: string)

  /** getRules: the loaded variant, or "Rules not found". */
  function GetRules(available: map<string, GameRules>, ruleId: string): (r: Result<GameRules, RulesError>)
    ensures r.Success? <==> ruleId in available
    ensures r.Success? ==> r.value == available[ruleId]
    ensures r.Failure? ==> r.error == RulesNotFound(ruleId)
  {
    if ruleId in available then Success(available[ruleId]) else Failure(RulesNotFound(ruleId))
  }

  /** What getDefaultRules may return: "leningradka" when loaded, else one
      of the loaded variants (the first in map order, left open here), else
      `new GameRules()`. */
  ghost predicate IsDefaultChoice(available: map<string, GameRules>, r: GameRules) {
    if "leningradka" in available then r == available["leningradka"]
    else if available != map[] then r in available.Values
    else r == DefaultRules()
  }

  /** getDefaultRules */
  method GetDefaultRules(available: map<string, GameRules>) returns (r: GameRules)
    ensures IsDefaultChoice(available, r)
  {
    if "leningradka" in available {
      return available["leningradka"];
    }
    if available != map[] {
      var id :| id in available;
      return available[id];
    }
    return DefaultRules();
  }
}
