/** The level-completion decision of GameManager.CheckCompletion, lifted into
    pure functions, and the outcome enum with its flag codes
    (Assets/Scripts/GameManager.cs). */
module Rules {
  import opened LevelData

  /** GameManager.GameOverType: NONE, WIN, LOSE. */
  datatype GameOverType = NoOutcome | Win | Lose

  /** The enum's underlying value: NONE = 0, WIN = 1, LOSE = 2. */
  function OutcomeCode(g: GameOverType): int
  {
    match g
    case NoOutcome => 0
    case Win => 1
    case Lose => 2
  }

  /** The value `GameOverType.WIN | GameOverType.LOSE` that Update compares
      against: the bitwise or of the two codes. */
  const WinOrLoseCode: int := ((OutcomeCode(Win) as bv8) | (OutcomeCode(Lose) as bv8)) as int

  /** No outcome has the code WIN | LOSE, so Update's early return never runs. */
  lemma TerminalGuardNeverFires(g: GameOverType)
    ensures WinOrLoseCode == 3
    ensures OutcomeCode(g) != WinOrLoseCode
  {
  }

  /** The local flags of CheckCompletion: whether the goal is met and whether
      time is up, after the switch on the level type. */
  datatype Flags = Flags(isScoreMet: bool, isTimesUp: bool)

  /** The switch of CheckCompletion. WORD_COUNT_GOAL and BONUS_WORD_COUNT_GOAL
      clear the time-up flag; WORDS_WITHIN_TIME counts as met only while time remains. */
  function CompletionFlags(levelType: LevelType, config: LevelConfig, totalScore: int,
                           wordsFormed: int, bonusLetterCount: int, timeRemaining: real): (f: Flags)
    ensures levelType == WordCountGoal ==>
      (f.isScoreMet <==> wordsFormed >= config.wordCount) && !f.isTimesUp
    ensures levelType == BonusWordCountGoal ==>
      (f.isScoreMet <==> bonusLetterCount >= config.bugCount) && !f.isTimesUp
    ensures levelType == ScoreWithinTime ==>
      (f.isScoreMet <==> totalScore >= config.totalScore) && (f.isTimesUp <==> timeRemaining <= 0.0)
    ensures levelType == WordsWithinTime ==>
      (f.isScoreMet <==> wordsFormed >= config.wordCount && timeRemaining > 0.0)
      && (f.isTimesUp <==> timeRemaining <= 0.0)
  {
    var isTimesUp := timeRemaining <= 0.0;
    match levelType
    case WordCountGoal => Flags(wordsFormed >= config.wordCount, false)
    case BonusWordCountGoal => Flags(bonusLetterCount >= config.bugCount, false)
    case ScoreWithinTime => Flags(totalScore >= config.totalScore, isTimesUp)
    case WordsWithinTime => Flags(wordsFormed >= config.wordCount && timeRemaining > 0.0, isTimesUp)
  }

  /** The outcome CheckCompletion leaves: WIN when the goal is met, else LOSE
      when time is up, else the outcome it found. */
  function Outcome(current: GameOverType, levelType: LevelType, config: LevelConfig,
                   totalScore: int, wordsFormed: int, bonusLetterCount: int,
                   timeRemaining: real): (r: GameOverType)
    ensures levelType == WordCountGoal ==>
      r == (if wordsFormed >= config.wordCount then Win else current)
    ensures levelType == BonusWordCountGoal ==>
      r == (if bonusLetterCount >= config.bugCount then Win else current)
    ensures levelType == ScoreWithinTime ==>
      r == (if totalScore >= config.totalScore then Win
            else if timeRemaining <= 0.0 then Lose else current)
    ensures levelType == WordsWithinTime ==>
      r == (if wordsFormed >= config.wordCount && timeRemaining > 0.0 then Win
            else if timeRemaining <= 0.0 then Lose else current)
    ensures r == Lose && current != Lose ==>
      (levelType == ScoreWithinTime || levelType == WordsWithinTime) && timeRemaining <= 0.0
  {
    var flags := CompletionFlags(levelType, config, totalScore, wordsFormed, bonusLetterCount, timeRemaining);
    if flags.isScoreMet then Win
    else if flags.isTimesUp then Lose
    else current
  }

  /** Win is checked first: a met goal wins even when time is up. */
  lemma GoalBeatsTimeUp(current: GameOverType, levelType: LevelType, config: LevelConfig,
                        totalScore: int, wordsFormed: int, bonusLetterCount: int, timeRemaining: real)
    requires CompletionFlags(levelType, config, totalScore, wordsFormed, bonusLetterCount, timeRemaining).isScoreMet
    ensures Outcome(current, levelType, config, totalScore, wordsFormed, bonusLetterCount, timeRemaining) == Win
  {
  }
}
