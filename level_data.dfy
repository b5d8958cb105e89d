/** The level data the game is configured with: one grid cell's data, the
    level configuration record, the four level types and the two game modes
    (Assets/Scripts/GridManager.cs and Assets/Scripts/GameManager.cs). */
module LevelData {

  /** An asset that may be missing: Resources.Load returns null for it. */
  datatype Option<T> = None | Some(value: T)

  /** GridData: the integer code of a tile type and the letter text of a cell. */
  datatype GridData = GridData(tileType: int, letter: string)

  /** Vector2Int gridSize: the number of columns (x) and rows (y). */
  datatype GridSize = GridSize(x: int, y: int)

  /** LevelConfig: the goals of a level and its grid, with gridData in
      x-outer, y-inner order. */
  datatype LevelConfig = LevelConfig(
    bugCount: int,
    wordCount: int,
    timeSec: int,
    totalScore: int,
    gridSize: GridSize,
    gridData: seq<GridData>)

  datatype LevelType = WordCountGoal | ScoreWithinTime | WordsWithinTime | BonusWordCountGoal

  datatype GameMode = Levels | Endless
}
