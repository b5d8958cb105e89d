/** The two managers of a match: GameManager (running score, word count,
    countdown, bonus letters and the level outcome) and GridManager (the tile
    grid, the drag selection and word acceptance)
    (Assets/Scripts/GameManager.cs, Assets/Scripts/GridManager.cs).
    Each calls the other, so they share one module. The singletons of the
    source become explicit references: a GridManager holds its validator and
    its game, and GameManager.StartGame is given the board it initialises. */
module Game {
  import opened LevelData
  import opened Tiles
  import opened Dictionary
  import opened Rules
  import opened Board

  /** The resource names of the four level configurations, keyed by level type. */
  function LevelDataKey(levelType: LevelType): (key: string)
    ensures levelType == WordCountGoal <==> key == "LevelData_WordCount"
    ensures levelType == ScoreWithinTime <==> key == "LevelData_Score_in_Time"
    ensures levelType == WordsWithinTime <==> key == "LevelData_Words_in_TIme"
    ensures levelType == BonusWordCountGoal <==> key == "LevelData_BugCount"
  {
    match levelType
    case WordCountGoal => "LevelData_WordCount"
    case ScoreWithinTime => "LevelData_Score_in_Time"
    case WordsWithinTime => "LevelData_Words_in_TIme"
    case BonusWordCountGoal => "LevelData_BugCount"
  }

  class GameManager {
    var currentMode: GameMode
    var currentLevelType: LevelType
    var levelConfig: LevelConfig
    var totalScore: int
    var wordsFormed: int
    var timeRemaining: real
    var gameOverType: GameOverType
    var bonusLetters: set<char>
    /** Every letter delivered to OnBonusLetterFound, in order of delivery. */
    ghost var bonusLog: seq<char>

    /** The field initialisers and Awake: no score, no words, no outcome. */
    constructor (mode: GameMode, levelType: LevelType, config: LevelConfig)
      ensures currentMode == mode && currentLevelType == levelType && levelConfig == config
      ensures totalScore == 0 && wordsFormed == 0 && timeRemaining == 0.0
      ensures gameOverType == NoOutcome && bonusLetters == {} && bonusLog == []
    {
      currentMode, currentLevelType, levelConfig := mode, levelType, config;
      totalScore, wordsFormed, timeRemaining := 0, 0, 0.0;
      gameOverType, bonusLetters, bonusLog := NoOutcome, {}, [];
    }

    /** What accepting a word worth score, with these bonus letters, does to
        the match: one notification per letter, the score and the word count
        raised, and the outcome evaluated on the new totals. */
    twostate predicate Credited(score: int, letters: seq<char>)
      reads this
    {
      && bonusLog == old(bonusLog) + letters
      && bonusLetters == old(bonusLetters) + (set c | c in letters)
      && totalScore == old(totalScore) + score
      && wordsFormed == old(wordsFormed) + 1
      && gameOverType == Outcome(old(gameOverType), currentLevelType, levelConfig, totalScore,
                                 wordsFormed, |bonusLetters|, timeRemaining)
    }

    /** GameManager.StartGame: in Levels mode, reset score, word count and
        countdown and initialise the board; in Endless mode do nothing. The
        outcome and the bonus letters are never reset. */
    method StartGame(mode: GameMode, board: GridManager)
      requires board.Valid()
      requires mode == Levels ==> board.Fits(levelConfig)
      modifies this`currentMode, this`totalScore, this`wordsFormed, this`timeRemaining
      modifies board`grid, board`formedWords, board`Repr, board.grid, board.Repr
      ensures board.Valid()
      ensures gameOverType == old(gameOverType) && bonusLetters == old(bonusLetters)
      ensures mode == Endless ==> unchanged(this) && unchanged(board) && unchanged(old(board.Repr))
      ensures mode == Endless && board.grid != null ==> unchanged(board.grid)
      ensures mode == Levels ==>
        && currentMode == Levels && totalScore == 0 && wordsFormed == 0
        && timeRemaining == levelConfig.timeSec as real
        && board.Loaded(levelConfig) && board.formedWords == {}
    {
      if mode == Endless {
        return;
      }
      currentMode := mode;
      totalScore := 0;
      wordsFormed := 0;
      timeRemaining := levelConfig.timeSec as real;
      board.InitializeGrid(levelConfig);
    }

    /** GameManager.InitializeLevelData: load the configuration of the current
        level type if its resource exists (keeping the previous one otherwise),
        then start the game in the current mode. */
    method InitializeLevelData(resources: map<string, LevelConfig>, board: GridManager)
      requires board.Valid()
      requires currentMode == Levels ==>
        board.Fits(if LevelDataKey(currentLevelType) in resources
                   then resources[LevelDataKey(currentLevelType)] else levelConfig)
      modifies this`levelConfig, this`currentMode, this`totalScore, this`wordsFormed, this`timeRemaining
      modifies board`grid, board`formedWords, board`Repr, board.grid, board.Repr
      ensures board.Valid()
      ensures levelConfig == (if LevelDataKey(currentLevelType) in resources
                              then resources[LevelDataKey(currentLevelType)] else old(levelConfig))
      ensures old(currentMode) == Endless ==>
        && currentMode == Endless && totalScore == old(totalScore) && wordsFormed == old(wordsFormed)
        && timeRemaining == old(timeRemaining) && unchanged(board) && unchanged(old(board.Repr))
      ensures old(currentMode) == Endless && old(board.grid) != null ==> unchanged(old(board.grid))
      ensures currentMode == Levels ==>
        && totalScore == 0 && wordsFormed == 0
        && timeRemaining == levelConfig.timeSec as real && board.Loaded(levelConfig)
        && board.formedWords == {}
    {
      var key := LevelDataKey(currentLevelType);
      if key in resources {
        levelConfig := resources[key];
      }
      StartGame(currentMode, board);
    }

    /** GameManager.OnLevelTypeChangedHandler: switch level type and reload. */
    method OnLevelTypeChanged(levelType: LevelType, resources: map<string, LevelConfig>, board: GridManager)
      requires board.Valid()
      requires currentMode == Levels ==>
        board.Fits(if LevelDataKey(levelType) in resources
                   then resources[LevelDataKey(levelType)] else levelConfig)
      modifies this`currentLevelType, this`levelConfig, this`currentMode, this`totalScore
      modifies this`wordsFormed, this`timeRemaining
      modifies board`grid, board`formedWords, board`Repr, board.grid, board.Repr
      ensures board.Valid() && currentLevelType == levelType
      ensures levelConfig == (if LevelDataKey(levelType) in resources
                              then resources[LevelDataKey(levelType)] else old(levelConfig))
      ensures old(currentMode) == Endless ==>
        && currentMode == Endless && totalScore == old(totalScore) && wordsFormed == old(wordsFormed)
        && timeRemaining == old(timeRemaining) && unchanged(board) && unchanged(old(board.Repr))
      ensures old(currentMode) == Endless && old(board.grid) != null ==> unchanged(old(board.grid))
      ensures currentMode == Levels ==>
        && totalScore == 0 && wordsFormed == 0
        && timeRemaining == levelConfig.timeSec as real && board.Loaded(levelConfig)
        && board.formedWords == {}
    {
      currentLevelType := levelType;
      InitializeLevelData(resources, board);
    }

    /** GameManager.OnWordFormed: add the score, count the word, then check
        for completion. */
    method OnWordFormed(wordScore: int)
      modifies this`totalScore, this`wordsFormed, this`gameOverType
      ensures totalScore == old(totalScore) + wordScore
      ensures wordsFormed == old(wordsFormed) + 1
      ensures gameOverType == Outcome(old(gameOverType), currentLevelType, levelConfig,
                                      totalScore, wordsFormed, |bonusLetters|, timeRemaining)
    {
      totalScore := totalScore + wordScore;
      wordsFormed := wordsFormed + 1;
      CheckCompletion();
    }

    /** GameManager.OnBonusLetterFound: collect the letter into the set of
        distinct bonus letters. */
    method OnBonusLetterFound(c: char)
      modifies this`bonusLetters, this`bonusLog
      ensures bonusLetters == old(bonusLetters) + {c}
      ensures bonusLog == old(bonusLog) + [c]
      ensures |bonusLetters| == |old(bonusLetters)| + (if c in old(bonusLetters) then 0 else 1)
    {
      if c !in bonusLetters {
        assert bonusLetters !! {c};
      } else {
        assert bonusLetters + {c} == bonusLetters;
      }
      bonusLetters := bonusLetters + {c};
      bonusLog := bonusLog + [c];
    }

    /** GameManager.CheckCompletion: evaluate the flags, then win if the goal
        is met, else lose if time is up, else leave the outcome. */
    method CheckCompletion()
      modifies this`gameOverType
      ensures gameOverType == Outcome(old(gameOverType), currentLevelType, levelConfig,
                                      totalScore, wordsFormed, |bonusLetters|, timeRemaining)
    {
      var flags := CompletionFlags(currentLevelType, levelConfig, totalScore, wordsFormed,
                                   |bonusLetters|, timeRemaining);
      if flags.isScoreMet {
        CompleteLevel();
      } else if flags.isTimesUp {
        FailLevel();
      }
    }

    /** GameManager.CompleteLevel, without the win panel. */
    method CompleteLevel()
      modifies this`gameOverType
      ensures gameOverType == Win
    {
      gameOverType := Win;
    }

    /** GameManager.FailLevel, without the game-over panel. */
    method FailLevel()
      modifies this`gameOverType
      ensures gameOverType == Lose
    {
      gameOverType := Lose;
    }

    /** GameManager.Update, the countdown as written: the early return compares
        the outcome with WIN | LOSE, which no outcome equals, so it never
        returns early. A timed level counts down on every tick and evaluates
        completion whenever the time is up, even after an outcome. */
    method Update(deltaTime: real)
      modifies this`timeRemaining, this`gameOverType
      ensures levelConfig.timeSec <= 0 ==>
        timeRemaining == old(timeRemaining) && gameOverType == old(gameOverType)
      ensures levelConfig.timeSec > 0 ==> timeRemaining == old(timeRemaining) - deltaTime
      ensures levelConfig.timeSec > 0 && timeRemaining <= 0.0 ==>
        gameOverType == Outcome(old(gameOverType), currentLevelType, levelConfig,
                                totalScore, wordsFormed, |bonusLetters|, timeRemaining)
      ensures levelConfig.timeSec > 0 && timeRemaining > 0.0 ==> gameOverType == old(gameOverType)
    {
      if OutcomeCode(gameOverType) == WinOrLoseCode {
        return;
      }
      if levelConfig.timeSec > 0 {
        timeRemaining := timeRemaining - deltaTime;
        if timeRemaining <= 0.0 {
          CheckCompletion();
        }
      }
    }

    /** The countdown with the guard the early return evidently intends: once
        the level is won or lost, a tick changes nothing. */
    method UpdateGuarded(deltaTime: real)
      modifies this`timeRemaining, this`gameOverType
      ensures old(gameOverType) != NoOutcome ==> unchanged(this)
      ensures old(gameOverType) == NoOutcome && levelConfig.timeSec <= 0 ==> unchanged(this)
      ensures old(gameOverType) == NoOutcome && levelConfig.timeSec > 0 ==>
        && timeRemaining == old(timeRemaining) - deltaTime
        && gameOverType == (if timeRemaining <= 0.0
                            then Outcome(NoOutcome, currentLevelType, levelConfig, totalScore,
                                         wordsFormed, |bonusLetters|, timeRemaining)
                            else NoOutcome)
    {
      if gameOverType != NoOutcome {
        return;
      }
      if levelConfig.timeSec > 0 {
        timeRemaining := timeRemaining - deltaTime;
        if timeRemaining <= 0.0 {
          CheckCompletion();
        }
      }
    }
  }

  class GridManager {
    var grid: array2?<Tile?>
    var selectedTiles: seq<Tile>
    var formedWords: set<string>
    var selectedWord: string
    const validator: WordValidator
    const game: GameManager
    /** The tiles this manager has placed in its grid. */
    ghost var Repr: set<Tile>

    /** A manager before InitializeGrid: no grid, no selection, no words. */
    constructor (validator: WordValidator, game: GameManager)
      ensures this.validator == validator && this.game == game
      ensures grid == null && selectedTiles == [] && formedWords == {} && selectedWord == ""
      ensures Repr == {} && Valid()
    {
      this.validator := validator;
      this.game := game;
      grid := null;
      selectedTiles := [];
      formedWords := {};
      selectedWord := "";
      Repr := {};
    }

    predicate InGrid(x: int, y: int)
      reads this`grid
    {
      grid != null && 0 <= x < grid.Length0 && 0 <= y < grid.Length1
    }

    /** Every tile of the manager sits in the grid at its own coordinates, and
        every occupied cell holds one of the manager's tiles that knows its
        cell; so no tile sits in two cells. */
    ghost predicate Positioned()
      reads this`grid, this`Repr, grid, Repr`gridX, Repr`gridY
    {
      && (forall t | t in Repr :: InGrid(t.gridX, t.gridY) && grid[t.gridX, t.gridY] == t)
      && (grid != null ==>
            forall x, y | 0 <= x < grid.Length0 && 0 <= y < grid.Length1 && grid[x, y] != null ::
              grid[x, y] in Repr && grid[x, y].gridX == x && grid[x, y].gridY == y)
    }

    /** The manager's invariant: its tiles are positioned and, once the grid
        is allocated, no cell is empty. */
    ghost predicate Valid()
      reads this`grid, this`Repr, grid, Repr`gridX, Repr`gridY
    {
      && Positioned()
      && (grid != null ==> forall x, y | 0 <= x < grid.Length0 && 0 <= y < grid.Length1 :: grid[x, y] != null)
    }

    /** What InitializeGrid needs of a configuration: non-negative sizes,
        enough grid data with non-empty letters, and a grid no larger than
        the one already allocated (the array is never reallocated). */
    ghost predicate Fits(config: LevelConfig)
      reads this`grid
    {
      var w, h := config.gridSize.x, config.gridSize.y;
      && 0 <= w && 0 <= h
      && w * h <= |config.gridData|
      && (forall i :: 0 <= i < w * h ==> |config.gridData[i].letter| > 0)
      && (grid != null ==> w <= grid.Length0 && h <= grid.Length1)
    }

    /** Tile t holds what config places at cell (x, y). */
    ghost predicate Placed(t: Tile, config: LevelConfig, x: int, y: int)
      reads t
    {
      var i := CellIndex(x, y, config.gridSize.y);
      && 0 <= i < |config.gridData| && |config.gridData[i].letter| > 0
      && t.letter == config.gridData[i].letter[0]
      && t.tileType == TypeFromCode(config.gridData[i].tileType)
      && t.gridX == x && t.gridY == y
    }

    /** Every cell of the configured size holds the tile the configuration places there. */
    ghost predicate Loaded(config: LevelConfig)
      reads this`grid, this`Repr, grid, Repr
    {
      && grid != null
      && config.gridSize.x <= grid.Length0 && config.gridSize.y <= grid.Length1
      && LoadedColumns(config, config.gridSize.x)
    }

    /** The first n columns of the configured size hold what config places there. */
    ghost predicate LoadedColumns(config: LevelConfig, n: int)
      requires grid != null && n <= grid.Length0 && config.gridSize.y <= grid.Length1
      reads this`grid, this`Repr, grid, Repr
    {
      forall x, y | 0 <= x < n && 0 <= y < config.gridSize.y ::
        grid[x, y] != null && grid[x, y] in Repr && Placed(grid[x, y], config, x, y)
    }

    /** GridManager.InitializeGrid: allocate the grid on the first call only,
        then place a tile at every cell of the configured size, reusing the
        tile already there or instantiating one, and forget the formed words.
        A grid already allocated keeps its tiles in their cells, and tiles
        outside the configured size are left as they were. */
    method InitializeGrid(config: LevelConfig)
      requires Valid() && Fits(config)
      modifies this`grid, this`formedWords, this`Repr, grid, Repr
      ensures Valid() && Loaded(config) && formedWords == {}
      ensures fresh(Repr - old(Repr))
      ensures old(grid) == null ==>
        fresh(grid) && grid.Length0 == config.gridSize.x && grid.Length1 == config.gridSize.y
      ensures old(grid) != null ==> grid == old(grid) && Repr == old(Repr)
      ensures old(grid) != null ==>
        forall a, b | 0 <= a < grid.Length0 && 0 <= b < grid.Length1 :: grid[a, b] == old(grid[a, b])
      ensures old(grid) != null ==>
        forall a, b | 0 <= a < grid.Length0 && 0 <= b < grid.Length1 &&
                      !(a < config.gridSize.x && b < config.gridSize.y) :: unchanged(grid[a, b])
    {
      var w, h := config.gridSize.x, config.gridSize.y;
      if grid == null {
        grid := new Tile?[w, h]((_, _) => null);
      }
      var x, index := 0, 0;
      while x < w
        invariant 0 <= x <= w && index == x * h
        invariant grid != null && w <= grid.Length0 && h <= grid.Length1
        invariant old(grid) == null ==> fresh(grid) && grid.Length0 == w && grid.Length1 == h
        invariant old(grid) != null ==> grid == old(grid) && Repr == old(Repr)
        invariant old(grid) != null ==>
          forall a, b | 0 <= a < grid.Length0 && 0 <= b < grid.Length1 :: grid[a, b] == old(grid[a, b])
        invariant fresh(Repr - old(Repr)) && Positioned()
        invariant LoadedColumns(config, x)
        invariant old(grid) != null ==>
          forall a, b | 0 <= a < grid.Length0 && 0 <= b < grid.Length1 && !(a < x && b < h) :: unchanged(grid[a, b])
      {
        index := InitializeColumn(config, x, index);
        x := x + 1;
      }
      formedWords := {};
    }

    /** The inner loop of GridManager.InitializeGrid: initialise cells (x, 0)
        to (x, h - 1) from the grid data starting at index, and return the
        index after the column. Other cells and their tiles are left alone. */
    method InitializeColumn(config: LevelConfig, x: int, index: int) returns (next: int)
      requires grid != null && Positioned() && Fits(config)
      requires 0 <= x < config.gridSize.x && index == x * config.gridSize.y
      requires LoadedColumns(config, x)
      modifies this`Repr, grid, Repr
      ensures next == index + config.gridSize.y
      ensures Positioned() && fresh(Repr - old(Repr))
      ensures LoadedColumns(config, x + 1)
      ensures forall a, b | 0 <= a < grid.Length0 && 0 <= b < grid.Length1 && old(grid[a, b]) != null ::
        grid[a, b] == old(grid[a, b])
      ensures forall a, b | 0 <= a < grid.Length0 && 0 <= b < grid.Length1 && (a != x || b >= config.gridSize.y) ::
        grid[a, b] == old(grid[a, b])
      ensures (forall b | 0 <= b < config.gridSize.y :: old(grid[x, b]) != null) ==> Repr == old(Repr)
      ensures forall a, b | 0 <= a < grid.Length0 && 0 <= b < grid.Length1 && (a != x || b >= config.gridSize.y) ::
        grid[a, b] != null ==> unchanged(grid[a, b])
    {
      var h := config.gridSize.y;
      var y := 0;
      next := index;
      while y < h
        invariant 0 <= y <= h && next == index + y
        invariant Positioned() && fresh(Repr - old(Repr))
        invariant forall b | 0 <= b < y :: grid[x, b] != null && grid[x, b] in Repr && Placed(grid[x, b], config, x, b)
        invariant forall a, b | 0 <= a < grid.Length0 && 0 <= b < grid.Length1 && old(grid[a, b]) != null ::
          grid[a, b] == old(grid[a, b])
        invariant forall a, b | 0 <= a < grid.Length0 && 0 <= b < grid.Length1 && (a != x || b >= y) ::
          grid[a, b] == old(grid[a, b])
        invariant (forall b | 0 <= b < y :: old(grid[x, b]) != null) ==> Repr == old(Repr)
        invariant forall a, b | 0 <= a < grid.Length0 && 0 <= b < grid.Length1 && (a != x || b >= y) ::
          grid[a, b] != null ==> unchanged(grid[a, b])
      {
        CellIndexInRange(x, y, config.gridSize.x, h);
        InitializeCell(config, x, y, next);
        y, next := y + 1, next + 1;
      }
    }

    /** The body of the inner loop of GridManager.InitializeGrid: cell (x, y)
        keeps the tile already there or gets a new one, which is initialised
        from the grid data at index. */
    method InitializeCell(config: LevelConfig, x: int, y: int, index: int)
      requires grid != null && Positioned()
      requires 0 <= x < grid.Length0 && 0 <= y < grid.Length1
      requires 0 <= index < |config.gridData| && index == CellIndex(x, y, config.gridSize.y)
      requires |config.gridData[index].letter| > 0
      modifies this`Repr, grid, grid[x, y]
      ensures Positioned()
      ensures grid[x, y] != null && grid[x, y] in Repr && Placed(grid[x, y], config, x, y)
      ensures old(grid[x, y]) != null ==> grid[x, y] == old(grid[x, y]) && Repr == old(Repr)
      ensures old(grid[x, y]) == null ==> fresh(grid[x, y]) && Repr == old(Repr) + {grid[x, y]}
      ensures forall a, b | 0 <= a < grid.Length0 && 0 <= b < grid.Length1 && (a != x || b != y) ::
        grid[a, b] == old(grid[a, b])
    {
      var tile := TileAt(x, y);
      if tile == null {
        tile := new Tile();
        Repr := Repr + {tile};
      }
      tile.Initialize(config.gridData[index], x, y);
      grid[x, y] := tile;
    }

    /** GridManager.GetTileAtPosition: the tile of a cell, or null for any
        coordinate outside the grid. */
    function TileAt(x: int, y: int): (t: Tile?)
      requires grid != null
      reads this`grid, grid
      ensures !InGrid(x, y) ==> t == null
      ensures InGrid(x, y) ==> t == grid[x, y]
    {
      if x < 0 || x >= grid.Length0 || y < 0 || y >= grid.Length1 then null else grid[x, y]
    }

    /** The drag invariant, between StartDrag and EndDrag: the word is the
        selected tiles' letters in order, no tile is selected twice, each tile
        is adjacent to the one before it, and none is blocked. */
    ghost predicate Selecting()
      reads this, selectedTiles
      ensures Selecting() ==>
        && |selectedWord| == |selectedTiles|
        && forall i :: 0 <= i < |selectedTiles| ==> selectedWord[i] == selectedTiles[i].letter
    {
      && selectedWord == Word(selectedTiles)
      && Distinct(selectedTiles)
      && Chained(selectedTiles)
      && forall i :: 0 <= i < |selectedTiles| ==> selectedTiles[i].tileType != Blocked
    }

    /** GridManager.IsAdjacent: the first tile always is; a later one must be
        within one column and one row of the last selected tile. */
    predicate IsAdjacent(tile: Tile)
      reads this, tile, selectedTiles
      ensures selectedTiles == [] ==> IsAdjacent(tile)
      ensures IsAdjacent(tile) && Chained(selectedTiles) ==> Chained(selectedTiles + [tile])
    {
      selectedTiles == [] ||
      var last := selectedTiles[|selectedTiles| - 1];
      Adjacent(tile.gridX, tile.gridY, last.gridX, last.gridY)
    }

    /** The condition under which AddTileToSelection takes a tile. */
    predicate CanAdd(tile: Tile)
      reads this, tile, selectedTiles
      ensures CanAdd(tile) ==> tile.tileType != Blocked
      ensures CanAdd(tile) && Distinct(selectedTiles) ==> Distinct(selectedTiles + [tile])
      ensures CanAdd(tile) && Chained(selectedTiles) ==> Chained(selectedTiles + [tile])
    {
      tile !in selectedTiles && IsAdjacent(tile) && !tile.IsBlocked()
    }

    /** GridManager.StartDrag: clear the selection and the word, then offer
        the tile like any other; a blocked tile leaves the selection empty. */
    method StartDrag(tile: Tile)
      modifies this`selectedTiles, this`selectedWord
      ensures selectedTiles == (if tile.tileType == Blocked then [] else [tile])
      ensures selectedWord == (if tile.tileType == Blocked then "" else [tile.letter])
      ensures Selecting()
    {
      selectedTiles := [];
      selectedWord := "";
      AddTileToSelection(tile);
    }

    /** GridManager.AddTileToSelection: append the tile and its letter when it
        is not yet selected, adjacent to the last tile and not blocked;
        otherwise change nothing. */
    method AddTileToSelection(tile: Tile)
      modifies this`selectedTiles, this`selectedWord
      ensures old(CanAdd(tile)) ==>
        selectedTiles == old(selectedTiles) + [tile] && selectedWord == old(selectedWord) + [tile.letter]
      ensures !old(CanAdd(tile)) ==>
        selectedTiles == old(selectedTiles) && selectedWord == old(selectedWord)
      ensures old(Selecting()) ==> Selecting()
    {
      if CanAdd(tile) {
        selectedTiles := selectedTiles + [tile];
        selectedWord := selectedWord + [tile.letter];
        assert selectedTiles[..|selectedTiles| - 1] == old(selectedTiles);
      }
    }

    /** GridManager.EndDrag: a selection of more than one tile is checked as a
        word; in every case the selection is emptied. The word string is not
        reset: only StartDrag does that. */
    method EndDrag()
      requires Valid()
      requires |selectedTiles| > 1 ==> grid != null
      modifies this`selectedTiles, this`formedWords, Repr`tileType
      modifies game`bonusLetters, game`bonusLog, game`totalScore, game`wordsFormed, game`gameOverType
      ensures Valid() && selectedTiles == [] && selectedWord == old(selectedWord)
      ensures |old(selectedTiles)| > 1 ==> WordChecked(old(selectedTiles), old(formedWords))
      ensures |old(selectedTiles)| <= 1 ==>
        formedWords == old(formedWords) && unchanged(game) && UnblockedOnly({})
    {
      if |selectedTiles| > 1 {
        CheckWord();
      }
      ClearSelectedTiles();
    }

    /** The outcome of CheckWord on the selection `tiles` and the formed words
        `formed` it started from. An accepted word (not formed before in this
        exact spelling, and in the dictionary in any case) is recorded, scored,
        notifies its bonus letters and unblocks the cells its tiles touch; a
        duplicate or invalid word changes nothing. */
    twostate predicate WordChecked(tiles: seq<Tile>, formed: set<string>)
      reads this, validator, game, Repr
    {
      var accepted := selectedWord !in formed && validator.IsValidWord(selectedWord);
      && (accepted ==>
            && formedWords == formed + {selectedWord}
            && game.Credited(old(WordScore(tiles)), old(BonusLetters(tiles)))
            && grid != null
            && UnblockedOnly(Unblocks(old(Positions(tiles)), grid.Length0, grid.Length1)))
      && (!accepted ==>
            formedWords == formed && unchanged(game) && UnblockedOnly({}))
    }

    /** Between the old and the new state the manager keeps its tiles, and a
        tile changes type only by being unblocked, exactly when its cell is
        one of cells. */
    twostate predicate UnblockedOnly(new cells: set<(int, int)>)
      reads this`Repr, Repr
    {
      && Repr == old(Repr)
      && TypesFrom(old(TypeMap()), cells)
    }

    /** The type of every tile of the manager. */
    ghost function TypeMap(): (types: map<Tile, TileType>)
      reads this`Repr, Repr
      ensures types.Keys == Repr
    {
      map t | t in Repr :: t.tileType
    }

    /** Every tile has its type in base, unblocked when its cell is one of cells. */
    ghost predicate TypesFrom(base: map<Tile, TileType>, cells: set<(int, int)>)
      reads this`Repr, Repr
    {
      forall t | t in Repr ::
        t in base && t.tileType == (if (t.gridX, t.gridY) in cells then Unblocked(base[t]) else base[t])
    }

    /** TypesFrom depends on the membership of cells only. */
    lemma TypesFromSameCells(base: map<Tile, TileType>, cells: set<(int, int)>, other: set<(int, int)>)
      requires TypesFrom(base, cells)
      requires forall c :: c in cells <==> c in other
      ensures TypesFrom(base, other)
    {
    }

    /** The four sides of TryUnblockAdjecentTiles together unblock the neighbours. */
    lemma SidesMakeNeighbours(base: map<Tile, TileType>, cells: set<(int, int)>, x: int, y: int, w: int, h: int)
      requires x >= 0 && y >= 0
      requires TypesFrom(base, cells + Side(x > 0, x - 1, y, w, h) + Side(x < w - 1, x + 1, y, w, h)
                                     + Side(y < h - 1, x, y + 1, w, h) + Side(y > 0, x, y - 1, w, h))
      ensures TypesFrom(base, cells + Neighbours(x, y, w, h))
    {
      NeighboursBySides(cells, x, y, w, h);
      TypesFromSameCells(base, cells + Side(x > 0, x - 1, y, w, h) + Side(x < w - 1, x + 1, y, w, h)
                                     + Side(y < h - 1, x, y + 1, w, h) + Side(y > 0, x, y - 1, w, h),
                         cells + Neighbours(x, y, w, h));
    }

    /** GridManager.CheckWord: ignore a word already formed in this exact
        spelling; otherwise, if the dictionary knows it, score it, unblock
        around every selected tile, record it and report it to the game. */
    method CheckWord()
      requires Valid() && grid != null
      modifies this`formedWords, Repr`tileType
      modifies game`bonusLetters, game`bonusLog, game`totalScore, game`wordsFormed, game`gameOverType
      ensures Valid()
      ensures WordChecked(selectedTiles, old(formedWords))
    {
      if selectedWord in formedWords {
        return;
      }
      if validator.IsValidWord(selectedWord) {
        AcceptWord();
      }
    }

    /** The accepted branch of GridManager.CheckWord: score the selection,
        unblock around it, record the word and report it to the game. */
    method AcceptWord()
      requires Valid() && grid != null
      modifies this`formedWords, Repr`tileType
      modifies game`bonusLetters, game`bonusLog, game`totalScore, game`wordsFormed, game`gameOverType
      ensures formedWords == old(formedWords) + {selectedWord}
      ensures game.Credited(old(WordScore(selectedTiles)), old(BonusLetters(selectedTiles)))
      ensures UnblockedOnly(Unblocks(old(Positions(selectedTiles)), grid.Length0, grid.Length1))
    {
      ghost var types, ps := TypeMap(), Positions(selectedTiles);
      var wordScore := CalculateWordScore();
      assert TypeMap() == types && Positions(selectedTiles) == ps;
      UnblockAroundSelection();
      assert TypesFrom(types, Unblocks(ps, grid.Length0, grid.Length1));
      formedWords := formedWords + {selectedWord};
      game.OnWordFormed(wordScore);
    }

    /** `selectedTiles.ForEach(TryUnblockAdjecentTiles)`: every tile whose cell
        a selected tile touches is unblocked, and only those. */
    method UnblockAroundSelection()
      requires Valid() && grid != null
      modifies Repr`tileType
      ensures UnblockedOnly(Unblocks(old(Positions(selectedTiles)), grid.Length0, grid.Length1))
    {
      ghost var ps := Positions(selectedTiles);
      ghost var base := TypeMap();
      ghost var w, h := grid.Length0, grid.Length1;
      ghost var cells: set<(int, int)> := {};
      for i := 0 to |selectedTiles|
        invariant forall k :: 0 <= k < |selectedTiles| ==>
          (selectedTiles[k].gridX, selectedTiles[k].gridY) == ps[k]
        invariant cells == Unblocks(ps[..i], w, h)
        invariant TypesFrom(base, cells)
      {
        TryUnblockAdjacentTiles(selectedTiles[i], base, cells);
        assert ps[..i + 1][..i] == ps[..i];
        cells := cells + Neighbours(ps[i].0, ps[i].1, w, h);
      }
      assert ps[..|selectedTiles|] == ps;
    }

    /** GridManager.TryUnblockAdjecentTiles: when both coordinates of the tile
        are non-negative, try to unblock its left, right, upper and lower
        neighbour, each only if that side is inside the grid. The ghost
        parameters carry the types before the first unblock and the cells
        unblocked since. */
    method TryUnblockAdjacentTiles(tile: Tile, ghost base: map<Tile, TileType>, ghost cells: set<(int, int)>)
      requires Valid() && grid != null && TypesFrom(base, cells)
      modifies Repr`tileType
      ensures TypesFrom(base, cells + Neighbours(tile.gridX, tile.gridY, grid.Length0, grid.Length1))
    {
      var x, y := tile.gridX, tile.gridY;
      ghost var w, h := grid.Length0, grid.Length1;
      if x >= 0 && y >= 0 {
        ghost var left, right := Side(x > 0, x - 1, y, w, h), Side(x < w - 1, x + 1, y, w, h);
        ghost var up, down := Side(y < h - 1, x, y + 1, w, h), Side(y > 0, x, y - 1, w, h);
        UnblockSide(x > 0, x - 1, y, base, cells, w, h);
        UnblockSide(x < grid.Length0 - 1, x + 1, y, base, cells + left, w, h);
        UnblockSide(y < grid.Length1 - 1, x, y + 1, base, cells + left + right, w, h);
        UnblockSide(y > 0, x, y - 1, base, cells + left + right + up, w, h);
        SidesMakeNeighbours(base, cells, x, y, w, h);
      } else {
        TypesFromSameCells(base, cells, cells + Neighbours(x, y, w, h));
      }
    }

    /** One guarded block of TryUnblockAdjecentTiles,
        `if (guard) GetTileAtPosition(x, y)?.TryUnblock()`: the tile of an
        in-grid cell is unblocked; a cell outside the grid is ignored. The
        ghost w and h name the grid's size. */
    method UnblockSide(guard: bool, x: int, y: int, ghost base: map<Tile, TileType>, ghost cells: set<(int, int)>,
                       ghost w: int, ghost h: int)
      requires Valid() && grid != null && w == grid.Length0 && h == grid.Length1 && TypesFrom(base, cells)
      modifies Repr`tileType
      ensures TypesFrom(base, cells + Side(guard, x, y, w, h))
    {
      if guard {
        var temp := TileAt(x, y);
        if temp != null {
          var _ := temp.TryUnblock();
        }
      }
    }

    /** GridManager.CalculateWordScore: add up the selected tiles' scores,
        notifying the game of each BONUS tile's letter in selection order. */
    method CalculateWordScore() returns (score: int)
      modifies game`bonusLetters, game`bonusLog
      ensures score == old(WordScore(selectedTiles))
      ensures game.bonusLog == old(game.bonusLog) + old(BonusLetters(selectedTiles))
      ensures game.bonusLetters == old(game.bonusLetters) + (set c | c in old(BonusLetters(selectedTiles)))
    {
      score := 0;
      for i := 0 to |selectedTiles|
        invariant score == old(WordScore(selectedTiles[..i]))
        invariant game.bonusLog == old(game.bonusLog) + old(BonusLetters(selectedTiles[..i]))
        invariant game.bonusLetters == old(game.bonusLetters) + (set c | c in old(BonusLetters(selectedTiles[..i])))
      {
        var tile := selectedTiles[i];
        assert selectedTiles[..i + 1][..i] == selectedTiles[..i];
        if tile.tileType == Bonus {
          game.OnBonusLetterFound(tile.letter);
        }
        score := score + tile.GetScore();
      }
      assert selectedTiles[..|selectedTiles|] == selectedTiles;
    }

    /** GridManager.ClearSelectedTiles, without the deselect highlight. */
    method ClearSelectedTiles()
      modifies this`selectedTiles
      ensures selectedTiles == []
    {
      selectedTiles := [];
    }
  }

  /** A WORDS_WITHIN_TIME level needing one word in ten seconds: the word is
      formed at once and the level is won; then a tick of ten seconds runs the
      clock out. As written, the countdown re-evaluates completion and turns
      the win into a loss; with the guard the early return intends, the win
      stands. */
  method WinThenTimeUp() returns (asWritten: GameOverType, guarded: GameOverType)
    ensures asWritten == Lose
    ensures guarded == Win
  {
    var config := LevelConfig(0, 1, 10, 0, GridSize(0, 0), []);
    var validator := new WordValidator(None);

    var game := new GameManager(Levels, WordsWithinTime, config);
    var board := new GridManager(validator, game);
    game.StartGame(Levels, board);
    game.OnWordFormed(5);
    assert game.gameOverType == Win;
    game.Update(10.0);
    asWritten := game.gameOverType;

    var game' := new GameManager(Levels, WordsWithinTime, config);
    var board' := new GridManager(validator, game');
    game'.StartGame(Levels, board');
    game'.OnWordFormed(5);
    game'.UpdateGuarded(10.0);
    guarded := game'.gameOverType;
  }
}
