# Word-grid puzzle: a verified model of its game logic

This project models the puzzle logic of a Unity word game in Dafny. The
player drags across a grid of letter tiles to spell a word. A word the
dictionary knows is scored, unblocks the tiles around it and counts
towards the goal of the current level.

The model has six modules:

- `LevelData` (`level_data.dfy`): the level configuration records, the
  four level types and the two game modes.
- `Tiles` (`tile.dfy`): the `Tile` class with its type, letter and grid
  position, the letter score (A = 1 … Z = 26, doubled on a BONUS tile) and
  the one-way BLOCKED → NORMAL unblock.
- `Dictionary` (`word_validator.dfy`): the word list split into lines,
  upper-cased into a set, and the case-insensitive membership test.
- `Rules` (`level_rules.dfy`): the win/lose decision of
  `GameManager.CheckCompletion`, lifted into pure functions over the
  match state.
- `Board` (`board.dfy`): the adjacency rule and the x-outer, y-inner cell
  index of the level data. It also holds the cells an accepted word
  unblocks, and the word, score and bonus letters of a selection of tiles.
- `Game` (`game.dfy`): the two managers as classes with the fields the
  game updates in place.
  - `GameManager` holds the score, word count, countdown, distinct bonus
    letters and outcome.
  - `GridManager` holds the `array2` of tiles, the drag selection, the
    selected word and the formed words.
  - The two managers call each other, so they share one module.

The singletons of the game become explicit references: a `GridManager`
holds its `WordValidator` and its `GameManager`, and
`GameManager.StartGame` is given the board it initialises. The
bonus-letter delegate becomes a direct call to
`GameManager.OnBonusLetterFound`. A ghost log, `bonusLog`, records every
delivered letter in order.

`GridManager.Valid()` is the board invariant, with two parts. First, every
tile the manager owns (the ghost set `Repr`) sits in the grid at its own
coordinates. Second, once the grid is allocated, no cell is empty. These
methods keep it:

- `InitializeGrid` and its loops;
- `EndDrag` and `CheckWord`.

Between `StartDrag` and `EndDrag` the drag invariant `Selecting()` holds:

- the selected word is the selected letters in order;
- no tile is selected twice;
- each tile is adjacent to the one before it;
- no selected tile is blocked.

Word acceptance is stated as the two-state predicate `WordChecked`. An
accepted word is added to the formed words and credited to the game:

- one bonus notification per BONUS tile, in order;
- the score is the sum of the tile scores;
- the word count goes up by one;
- the outcome is re-evaluated.

A tile changes type only if its cell is an orthogonal neighbour, inside the
grid, of one of the selected tiles, and then only from BLOCKED to NORMAL. A
duplicate or unknown word changes nothing.

## Model

| member | source | states |
|---|---|---|
| Tiles.TypeFromCode | Assets/Scripts/Tile.cs:51 | the cast of a level-data code to the tile enum keeps the code, gives BLOCKED exactly for 1 and BONUS exactly for 2, and yields an unnamed value for any other code |
| Tiles.TypeCodeRoundTrip | Assets/Scripts/Tile.cs:6-11 | every tile type the cast can produce comes back from its own code |
| Tiles.LetterScore | Assets/Scripts/Tile.cs:77-80 | an upper-case letter scores its 1-based position in the alphabet, between 1 and 26 |
| Tiles.Score | Assets/Scripts/Tile.cs:66-70 | the tile score is the letter score, doubled exactly when the tile is BONUS |
| Tiles.ScoreOfAlphabetLetter | Assets/Scripts/Tile.cs:66-80 | the i-th letter of A-Z scores i + 1, or 2 * (i + 1) on a BONUS tile |
| Tiles.Unblocked | Assets/Scripts/Tile.cs:96-102 | unblocking turns BLOCKED into NORMAL and leaves every other type alone; the result is never BLOCKED |
| Tiles.UnblockedIdempotent | Assets/Scripts/Tile.cs:96-102 | unblocking twice is unblocking once, and BONUS is neither entered nor left |
| Tiles.Tile.constructor | Assets/Scripts/GridManager.cs:45 | a freshly instantiated tile is NORMAL |
| Tiles.Tile.Initialize | Assets/Scripts/Tile.cs:45-52 | the letter is the first character of the cell's letter text, the position is (x, y) and the type is cast from the code |
| Tiles.Tile.GetScore | Assets/Scripts/Tile.cs:66-70 | on an upper-case letter a tile scores between 1 and 52, and twice its letter score exactly when it is BONUS |
| Tiles.Tile.IsBlocked | Assets/Scripts/Tile.cs:91-94 | a tile is blocked exactly when unblocking would change its type |
| Tiles.Tile.SetTileType | Assets/Scripts/Tile.cs:53-57 | only the type changes, to the given one |
| Tiles.Tile.TryUnblock | Assets/Scripts/Tile.cs:82-90 | it returns true exactly when the tile was BLOCKED, and afterwards the tile has the unblocked type; only the type can change |
| Tiles.Tile.Unblock | Assets/Scripts/Tile.cs:96-102 | only the type can change, and only from BLOCKED to NORMAL |
| Tiles.TryUnblockTwice | Assets/Scripts/Tile.cs:82-90 | a second TryUnblock on the same tile never unblocks |
| Dictionary.Upper | Assets/Scripts/WordValidator.cs:35 | upper-casing keeps the length and maps each character |
| Dictionary.UpperIdempotent | Assets/Scripts/WordValidator.cs:42 | upper-casing an upper-cased word changes nothing |
| Dictionary.Pieces | Assets/Scripts/WordValidator.cs:32 | splitting on CR LF and LF gives at least one piece and no piece holds a line feed |
| Dictionary.RemoveEmpty | Assets/Scripts/WordValidator.cs:32 | dropping empty entries keeps exactly the non-empty pieces |
| Dictionary.SplitLines | Assets/Scripts/WordValidator.cs:32 | every line of the split is non-empty and holds no line feed |
| Dictionary.PiecesJoinLines | Assets/Scripts/WordValidator.cs:32 | splitting lines joined with "\n" or "\r\n", chosen gap by gap, gives the lines back, empty lines and lone carriage returns inside a line included |
| Dictionary.SplitJoinLines | Assets/Scripts/WordValidator.cs:32 | a list written one word per line, blank lines and mixed separators allowed, splits into exactly its non-empty lines, in order |
| Dictionary.WordSet | Assets/Scripts/WordValidator.cs:27-37 | the loaded set never holds the empty word |
| Dictionary.WordValidator.constructor | Assets/Scripts/WordValidator.cs:11-22 | on creation the word set is the one loaded from the asset |
| Dictionary.WordValidator.LoadWordList | Assets/Scripts/WordValidator.cs:24-38 | after the loop the set holds exactly the upper-cased non-empty lines, or nothing when the asset is missing |
| Dictionary.WordValidator.IsValidWord | Assets/Scripts/WordValidator.cs:40-43 | a word is valid exactly when the set holds a word of the same length whose every character is the upper-cased character of the given word |
| Dictionary.IsValidWordIgnoresCase | Assets/Scripts/WordValidator.cs:40-43 | a word and its upper-cased form are valid alike |
| Dictionary.LoadedWordsAreValid | Assets/Scripts/WordValidator.cs:32-43 | every non-empty listed word is valid in any spelling of its case, and the empty word never is |
| Dictionary.MissingAssetRejectsAll | Assets/Scripts/WordValidator.cs:29-31 | without a word-list asset no word is valid |
| Rules.TerminalGuardNeverFires | Assets/Scripts/GameManager.cs:57 | WIN \| LOSE is 3, which no outcome's code equals |
| Rules.CompletionFlags | Assets/Scripts/GameManager.cs:135-167 | per level type: when the goal counts as met and when time counts as up |
| Rules.Outcome | Assets/Scripts/GameManager.cs:135-177 | per level type, the outcome is WIN, LOSE or unchanged; a new LOSE comes only from a timed level whose time is up |
| Rules.GoalBeatsTimeUp | Assets/Scripts/GameManager.cs:169-176 | a met goal wins even when time is up |
| Board.Adjacent | Assets/Scripts/GridManager.cs:100-102 | two cells are adjacent exactly when the second lies in the 3 x 3 window centred on the first |
| Board.CellIndex | Assets/Scripts/GridManager.cs:34-47 | the index of cell (x, y) lies in the block of column x: from x * height up to (x + 1) * height |
| Board.CellIndexInRange | Assets/Scripts/GridManager.cs:34-48 | every cell of the configured size has its grid-data index inside width * height |
| Board.CellIndexRoundTrip | Assets/Scripts/GridManager.cs:34-48 | the x-outer, y-inner index of a cell maps back to that cell |
| Board.CellOfRoundTrip | Assets/Scripts/GridManager.cs:34-48 | the cell of an index maps back to that index |
| Board.Side | Assets/Scripts/GridManager.cs:144-168 | one guarded side holds a cell exactly when its guard holds and the cell is inside the grid |
| Board.Neighbours | Assets/Scripts/GridManager.cs:139-170 | the cells tried around a tile are exactly its in-grid left, right, upper and lower neighbours, and none when a coordinate is negative |
| Board.Unblocks | Assets/Scripts/GridManager.cs:128 | a cell is unblocked around a selection exactly when some selected tile touches it |
| Board.UnblocksAppend | Assets/Scripts/GridManager.cs:128 | unblocking around two parts of a selection unblocks the union of both |
| Board.UnblocksCommute | Assets/Scripts/GridManager.cs:128 | the order in which the selected tiles are visited does not matter |
| Board.Positions | Assets/Scripts/GridManager.cs:141 | the positions of the tiles, one per tile, in order |
| Board.Word | Assets/Scripts/GridManager.cs:89 | the word has one letter per tile, each that tile's letter |
| Board.WordScore | Assets/Scripts/GridManager.cs:173-185 | on upper-case letters a word of n tiles scores between n and 52 * n |
| Board.WordScoreAppend | Assets/Scripts/GridManager.cs:173-185 | the score of a selection is the sum of the scores of its parts |
| Board.BonusLetters | Assets/Scripts/GridManager.cs:178-181 | at most one letter per tile, and none without a BONUS tile |
| Board.BonusLettersAppend | Assets/Scripts/GridManager.cs:178-181 | the bonus letters of a selection are those of its parts, in order |
| Game.LevelDataKey | Assets/Scripts/GameManager.cs:72-90 | each level type has its own resource name, and no two share one |
| Game.GameManager.constructor | Assets/Scripts/GameManager.cs:16-37 | a new match has no score, no words, no outcome and no bonus letters |
| Game.GameManager.StartGame | Assets/Scripts/GameManager.cs:102-117 | in Levels mode: score and word count zeroed, countdown set to timeSec, board loaded from the configuration; in Endless mode nothing changes; never resets the outcome or the bonus letters |
| Game.GameManager.InitializeLevelData | Assets/Scripts/GameManager.cs:72-100 | the configuration of the current level type replaces the old one only if its resource exists. In Endless mode nothing else changes. In Levels mode the score, word count and countdown are reset, the board is loaded from the configuration, and its formed words are emptied |
| Game.GameManager.OnLevelTypeChanged | Assets/Scripts/GameManager.cs:50-54 | the level type is switched and its configuration loaded. In Endless mode nothing else changes. In Levels mode the counters are reset, the board is reloaded, and its formed words are emptied |
| Game.GameManager.OnWordFormed | Assets/Scripts/GameManager.cs:119-127 | the score rises by exactly wordScore, the word count by exactly one, and the outcome is evaluated on the new totals |
| Game.GameManager.OnBonusLetterFound | Assets/Scripts/GameManager.cs:128-131 | the letter joins the set; its size grows exactly when the letter is new |
| Game.GameManager.CheckCompletion | Assets/Scripts/GameManager.cs:133-177 | the outcome becomes the one the level rules decide |
| Game.GameManager.CompleteLevel | Assets/Scripts/GameManager.cs:179-183 | the outcome becomes WIN |
| Game.GameManager.FailLevel | Assets/Scripts/GameManager.cs:185-189 | the outcome becomes LOSE |
| Game.GameManager.Update | Assets/Scripts/GameManager.cs:55-70 | with no time limit nothing changes; otherwise the countdown drops by the tick and, once it reaches zero, the outcome is re-evaluated whatever it was |
| Game.GameManager.UpdateGuarded | Assets/Scripts/GameManager.cs:55-70 | as Update, but once the level is won or lost a tick changes nothing |
| Game.GridManager.constructor | Assets/Scripts/GridManager.cs:10-13 | no grid, no selection, no formed words, and the board invariant holds |
| Game.GridManager.InitializeGrid | Assets/Scripts/GridManager.cs:27-53 | every cell of the configured size holds the tile its grid data describes; the formed words are emptied; an allocated grid keeps its array and tiles, and cells outside the configured size are untouched |
| Game.GridManager.InitializeColumn | Assets/Scripts/GridManager.cs:36-49 | one column of the configured size is loaded from the grid data at index x * height, and nothing outside it changes |
| Game.GridManager.InitializeCell | Assets/Scripts/GridManager.cs:38-48 | the cell keeps its tile or gets a new one, and that tile is initialised from the cell's grid data |
| Game.GridManager.TileAt | Assets/Scripts/GridManager.cs:187-194 | outside the grid there is no tile; inside it, the tile of the cell |
| Game.GridManager.Selecting | Assets/Scripts/GridManager.cs:76-103 | during a drag the selected word has one letter per selected tile, each that tile's letter |
| Game.GridManager.IsAdjacent | Assets/Scripts/GridManager.cs:95-103 | the first tile is always adjacent, and appending an adjacent tile keeps every tile adjacent to the one before it |
| Game.GridManager.CanAdd | Assets/Scripts/GridManager.cs:86 | a tile that can be added is not blocked, and appending it keeps the selection free of repeats and chained |
| Game.GridManager.StartDrag | Assets/Scripts/GridManager.cs:76-81 | the selection becomes exactly the tile, or stays empty when it is blocked; the drag invariant holds |
| Game.GridManager.AddTileToSelection | Assets/Scripts/GridManager.cs:84-103 | the tile and its letter are appended exactly when it is unselected, adjacent to the last tile and not blocked, otherwise nothing changes; the drag invariant is kept |
| Game.GridManager.EndDrag | Assets/Scripts/GridManager.cs:106-113 | the selection is emptied; the word is checked only when more than one tile was selected, otherwise nothing else changes |
| Game.GridManager.CheckWord | Assets/Scripts/GridManager.cs:116-138 | an accepted word is recorded, scored and credited and unblocks exactly the cells around the selection; a duplicate or unknown word changes nothing |
| Game.GridManager.AcceptWord | Assets/Scripts/GridManager.cs:124-133 | the word is recorded, the game credited with the selection's score and bonus letters, and exactly the cells around the selection unblocked |
| Game.GridManager.UnblockAroundSelection | Assets/Scripts/GridManager.cs:128 | each tile changes type only by being unblocked, exactly when a selected tile touches its cell |
| Game.GridManager.TryUnblockAdjacentTiles | Assets/Scripts/GridManager.cs:139-170 | the tiles around one selected tile are unblocked, and no other |
| Game.GridManager.UnblockSide | Assets/Scripts/GridManager.cs:144-168 | one guarded side unblocks the tile of its cell when the guard holds and the cell is in the grid |
| Game.GridManager.CalculateWordScore | Assets/Scripts/GridManager.cs:173-185 | the result is the sum of the tile scores, and the game receives one bonus letter per BONUS tile, in selection order |
| Game.GridManager.ClearSelectedTiles | Assets/Scripts/GridManager.cs:197-204 | the selection is empty |
| Game.WinThenTimeUp | Assets/Scripts/GameManager.cs:55-70 | a won WORDS_WITHIN_TIME level becomes LOSE on the tick that ends the time as written, and stays WIN with the intended guard |

## Left out

- The user interface (`UIManager`), mouse input (`InputManager`), `CenterCamera`, sprites, colours, the letter text, `Select`/`Deselect` and `Debug.Log`: presentation only. Without `Deselect`, `ClearSelectedTiles` has no loop.
- `Resources.Load` and `JsonUtility.FromJson`: I/O and library code. The level configurations are a map from resource name to `LevelConfig`, and the word list is the text of the asset, or `None` when it is missing.
- `averageScorePerWord`: float division; `totalScore` and `wordsFormed` are modelled.
- `Time.deltaTime` and `timeRemaining` are floats; the model uses `real`, so there is no rounding. The tick is a parameter.
- The `Awake` singleton and `Destroy` plumbing, and delegate subscription: replaced by explicit references and a direct call.
- `String.ToUpper` is culture-specific; the model upper-cases ASCII letters only.
- `Tile.Initialize(char, int, int)`: nothing calls it.
- Game.GridManager.InitializeGrid: it requires the configured size to fit an allocated grid, because the grid array is allocated only while null and a larger later level indexes outside it. It also requires a non-empty letter for every configured cell, because `letter[0]` throws on an empty one. Resizing is not modelled.
- Game.GridManager.InitializeGrid: it also requires non-negative grid sizes and at least width * height grid-data entries. A negative size makes `new Tile[x, y]` throw only on the first call, while the grid is still null. Once the grid is allocated, the source ignores a negative size: the loops run zero times, and only the formed words are cleared. The model excludes a negative size in both cases. A short grid-data list makes `config.gridData[index]` throw past its end. Neither throw is modelled.
- Game.GameManager.OnWordFormed: does not model 32-bit wrap-around of `totalScore += wordScore` and `wordsFormed++`; the model's integers are unbounded.
- Game.GridManager.CalculateWordScore: does not model 32-bit wrap-around of `score += tile.GetScore()`; the model's integers are unbounded.
- Dictionary.PiecesJoinLines: a line ending in a carriage return is not covered, because before a "\n" separator the split reads the two as one "\r\n" separator.
- Tiles.Tile.Initialize: a C# `char` is a UTF-16 code unit, so the first character of a letter text can be half of a surrogate pair; a Dafny `char` cannot hold one, and the model does not cover that case.
- Game.GridManager.EndDrag: it requires an allocated grid when more than one tile is selected, because unblocking reads the grid's dimensions.
- Game.GridManager.CheckWord: it requires an allocated grid, for the same reason.
- Game.GameManager.StartGame: it requires the configuration to fit the board, since it initialises the grid.
- The duplicate check compares the selected word as spelt, while the dictionary ignores case. The model keeps this: a word formed once is rejected again only in the same spelling.
- `EndDrag` does not reset the selected word; only `StartDrag` does. The model keeps this.
- Tiles outside the configured size, left over from a larger earlier level, stay in the grid and in `Repr`; the model keeps them unchanged.

## Findings

| source | as written | input that shows it | evidently intended | confidence | as-written member | corrected member |
|---|---|---|---|---|---|---|
| Assets/Scripts/GameManager.cs:57 | the early return compares the outcome with `WIN \| LOSE`, which is 3 and equals no outcome, so it never fires and the countdown goes on after a level is decided | WORDS_WITHIN_TIME level, word count 1, 10 seconds: a word is formed (WIN), then a tick of 10 seconds re-evaluates completion with no time left and sets LOSE | stop ticking once the outcome is WIN or LOSE | not executed | Game.GameManager.Update (exhibited by Game.WinThenTimeUp and Rules.TerminalGuardNeverFires) | Game.GameManager.UpdateGuarded |
