/** Board geometry and the values GridManager derives from a selection of
    tiles: the adjacency rule, the x-outer/y-inner coordinate mapping of the
    level data, the orthogonal neighbourhood an accepted word unblocks, and
    the word, score and bonus letters of a sequence of tiles
    (Assets/Scripts/GridManager.cs). */
module Board {
  import opened Tiles

  function Abs(n: int): nat
  {
    if n < 0 then -n else n
  }

  /** GridManager.IsAdjacent's test: at most one column and one row apart
      (the same cell included). */
  predicate Adjacent(x1: int, y1: int, x2: int, y2: int)
    ensures Adjacent(x1, y1, x2, y2) <==> x1 - 1 <= x2 <= x1 + 1 && y1 - 1 <= y2 <= y1 + 1
  {
    Abs(x1 - x2) <= 1 && Abs(y1 - y2) <= 1
  }

  /** The index in gridData of cell (x, y): InitializeGrid's x-outer, y-inner loops. */
  function CellIndex(x: int, y: int, height: int): (i: int)
    ensures 0 <= y < height ==> x * height <= i < (x + 1) * height
  {
    x * height + y
  }

  /** The cell of index i: its column and its row. */
  function CellOf(i: int, height: int): (cell: (int, int))
    requires height > 0
  {
    (i / height, i % height)
  }

  /** Every cell of a width x height grid has an index in [0, width * height). */
  lemma CellIndexInRange(x: int, y: int, width: int, height: int)
    requires 0 <= x < width && 0 <= y < height
    ensures 0 <= CellIndex(x, y, height) < width * height
  {
    assert x * height <= (width - 1) * height by {
      MulMonotone(x, width - 1, height);
    }
    assert (width - 1) * height + height == width * height;
  }

  lemma MulMonotone(a: int, b: int, c: int)
    requires a <= b && c >= 0
    ensures a * c <= b * c
  {
  }

  /** The coordinate mapping and its inverse agree, in both directions. */
  lemma CellIndexRoundTrip(x: int, y: int, height: int)
    requires 0 <= y < height
    ensures CellOf(CellIndex(x, y, height), height) == (x, y)
  {
    var i := x * height + y;
    var q, r := i / height, i % height;
    assert i == q * height + r && 0 <= r < height;
    assert (x - q) * height == r - y;
    if x - q >= 1 {
      MulMonotone(1, x - q, height);
      assert false;
    }
    if x - q <= -1 {
      MulMonotone(x - q, -1, height);
      assert false;
    }
  }

  lemma CellOfRoundTrip(i: int, height: int)
    requires height > 0
    ensures CellIndex(CellOf(i, height).0, CellOf(i, height).1, height) == i
  {
  }

  /** Whether accepting a word that holds a tile at (sx, sy) unblocks cell
      (cx, cy) of a width x height grid: the cell is in the grid, the tile's
      coordinates are not negative, and the cell is its left, right, upper or
      lower neighbour. Diagonal cells and the tile's own cell are never touched. */
  predicate Touches(cx: int, cy: int, sx: int, sy: int, width: int, height: int)
  {
    && 0 <= cx < width && 0 <= cy < height
    && sx >= 0 && sy >= 0
    && Abs(cx - sx) + Abs(cy - sy) == 1
  }

  /** The cell one guarded block of GridManager.TryUnblockAdjecentTiles can
      unblock: (x, y) when the guard holds and GetTileAtPosition finds the
      cell inside the grid, otherwise nothing. */
  function Side(guard: bool, x: int, y: int, width: int, height: int): (cells: set<(int, int)>)
    ensures (x, y) in cells <==> guard && 0 <= x < width && 0 <= y < height
  {
    if guard && 0 <= x < width && 0 <= y < height then {(x, y)} else {}
  }

  /** The cells GridManager.TryUnblockAdjecentTiles tries for a tile at
      (sx, sy): nothing unless both coordinates are non-negative; then the
      left, right, upper and lower cell, each under its own guard and the
      grid's range check. They are exactly the cells the tile touches. */
  function Neighbours(sx: int, sy: int, width: int, height: int): (cells: set<(int, int)>)
    ensures forall a, b :: (a, b) in cells <==> Touches(a, b, sx, sy, width, height)
  {
    if sx < 0 || sy < 0 then {}
    else
      Side(sx > 0, sx - 1, sy, width, height) + Side(sx < width - 1, sx + 1, sy, width, height)
      + Side(sy < height - 1, sx, sy + 1, width, height) + Side(sy > 0, sx, sy - 1, width, height)
  }

  /** Unblocking side by side, in the order of TryUnblockAdjecentTiles, adds
      exactly the neighbours to the cells already unblocked. */
  lemma NeighboursBySides(cells: set<(int, int)>, x: int, y: int, width: int, height: int)
    requires x >= 0 && y >= 0
    ensures forall c ::
      c in cells + Side(x > 0, x - 1, y, width, height) + Side(x < width - 1, x + 1, y, width, height)
                 + Side(y < height - 1, x, y + 1, width, height) + Side(y > 0, x, y - 1, width, height)
      <==> c in cells + Neighbours(x, y, width, height)
  {
  }

  /** The cells unblocked around tiles at positions ps: a cell is in it iff
      some tile of ps touches it. */
  function Unblocks(ps: seq<(int, int)>, width: int, height: int): (cells: set<(int, int)>)
    ensures forall a, b :: (a, b) in cells <==>
      exists k :: 0 <= k < |ps| && Touches(a, b, ps[k].0, ps[k].1, width, height)
  {
    if ps == [] then {}
    else
      var n := |ps| - 1;
      var earlier := Unblocks(ps[..n], width, height);
      assert forall k :: 0 <= k < n ==> ps[..n][k] == ps[k];
      earlier + Neighbours(ps[n].0, ps[n].1, width, height)
  }

  /** Unblocking around ps and then around qs unblocks the cells of both. */
  lemma {:induction false} UnblocksAppend(ps: seq<(int, int)>, qs: seq<(int, int)>, width: int, height: int)
    ensures Unblocks(ps + qs, width, height) == Unblocks(ps, width, height) + Unblocks(qs, width, height)
    decreases |qs|
  {
    if qs == [] {
      assert ps + qs == ps;
    } else {
      var n := |qs| - 1;
      UnblocksAppend(ps, qs[..n], width, height);
      assert (ps + qs)[..|ps + qs| - 1] == ps + qs[..n];
      assert (ps + qs)[|ps + qs| - 1] == qs[n];
    }
  }

  /** The order in which the selected tiles are visited does not matter. */
  lemma UnblocksCommute(ps: seq<(int, int)>, qs: seq<(int, int)>, width: int, height: int)
    ensures Unblocks(ps + qs, width, height) == Unblocks(qs + ps, width, height)
  {
    UnblocksAppend(ps, qs, width, height);
    UnblocksAppend(qs, ps, width, height);
  }

  /** The grid positions of tiles, in order. */
  function Positions(tiles: seq<Tile>): (ps: seq<(int, int)>)
    reads tiles
    ensures |ps| == |tiles|
    ensures forall i :: 0 <= i < |tiles| ==> ps[i] == (tiles[i].gridX, tiles[i].gridY)
  {
    if tiles == [] then []
    else Positions(tiles[..|tiles| - 1]) + [(tiles[|tiles| - 1].gridX, tiles[|tiles| - 1].gridY)]
  }

  /** The word spelled by tiles: their letters concatenated in order. */
  function Word(tiles: seq<Tile>): (w: string)
    reads tiles
    ensures |w| == |tiles|
    ensures forall i :: 0 <= i < |tiles| ==> w[i] == tiles[i].letter
  {
    if tiles == [] then ""
    else Word(tiles[..|tiles| - 1]) + [tiles[|tiles| - 1].letter]
  }

  /** Every tile's letter is an upper-case letter A-Z. */
  predicate AllUpperCase(tiles: seq<Tile>)
    reads tiles
  {
    forall i :: 0 <= i < |tiles| ==> tiles[i].letter in Alphabet
  }

  /** GridManager.CalculateWordScore's sum: the scores of the tiles added up.
      On upper-case letters each tile scores between 1 and 52. */
  function WordScore(tiles: seq<Tile>): (score: int)
    reads tiles
    ensures AllUpperCase(tiles) ==> |tiles| <= score <= 2 * |Alphabet| * |tiles|
  {
    if tiles == [] then 0
    else
      var last := tiles[|tiles| - 1];
      assert AllUpperCase(tiles) ==> AllUpperCase(tiles[..|tiles| - 1]) && last.letter in Alphabet;
      WordScore(tiles[..|tiles| - 1]) + Score(last.letter, last.tileType)
  }

  /** The score of a selection is the sum of the scores of its parts. */
  lemma {:induction false} WordScoreAppend(a: seq<Tile>, b: seq<Tile>)
    ensures WordScore(a + b) == WordScore(a) + WordScore(b)
    decreases |b|
  {
    if b == [] {
      assert a + b == a;
    } else {
      var n := |b| - 1;
      WordScoreAppend(a, b[..n]);
      assert (a + b)[..|a + b| - 1] == a + b[..n];
      assert (a + b)[|a + b| - 1] == b[n];
    }
  }

  /** The letters of the BONUS tiles, in selection order: one bonus-letter
      notification each. */
  function BonusLetters(tiles: seq<Tile>): (letters: seq<char>)
    reads tiles
    ensures |letters| <= |tiles|
    ensures (forall i :: 0 <= i < |tiles| ==> tiles[i].tileType != Bonus) ==> letters == []
  {
    if tiles == [] then []
    else
      var last := tiles[|tiles| - 1];
      BonusLetters(tiles[..|tiles| - 1]) + (if last.tileType == Bonus then [last.letter] else [])
  }

  /** The bonus letters of a selection are those of its parts, in order. */
  lemma {:induction false} BonusLettersAppend(a: seq<Tile>, b: seq<Tile>)
    ensures BonusLetters(a + b) == BonusLetters(a) + BonusLetters(b)
    decreases |b|
  {
    if b == [] {
      assert a + b == a;
    } else {
      var n := |b| - 1;
      BonusLettersAppend(a, b[..n]);
      assert (a + b)[..|a + b| - 1] == a + b[..n];
      assert (a + b)[|a + b| - 1] == b[n];
    }
  }

  /** No tile occurs twice. */
  predicate Distinct(tiles: seq<Tile>)
  {
    forall i, j :: 0 <= i < j < |tiles| ==> tiles[i] != tiles[j]
  }

  /** Each tile after the first is adjacent to the one before it. */
  predicate Chained(tiles: seq<Tile>)
    reads tiles
  {
    forall i :: 0 < i < |tiles| ==>
      Adjacent(tiles[i - 1].gridX, tiles[i - 1].gridY, tiles[i].gridX, tiles[i].gridY)
  }
}
