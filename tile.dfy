/** One letter tile of the board: its type, letter and grid position, the
    letter score and the one-way BLOCKED -> NORMAL unblock transition
    (Assets/Scripts/Tile.cs). */
module Tiles {
  import opened LevelData

  /** Tile.TileType. The level file stores the type as an integer and the
      source casts it to the enum unchecked, so a code other than 0, 1, 2
      yields an enum value without a name; Unnamed keeps that code. Such a
      tile is neither BLOCKED nor BONUS, so it plays like a NORMAL tile. */
  datatype TileType = Normal | Blocked | Bonus | Unnamed(code: int)

  /** The enum's underlying value: NORMAL = 0, BLOCKED = 1, BONUS = 2. */
  function TypeCode(t: TileType): int
  {
    match t
    case Normal => 0
    case Blocked => 1
    case Bonus => 2
    case Unnamed(c) => c
  }

  /** A tile type the cast can produce: an unnamed value never reuses a named code. */
  predicate WellFormed(t: TileType)
  {
    t.Unnamed? ==> t.code !in {0, 1, 2}
  }

  /** The cast `(TileType)gridData.tileType`. */
  function TypeFromCode(code: int): (t: TileType)
    ensures WellFormed(t) && TypeCode(t) == code
    ensures t == Blocked <==> code == 1
    ensures t == Bonus <==> code == 2
  {
    if code == 0 then Normal
    else if code == 1 then Blocked
    else if code == 2 then Bonus
    else Unnamed(code)
  }

  /** The cast loses nothing: every well-formed type comes back from its code. */
  lemma TypeCodeRoundTrip(t: TileType)
    requires WellFormed(t)
    ensures TypeFromCode(TypeCode(t)) == t
  {
  }

  const Alphabet: string := "ABCDEFGHIJKLMNOPQRSTUVWXYZ"

  /** Tile.GetLetterScore: the distance of c from 'A', plus one. For an
      upper-case letter that is its 1-based position in the alphabet. */
  function LetterScore(c: char): (r: int)
    ensures c in Alphabet ==> 1 <= r <= |Alphabet| && Alphabet[r - 1] == c
  {
    c as int - 'A' as int + 1
  }

  /** Tile.GetScore on a tile's letter and type: the letter score, doubled on a BONUS tile. */
  function Score(letter: char, t: TileType): (r: int)
    ensures letter in Alphabet ==> (t == Bonus <==> r == 2 * LetterScore(letter))
    ensures t != Bonus ==> r == LetterScore(letter)
  {
    var score := LetterScore(letter);
    if t == Bonus then score * 2 else score
  }

  /** The score of the i-th letter of the alphabet is i + 1, or 2 * (i + 1) on a BONUS tile. */
  lemma ScoreOfAlphabetLetter(i: int, t: TileType)
    requires 0 <= i < |Alphabet|
    ensures Score(Alphabet[i], t) == (if t == Bonus then 2 * (i + 1) else i + 1)
  {
    var c := Alphabet[i];
    assert c in Alphabet;
    var r := LetterScore(c);
    assert Alphabet[r - 1] == c;
    AlphabetInjective(r - 1, i);
  }

  /** The alphabet has no repeated letter. */
  lemma AlphabetInjective(i: int, j: int)
    requires 0 <= i < |Alphabet| && 0 <= j < |Alphabet|
    requires Alphabet[i] == Alphabet[j]
    ensures i == j
  {
  }

  /** Tile.Unblock on a tile type: BLOCKED becomes NORMAL, every other type stays. */
  function Unblocked(t: TileType): (r: TileType)
    ensures r != Blocked
    ensures t != Blocked ==> r == t
    ensures t == Blocked ==> r == Normal
  {
    if t == Blocked then Normal else t
  }

  /** Unblocking twice is unblocking once, and BONUS is never entered or left. */
  lemma UnblockedIdempotent(t: TileType)
    ensures Unblocked(Unblocked(t)) == Unblocked(t)
    ensures Unblocked(t) == Bonus <==> t == Bonus
  {
  }

  /** Tile: a MonoBehaviour whose fields the game updates in place. Sprites,
      colours and the letter text are presentation and are not modelled. */
  class Tile {
    var tileType: TileType
    var letter: char
    var gridX: int
    var gridY: int

    /** Instantiate(letterTilePrefab, ...): a tile as the prefab defines it,
        before Initialize gives it a letter, a position and a type. */
    constructor ()
      ensures tileType == Normal
    {
      tileType := Normal;
      letter := ' ';
      gridX, gridY := 0, 0;
    }

    /** Tile.Initialize(GridData, x, y). The source throws on an empty letter
        string, so its callers supply a non-empty one. */
    method Initialize(data: GridData, x: int, y: int)
      requires |data.letter| > 0
      modifies this
      ensures letter == data.letter[0] && gridX == x && gridY == y
      ensures tileType == TypeFromCode(data.tileType)
    {
      letter := data.letter[0];
      gridX := x;
      gridY := y;
      SetTileType(TypeFromCode(data.tileType));
    }

    /** Tile.SetTileType: changes the type and nothing else. */
    method SetTileType(t: TileType)
      modifies `tileType
      ensures tileType == t
    {
      tileType := t;
    }

    /** Tile.GetScore. */
    function GetScore(): (r: int)
      reads this
      ensures letter in Alphabet ==> 1 <= r <= 2 * |Alphabet|
      ensures letter in Alphabet ==> (tileType == Bonus <==> r == 2 * LetterScore(letter))
    {
      Score(letter, tileType)
    }

    /** Tile.IsBlocked. */
    predicate IsBlocked()
      reads this
      ensures IsBlocked() <==> Unblocked(tileType) != tileType
    {
      tileType == Blocked
    }

    /** Tile.TryUnblock: unblocks a BLOCKED tile and says whether it did. */
    method TryUnblock() returns (unblocked: bool)
      modifies `tileType
      ensures unblocked <==> old(tileType) == Blocked
      ensures tileType == Unblocked(old(tileType))
    {
      if IsBlocked() {
        Unblock();
        return true;
      }
      return false;
    }

    /** Tile.Unblock: a BLOCKED tile becomes NORMAL; any other tile keeps its type. */
    method Unblock()
      modifies `tileType
      ensures tileType == Unblocked(old(tileType))
    {
      if tileType == Blocked {
        SetTileType(Normal);
      }
    }
  }

  /** Trying to unblock a tile twice: the first try unblocks exactly a
      BLOCKED tile, and the second never unblocks anything. */
  method TryUnblockTwice(t: Tile) returns (first: bool, second: bool)
    modifies t`tileType
    ensures first <==> old(t.tileType) == Blocked
    ensures !second
    ensures t.tileType == Unblocked(old(t.tileType))
  {
    first := t.TryUnblock();
    second := t.TryUnblock();
    UnblockedIdempotent(old(t.tileType));
  }
}
