/** The dictionary: a newline-delimited word list loaded into a set of
    upper-cased words, and a case-insensitive membership test
    (Assets/Scripts/WordValidator.cs). */
module Dictionary {
  import opened LevelData

  /** String.ToUpper on one character, restricted to ASCII letters. */
  function UpperChar(c: char): char
  {
    if 'a' <= c <= 'z' then (c as int - ('a' as int - 'A' as int)) as char else c
  }

  /** String.ToUpper: every character upper-cased, the length kept. */
  function Upper(s: string): (r: string)
    ensures |r| == |s|
    ensures forall i :: 0 <= i < |s| ==> r[i] == UpperChar(s[i])
  {
    if s == [] then [] else [UpperChar(s[0])] + Upper(s[1..])
  }

  /** Upper-casing an upper-cased string changes nothing. */
  lemma UpperIdempotent(s: string)
    ensures Upper(Upper(s)) == Upper(s)
  {
    var u := Upper(s);
    assert forall i :: 0 <= i < |u| ==> Upper(u)[i] == u[i];
  }

  /** A line as a word-list file holds it: no line feed inside, and no
      carriage return at its end (where it would join the next separator).
      A lone carriage return inside the line is allowed. */
  predicate IsLine(s: string)
  {
    && (forall i :: 0 <= i < |s| ==> s[i] != '\n')
    && (s != [] ==> s[|s| - 1] != '\r')
  }

  /** The two line separators a word-list file may use. */
  predicate IsSeparator(sep: string)
  {
    sep == "\n" || sep == "\r\n"
  }

  /** text.Split(new[] { "\r\n", "\n" }) before empty entries are removed: the
      pieces between separators, where at each position "\r\n" is tried
      before "\n". A lone '\r' is not a separator. */
  function Pieces(s: string): (r: seq<string>)
    ensures |r| >= 1
    ensures forall i :: 0 <= i < |r| ==> '\n' !in r[i]
    decreases |s|
  {
    if s == [] then [""]
    else if s[0] == '\n' then [""] + Pieces(s[1..])
    else if |s| >= 2 && s[0] == '\r' && s[1] == '\n' then [""] + Pieces(s[2..])
    else
      var rest := Pieces(s[1..]);
      [[s[0]] + rest[0]] + rest[1..]
  }

  /** StringSplitOptions.RemoveEmptyEntries: the non-empty pieces, in order. */
  function RemoveEmpty(ps: seq<string>): (r: seq<string>)
    ensures forall i :: 0 <= i < |r| ==> r[i] != [] && r[i] in ps
    ensures forall p :: p in ps && p != [] ==> p in r
  {
    if ps == [] then []
    else if ps[0] == [] then RemoveEmpty(ps[1..])
    else [ps[0]] + RemoveEmpty(ps[1..])
  }

  /** The word-list text split into its non-empty lines. */
  function SplitLines(text: string): (r: seq<string>)
    ensures forall i :: 0 <= i < |r| ==> r[i] != [] && '\n' !in r[i]
  {
    RemoveEmpty(Pieces(text))
  }

  /** The lines joined with seps[i] between lines[i] and lines[i + 1]. */
  function JoinLines(lines: seq<string>, seps: seq<string>): string
    requires |lines| >= 1 && |seps| == |lines| - 1
  {
    if |lines| == 1 then lines[0]
    else lines[0] + seps[0] + JoinLines(lines[1..], seps[1..])
  }

  /** A line followed by more text is the first piece's start. */
  lemma {:induction false} PiecesOfLinePrefix(w: string, tail: string)
    requires IsLine(w)
    ensures Pieces(w + tail) == [w + Pieces(tail)[0]] + Pieces(tail)[1..]
    decreases |w|
  {
    if w != [] {
      assert (w + tail)[1..] == w[1..] + tail;
      assert w[0] == '\r' ==> |w| >= 2 && (w + tail)[1] == w[1] != '\n';
      PiecesOfLinePrefix(w[1..], tail);
      assert [w[0]] + (w[1..] + Pieces(tail)[0]) == w + Pieces(tail)[0];
    } else {
      var ps := Pieces(tail);
      assert w + tail == tail && w + ps[0] == ps[0];
      assert ps == [ps[0]] + ps[1..];
    }
  }

  /** Splitting joined lines gives the lines back, empty lines included,
      whatever separator each gap uses. */
  lemma {:induction false} PiecesJoinLines(lines: seq<string>, seps: seq<string>)
    requires |lines| >= 1 && |seps| == |lines| - 1
    requires forall i :: 0 <= i < |seps| ==> IsSeparator(seps[i])
    requires forall i :: 0 <= i < |lines| ==> IsLine(lines[i])
    ensures Pieces(JoinLines(lines, seps)) == lines
    decreases |lines|
  {
    if |lines| == 1 {
      PiecesOfLinePrefix(lines[0], "");
      assert lines[0] + "" == lines[0];
    } else {
      var sep, rest := seps[0], JoinLines(lines[1..], seps[1..]);
      PiecesJoinLines(lines[1..], seps[1..]);
      assert (sep + rest)[|sep|..] == rest;
      assert Pieces(sep + rest) == [""] + lines[1..];
      PiecesOfLinePrefix(lines[0], sep + rest);
      assert lines[0] + (sep + rest) == lines[0] + sep + rest;
      assert lines[0] + "" == lines[0];
    }
  }

  /** A word list written one word per line, blank lines allowed, splits into
      exactly its non-empty lines, in order. */
  lemma SplitJoinLines(lines: seq<string>, seps: seq<string>)
    requires |lines| >= 1 && |seps| == |lines| - 1
    requires forall i :: 0 <= i < |seps| ==> IsSeparator(seps[i])
    requires forall i :: 0 <= i < |lines| ==> IsLine(lines[i])
    ensures SplitLines(JoinLines(lines, seps)) == RemoveEmpty(lines)
  {
    PiecesJoinLines(lines, seps);
  }

  /** The set LoadWordList builds: nothing when the asset is missing, otherwise
      every non-empty line upper-cased. */
  function WordSet(asset: Option<string>): (words: set<string>)
    ensures "" !in words
  {
    match asset
    case None => {}
    case Some(text) => set line | line in SplitLines(text) :: Upper(line)
  }

  /** WordValidator: holds the upper-cased word set. The asset lookup
      (Resources.Load) is replaced by the text it would return, or None. */
  class WordValidator {
    var wordList: set<string>

    /** Awake on the first instance: load the word list. */
    constructor (asset: Option<string>)
      ensures wordList == WordSet(asset)
    {
      wordList := {};
      new;
      LoadWordList(asset);
    }

    /** WordValidator.LoadWordList. */
    method LoadWordList(asset: Option<string>)
      modifies this
      ensures wordList == WordSet(asset)
    {
      wordList := {};
      if asset.Some? {
        var lines := SplitLines(asset.value);
        for i := 0 to |lines|
          invariant wordList == set line | line in lines[..i] :: Upper(line)
        {
          assert lines[..i + 1] == lines[..i] + [lines[i]];
          assert (set line | line in lines[..i + 1] :: Upper(line))
              == (set line | line in lines[..i] :: Upper(line)) + {Upper(lines[i])};
          wordList := wordList + {Upper(lines[i])};
        }
        assert lines[..|lines|] == lines;
      }
    }

    /** WordValidator.IsValidWord: membership of the upper-cased word. */
    predicate IsValidWord(word: string)
      reads this
      ensures IsValidWord(word) <==>
        exists v :: v in wordList && |v| == |word| && forall i :: 0 <= i < |word| ==> v[i] == UpperChar(word[i])
    {
      var u := Upper(word);
      assert forall v :: |v| == |word| && (forall i :: 0 <= i < |word| ==> v[i] == UpperChar(word[i])) ==> v == u;
      u in wordList
    }
  }

  /** The membership test ignores case: a word and its upper-cased form agree. */
  lemma IsValidWordIgnoresCase(v: WordValidator, word: string)
    ensures v.IsValidWord(word) <==> v.IsValidWord(Upper(word))
  {
    UpperIdempotent(word);
  }

  /** After loading a list written one word per line, every listed word is
      valid in any case, and the empty word never is. */
  lemma LoadedWordsAreValid(lines: seq<string>, seps: seq<string>, word: string, spelled: string)
    requires |lines| >= 1 && |seps| == |lines| - 1
    requires forall i :: 0 <= i < |seps| ==> IsSeparator(seps[i])
    requires forall i :: 0 <= i < |lines| ==> IsLine(lines[i])
    requires word in lines && word != ""
    requires Upper(spelled) == Upper(word)
    ensures Upper(spelled) in WordSet(Some(JoinLines(lines, seps)))
    ensures Upper("") !in WordSet(Some(JoinLines(lines, seps)))
  {
    SplitJoinLines(lines, seps);
    assert word in SplitLines(JoinLines(lines, seps));
  }

  /** Without a word-list asset no word is valid. */
  lemma MissingAssetRejectsAll(word: string)
    ensures Upper(word) !in WordSet(None)
  {
  }
}
