/**
 The character surface the game draws on: the ncurses standard screen of
 `LINES` rows and `COLS` columns, as an immutable grid of characters.
 `At` stands for `mvinch`, `PrintAt` for `mvprintw(y, x, "%s", str)`.
 */
module Terminal {

  /** `cells[y][x]` is the character shown at row `y`, column `x`. */
  datatype Screen = Screen(lines: nat, cols: nat, cells: seq<seq<char>>) {

    /** Every row holds exactly `cols` cells and there are `lines` rows. */
    predicate Valid() {
      |cells| == lines && forall y :: 0 <= y < |cells| ==> |cells[y]| == cols
    }

    predicate InBounds(y: int, x: int) {
      0 <= y < lines && 0 <= x < cols
    }

    function At(y: int, x: int): char
      requires Valid() && InBounds(y, x)
    {
      cells[y][x]
    }
  }

  /** Both screens have the same number of rows and of columns. */
  predicate SameShape(a: Screen, b: Screen) {
    a.lines == b.lines && a.cols == b.cols
  }

  /** The cleared screen `initscr` starts from: every cell blank. */
  function Blank(lines: nat, cols: nat): (s: Screen)
    ensures s.Valid() && s.lines == lines && s.cols == cols
    ensures forall y, x :: s.InBounds(y, x) ==> s.At(y, x) == ' '
  {
    Screen(lines, cols, seq(lines, _ => seq(cols, _ => ' ')))
  }

  /** Writes one character; a cell outside the surface is left alone. */
  function Put(s: Screen, y: int, x: int, c: char): (r: Screen)
    requires s.Valid()
    ensures r.Valid() && SameShape(r, s)
    ensures forall i, j :: r.InBounds(i, j) ==>
              r.At(i, j) == if i == y && j == x then c else s.At(i, j)
  {
    if s.InBounds(y, x) then s.(cells := s.cells[y := s.cells[y][x := c]]) else s
  }

  /** Writes `str` along row `y` from column `x`, dropping what falls past the right margin. */
  function PutRun(s: Screen, y: int, x: int, str: seq<char>): (r: Screen)
    requires s.Valid()
    ensures r.Valid() && SameShape(r, s)
    ensures forall i, j :: r.InBounds(i, j) ==>
              r.At(i, j) == if i == y && x <= j < x + |str| then str[j - x] else s.At(i, j)
    decreases |str|
  {
    if |str| == 0 then s else PutRun(Put(s, y, x, str[0]), y, x + 1, str[1..])
  }

  /**
   `mvprintw(y, x, "%s", str)`: the cursor move fails, and nothing is written,
   when `(y, x)` is off the surface; otherwise the characters of `str` land
   in row `y` from column `x` on.
   */
  function PrintAt(s: Screen, y: int, x: int, str: seq<char>): (r: Screen)
    requires s.Valid()
    ensures r.Valid() && SameShape(r, s)
    ensures forall i, j :: r.InBounds(i, j) ==>
              r.At(i, j) == if i == y && 0 <= x <= j < x + |str| then str[j - x] else s.At(i, j)
  {
    if s.InBounds(y, x) then PutRun(s, y, x, str) else s
  }

  /** Screens are determined by their shape and their cells. */
  lemma Extensionality(a: Screen, b: Screen)
    requires a.Valid() && b.Valid() && SameShape(a, b)
    requires forall i, j :: a.InBounds(i, j) ==> a.At(i, j) == b.At(i, j)
    ensures a == b
  {
    forall i | 0 <= i < a.lines
      ensures a.cells[i] == b.cells[i]
    {
      forall j | 0 <= j < a.cols
        ensures a.cells[i][j] == b.cells[i][j]
      {
        assert a.At(i, j) == b.At(i, j);
      }
    }
  }
}
