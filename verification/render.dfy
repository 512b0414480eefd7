/**
 Map rendering (`drawmap`): every room is printed as a box of wall glyphs.
 The drawn box covers rows `y .. y+height` — one row beyond the half-open
 range the overlap test uses — and columns `x .. x+width-1`.
 */
module Render {
  import opened Options
  import opened Terminal
  import opened Rooms

  const HorizontalWall := '-'
  const VerticalWall := '|'
  const Floor := ' '

  /** `width` and `height` are positive: a zero width would make the C code's
      `memset` length negative, and the row buffers need at least one cell. */
  predicate Drawable(r: Room) {
    r.width >= 1 && r.height >= 1
  }

  function Repeat(c: char, n: nat): (s: seq<char>)
    ensures |s| == n && forall k :: 0 <= k < n ==> s[k] == c
  {
    if n == 0 then [] else Repeat(c, n - 1) + [c]
  }

  /** The `edge` buffer: the top and bottom row of a room. */
  function EdgeRow(width: int): (row: seq<char>)
    requires width >= 1
    ensures |row| == width && forall k :: 0 <= k < width ==> row[k] == HorizontalWall
  {
    Repeat(HorizontalWall, width)
  }

  /** The `room` buffer: `|` in its first cell, `width-1` blanks after it,
      and `|` stored over the last of them. */
  function WallRow(width: int): (row: seq<char>)
    requires width >= 1
    ensures |row| == width
    ensures row[0] == VerticalWall && row[width - 1] == VerticalWall
    ensures forall k :: 0 < k < width - 1 ==> row[k] == Floor
  {
    var filled := [VerticalWall] + Repeat(Floor, width - 1);
    filled[width - 1 := VerticalWall]
  }

  /**
   Reference picture of one room: the glyph it leaves at row `i`, column `j`,
   or `None` where it writes nothing. Each row of the box is one print
   anchored at column `x`, and a print anchored off screen writes nothing,
   so a room with `x < 0` leaves no glyph at all.
   */
  function Glyph(r: Room, i: int, j: int): Option<char> {
    if r.x < 0 || j < r.x || r.x + r.width <= j then None
    else if i == r.y || i == r.y + r.height then Some(HorizontalWall)
    else if r.y < i < r.y + r.height then
      (if j == r.x || j == r.x + r.width - 1 then Some(VerticalWall) else Some(Floor))
    else None
  }

  /** Reference picture of a whole map: the glyph of the last room in the
      sequence that writes the cell. */
  function Painted(rooms: seq<Room>, i: int, j: int): Option<char> {
    if |rooms| == 0 then None
    else
      var g := Glyph(rooms[|rooms| - 1], i, j);
      if g.Some? then g else Painted(rooms[..|rooms| - 1], i, j)
  }

  /** A painted glyph covers whatever was under it. */
  function Over(g: Option<char>, under: char): char {
    if g.Some? then g.value else under
  }

  /** The `height-1` prints of the inner rows, from row `y` downwards. */
  function DrawSides(s: Screen, x: int, y: int, count: int, row: seq<char>): (r: Screen)
    requires s.Valid()
    ensures r.Valid() && SameShape(r, s)
    ensures forall i, j :: r.InBounds(i, j) ==>
              r.At(i, j) == if y <= i < y + count && 0 <= x <= j < x + |row| then row[j - x] else s.At(i, j)
    decreases count
  {
    if count <= 0 then s
    else DrawSides(PrintAt(s, y, x, row), x, y + 1, count - 1, row)
  }

  /** One iteration of the `drawmap` loop: top edge, inner rows, bottom edge. */
  function DrawRoom(s: Screen, room: Room): (r: Screen)
    requires s.Valid() && Drawable(room)
    ensures r.Valid() && SameShape(r, s)
    ensures forall i, j :: r.InBounds(i, j) ==> r.At(i, j) == Over(Glyph(room, i, j), s.At(i, j))
  {
    var edge := EdgeRow(room.width);
    var top := PrintAt(s, room.y, room.x, edge);
    var sides := DrawSides(top, room.x, room.y + 1, room.height - 1, WallRow(room.width));
    PrintAt(sides, room.y + room.height, room.x, edge)
  }

  /** `drawmap(rooms)`: the rooms are drawn in order, later ones over earlier ones. */
  function DrawMap(s: Screen, rooms: seq<Room>): (r: Screen)
    requires s.Valid() && forall k :: 0 <= k < |rooms| ==> Drawable(rooms[k])
    ensures r.Valid() && SameShape(r, s)
    ensures forall i, j :: r.InBounds(i, j) ==> r.At(i, j) == Over(Painted(rooms, i, j), s.At(i, j))
    decreases |rooms|
  {
    if |rooms| == 0 then s
    else DrawRoom(DrawMap(s, rooms[..|rooms| - 1]), rooms[|rooms| - 1])
  }

  /** Drawing the same rooms twice leaves the same screen as drawing them once. */
  lemma DrawMapIdempotent(s: Screen, rooms: seq<Room>)
    requires s.Valid() && forall k :: 0 <= k < |rooms| ==> Drawable(rooms[k])
    ensures DrawMap(DrawMap(s, rooms), rooms) == DrawMap(s, rooms)
  {
    var once := DrawMap(s, rooms);
    var twice := DrawMap(once, rooms);
    forall i, j | twice.InBounds(i, j)
      ensures twice.At(i, j) == once.At(i, j)
    {
    }
    Extensionality(twice, once);
  }

  /** Repainting makes the map independent of what was on screen in the cells
      the rooms paint: in particular it erases a player glyph written there. */
  lemma RepaintErases(s: Screen, y: int, x: int, c: char, rooms: seq<Room>)
    requires s.Valid() && forall k :: 0 <= k < |rooms| ==> Drawable(rooms[k])
    requires Painted(rooms, y, x).Some?
    ensures DrawMap(Put(s, y, x, c), rooms) == DrawMap(s, rooms)
  {
    var a := DrawMap(Put(s, y, x, c), rooms);
    var b := DrawMap(s, rooms);
    forall i, j | a.InBounds(i, j)
      ensures a.At(i, j) == b.At(i, j)
    {
    }
    Extensionality(a, b);
  }

  /** Where two rooms that pass the overlap test both leave a glyph, the cell
      is the bottom edge of one and the top edge of the other, so both glyphs
      are horizontal walls. */
  lemma SharedCellsAreEdges(a: Room, b: Room, i: int, j: int)
    requires Drawable(a) && Drawable(b) && !Overlaps(a, b)
    requires Glyph(a, i, j).Some? && Glyph(b, i, j).Some?
    ensures Glyph(a, i, j) == Some(HorizontalWall) && Glyph(b, i, j) == Some(HorizontalWall)
    ensures i == a.y + a.height || i == b.y + b.height
  {
    // The column is in both rooms' x-ranges, so the y-ranges must be apart.
    assert a.x < b.x + b.width && a.x + a.width > b.x;
    if a.y >= b.y + b.height {
      assert i == a.y && i == b.y + b.height;
    } else {
      assert b.y >= a.y + a.height;
      assert i == b.y && i == a.y + a.height;
    }
  }

  /** Drawn boxes of non-overlapping rooms can touch: a room placed right
      below another shares its top edge with the other's bottom edge. */
  lemma StackedRoomsShareEdge()
    ensures !Overlaps(Room(0, 4, 6, 4), Room(0, 0, 6, 4))
    ensures Glyph(Room(0, 0, 6, 4), 4, 2) == Some(HorizontalWall)
    ensures Glyph(Room(0, 4, 6, 4), 4, 2) == Some(HorizontalWall)
  {
  }

  /** On pairwise disjoint rooms the drawing order does not matter: every
      room's glyph is what the whole map shows in that cell. */
  lemma {:induction false} PaintedAgrees(rooms: seq<Room>, k: int, i: int, j: int)
    requires PairwiseDisjoint(rooms) && forall m :: 0 <= m < |rooms| ==> Drawable(rooms[m])
    requires 0 <= k < |rooms|
    requires Glyph(rooms[k], i, j).Some?
    ensures Painted(rooms, i, j) == Glyph(rooms[k], i, j)
    decreases |rooms|
  {
    var last := |rooms| - 1;
    if k != last {
      var g := Glyph(rooms[last], i, j);
      if g.Some? {
        SharedCellsAreEdges(rooms[k], rooms[last], i, j);
      } else {
        var pre := rooms[..last];
        assert pre[k] == rooms[k];
        assert PairwiseDisjoint(pre) by {
          forall a, b | 0 <= a < |pre| && 0 <= b < |pre| && a != b
            ensures !Overlaps(pre[a], pre[b])
          {
            assert pre[a] == rooms[a] && pre[b] == rooms[b];
          }
        }
        assert forall m :: 0 <= m < |pre| ==> pre[m] == rooms[m];
        PaintedAgrees(pre, k, i, j);
      }
    }
  }
}
