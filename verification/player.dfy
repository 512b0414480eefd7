/**
 The player record and single-step movement with collision against the
 wall glyphs on screen.
 */
module PlayerMoves {
  import opened Terminal
  import opened Rooms
  import opened Render

  const U32Modulus := 0x1_0000_0000

  /** C's `unsigned int`. */
  type u32 = n: int | 0 <= n < U32Modulus

  /** Position `(x, y)` on screen and the unsigned stats of `Player`. */
  datatype Player = Player(x: int, y: int, hp: u32, mana: u32, str: u32, wit: u32, dex: u32, gold: u32)

  /** The stats never change; only the position does. */
  predicate SameStats(a: Player, b: Player) {
    a.hp == b.hp && a.mana == b.mana && a.str == b.str && a.wit == b.wit && a.dex == b.dex && a.gold == b.gold
  }

  predicate IsWall(c: char) {
    c == HorizontalWall || c == VerticalWall
  }

  /** Unsigned multiplication by ten, wrapping modulo 2^32 as `unsigned int` does. */
  function TimesTen(v: u32): (r: u32)
    ensures (10 * v - r) % U32Modulus == 0
    ensures 10 * v < U32Modulus ==> r == 10 * v
  {
    (10 * v) % U32Modulus
  }

  /** `setplayer(str, wit, dex)` on a screen of `s.lines × s.cols`. */
  function SetPlayer(s: Screen, str: u32, wit: u32, dex: u32): (p: Player)
    ensures p.str == str && p.wit == wit && p.dex == dex && p.gold == 0
    ensures (10 * str - p.hp) % U32Modulus == 0 && (10 * wit - p.mana) % U32Modulus == 0
    ensures 10 * str < U32Modulus ==> p.hp == 10 * str
    ensures 10 * wit < U32Modulus ==> p.mana == 10 * wit
    ensures s.lines > 0 && s.cols > 0 ==> s.InBounds(p.y, p.x)
  {
    Player(s.cols / 2, s.lines / 2, TimesTen(str), TimesTen(wit), str, wit, dex, 0)
  }

  /** `colliding(dy, dx, player)`: the target cell is off screen or holds a wall glyph. */
  function Colliding(s: Screen, p: Player, dy: int, dx: int): (hit: bool)
    requires s.Valid()
    ensures !s.InBounds(p.y + dy, p.x + dx) ==> hit
    ensures s.InBounds(p.y + dy, p.x + dx) ==> (hit <==> IsWall(s.At(p.y + dy, p.x + dx)))
  {
    var ny := p.y + dy;
    var nx := p.x + dx;
    if nx < 0 || nx >= s.cols || ny < 0 || ny >= s.lines then true
    else match s.At(ny, nx)
      case '-' => true
      case '|' => true
      case _ => false
  }

  /** The screen and the player together. */
  datatype World = World(screen: Screen, player: Player)

  /** `player_move(dy, dx, player)`: step unless colliding, then print `@` where the player stands. */
  function PlayerMove(w: World, dy: int, dx: int): (r: World)
    requires w.screen.Valid()
    ensures r.screen.Valid() && SameShape(r.screen, w.screen)
    ensures SameStats(r.player, w.player)
    ensures !Colliding(w.screen, w.player, dy, dx) ==>
              r.player.y == w.player.y + dy && r.player.x == w.player.x + dx
    ensures Colliding(w.screen, w.player, dy, dx) ==>
              r.player.y == w.player.y && r.player.x == w.player.x
    ensures forall i, j :: r.screen.InBounds(i, j) ==>
              r.screen.At(i, j) == if i == r.player.y && j == r.player.x then '@' else w.screen.At(i, j)
  {
    var p := if Colliding(w.screen, w.player, dy, dx) then w.player
             else w.player.(y := w.player.y + dy, x := w.player.x + dx);
    World(PrintAt(w.screen, p.y, p.x, "@"), p)
  }

  /** The interior of a drawn room: strictly between its side walls and
      strictly between its top and bottom edges. */
  predicate Inside(r: Room, y: int, x: int) {
    r.y < y < r.y + r.height && r.x < x < r.x + r.width - 1
  }

  /** C's `/` on `int`, which truncates toward zero. */
  function Half(n: int): (h: int)
    ensures n >= 0 ==> 0 <= 2 * h <= n < 2 * h + 2
    ensures n < 0 ==> 2 * h - 2 < n <= 2 * h <= 0
  {
    if n >= 0 then n / 2 else -((-n) / 2)
  }

  /** `spawnplayer(player, rooms)`: put the player at the centre of the first
      room and print it there. */
  function SpawnPlayer(w: World, rooms: seq<Room>): (r: World)
    requires w.screen.Valid() && |rooms| > 0
    ensures r.screen.Valid() && SameShape(r.screen, w.screen)
    ensures SameStats(r.player, w.player)
    ensures rooms[0].width >= 0 ==>
              0 <= 2 * (r.player.x - rooms[0].x) <= rooms[0].width < 2 * (r.player.x - rooms[0].x) + 2
    ensures rooms[0].height >= 0 ==>
              0 <= 2 * (r.player.y - rooms[0].y) <= rooms[0].height < 2 * (r.player.y - rooms[0].y) + 2
    ensures rooms[0].width >= 3 && rooms[0].height >= 2 ==> Inside(rooms[0], r.player.y, r.player.x)
    ensures forall i, j :: r.screen.InBounds(i, j) ==>
              r.screen.At(i, j) == if i == r.player.y && j == r.player.x then '@' else w.screen.At(i, j)
  {
    var first := rooms[0];
    var placed := w.player.(x := first.x + Half(first.width), y := first.y + Half(first.height));
    PlayerMove(World(w.screen, placed), 0, 0)
  }
}
