/**
 The game session: `handle_input`'s key dispatch, the `main` loop that feeds
 it keys until a quit key, and the start of a session (`setplayer`,
 `genrooms`, `drawmap`, `spawnplayer`). Keys are the integers `getch`
 returns; the arrow-key codes are those of the ncurses headers.
 */
module Session {
  import opened Options
  import opened Terminal
  import opened Rooms
  import opened Render
  import opened PlayerMoves

  const KeyEsc := 27
  const KeyDown := 0x102
  const KeyUp := 0x103
  const KeyLeft := 0x104
  const KeyRight := 0x105

  predicate IsQuit(key: int) {
    key == 'q' as int || key == 'Q' as int || key == KeyEsc
  }

  /** The step `(dy, dx)` a movement key asks for. */
  function Direction(key: int): (d: Option<(int, int)>)
    ensures d.Some? ==> !IsQuit(key)
    ensures d == Some((0, -1)) <==> key == 'h' as int || key == KeyLeft
    ensures d == Some((1, 0)) <==> key == 'j' as int || key == KeyDown
    ensures d == Some((-1, 0)) <==> key == 'k' as int || key == KeyUp
    ensures d == Some((0, 1)) <==> key == 'l' as int || key == KeyRight
    ensures d.None? || d in {Some((0, -1)), Some((1, 0)), Some((-1, 0)), Some((0, 1))}
  {
    if key == 'h' as int || key == KeyLeft then Some((0, -1))
    else if key == 'j' as int || key == KeyDown then Some((1, 0))
    else if key == 'k' as int || key == KeyUp then Some((-1, 0))
    else if key == 'l' as int || key == KeyRight then Some((0, 1))
    else None
  }

  /** The world and the rooms the map is drawn from. */
  datatype Game = Game(world: World, rooms: seq<Room>)

  predicate Ready(g: Game) {
    g.world.screen.Valid() && forall k :: 0 <= k < |g.rooms| ==> Drawable(g.rooms[k])
  }

  /** What `handle_input` returns (`running` is its nonzero result) and the game after it. */
  datatype Turn = Turn(running: bool, game: Game)

  /** The cell at `(y, x)` once the rooms are repainted over `s`. */
  function Repainted(s: Screen, rooms: seq<Room>, y: int, x: int): char
    requires s.Valid() && s.InBounds(y, x)
  {
    Over(Painted(rooms, y, x), s.At(y, x))
  }

  /**
   `handle_input(key, player, rooms)`: a quit key stops the session; a
   movement key repaints the map and then tries the step, which the fresh
   map decides; every other key does nothing.
   */
  function HandleInput(g: Game, key: int): (t: Turn)
    requires Ready(g)
    ensures Ready(t.game) && t.game.rooms == g.rooms
    ensures t.running <==> !IsQuit(key)
    ensures Direction(key).None? ==> t.game == g
    ensures Direction(key).Some? ==>
              var (dy, dx) := Direction(key).value;
              var (s, p, q) := (g.world.screen, g.world.player, t.game.world.player);
              && SameStats(q, p)
              && ((q.y, q.x) == (p.y + dy, p.x + dx) || (q.y, q.x) == (p.y, p.x))
              && ((q.y, q.x) == (p.y + dy, p.x + dx) <==>
                    s.InBounds(p.y + dy, p.x + dx) && !IsWall(Repainted(s, g.rooms, p.y + dy, p.x + dx)))
              && SameShape(t.game.world.screen, s)
              && forall i, j :: t.game.world.screen.InBounds(i, j) ==>
                   t.game.world.screen.At(i, j) == if i == q.y && j == q.x then '@' else Repainted(s, g.rooms, i, j)
  {
    if IsQuit(key) then Turn(false, g)
    else match Direction(key)
      case None => Turn(true, g)
      case Some((dy, dx)) =>
        var repainted := World(DrawMap(g.world.screen, g.rooms), g.world.player);
        Turn(true, g.(world := PlayerMove(repainted, dy, dx)))
  }

  /** The loop of `main`: hand each key to `HandleInput` until it returns 0. */
  function Run(g: Game, keys: seq<int>): (t: Turn)
    requires Ready(g)
    ensures Ready(t.game) && t.game.rooms == g.rooms
    ensures !t.running <==> exists k :: 0 <= k < |keys| && IsQuit(keys[k])
    decreases |keys|
  {
    if |keys| == 0 then Turn(true, g)
    else
      var t := HandleInput(g, keys[0]);
      if !t.running then t
      else
        var rest := Run(t.game, keys[1..]);
        assert forall k :: 0 <= k < |keys| - 1 ==> keys[1..][k] == keys[k + 1];
        rest
  }

  /** Once a quit key has been read, the keys after it have no effect. */
  lemma {:induction false} QuitIsFinal(g: Game, before: seq<int>, quit: int, after: seq<int>)
    requires Ready(g) && IsQuit(quit)
    ensures Run(g, before + [quit] + after) == Run(g, before + [quit])
    decreases |before|
  {
    var t := HandleInput(g, (before + [quit])[0]);
    if |before| == 0 {
      assert (before + [quit] + after)[0] == quit;
    } else {
      assert (before + [quit] + after)[0] == before[0];
      assert (before + [quit] + after)[1..] == before[1..] + [quit] + after;
      assert (before + [quit])[1..] == before[1..] + [quit];
      if t.running {
        QuitIsFinal(t.game, before[1..], quit, after);
      }
    }
  }

  /** Room `r` lies wholly on screen `s`, walls included. */
  predicate OnScreen(r: Room, s: Screen) {
    0 <= r.x && r.x + r.width <= s.cols && 0 <= r.y && r.y + r.height < s.lines
  }

  /** Rooms are closed boxes: a player inside room `k` of a map of disjoint
      rooms is still inside it after any key. */
  lemma StepConfines(g: Game, key: int, k: int)
    requires Ready(g) && PairwiseDisjoint(g.rooms) && 0 <= k < |g.rooms|
    requires OnScreen(g.rooms[k], g.world.screen)
    requires Inside(g.rooms[k], g.world.player.y, g.world.player.x)
    ensures Inside(g.rooms[k], HandleInput(g, key).game.world.player.y, HandleInput(g, key).game.world.player.x)
  {
    var r := g.rooms[k];
    var p := g.world.player;
    var q := HandleInput(g, key).game.world.player;
    if Direction(key).Some? {
      var (dy, dx) := Direction(key).value;
      var ty, tx := p.y + dy, p.x + dx;
      if !Inside(r, ty, tx) {
        // The step lands on the room's own wall, which the repaint shows as a wall glyph.
        assert g.world.screen.InBounds(ty, tx);
        assert Glyph(r, ty, tx).Some?;
        PaintedAgrees(g.rooms, k, ty, tx);
        assert IsWall(Repainted(g.world.screen, g.rooms, ty, tx));
        assert (q.y, q.x) == (p.y, p.x);
      }
    }
  }

  lemma {:induction false} RunConfines(g: Game, keys: seq<int>, k: int)
    requires Ready(g) && PairwiseDisjoint(g.rooms) && 0 <= k < |g.rooms|
    requires OnScreen(g.rooms[k], g.world.screen)
    requires Inside(g.rooms[k], g.world.player.y, g.world.player.x)
    ensures Inside(g.rooms[k], Run(g, keys).game.world.player.y, Run(g, keys).game.world.player.x)
    decreases |keys|
  {
    if |keys| > 0 {
      StepConfines(g, keys[0], k);
      var t := HandleInput(g, keys[0]);
      if t.running {
        RunConfines(t.game, keys[1..], k);
      }
    }
  }

  /** The state `main` reaches before reading the first key. */
  predicate Started(g: Game, lines: int, cols: int) {
    && Ready(g)
    && g.world.screen.lines == lines && g.world.screen.cols == cols
    && Generated(g.rooms, lines, cols)
    && Inside(g.rooms[0], g.world.player.y, g.world.player.x)
    && g.world.screen.At(g.world.player.y, g.world.player.x) == '@'
    && g.world.player.hp == 100 && g.world.player.mana == 100 && g.world.player.gold == 0
    && g.world.player.str == 10 && g.world.player.wit == 10 && g.world.player.dex == 10
  }

  /**
   The start of `main` on a cleared `lines × cols` screen: `setplayer(10, 10, 10)`,
   `genrooms`, `drawmap`, `spawnplayer`. `None` when the draws run out before
   every room slot is filled.
   */
  method NewSession(lines: nat, cols: nat, draws: seq<nat>) returns (res: Option<Game>)
    requires RoomyScreen(lines, cols)
    ensures res.Some? <==> GenSpec(lines, cols, draws).Some?
    ensures res.Some? ==> res.value.rooms == GenSpec(lines, cols, draws).value
    ensures res.Some? ==> Started(res.value, lines, cols)
    ensures res.Some? ==>
              var (rooms, p) := (res.value.rooms, res.value.world.player);
              && p.x == rooms[0].x + Half(rooms[0].width)
              && p.y == rooms[0].y + Half(rooms[0].height)
    ensures res.Some? ==>
              var (s, p) := (res.value.world.screen, res.value.world.player);
              forall i, j :: s.InBounds(i, j) ==>
                s.At(i, j) == if i == p.y && j == p.x then '@' else Over(Painted(res.value.rooms, i, j), ' ')
  {
    var blank := Blank(lines, cols);
    var player := SetPlayer(blank, 10, 10, 10);
    var generated := GenRooms(lines, cols, draws);
    if generated.None? {
      return None;
    }
    var rooms := generated.value;
    var drawn := DrawMap(blank, rooms);
    var world := SpawnPlayer(World(drawn, player), rooms);
    var first, p := rooms[0], world.player;
    assert OnScreen(first, drawn);
    assert p.x == first.x + Half(first.width) && p.y == first.y + Half(first.height);
    forall i, j | world.screen.InBounds(i, j)
      ensures world.screen.At(i, j) == if i == p.y && j == p.x then '@' else Over(Painted(rooms, i, j), ' ')
    {
      assert drawn.At(i, j) == Over(Painted(rooms, i, j), blank.At(i, j));
    }
    return Some(Game(world, rooms));
  }

  /** Rooms have no doors: from the start of a session, whatever keys are
      pressed, the player stays inside the first room. */
  lemma PlayerNeverLeavesFirstRoom(g: Game, lines: int, cols: int, keys: seq<int>)
    requires Started(g, lines, cols)
    ensures Inside(g.rooms[0], Run(g, keys).game.world.player.y, Run(g, keys).game.world.player.x)
  {
    RunConfines(g, keys, 0);
  }
}
