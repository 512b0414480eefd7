# rogueclone — a verified model of the dungeon core

rogueclone is a small ncurses dungeon-crawler prototype. At start-up it places
4 to 7 non-overlapping rectangular rooms on the terminal screen by rejection
sampling. It draws them as ASCII boxes (`-` top and bottom edges, `|` sides,
blank floor) and spawns the player `@` at the centre of the first room. After
that, each movement key repaints the map and moves the player one cell, unless
the target cell is off screen or holds a wall glyph.

This project models that core in Dafny and proves properties of the model:

- `options.dfy` — `Options.Option`, a value that may be absent.
- `terminal.dfy` — `Terminal.Screen`: the `LINES × COLS`
  character surface as `seq<seq<char>>`. `Screen.At` stands for `mvinch` and
  `Terminal.PrintAt` for `mvprintw(y, x, "%s", str)`.
- `rooms.dfy` — module `Rooms`: the `Room` record, the overlap and visibility
  tests of `isvalidroom`, candidate drawing, and `genrooms` as a method over a
  finite stream of supplied draws. It also holds a functional reference
  definition (`Fill`/`GenSpec`) that the method is proved equal to.
- `render.dfy` — module `Render`: the row buffers of `drawmap`, one room's box,
  the whole map, and a cell-by-cell reference picture (`Glyph`, `Painted`)
  that the drawing functions are proved to produce.
- `player.dfy` — module `PlayerMoves`: the `Player` record with `unsigned int`
  stats, plus `setplayer`, `colliding`, `player_move` and `spawnplayer`.
- `session.dfy` — module `Session`: the key dispatch of `handle_input`, the
  key loop of `main`, and the session start. It also proves the headline
  theorem: rooms have no doors, so whatever keys are pressed, the player never
  leaves the first room.

`createroom` is the `Room` constructor itself. The global `nrooms` is the
length of the room sequence. `rand()` is replaced by caller-supplied draws,
taken in the order the C code takes them: the room count first, then width,
height, y and x for each candidate. Keys are the integers `getch` returns. The
arrow codes are the ncurses values `KEY_DOWN` 0402, `KEY_UP` 0403,
`KEY_LEFT` 0404 and `KEY_RIGHT` 0405 (octal).

Two facts about the code that the model reflects:

- The spawn point is `(y + height/2, x + width/2)`. `PlayerMoves.Inside` bounds
  the row by `y+height`, because the drawn bottom wall is at row `y+height`.
- The room count is drawn before `srand(time(NULL))` (src/main.c:160, 164), so
  it comes from the default seed. The model takes all draws from its caller.

## Model

| member | source | states |
|---|---|---|
| Rooms.ClearOf | src/main.c:127-138 | the collision loop accepts exactly when the candidate overlaps none of the accepted rooms |
| Rooms.IsValidRoom | src/main.c:111-141 | a candidate is accepted exactly when the as-written visibility guard holds and it overlaps no accepted room |
| Rooms.OverlapsIffSharedCell | src/main.c:128-134 | for rooms of positive size, the strict overlap test holds exactly when their half-open rectangles share a cell |
| Rooms.Candidate | src/main.c:166-170 | every candidate has 6 <= width < 12, 4 <= height < 8, 0 <= x < COLS-width and 0 <= y < LINES-height, so x+width < COLS and y+height < LINES |
| Rooms.CandidateCoversRanges | src/main.c:166-169 | a room is within those ranges exactly when some draws produce it |
| Rooms.AcceptKeepsDisjoint | src/main.c:171-174 | appending an accepted candidate keeps the rooms pairwise non-overlapping |
| Rooms.GenRooms | src/main.c:157-177 | the retry loop equals the reference definition; on success it returns 4 to 7 rooms, all in the ranges, each accepted against the rooms before it (acceptance order), and pairwise non-overlapping |
| Rooms.FillExtends | src/main.c:165-175 | once the retry loop succeeds, further draws do not change its result |
| Rooms.MoreDrawsSameRooms | src/main.c:160-175 | a successful generation keeps its result when more draws are supplied |
| Rooms.InMapGuardVacuous | src/main.c:117-125 | the as-written visibility guard never rejects a candidate the generator draws, so for those `isvalidroom` is the collision loop alone |
| Rooms.InMapAsWrittenAdmitsOffscreen | src/main.c:117-125 | the as-written guard admits a room lying wholly above an 80×24 screen, which the intended guard rejects |
| Rooms.IsValidRoomIntended | src/main.c:117-125 | with the intended guard, an accepted room has every cell of its rectangle on screen and overlaps no accepted room |
| Rooms.GuardAgreesOnCandidates | src/main.c:120 | on every candidate the generator can draw, the as-written and the intended test agree |
| Render.EdgeRow | src/main.c:190-191 | the edge buffer is `width` horizontal-wall glyphs |
| Render.WallRow | src/main.c:183-197 | the inner-row buffer has length `width`, `|` at both ends and blanks between |
| Render.DrawSides | src/main.c:198-199 | the `height-1` inner prints write the row buffer into rows y+1 .. y+height-1 from column x, and nothing else |
| Render.DrawRoom | src/main.c:188-202 | one room leaves `-` on rows y and y+height, `|` on columns x and x+width-1 between them, blanks inside; every other cell is unchanged |
| Render.DrawMap | src/main.c:179-205 | each cell shows the glyph of the last room that paints it, and cells no room paints are unchanged |
| Render.DrawMapIdempotent | src/main.c:179-205 | drawing the same rooms twice gives the same screen as drawing them once |
| Render.RepaintErases | src/main.c:238-241 | repainting removes anything, such as the old `@`, written on a cell the rooms paint |
| Render.SharedCellsAreEdges | src/main.c:130-133 | two drawn rooms that pass the overlap test share only cells that are the bottom edge of one and the top edge of the other, both `-` |
| Render.StackedRoomsShareEdge | src/main.c:198-202 | two rooms can pass the overlap test and still have touching drawn boxes, because the box reaches one row past the tested range |
| Render.PaintedAgrees | src/main.c:187-203 | on pairwise non-overlapping rooms, each room's glyph is what the finished map shows, so drawing order does not matter |
| PlayerMoves.TimesTen | src/main.c:51-52 | `unsigned int` times ten: congruent to 10·v modulo 2^32, and exactly 10·v without overflow |
| PlayerMoves.SetPlayer | src/main.c:41-59 | hp = 10·str and mana = 10·wit (mod 2^32), gold = 0, and str/wit/dex stored unchanged; the start position is on screen |
| PlayerMoves.Colliding | src/main.c:89-109 | any off-screen target collides, whatever the screen holds; an on-screen target collides exactly when it holds `-` or `|`, so not for ` ` or `@` |
| PlayerMoves.PlayerMove | src/main.c:209-217 | without a collision the position shifts by exactly (dy, dx), otherwise it stays; stats never change; `@` is written at the resulting position and nowhere else |
| PlayerMoves.Half | src/main.c:225-226 | C's truncating `/2`: the half of a non-negative value rounds down |
| PlayerMoves.SpawnPlayer | src/main.c:219-228 | the player lands at the centre of the first room, strictly inside its drawn walls; `@` is printed there and no other cell changes |
| Session.Direction | src/main.c:238-257 | h/KEY_LEFT means (0,-1), j/KEY_DOWN (1,0), k/KEY_UP (-1,0), l/KEY_RIGHT (0,1); no other key moves, and no movement key quits |
| Session.HandleInput | src/main.c:230-261 | q, Q and ESC return 0 and change nothing; a movement key repaints, then moves by its step exactly when the repainted target is on screen and not a wall, then writes `@`; any other key returns 1 and changes nothing |
| Session.Run | src/main.c:276-278 | the loop stops exactly when some key read was a quit key; the rooms never change |
| Session.QuitIsFinal | src/main.c:276-278 | keys after a quit key have no effect on the screen or the player |
| Session.StepConfines | src/main.c:230-261 | a player inside an on-screen room of a pairwise non-overlapping map is still inside it after any key |
| Session.RunConfines | src/main.c:276-278 | the same holds over any sequence of keys |
| Session.NewSession | src/main.c:266-274 | session start fails only when the draws run out. Otherwise the rooms are the generated ones, and the player (hp 100, mana 100, gold 0) stands at `(y + height/2, x + width/2)` of the first room, inside its walls. The screen shows `@` there and the drawn map over blanks everywhere else |
| Session.PlayerNeverLeavesFirstRoom | src/main.c:266-278 | from the start of a session, whatever keys are pressed, the player stays inside the first room |

## Findings

| source | as written | input that shows it | evidently intended | confidence | as-written member | corrected member |
|---|---|---|---|---|---|---|
| src/main.c:120 | the visibility guard joins `x >= 0`, `x+width >= COLS`, `y >= 0`, `y+height >= LINES` with `\|\|`, so any room with `x >= 0` passes | `Room(0, -100, 6, 4)` on an 80×24 screen lies wholly above the screen and is accepted | reject a room unless `0 <= x`, `x+width < COLS`, `0 <= y` and `y+height < LINES` (the bounds the `Room` field comments state) | not executed; the guard is dead code, since every candidate already satisfies the intended bounds | Rooms.InMapAsWrittenAdmitsOffscreen | Rooms.IsValidRoomIntended |

`Rooms.GenRooms` keeps the as-written guard. `Rooms.GuardAgreesOnCandidates`
proves that, on every room the generator can draw, the corrected test gives the
same answer. So the generator behaves the same under either guard.

## Left out

- Terminal setup and teardown (`setscr`, `initscr`, `noecho`, `keypad`, `curs_set`, `endwin`) are left out; they are terminal plumbing with no logic.
- The blocking `getch` is left out; keys are given to `Session.Run` as a sequence.
- `malloc`/`free`, `delplayer`, `delrooms` and the free-on-reject in `isvalidroom` are left out; rooms and the player are immutable values.
- `srand(time(NULL))` and `rand()` are replaced by supplied draws. `RAND_MAX` is not modelled; draws are unbounded naturals, and the ranges do not depend on it.
- Rooms.GenRooms: the C loop retries forever. The model stops with `None` when the finite draw stream runs out; on success it matches the C loop draw for draw.
- Rooms.GenRooms: requires at least 8 lines and 12 columns. On a smaller screen `rand() % (LINES-height)` or `rand() % (COLS-width)` can divide by zero, which is undefined behaviour in C.
- Render.DrawRoom: requires `width >= 1` and `height >= 1`. A zero width makes the C `memset` length negative, and a zero height moves the bottom edge. The 13-byte buffers overflow for widths above 12; that is not modelled. Generated rooms are 6 to 11 wide and 4 to 7 high.
- Terminal.PrintAt: characters past the right margin are dropped, whereas ncurses wraps them to the next line. No on-screen room reaches the margin.
- `mvinch` returns a `chtype` with attribute bits. The map never sets attributes, so cells are plain characters.
- PlayerMoves.SetPlayer: the start position `(COLS/2, LINES/2)` is only proved to be on screen, because `spawnplayer` overwrites it.
- Positions are unbounded integers; `int` overflow in `x + x_amount` cannot arise on a terminal-sized screen.
- The C `int` results of `colliding`, `isvalidroom` and `handle_input` are booleans here; `handle_input`'s 1 is `Turn.running`.
- `main` starts its loop with `key = 1`. That key is not a quit or movement key, so `Session.HandleInput` leaves the game unchanged for it; `Session.Run` starts at the first key read.
- The unused constants `KEYSPACE` and `KEYDEL` are left out.
