/**
 Room generation: rejection sampling of axis-aligned rectangles on a screen
 of `lines` rows and `cols` columns. The C library's `rand()` is replaced by
 a finite stream of draws supplied by the caller; generation that runs out
 of draws before filling every slot yields `None`.
 */
module Rooms {
  import opened Options

  const MinNumRoom := 4
  const MaxNumRoom := 8
  const MinRoomHeight := 4
  const MaxRoomHeight := 8
  const MinRoomWidth := 6
  const MaxRoomWidth := 12

  /** Top-left corner `(x, y)` and extent; the overlap test treats the room as
      the half-open cell ranges `[x, x+width) × [y, y+height)`. */
  datatype Room = Room(x: int, y: int, width: int, height: int)

  /** The strict overlap test of `isvalidroom`: `candidate` and `other` share
      a stretch of positive length on both axes. */
  predicate Overlaps(candidate: Room, other: Room) {
    && candidate.x < other.x + other.width && candidate.x + candidate.width > other.x
    && candidate.y < other.y + other.height && candidate.y + candidate.height > other.y
  }

  /** Cell `(i, j)` (row, column) lies in the half-open rectangle of `r`. */
  predicate Covers(r: Room, i: int, j: int) {
    r.x <= j < r.x + r.width && r.y <= i < r.y + r.height
  }

  /** The visibility guard of `isvalidroom` exactly as the C code writes it,
      with `||` joining the four edge conditions. */
  predicate InMapAsWritten(r: Room, lines: int, cols: int) {
    r.x >= 0 || r.x + r.width >= cols || r.y >= 0 || r.y + r.height >= lines
  }

  /** The visibility guard the comment and the field notes of `Room` describe:
      the room's top-left corner is on screen and `x+width < COLS`, `y+height < LINES`. */
  predicate InMapIntended(r: Room, lines: int, cols: int) {
    0 <= r.x && r.x + r.width < cols && 0 <= r.y && r.y + r.height < lines
  }

  /** The collision loop of `isvalidroom`, scanning the accepted rooms in order. */
  function ClearOf(accepted: seq<Room>, candidate: Room): (ok: bool)
    ensures ok <==> forall k :: 0 <= k < |accepted| ==> !Overlaps(candidate, accepted[k])
  {
    if |accepted| == 0 then true
    else if Overlaps(candidate, accepted[0]) then false
    else ClearOf(accepted[1..], candidate)
  }

  /** `isvalidroom(ncreatedrooms, room, rooms)`, with `accepted` the rooms
      already created. */
  function IsValidRoom(accepted: seq<Room>, candidate: Room, lines: int, cols: int): (ok: bool)
    ensures ok <==> InMapAsWritten(candidate, lines, cols)
                    && forall k :: 0 <= k < |accepted| ==> !Overlaps(candidate, accepted[k])
  {
    InMapAsWritten(candidate, lines, cols) && ClearOf(accepted, candidate)
  }

  /** `isvalidroom` with the visibility guard the authors evidently meant. */
  function IsValidRoomIntended(accepted: seq<Room>, candidate: Room, lines: int, cols: int): (ok: bool)
    ensures ok ==> forall i, j :: Covers(candidate, i, j) ==> 0 <= i < lines && 0 <= j < cols
    ensures ok <==> InMapIntended(candidate, lines, cols)
                    && forall k :: 0 <= k < |accepted| ==> !Overlaps(candidate, accepted[k])
  {
    InMapIntended(candidate, lines, cols) && ClearOf(accepted, candidate)
  }

  /** The ranges `genrooms` draws every room from. */
  predicate InGenRanges(r: Room, lines: int, cols: int) {
    && MinRoomWidth <= r.width < MaxRoomWidth
    && MinRoomHeight <= r.height < MaxRoomHeight
    && 0 <= r.x < cols - r.width
    && 0 <= r.y < lines - r.height
  }

  /** The screen is large enough for every `rand() % (LINES-height)` and
      `rand() % (COLS-width)` to have a positive modulus. */
  predicate RoomyScreen(lines: int, cols: int) {
    lines >= MaxRoomHeight && cols >= MaxRoomWidth
  }

  /** One candidate room from four draws, in the order `genrooms` consumes
      them: width, height, y, x. */
  function Candidate(lines: int, cols: int, dw: nat, dh: nat, dy: nat, dx: nat): (r: Room)
    requires RoomyScreen(lines, cols)
    ensures InGenRanges(r, lines, cols)
    ensures r.x + r.width < cols && r.y + r.height < lines
  {
    var width := MinRoomWidth + dw % (MaxRoomWidth - MinRoomWidth);
    var height := MinRoomHeight + dh % (MaxRoomHeight - MinRoomHeight);
    var y := dy % (lines - height);
    var x := dx % (cols - width);
    Room(x, y, width, height)
  }

  /** Every room in the generation ranges is the candidate of some draws, so
      `Candidate` reaches exactly the documented ranges. */
  lemma CandidateCoversRanges(lines: int, cols: int, r: Room)
    requires RoomyScreen(lines, cols)
    ensures InGenRanges(r, lines, cols) <==>
              exists dw: nat, dh: nat, dy: nat, dx: nat :: Candidate(lines, cols, dw, dh, dy, dx) == r
  {
    if InGenRanges(r, lines, cols) {
      var dw: nat, dh: nat, dy: nat, dx: nat := r.width - MinRoomWidth, r.height - MinRoomHeight, r.y, r.x;
      assert Candidate(lines, cols, dw, dh, dy, dx) == r;
    }
  }

  /** Each room passed the validity test against the rooms accepted before it. */
  predicate AcceptedInOrder(rooms: seq<Room>, lines: int, cols: int) {
    forall k :: 0 <= k < |rooms| ==> IsValidRoom(rooms[..k], rooms[k], lines, cols)
  }

  /** No two distinct rooms overlap. */
  predicate PairwiseDisjoint(rooms: seq<Room>) {
    forall a, b :: 0 <= a < |rooms| && 0 <= b < |rooms| && a != b ==> !Overlaps(rooms[a], rooms[b])
  }

  /** What a successful `genrooms` promises about its output. */
  predicate Generated(rooms: seq<Room>, lines: int, cols: int) {
    && MinNumRoom <= |rooms| < MaxNumRoom
    && (forall k :: 0 <= k < |rooms| ==> InGenRanges(rooms[k], lines, cols))
    && AcceptedInOrder(rooms, lines, cols)
    && PairwiseDisjoint(rooms)
  }

  /**
   Reference definition of the retry loop: fill slots `|acc| .. n-1`, taking
   four draws per attempt; an attempt the validity test rejects leaves the
   slot open for the next attempt.
   */
  function Fill(lines: int, cols: int, n: nat, acc: seq<Room>, rest: seq<nat>): Option<seq<Room>>
    requires RoomyScreen(lines, cols)
    decreases |rest|
  {
    if |acc| >= n then Some(acc)
    else if |rest| < 4 then None
    else
      var c := Candidate(lines, cols, rest[0], rest[1], rest[2], rest[3]);
      if IsValidRoom(acc, c, lines, cols) then Fill(lines, cols, n, acc + [c], rest[4..])
      else Fill(lines, cols, n, acc, rest[4..])
  }

  /** Reference definition of `genrooms`: the first draw fixes the room count. */
  function GenSpec(lines: int, cols: int, draws: seq<nat>): Option<seq<Room>>
    requires RoomyScreen(lines, cols)
  {
    if |draws| == 0 then None
    else Fill(lines, cols, MinNumRoom + draws[0] % (MaxNumRoom - MinNumRoom), [], draws[1..])
  }

  /** Appending a room the validity test accepted keeps the rooms pairwise disjoint. */
  lemma AcceptKeepsDisjoint(rooms: seq<Room>, c: Room, lines: int, cols: int)
    requires PairwiseDisjoint(rooms)
    requires IsValidRoom(rooms, c, lines, cols)
    ensures PairwiseDisjoint(rooms + [c])
  {
    var all := rooms + [c];
    forall a, b | 0 <= a < |all| && 0 <= b < |all| && a != b
      ensures !Overlaps(all[a], all[b])
    {
      if a == |rooms| {
        assert !Overlaps(c, rooms[b]);
      } else if b == |rooms| {
        assert !Overlaps(c, rooms[a]);
      } else {
        assert all[a] == rooms[a] && all[b] == rooms[b];
      }
    }
  }

  /**
   `genrooms`: draw the room count, then draw candidates until that many have
   been accepted, retrying a slot whenever the candidate is rejected.
   */
  method GenRooms(lines: int, cols: int, draws: seq<nat>) returns (res: Option<seq<Room>>)
    requires RoomyScreen(lines, cols)
    ensures res == GenSpec(lines, cols, draws)
    ensures res.Some? ==> Generated(res.value, lines, cols)
  {
    if |draws| == 0 {
      return None;
    }
    var n := MinNumRoom + draws[0] % (MaxNumRoom - MinNumRoom);
    var rooms: seq<Room> := [];
    var pos := 1;
    while |rooms| < n
      invariant 1 <= pos <= |draws|
      invariant |rooms| <= n
      invariant GenSpec(lines, cols, draws) == Fill(lines, cols, n, rooms, draws[pos..])
      invariant forall k :: 0 <= k < |rooms| ==> InGenRanges(rooms[k], lines, cols)
      invariant AcceptedInOrder(rooms, lines, cols)
      invariant PairwiseDisjoint(rooms)
      decreases |draws| - pos
    {
      if pos + 4 > |draws| {
        return None;
      }
      var c := Candidate(lines, cols, draws[pos], draws[pos + 1], draws[pos + 2], draws[pos + 3]);
      assert draws[pos..][4..] == draws[pos + 4..];
      if IsValidRoom(rooms, c, lines, cols) {
        AcceptKeepsDisjoint(rooms, c, lines, cols);
        assert (rooms + [c])[..|rooms|] == rooms;
        rooms := rooms + [c];
      }
      pos := pos + 4;
    }
    return Some(rooms);
  }

  /** Handing the generator more draws than it needs changes nothing: the
      result is decided by the draws it has consumed when it succeeds. */
  lemma {:induction false} FillExtends(lines: int, cols: int, n: nat, acc: seq<Room>, rest: seq<nat>, extra: seq<nat>)
    requires RoomyScreen(lines, cols)
    requires Fill(lines, cols, n, acc, rest).Some?
    ensures Fill(lines, cols, n, acc, rest + extra) == Fill(lines, cols, n, acc, rest)
    decreases |rest|
  {
    if |acc| < n {
      assert (rest + extra)[4..] == rest[4..] + extra;
      assert (rest + extra)[..4] == rest[..4];
      var c := Candidate(lines, cols, rest[0], rest[1], rest[2], rest[3]);
      if IsValidRoom(acc, c, lines, cols) {
        FillExtends(lines, cols, n, acc + [c], rest[4..], extra);
      } else {
        FillExtends(lines, cols, n, acc, rest[4..], extra);
      }
    }
  }

  lemma MoreDrawsSameRooms(lines: int, cols: int, draws: seq<nat>, extra: seq<nat>)
    requires RoomyScreen(lines, cols)
    requires GenSpec(lines, cols, draws).Some?
    ensures GenSpec(lines, cols, draws + extra) == GenSpec(lines, cols, draws)
  {
    assert (draws + extra)[1..] == draws[1..] + extra;
    FillExtends(lines, cols, MinNumRoom + draws[0] % (MaxNumRoom - MinNumRoom), [], draws[1..], extra);
  }

  /** Two rooms of positive extent pass the overlap test exactly when their
      half-open rectangles share a cell. */
  lemma OverlapsIffSharedCell(a: Room, b: Room)
    requires a.width > 0 && a.height > 0 && b.width > 0 && b.height > 0
    ensures Overlaps(a, b) <==> exists i, j :: Covers(a, i, j) && Covers(b, i, j)
  {
    if Overlaps(a, b) {
      var i := if a.y < b.y then b.y else a.y;
      var j := if a.x < b.x then b.x else a.x;
      assert Covers(a, i, j) && Covers(b, i, j);
    }
  }

  /** The as-written guard never rejects a candidate the generator draws:
      for those, `isvalidroom` comes down to the collision loop alone. */
  lemma InMapGuardVacuous(accepted: seq<Room>, lines: int, cols: int, dw: nat, dh: nat, dy: nat, dx: nat)
    requires RoomyScreen(lines, cols)
    ensures IsValidRoom(accepted, Candidate(lines, cols, dw, dh, dy, dx), lines, cols)
            == ClearOf(accepted, Candidate(lines, cols, dw, dh, dy, dx))
  {
  }

  /** The as-written guard admits a room lying wholly above an 80×24 screen,
      which the intended guard rejects. */
  lemma InMapAsWrittenAdmitsOffscreen()
    ensures InMapAsWritten(Room(0, -100, 6, 4), 24, 80)
    ensures !InMapIntended(Room(0, -100, 6, 4), 24, 80)
    ensures forall i, j :: Covers(Room(0, -100, 6, 4), i, j) ==> i < 0
  {
  }

  /** On every candidate the generator can draw, the as-written and the
      intended test agree, so the generator's behaviour is the same under
      either. */
  lemma GuardAgreesOnCandidates(accepted: seq<Room>, c: Room, lines: int, cols: int)
    requires InGenRanges(c, lines, cols)
    ensures IsValidRoom(accepted, c, lines, cols) == IsValidRoomIntended(accepted, c, lines, cols)
  {
  }
}
