/**
 The stacking engine of Corgi Stacker as pure values and functions.

 A row is a horizontal run of `blocks` square blocks, each 40 units wide,
 whose left edge is at `x` and whose top is at `y`. The tower (`stack`) is
 a sequence of resting rows, base first; one more row (`movingRow`) slides
 left and right above it until the player drops it.

 Horizontal positions and the speed are exact reals; the browser computes
 them in IEEE doubles.
 */
module StackEngine {

  const GameWidth: real := 400.0
  const GameHeight: int := 400
  const BlockHeight: int := 20
  /** The game draws each block 40 units wide. */
  const BlockWidth: real := 40.0
  const InitialBlocks: int := 7
  const MoveSpeedBase: real := 2.0
  /** Extra speed per resting row. */
  const SpeedPerRow: real := 0.3

  datatype Option<T> = None | Some(value: T)

  datatype Row = Row(x: real, y: int, blocks: int)

  /** The five pieces of state the component keeps. */
  datatype GameState = GameState(
    stack: seq<Row>,
    movingRow: Option<Row>,
    direction: int,
    gameOver: bool,
    score: nat)

  function Width(blocks: int): real {
    blocks as real * BlockWidth
  }

  /** The right edge of a row. */
  function Right(r: Row): real {
    r.x + Width(r.blocks)
  }

  function Max(a: real, b: real): real {
    if a >= b then a else b
  }

  function Min(a: real, b: real): real {
    if a <= b then a else b
  }

  /** `inner` lies horizontally within `outer`. */
  predicate Within(inner: Row, outer: Row) {
    outer.x <= inner.x && Right(inner) <= Right(outer)
  }

  /** The base row: seven blocks, centred on the board, on the floor. */
  function BaseRow(): (r: Row)
    ensures r == Row(60.0, 380, 7)
    ensures r.x + Width(r.blocks) / 2.0 == GameWidth / 2.0
    ensures r.y + BlockHeight == GameHeight
  {
    Row(((GameWidth - Width(InitialBlocks)) / 2.0).Floor as real, GameHeight - BlockHeight, InitialBlocks)
  }

  /** The state the component starts in, and the state `reset` restores. */
  function Initial(): (s: GameState)
    ensures s.stack == [Row(60.0, 380, 7)]
    ensures s.movingRow == None && s.direction == 1 && !s.gameOver && s.score == 0
  {
    GameState([BaseRow()], None, 1, false, 0)
  }

  function Top(s: GameState): Row
    requires s.stack != []
  {
    s.stack[|s.stack| - 1]
  }

  // ---------------------------------------------------------------------
  // Spawn

  /**
   The spawn effect: with no moving row and the game still on, a new row
   with as many blocks as the top row appears at the left edge one row
   height above the top row, moving right.
   */
  function SpawnNext(s: GameState): (r: GameState)
    requires s.stack != []
    ensures r.stack == s.stack && r.score == s.score && r.gameOver == s.gameOver
    ensures s.movingRow.Some? || s.gameOver ==> r == s
    ensures s.movingRow.None? && !s.gameOver ==>
      && r.movingRow == Some(Row(0.0, Top(s).y - BlockHeight, Top(s).blocks))
      && r.direction == 1
  {
    if s.movingRow.None? && !s.gameOver then
      var top := Top(s);
      s.(movingRow := Some(Row(0.0, top.y - BlockHeight, top.blocks)), direction := 1)
    else
      s
  }

  // ---------------------------------------------------------------------
  // Tick

  /** How far the moving row travels per tick over a tower of `rows` rows. */
  function Speed(rows: nat): (v: real)
    ensures v >= MoveSpeedBase
  {
    MoveSpeedBase + rows as real * SpeedPerRow
  }

  /** The taller the tower, the faster the moving row. */
  lemma SpeedGrowsWithTower(rows: nat, more: nat)
    requires rows < more
    ensures Speed(rows) < Speed(more)
  {
  }

  datatype Motion = Motion(x: real, direction: int)

  /**
   The edge handling of one tick: a position at or past the left edge is
   put on the left edge and the row turns right; then a row reaching or
   passing the right edge is put against it and turns left.
   */
  function Clamp(newX: real, blocks: int, direction: int): (m: Motion)
    ensures Width(blocks) <= GameWidth ==> m.x == Max(0.0, Min(newX, GameWidth - Width(blocks)))
    ensures m.x + Width(blocks) >= GameWidth ==> m.direction == -1
    ensures m.x + Width(blocks) < GameWidth && newX <= 0.0 ==> m.direction == 1
    ensures 0.0 < newX && newX + Width(blocks) < GameWidth ==> m == Motion(newX, direction)
  {
    var left := if newX <= 0.0 then Motion(0.0, 1) else Motion(newX, direction);
    if left.x + Width(blocks) >= GameWidth then Motion(GameWidth - Width(blocks), -1) else left
  }

  /**
   One timer tick: the moving row advances by `direction` times the speed
   for the current tower height, then is clamped to the board.
   */
  function TickNext(s: GameState): (r: GameState)
    ensures r.stack == s.stack && r.score == s.score && r.gameOver == s.gameOver
    ensures s.movingRow.None? || s.gameOver ==> r == s
    ensures s.movingRow.Some? && !s.gameOver ==>
      var m, newX := s.movingRow.value, s.movingRow.value.x + s.direction as real * Speed(|s.stack|);
      && r.movingRow.Some?
      && r.movingRow.value.y == m.y
      && r.movingRow.value.blocks == m.blocks
      && (Width(m.blocks) <= GameWidth ==> 0.0 <= r.movingRow.value.x <= GameWidth - Width(m.blocks))
      && (Width(m.blocks) <= GameWidth ==>
            r.movingRow.value.x == Max(0.0, Min(newX, GameWidth - Width(m.blocks))))
      && (0.0 < newX && newX + Width(m.blocks) < GameWidth ==>
            r.movingRow.value.x == newX && r.direction == s.direction)
      && (newX <= 0.0 && Width(m.blocks) < GameWidth ==> r.direction == 1)
      && (newX + Width(m.blocks) >= GameWidth ==> r.direction == -1)
  {
    if s.movingRow.None? || s.gameOver then
      s
    else
      var m := s.movingRow.value;
      var c := Clamp(m.x + s.direction as real * Speed(|s.stack|), m.blocks, s.direction);
      s.(movingRow := Some(m.(x := c.x)), direction := c.direction)
  }

  // ---------------------------------------------------------------------
  // Drop

  datatype Overlap = Overlap(start: real, blocks: int)

  /**
   The part of `top` that `moving` covers: it starts at the later of the
   two left edges and holds as many whole blocks as fit before the earlier
   of the two right edges (none or fewer, when the rows do not meet).
   */
  function OverlapOf(moving: Row, top: Row): (o: Overlap)
    ensures o.start == moving.x || o.start == top.x
    ensures moving.x <= o.start && top.x <= o.start
    ensures Width(o.blocks) <= Min(Right(moving), Right(top)) - o.start < Width(o.blocks + 1)
    ensures o.blocks <= moving.blocks && o.blocks <= top.blocks
    ensures o.blocks > 0 ==>
      && Within(Row(o.start, moving.y, o.blocks), top)
      && Within(Row(o.start, moving.y, o.blocks), moving)
  {
    var start := Max(moving.x, top.x);
    var end := Min(Right(moving), Right(top));
    Overlap(start, ((end - start) / BlockWidth).Floor)
  }

  /**
   A click: the moving row is cut down to its overlap with the top row.
   Without a whole block of overlap the game is over and nothing else
   changes (the moving row stays where it is); otherwise the cut row is
   pushed on the tower, the moving row is gone and the score goes up by one.
   */
  function DropNext(s: GameState): (r: GameState)
    requires s.stack != []
    ensures s.movingRow.None? || s.gameOver ==> r == s
    ensures s.movingRow.Some? && !s.gameOver && OverlapOf(s.movingRow.value, Top(s)).blocks <= 0 ==>
      r == s.(gameOver := true)
    ensures s.movingRow.Some? && !s.gameOver && OverlapOf(s.movingRow.value, Top(s)).blocks > 0 ==>
      var o := OverlapOf(s.movingRow.value, Top(s));
      && r.stack == s.stack + [Row(o.start, s.movingRow.value.y, o.blocks)]
      && r.movingRow == None
      && r.direction == s.direction
      && !r.gameOver
      && r.score == s.score + 1
    ensures |s.stack| <= |r.stack| <= |s.stack| + 1 && r.stack[..|s.stack|] == s.stack
    ensures r.score - s.score == |r.stack| - |s.stack|
    ensures |r.stack| > |s.stack| ==>
      && 0 < Top(r).blocks <= Top(s).blocks
      && Top(r).blocks <= s.movingRow.value.blocks
      && Within(Top(r), Top(s))
  {
    if s.movingRow.None? || s.gameOver then
      s
    else
      var m := s.movingRow.value;
      var o := OverlapOf(m, Top(s));
      if o.blocks <= 0 then
        s.(gameOver := true)
      else
        s.(stack := s.stack + [Row(o.start, m.y, o.blocks)], movingRow := None, score := s.score + 1)
  }
}
