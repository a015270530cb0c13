/**
 The game component's state as an object: its five state variables are
 fields, and spawning, ticking, dropping and resetting update them in
 place. Each method leaves the object in exactly the state the engine's
 step function gives, and keeps the invariant.
 */
module CorgiGame {
  import opened StackEngine
  import opened StackInvariants

  class Game {
    var stack: seq<Row>
    var movingRow: Option<Row>
    var direction: int
    var gameOver: bool
    var score: nat

    /** The fields as one value. */
    function State(): GameState
      reads this
    {
      GameState(stack, movingRow, direction, gameOver, score)
    }

    ghost predicate Valid()
      reads this
    {
      Inv(State())
    }

    constructor ()
      ensures Valid() && State() == Initial()
    {
      stack := [BaseRow()];
      movingRow := None;
      direction := 1;
      gameOver := false;
      score := 0;
      InitialInv();
    }

    /** The spawn effect. */
    method Spawn()
      requires Valid()
      modifies this
      ensures Valid() && State() == SpawnNext(old(State()))
    {
      SpawnKeepsInv(State());
      if movingRow.None? && !gameOver {
        var topRow := stack[|stack| - 1];
        movingRow := Some(Row(0.0, topRow.y - BlockHeight, topRow.blocks));
        direction := 1;
      }
    }

    /** One firing of the movement timer. */
    method Tick()
      requires Valid()
      modifies this
      ensures Valid() && State() == TickNext(old(State()))
    {
      if movingRow.None? || gameOver {
        return;
      }
      TickKeepsInv(State());
      var prev := movingRow.value;
      var newX := prev.x + direction as real * Speed(|stack|);
      var next := Clamp(newX, prev.blocks, direction);
      direction := next.direction;
      movingRow := Some(prev.(x := next.x));
    }

    /** The click handler. */
    method Drop()
      requires Valid()
      modifies this
      ensures Valid() && State() == DropNext(old(State()))
    {
      if movingRow.None? || gameOver {
        return;
      }
      DropKeepsInv(State());
      var prevRow := stack[|stack| - 1];
      var overlap := OverlapOf(movingRow.value, prevRow);
      if overlap.blocks <= 0 {
        gameOver := true;
        return;
      }
      stack := stack + [Row(overlap.start, movingRow.value.y, overlap.blocks)];
      movingRow := None;
      score := score + 1;
    }

    /**
     The restart handler. The game shows its button only once the game is
     over, but the handler itself rewrites every field whatever the state.
     */
    method Reset()
      modifies this
      ensures Valid() && State() == Initial()
    {
      stack := [BaseRow()];
      movingRow := None;
      direction := 1;
      gameOver := false;
      score := 0;
      InitialInv();
    }
  }

  /** A short game played on the object: a first drop, the next spawn, then a restart. */
  method PlayTwoRounds()
  {
    var g := new Game();
    g.Spawn();
    assert g.movingRow == Some(Row(0.0, 360, 7));
    FirstDropAtLeftEdge();
    g.Drop();
    assert g.stack == [BaseRow(), Row(60.0, 360, 5)] && g.score == 1 && g.movingRow == None;
    g.Spawn();
    assert g.movingRow == Some(Row(0.0, 340, 5));
    g.Reset();
    assert g.State() == Initial();
  }
}
