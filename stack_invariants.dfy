/**
 What holds of every state the game can reach, and how the engine's steps
 keep it.

 `Run` applies an arbitrary sequence of spawns, ticks, clicks and resets.
 The game itself is more constrained: the spawn effect runs as soon as its
 guard holds, and the restart button is shown only once the game is over.
 Every order the game can produce is therefore one of the sequences `Run`
 accepts, so what is proved about `Run` from the initial state holds of
 every state the game can reach.
 */
module StackInvariants {
  import opened StackEngine

  /** The moving row hovers one row above the top row, exactly as wide, on the board. */
  predicate MovingFits(m: Row, top: Row) {
    && m.y == top.y - BlockHeight
    && m.blocks == top.blocks
    && 0.0 <= m.x && Right(m) <= GameWidth
  }

  /**
   The tower is never empty and keeps its base; every row has at least one
   block and sits at the height its index gives it; each row lies within
   the row beneath it; the score counts the rows added to the base; the
   direction is a sign; a game that is over still shows its moving row.
   */
  predicate Inv(s: GameState) {
    && s.stack != []
    && s.stack[0] == BaseRow()
    && (forall i :: 0 <= i < |s.stack| ==>
          s.stack[i].blocks > 0 && s.stack[i].y == BaseRow().y - BlockHeight * i)
    && (forall i :: 0 < i < |s.stack| ==> Within(s.stack[i], s.stack[i - 1]))
    && s.score == |s.stack| - 1
    && (s.direction == 1 || s.direction == -1)
    && (s.gameOver ==> s.movingRow.Some?)
    && (s.movingRow.Some? ==> MovingFits(s.movingRow.value, Top(s)))
  }

  // ---------------------------------------------------------------------
  // Consequences of the invariant

  /** Every row lies within every row beneath it. */
  lemma {:induction false} RowsNested(s: GameState, i: int, j: int)
    requires Inv(s)
    requires 0 <= i <= j < |s.stack|
    ensures Within(s.stack[j], s.stack[i])
    decreases j - i
  {
    if i < j {
      RowsNested(s, i, j - 1);
      assert Within(s.stack[j], s.stack[j - 1]);
    }
  }

  /** Block counts never grow from the base to the top. */
  lemma BlocksNonIncreasing(s: GameState, i: int, j: int)
    requires Inv(s)
    requires 0 <= i <= j < |s.stack|
    ensures 0 < s.stack[j].blocks <= s.stack[i].blocks
  {
    RowsNested(s, i, j);
  }

  /** Every resting row lies on the board, within the base row. */
  lemma RowsOnBoard(s: GameState, i: int)
    requires Inv(s)
    requires 0 <= i < |s.stack|
    ensures 0.0 <= s.stack[i].x && Right(s.stack[i]) <= GameWidth
    ensures s.stack[i].blocks <= InitialBlocks
  {
    RowsNested(s, 0, i);
  }

  // ---------------------------------------------------------------------
  // Each step keeps the invariant

  lemma InitialInv()
    ensures Inv(Initial())
  {
  }

  lemma SpawnKeepsInv(s: GameState)
    requires Inv(s)
    ensures Inv(SpawnNext(s))
  {
    if s.movingRow.None? && !s.gameOver {
      RowsOnBoard(s, |s.stack| - 1);
    }
  }

  lemma TickKeepsInv(s: GameState)
    requires Inv(s)
    ensures Inv(TickNext(s))
  {
    if s.movingRow.Some? && !s.gameOver {
      RowsOnBoard(s, |s.stack| - 1);
      var r := TickNext(s);
      assert MovingFits(r.movingRow.value, Top(r));
    }
  }

  lemma DropKeepsInv(s: GameState)
    requires Inv(s)
    ensures Inv(DropNext(s))
  {
    var r := DropNext(s);
    if |r.stack| > |s.stack| {
      var n := |s.stack|;
      assert r.stack[n] == Top(r);
      assert r.stack[n].y == BaseRow().y - BlockHeight * n;
      forall i | 0 < i < |r.stack|
        ensures Within(r.stack[i], r.stack[i - 1])
      {
        if i < n {
          assert r.stack[i] == s.stack[i] && r.stack[i - 1] == s.stack[i - 1];
        }
      }
    }
  }

  // ---------------------------------------------------------------------
  // Any order of events

  datatype Event = SpawnEvent | TickEvent | DropEvent | ResetEvent

  /** One event: the spawn effect, a timer tick, a click, or the restart button. */
  function Apply(s: GameState, e: Event): (r: GameState)
    requires s.stack != []
    ensures r.stack != []
  {
    match e
    case SpawnEvent => SpawnNext(s)
    case TickEvent => TickNext(s)
    case DropEvent => DropNext(s)
    case ResetEvent => Initial()
  }

  function Run(s: GameState, events: seq<Event>): GameState
    requires s.stack != []
    decreases |events|
  {
    if events == [] then s else Run(Apply(s, events[0]), events[1..])
  }

  lemma {:induction false} RunKeepsInv(s: GameState, events: seq<Event>)
    requires Inv(s)
    ensures Inv(Run(s, events))
    decreases |events|
  {
    if events != [] {
      var t := Apply(s, events[0]);
      match events[0] {
        case SpawnEvent => SpawnKeepsInv(s);
        case TickEvent => TickKeepsInv(s);
        case DropEvent => DropKeepsInv(s);
        case ResetEvent => InitialInv();
      }
      RunKeepsInv(t, events[1..]);
    }
  }

  /** Every state reachable from the initial one satisfies the invariant. */
  lemma ReachableInv(events: seq<Event>)
    ensures Inv(Run(Initial(), events))
  {
    InitialInv();
    RunKeepsInv(Initial(), events);
  }

  /** Once the game is over, only the restart button changes anything. */
  lemma {:induction false} GameOverFreezes(s: GameState, events: seq<Event>)
    requires s.stack != [] && s.gameOver
    requires ResetEvent !in events
    ensures Run(s, events) == s
    decreases |events|
  {
    if events != [] {
      assert events[0] in events;
      assert Apply(s, events[0]) == s;
      assert forall e :: e in events[1..] ==> e in events;
      GameOverFreezes(s, events[1..]);
    }
  }

  /**
   Without a restart, rows already on the tower are never changed or
   removed, and the score never goes down.
   */
  lemma {:induction false} TowerOnlyGrows(s: GameState, events: seq<Event>)
    requires s.stack != []
    requires ResetEvent !in events
    ensures var r := Run(s, events); s.stack <= r.stack && s.score <= r.score
    decreases |events|
  {
    if events != [] {
      var t := Apply(s, events[0]);
      assert events[0] in events;
      assert s.stack <= t.stack && s.score <= t.score;
      assert forall e :: e in events[1..] ==> e in events;
      TowerOnlyGrows(t, events[1..]);
    }
  }

  // ---------------------------------------------------------------------
  // The overlap is the largest fitting row

  /**
   A row of `k` blocks starting at the overlap's start ends before both
   rows' right edges exactly when `k` is at most the overlap's block count.
   */
  lemma OverlapIsLargestFit(moving: Row, top: Row, k: int)
    ensures var o := OverlapOf(moving, top);
      o.start + Width(k) <= Min(Right(moving), Right(top)) <==> k <= o.blocks
  {
    var o := OverlapOf(moving, top);
    if k > o.blocks {
      assert Width(k) >= Width(o.blocks + 1);
    }
  }

  // ---------------------------------------------------------------------
  // Two concrete drops

  /** The first row spawns at the left edge; a drop there keeps five of its seven blocks. */
  lemma FirstDropAtLeftEdge()
    ensures var s := SpawnNext(Initial());
      && s.movingRow == Some(Row(0.0, 360, 7))
      && DropNext(s).stack == [BaseRow(), Row(60.0, 360, 5)]
      && DropNext(s).score == 1
  {
    var s := SpawnNext(Initial());
    assert OverlapOf(s.movingRow.value, BaseRow()).blocks == 5;
  }

  /**
   A one-block top row at x = 60 and a one-block moving row at x = 100
   meet only at an edge: the drop ends the game, and the tower and the
   moving row stay as they were.
   */
  lemma DropBesideNarrowTopLoses()
    ensures var s := GameState([BaseRow(), Row(60.0, 360, 1)], Some(Row(100.0, 340, 1)), 1, false, 1);
      && Inv(s)
      && DropNext(s) == s.(gameOver := true)
      && DropNext(s).stack == s.stack
  {
    var s := GameState([BaseRow(), Row(60.0, 360, 1)], Some(Row(100.0, 340, 1)), 1, false, 1);
    assert OverlapOf(s.movingRow.value, Top(s)).blocks == 0;
  }

}
