/** The snake game: a 10 x 10 board of tile states, the snake's head, a tail
    cursor that follows the head along a queue of pending turns, and the
    rules for steering, advancing, eating and drawing.

    `Board` is the game's state as a value and `TickSpec` the rule for one
    tick on it; the `Game` class holds the same state in fields and updates
    it step by step the way the game loop does. The random apple placement
    reads its cells from `draws`, the stream of cells the generator yields. */
module SnakeGame {
  import opened Wrappers
  import opened Tiles

  type Pos = (int, int)

  const BOARD_SIZE: int := 10
  const CELL_COUNT: int := 100

  datatype Direction = North | South | West | East

  /** The unit step of a direction (y grows northward). */
  function Forward(d: Direction): (v: Pos)
    ensures (v.0 == 0) != (v.1 == 0)
    ensures -1 <= v.0 <= 1 && -1 <= v.1 <= 1
  {
    match d
    case North => (0, 1)
    case South => (0, -1)
    case West => (-1, 0)
    case East => (1, 0)
  }

  function Opposite(d: Direction): (r: Direction)
    ensures r != d
    ensures Forward(r) == (-Forward(d).0, -Forward(d).1)
  {
    match d
    case North => South
    case South => North
    case West => East
    case East => West
  }

  /** Different directions step to different cells. */
  lemma ForwardInjective(a: Direction, b: Direction)
    requires Forward(a) == Forward(b)
    ensures a == b
  {
  }

  function Step(p: Pos, d: Direction): (q: Pos)
  {
    (p.0 + Forward(d).0, p.1 + Forward(d).1)
  }

  predicate InBounds(p: Pos)
  {
    0 <= p.0 < BOARD_SIZE && 0 <= p.1 < BOARD_SIZE
  }

  /** The 100 cells of the board. */
  function BoardCells(): set<Pos>
  {
    set x: int, y: int | 0 <= x < BOARD_SIZE && 0 <= y < BOARD_SIZE :: (x, y)
  }

  /** The tile map has exactly one entry per board cell. */
  ghost predicate IsBoard(tiles: map<Pos, TileState>)
  {
    forall p :: p in tiles <==> InBounds(p)
  }

  /** No two neighbouring entries are the same direction. */
  predicate NoAdjacentDup(q: seq<Direction>)
  {
    forall i :: 0 < i < |q| ==> q[i - 1] != q[i]
  }

  /** The tail cursor: the tail's cell and the way it moves next. */
  datatype TailCursor = TailCursor(cell: Pos, heading: Direction)

  /** The game's state; `directions` holds the turns the tail has yet to take. */
  datatype Board = Board(
    tiles: map<Pos, TileState>,
    currentDirection: Direction,
    head: Pos,
    tail: TailCursor,
    directions: seq<Direction>)

  /** What every reachable state keeps: the full board, and a turn queue
      that never repeats a direction, counting the tail's own. */
  ghost predicate WellFormed(b: Board)
  {
    IsBoard(b.tiles) && NoAdjacentDup([b.tail.heading] + b.directions)
  }

  // ---- counting -----------------------------------------------------------

  function CellsWith(tiles: map<Pos, TileState>, state: TileState): set<Pos>
  {
    set p | p in tiles && tiles[p] == state
  }

  function Count(tiles: map<Pos, TileState>, state: TileState): nat
  {
    |CellsWith(tiles, state)|
  }

  /** Changing one cell moves it from one count to another. */
  lemma CountUpdate(tiles: map<Pos, TileState>, k: Pos, v: TileState, state: TileState)
    requires k in tiles
    ensures Count(tiles[k := v], state) ==
              Count(tiles, state) - (if tiles[k] == state then 1 else 0) + (if v == state then 1 else 0)
  {
    var rest := CellsWith(tiles, state) - {k};
    CellsWithUpdate(tiles, k, v, state);
    CellsWithUpdate(tiles, k, tiles[k], state);
    assert tiles[k := tiles[k]] == tiles;
    assert k !in rest;
  }

  /** The cells in `state` after setting `k` to `v`. */
  lemma CellsWithUpdate(tiles: map<Pos, TileState>, k: Pos, v: TileState, state: TileState)
    requires k in tiles
    ensures CellsWith(tiles[k := v], state) ==
              (CellsWith(tiles, state) - {k}) + (if v == state then {k} else {})
  {
  }

  // ---- the initial board ----------------------------------------------------

  const START_SNAKE: set<Pos> := {(2, 5), (3, 5), (4, 5)}
  const START_APPLE: Pos := (7, 5)

  /** Three snake cells along row 5 heading east, an apple at (7, 5). */
  function InitialBoard(): (b: Board)
  {
    Board(map p | p in BoardCells() ::
            if p in START_SNAKE then Snake else if p == START_APPLE then Apple else Empty,
          East, (4, 5), TailCursor((2, 5), East), [])
  }

  lemma InBoardCells(p: Pos)
    ensures p in BoardCells() <==> InBounds(p)
  {
    if InBounds(p) {
      var (x, y) := p;
      assert 0 <= x < BOARD_SIZE && 0 <= y < BOARD_SIZE;
    }
  }

  /** The game starts well formed with a snake of three and one apple. */
  lemma InitialBoardCounts()
    ensures WellFormed(InitialBoard())
    ensures Count(InitialBoard().tiles, Snake) == 3
    ensures Count(InitialBoard().tiles, Apple) == 1
  {
    var t := InitialBoard().tiles;
    forall p
      ensures p in t <==> InBounds(p)
    {
      InBoardCells(p);
    }
    InBoardCells((2, 5));
    InBoardCells((3, 5));
    InBoardCells((4, 5));
    InBoardCells((7, 5));
    assert CellsWith(t, Snake) == START_SNAKE;
    assert CellsWith(t, Apple) == {START_APPLE};
  }

  // ---- steering ---------------------------------------------------------------

  /** The direction the snake takes when `requested` arrives while it heads
      `current`: anything but a reversal is adopted. */
  function Adopt(current: Direction, requested: Direction): (r: Direction)
    ensures r != Opposite(current)
    ensures requested != Opposite(current) ==> r == requested
    ensures requested == Opposite(current) ==> r == current
  {
    match requested
    case North => if current != South then North else current
    case South => if current != North then South else current
    case West => if current != East then West else current
    case East => if current != West then East else current
  }

  /** The board after steering with `requested`: the adopted direction is
      queued for the tail unless the tail already moves that way or it
      repeats the last queued turn. */
  function InputSpec(b: Board, requested: Direction): Board
  {
    var adopted := Adopt(b.currentDirection, requested);
    var queued := adopted != b.tail.heading &&
                  (b.directions == [] || b.directions[|b.directions| - 1] != adopted);
    b.(currentDirection := adopted, directions := if queued then b.directions + [adopted] else b.directions)
  }

  /** Steering keeps the board and the invariant, and only ever appends. */
  lemma InputKeepsWellFormed(b: Board, requested: Direction)
    requires WellFormed(b)
    ensures var r := InputSpec(b, requested);
            && WellFormed(r)
            && r.tiles == b.tiles && r.head == b.head && r.tail == b.tail
            && r.currentDirection != Opposite(b.currentDirection)
            && (r.directions == b.directions || r.directions == b.directions + [r.currentDirection])
  {
    var r := InputSpec(b, requested);
    if r.directions != b.directions {
      var queued := [b.tail.heading] + b.directions;
      assert [r.tail.heading] + r.directions == queued + [r.currentDirection];
      assert queued[|queued| - 1] != r.currentDirection;
    }
  }

  // ---- one tick -----------------------------------------------------------------

  /** Why a tick ends the game: the first two are the game's own, the last
      two the ways the tail cursor can fail once it has lost track of the body. */
  datatype Crash = HitBorder | HitSnake | EmptyTurnQueue | TailOffBoard

  predicate HasEmptyDraw(tiles: map<Pos, TileState>, draws: seq<Pos>)
  {
    exists i :: 0 <= i < |draws| && draws[i] in tiles && tiles[draws[i]] == Empty
  }

  /** The first drawn cell that is empty: where the new apple goes. */
  function FirstEmpty(tiles: map<Pos, TileState>, draws: seq<Pos>): (k: nat)
    requires HasEmptyDraw(tiles, draws)
    ensures k < |draws| && draws[k] in tiles && tiles[draws[k]] == Empty
    ensures forall j :: 0 <= j < k ==> !(draws[j] in tiles && tiles[draws[j]] == Empty)
    decreases |draws|
  {
    if draws[0] in tiles && tiles[draws[0]] == Empty then 0
    else
      assert HasEmptyDraw(tiles, draws[1..]) by {
        var i :| 0 <= i < |draws| && draws[i] in tiles && tiles[draws[i]] == Empty;
        assert draws[1..][i - 1] == draws[i];
      }
      1 + FirstEmpty(tiles, draws[1..])
  }

  /** The cell the head moves into. */
  function NextHead(b: Board): Pos
  {
    Step(b.head, b.currentDirection)
  }

  /** If this tick eats, the generator eventually yields an empty cell
      (the game's retry loop never ends on a full board). */
  predicate DrawsFindRoom(b: Board, draws: seq<Pos>)
  {
    var next := NextHead(b);
    next in b.tiles && b.tiles[next] == Apple ==> HasEmptyDraw(b.tiles[next := Snake], draws)
  }

  /** One tick: move the head, then either place a new apple (after eating)
      or move the tail, turning it first when the cell ahead of it is not
      snake. */
  function TickSpec(b: Board, draws: seq<Pos>): (r: Result<Board, Crash>)
    requires DrawsFindRoom(b, draws)
  {
    var next := NextHead(b);
    if next !in b.tiles then Failure(HitBorder)
    else if b.tiles[next] == Snake then Failure(HitSnake)
    else
      var t1 := b.tiles[next := Snake];
      if b.tiles[next] == Apple then
        var k := FirstEmpty(t1, draws);
        Success(Board(t1[draws[k] := Apple], b.currentDirection, next, b.tail, b.directions))
      else
        var tailPos := b.tail.cell;
        var tailDir := b.tail.heading;
        var ahead := Step(tailPos, tailDir);
        var turns := ahead !in t1 || t1[ahead] != Snake;
        if turns && b.directions == [] then Failure(EmptyTurnQueue)
        else if tailPos !in t1 then Failure(TailOffBoard)
        else
          var newDir := if turns then b.directions[0] else tailDir;
          var queue := if turns then b.directions[1..] else b.directions;
          Success(Board(t1[tailPos := Empty], b.currentDirection, next, TailCursor(Step(tailPos, newDir), newDir), queue))
  }

  /** A tick fails at the border exactly when the next cell is off the board,
      and on the snake exactly when it is a snake cell. */
  lemma TickCollisions(b: Board, draws: seq<Pos>)
    requires WellFormed(b) && DrawsFindRoom(b, draws)
    ensures TickSpec(b, draws) == Failure(HitBorder) <==> !InBounds(NextHead(b))
    ensures TickSpec(b, draws) == Failure(HitSnake) <==> InBounds(NextHead(b)) && b.tiles[NextHead(b)] == Snake
  {
  }

  /** A tick that does not crash moves the head exactly one cell onto the
      board, keeps the board's cells and keeps the invariant. */
  lemma TickMovesHead(b: Board, draws: seq<Pos>)
    requires WellFormed(b) && DrawsFindRoom(b, draws) && TickSpec(b, draws).Success?
    ensures var r := TickSpec(b, draws).value;
            && r.head == Step(b.head, b.currentDirection) && InBounds(r.head)
            && r.tiles.Keys == b.tiles.Keys
            && r.currentDirection == b.currentDirection
            && WellFormed(r)
  {
    var r := TickSpec(b, draws).value;
    var next := NextHead(b);
    if b.tiles[next] != Apple && r.directions != b.directions {
      var q := [b.tail.heading] + b.directions;
      assert [r.tail.heading] + r.directions == q[1..];
    }
  }

  /** The turn queue only loses entries from its front: what a tick leaves
      is a suffix of what it found. */
  lemma TickConsumesQueueFront(b: Board, draws: seq<Pos>)
    requires DrawsFindRoom(b, draws) && TickSpec(b, draws).Success?
    ensures var r := TickSpec(b, draws).value;
            r.directions == b.directions || (b.directions != [] && r.directions == b.directions[1..])
  {
  }

  /** Eating: the tail stays put, the snake grows by one and one new apple
      appears on a cell that was empty once the head had moved. */
  lemma TickEating(b: Board, draws: seq<Pos>)
    requires WellFormed(b) && DrawsFindRoom(b, draws)
    requires InBounds(NextHead(b)) && b.tiles[NextHead(b)] == Apple
    ensures TickSpec(b, draws).Success?
    ensures var r := TickSpec(b, draws).value;
            && r.tail == b.tail && r.directions == b.directions
            && Count(r.tiles, Snake) == Count(b.tiles, Snake) + 1
            && Count(r.tiles, Apple) == Count(b.tiles, Apple)
            && r.tiles[NextHead(b)] == Snake
            && exists a :: a in b.tiles && a != NextHead(b) && b.tiles[a] == Empty && r.tiles[a] == Apple
  {
    var next := NextHead(b);
    var t1 := b.tiles[next := Snake];
    var k := FirstEmpty(t1, draws);
    CountUpdate(b.tiles, next, Snake, Snake);
    CountUpdate(b.tiles, next, Snake, Apple);
    CountUpdate(t1, draws[k], Apple, Snake);
    CountUpdate(t1, draws[k], Apple, Apple);
    assert draws[k] != next;
  }

  /** Moving without eating, from a tail cell that is snake: the head's cell
      becomes snake, the tail's cell empty, and both counts stay the same. */
  lemma TickMoving(b: Board, draws: seq<Pos>)
    requires WellFormed(b) && DrawsFindRoom(b, draws)
    requires InBounds(NextHead(b)) && b.tiles[NextHead(b)] == Empty
    requires InBounds(b.tail.cell) && b.tiles[b.tail.cell] == Snake
    requires TickSpec(b, draws).Success?
    ensures var r := TickSpec(b, draws).value;
            && r.tiles[NextHead(b)] == Snake && r.tiles[b.tail.cell] == Empty
            && r.tail.cell == Step(b.tail.cell, r.tail.heading)
            && Count(r.tiles, Snake) == Count(b.tiles, Snake)
            && Count(r.tiles, Apple) == Count(b.tiles, Apple)
  {
    var next := NextHead(b);
    var t1 := b.tiles[next := Snake];
    assert next != b.tail.cell;
    CountUpdate(b.tiles, next, Snake, Snake);
    CountUpdate(b.tiles, next, Snake, Apple);
    CountUpdate(t1, b.tail.cell, Empty, Snake);
    CountUpdate(t1, b.tail.cell, Empty, Apple);
  }

  /** Without eating, the tail turns exactly when the cell ahead of it (after
      the head has moved) is off the board or not snake, and then takes the
      first queued turn. */
  lemma TickTailTurn(b: Board, draws: seq<Pos>)
    requires WellFormed(b) && DrawsFindRoom(b, draws)
    requires InBounds(NextHead(b)) && b.tiles[NextHead(b)] == Empty
    requires TickSpec(b, draws).Success?
    ensures var t1 := b.tiles[NextHead(b) := Snake];
            var ahead := Step(b.tail.cell, b.tail.heading);
            var r := TickSpec(b, draws).value;
            if ahead !in t1 || t1[ahead] != Snake
            then b.directions != [] && r.tail.heading == b.directions[0] && r.directions == b.directions[1..]
            else r.tail.heading == b.tail.heading && r.directions == b.directions
  {
  }

  /** The tail cursor does not always sit on the snake's last cell. From the
      start, steer north, tick, steer east (not queued: the tail already
      heads east), tick, steer south, tick: the cursor then sits on the head
      while (4, 6) still holds snake, and the snake's real last cell is never
      visited again. */
  lemma TailCursorCanLeaveBody()
    ensures var b0 := InputSpec(InitialBoard(), North);
            DrawsFindRoom(b0, []) && TickSpec(b0, []).Success? &&
            var b1 := InputSpec(TickSpec(b0, []).value, East);
            DrawsFindRoom(b1, []) && TickSpec(b1, []).Success? &&
            var b2 := InputSpec(TickSpec(b1, []).value, South);
            DrawsFindRoom(b2, []) && TickSpec(b2, []).Success? &&
            var b3 := TickSpec(b2, []).value;
            && b3.tail.cell == b3.head
            && (4, 6) in b3.tiles && b3.tiles[(4, 6)] == Snake
  {
    var init := InitialBoard();
    InBoardCells((2, 5));
    InBoardCells((3, 5));
    InBoardCells((4, 5));
    InBoardCells((5, 5));
    InBoardCells((4, 6));
    InBoardCells((5, 6));
    assert init.tiles[(4, 6)] == Empty && init.tiles[(5, 6)] == Empty && init.tiles[(5, 5)] == Empty;
    assert init.tiles[(2, 5)] == Snake && init.tiles[(3, 5)] == Snake && init.tiles[(4, 5)] == Snake;

    var b0 := InputSpec(init, North);
    assert b0 == init.(currentDirection := North, directions := [North]);
    var t0 := init.tiles[(4, 6) := Snake][(2, 5) := Empty];
    assert TickSpec(b0, []) == Success(Board(t0, North, (4, 6), TailCursor((3, 5), East), [North]));

    var b1 := InputSpec(TickSpec(b0, []).value, East);
    assert b1 == Board(t0, East, (4, 6), TailCursor((3, 5), East), [North]);
    var t1 := t0[(5, 6) := Snake][(3, 5) := Empty];
    assert TickSpec(b1, []) == Success(Board(t1, East, (5, 6), TailCursor((4, 5), East), [North]));

    var b2 := InputSpec(TickSpec(b1, []).value, South);
    assert b2 == Board(t1, South, (5, 6), TailCursor((4, 5), East), [North, South]);
    var t2 := t1[(5, 5) := Snake][(4, 5) := Empty];
    assert TickSpec(b2, []) == Success(Board(t2, South, (5, 5), TailCursor((5, 5), East), [North, South]));
  }

  // ---- drawing order ------------------------------------------------------------

  /** The cell drawn `i`-th: columns left to right, each bottom to top. */
  function DrawPos(i: nat): (p: Pos)
    requires i < CELL_COUNT
    ensures InBounds(p)
  {
    (i / BOARD_SIZE, i % BOARD_SIZE)
  }

  /** The drawing order is strictly x-major. */
  lemma DrawOrderIsXMajor(i: nat, j: nat)
    requires i < j < CELL_COUNT
    ensures DrawPos(i).0 < DrawPos(j).0 || (DrawPos(i).0 == DrawPos(j).0 && DrawPos(i).1 < DrawPos(j).1)
  {
  }

  /** Every cell of the board is drawn, at position 10x + y. */
  lemma DrawVisitsEveryCell(p: Pos)
    requires InBounds(p)
    ensures DrawPos(p.0 * BOARD_SIZE + p.1) == p
  {
  }

  /** The apple-placement retry loop: try the drawn cells in order until one
      is empty. */
  method FindEmptyDraw(tiles: map<Pos, TileState>, draws: seq<Pos>) returns (k: nat)
    requires HasEmptyDraw(tiles, draws)
    ensures k == FirstEmpty(tiles, draws)
  {
    k := 0;
    while !(draws[k] in tiles && tiles[draws[k]] == Empty)
      invariant 0 <= k < |draws|
      invariant forall j :: 0 <= j < k ==> !(draws[j] in tiles && tiles[draws[j]] == Empty)
      invariant exists j :: k <= j < |draws| && draws[j] in tiles && tiles[draws[j]] == Empty
      decreases |draws| - k
    {
      k := k + 1;
    }
  }

  // ---- the game object -------------------------------------------------------------

  class Game {
    var tiles: map<Pos, TileState>
    var currentDirection: Direction
    var head: Pos
    var tail: TailCursor
    var directions: seq<Direction>

    function State(): (b: Board)
      reads this
    {
      Board(tiles, currentDirection, head, tail, directions)
    }

    ghost predicate Valid()
      reads this
    {
      WellFormed(State())
    }

    /** Fill the board with empty tiles column by column, then lay out the
        snake and the apple. */
    constructor ()
      ensures State() == InitialBoard() && Valid()
    {
      var m: map<Pos, TileState> := map[];
      for x := 0 to BOARD_SIZE
        invariant forall p :: p in m <==> InBounds(p) && p.0 < x
        invariant forall p :: p in m ==> m[p] == Empty
      {
        for y := 0 to BOARD_SIZE
          invariant forall p :: p in m <==> InBounds(p) && (p.0 < x || (p.0 == x && p.1 < y))
          invariant forall p :: p in m ==> m[p] == Empty
        {
          m := m[(x, y) := Empty];
        }
      }
      m := m[(2, 5) := Snake];
      m := m[(3, 5) := Snake];
      m := m[(4, 5) := Snake];
      m := m[(7, 5) := Apple];
      var init := InitialBoard();
      forall p
        ensures p in m <==> p in init.tiles
      {
        InBoardCells(p);
      }
      assert m == init.tiles;
      tiles := m;
      currentDirection := East;
      head := (4, 5);
      tail := TailCursor((2, 5), East);
      directions := [];
      new;
      InitialBoardCounts();
    }

    /** Steer: adopt `direction` unless it reverses the current one; queue
        the adopted direction for the tail unless the tail already moves that
        way or it repeats the last queued turn. */
    method Input(direction: Direction)
      requires Valid()
      modifies this
      ensures Valid()
      ensures currentDirection == Adopt(old(currentDirection), direction)
      ensures currentDirection != Opposite(old(currentDirection))
      ensures directions == old(directions) || directions == old(directions) + [currentDirection]
      ensures directions == old(directions) + [currentDirection] <==>
                currentDirection != tail.heading &&
                (old(directions) == [] || old(directions)[|old(directions)| - 1] != currentDirection)
      ensures tiles == old(tiles) && head == old(head) && tail == old(tail)
      ensures State() == InputSpec(old(State()), direction)
    {
      var adopted := Adopt(currentDirection, direction);
      currentDirection := adopted;
      if tail.heading != adopted {
        if directions != [] {
          if directions[|directions| - 1] != adopted {
            directions := directions + [adopted];
          }
        } else {
          directions := directions + [adopted];
        }
      }
      InputKeepsWellFormed(old(State()), direction);
    }

    /** Advance one tick, as `TickSpec` says. On a crash the game is over and
        what the fields hold is of no further interest. */
    method Tick(draws: seq<Pos>) returns (r: Outcome<Crash>)
      requires Valid()
      requires forall i :: 0 <= i < |draws| ==> InBounds(draws[i])
      requires DrawsFindRoom(State(), draws)
      modifies this
      ensures r.Pass? <==> TickSpec(old(State()), draws).Success?
      ensures r.Pass? ==> State() == TickSpec(old(State()), draws).value && Valid()
      ensures r.Fail? ==> TickSpec(old(State()), draws) == Failure(r.error)
    {
      ghost var before := State();
      ghost var spec := TickSpec(before, draws);
      var forward := Forward(currentDirection);
      var headPos := head;
      var next := (headPos.0 + forward.0, headPos.1 + forward.1);
      assert next == NextHead(before);
      var ateApple := false;
      if next in tiles {
        match tiles[next] {
          case Empty =>
          case Apple => ateApple := true;
          case Snake => return Fail(HitSnake);
        }
        tiles := tiles[next := Snake];
      } else {
        return Fail(HitBorder);
      }

      var tailPos := tail.cell;
      if !ateApple {
        var ahead := Step(tailPos, tail.heading);
        if ahead !in tiles || tiles[ahead] != Snake {
          if directions == [] {
            return Fail(EmptyTurnQueue);
          }
          tail := tail.(heading := directions[0]);
          directions := directions[1..];
        }
        if tailPos !in tiles {
          return Fail(TailOffBoard);
        }
        tiles := tiles[tailPos := Empty];
      }

      var tailForward := Forward(tail.heading);
      head := next;
      if !ateApple {
        tail := tail.(cell := (tailPos.0 + tailForward.0, tailPos.1 + tailForward.1));
      }

      if ateApple {
        var k := FindEmptyDraw(tiles, draws);
        tiles := tiles[draws[k] := Apple];
      }
      assert State() == spec.value;
      TickMovesHead(before, draws);
      r := Pass;
    }

    /** Draw every tile, column by column: the result lists each cell with
        the state whose colour its tile is drawn in, in drawing order. */
    method Draw() returns (visits: seq<(Pos, TileState)>)
      requires Valid()
      ensures |visits| == CELL_COUNT
      ensures forall i :: 0 <= i < CELL_COUNT ==> visits[i] == (DrawPos(i), tiles[DrawPos(i)])
    {
      visits := [];
      for x := 0 to BOARD_SIZE
        invariant |visits| == x * BOARD_SIZE
        invariant forall i :: 0 <= i < |visits| ==> visits[i] == (DrawPos(i), tiles[DrawPos(i)])
      {
        for y := 0 to BOARD_SIZE
          invariant |visits| == x * BOARD_SIZE + y
          invariant forall i :: 0 <= i < |visits| ==> visits[i] == (DrawPos(i), tiles[DrawPos(i)])
        {
          assert DrawPos(x * BOARD_SIZE + y) == (x, y);
          visits := visits + [((x, y), tiles[(x, y)])];
        }
      }
    }
  }
}
