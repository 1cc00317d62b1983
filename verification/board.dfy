/**
 * The board state machine of backend/game/board.py.
 *
 * The 9x7 grid is kept as one row-major sequence of 63 cells (the cell of
 * row r and column c has index r * 7 + c), so "row-major order" is plain
 * index order. A board is an immutable value: `MakeMove` returns the
 * success flag together with the next board instead of mutating in place.
 */
module GameBoard {
  import opened Optional
  import opened Characters
  import opened Rules

  const Rows: int := 9
  const Cols: int := 7
  const Cells: int := 63

  datatype Position = Position(row: int, col: int)

  datatype Move = Move(fromPos: Position, toPos: Position)

  /** The record of the most recent battle, as `make_move` stores it in `last_battle`. */
  datatype BattleLog = BattleLog(
    attacker: string,
    defender: string,
    attackerSurvives: bool,
    defenderSurvives: bool,
    attackerRevealed: bool,
    defenderRevealed: bool)

  /** The 63 cells in row-major order; a cell is empty or holds one unit. */
  type Grid = g: seq<Option<Character>> | |g| == Cells witness EmptyGrid()

  function EmptyGrid(): seq<Option<Character>> {
    seq(Cells, _ => None)
  }

  datatype Board = Board(
    grid: Grid,
    currentPlayer: int,
    gameOver: bool,
    winner: Option<int>,
    lastBattle: Option<BattleLog>)

  /** The board `GameBoard()` constructs: empty grid, the human player (1) to move. */
  function NewBoard(): (b: Board)
    ensures forall i :: 0 <= i < Cells ==> b.grid[i].None?
    ensures b.currentPlayer == 1 && !b.gameOver && b.winner.None? && b.lastBattle.None?
  {
    Board(EmptyGrid(), 1, false, None, None)
  }

  predicate IsValidPosition(p: Position) {
    0 <= p.row < Rows && 0 <= p.col < Cols
  }

  /**
   * The grid index of an on-board position. The column count is written as
   * the literal 7 (`Cols`) here and in `PositionAt` so that the solver sees
   * linear arithmetic rather than a product of two unknowns.
   */
  function Index(p: Position): (i: nat)
    requires IsValidPosition(p)
    ensures i < Cells
  {
    p.row * 7 + p.col
  }

  /** The position of a grid index; the inverse of `Index`. */
  function PositionAt(i: nat): (p: Position)
    requires i < Cells
    ensures IsValidPosition(p) && Index(p) == i
  {
    Position(i / 7, i % 7)
  }

  lemma IndexInjective(p: Position, q: Position)
    requires IsValidPosition(p) && IsValidPosition(q)
    ensures Index(p) == Index(q) ==> p == q
  {
  }

  /** The on-board positions are exactly the 63 grid cells. */
  lemma ValidPositionIsCell(p: Position)
    ensures IsValidPosition(p) <==> exists i :: 0 <= i < Cells && PositionAt(i) == p
  {
    if IsValidPosition(p) {
      IndexInjective(p, PositionAt(Index(p)));
    }
  }

  /** The unit at a position, or `None` when the square is empty or off the board. */
  function GetCharacter(b: Board, p: Position): (c: Option<Character>)
    ensures !IsValidPosition(p) ==> c.None?
    ensures IsValidPosition(p) ==> c == b.grid[Index(p)]
  {
    if IsValidPosition(p) then b.grid[Index(p)] else None
  }

  function Abs(x: int): nat {
    if x < 0 then -x else x
  }

  /** Manhattan distance between two positions. */
  function Distance(p: Position, q: Position): nat {
    Abs(p.row - q.row) + Abs(p.col - q.col)
  }

  /** Row and column offsets of the four directions, in the order up, down, left, right. */
  const Directions: seq<(int, int)> := [(-1, 0), (1, 0), (0, -1), (0, 1)]

  function Neighbour(p: Position, d: nat): (q: Position)
    requires d < 4
    ensures Distance(p, q) == 1
  {
    Position(p.row + Directions[d].0, p.col + Directions[d].1)
  }

  /** The index in `Directions` of a one-step move, or 4 when the move is not one step. */
  function DirectionOf(m: Move): (d: nat)
    ensures d <= 4
    ensures d < 4 ==> m.toPos == Neighbour(m.fromPos, d)
    ensures forall e :: 0 <= e < 4 && m.toPos == Neighbour(m.fromPos, e) ==> d == e
  {
    var dr := m.toPos.row - m.fromPos.row;
    var dc := m.toPos.col - m.fromPos.col;
    if (dr, dc) == Directions[0] then 0
    else if (dr, dc) == Directions[1] then 1
    else if (dr, dc) == Directions[2] then 2
    else if (dr, dc) == Directions[3] then 3
    else 4
  }

  /** A unit of `owner` may step onto `q`: it is on the board and empty or held by another player. */
  predicate OpenFor(b: Board, owner: int, q: Position) {
    IsValidPosition(q) && (GetCharacter(b, q).None? || GetCharacter(b, q).value.playerId != owner)
  }

  /** The moves from `pos` towards the directions `d`, `d + 1`, ..., 3 that are open to `owner`. */
  function StepsFrom(b: Board, pos: Position, owner: int, d: nat): (ms: seq<Move>)
    requires d <= 4
    decreases 4 - d
    ensures |ms| <= 4 - d
    ensures forall i :: 0 <= i < |ms| ==>
      ms[i].fromPos == pos && d <= DirectionOf(ms[i]) < 4 && OpenFor(b, owner, ms[i].toPos)
    ensures forall i, j :: 0 <= i < j < |ms| ==> DirectionOf(ms[i]) < DirectionOf(ms[j])
    ensures forall e :: d <= e < 4 && OpenFor(b, owner, Neighbour(pos, e)) ==>
      Move(pos, Neighbour(pos, e)) in ms
  {
    if d == 4 then []
    else
      var q := Neighbour(pos, d);
      var rest := StepsFrom(b, pos, owner, d + 1);
      if OpenFor(b, owner, q) then [Move(pos, q)] + rest else rest
  }

  /** The unit at `pos` is alive and belongs to `player`. */
  predicate HoldsLiveUnitOf(b: Board, player: int, pos: Position) {
    GetCharacter(b, pos).Some? && GetCharacter(b, pos).value.isAlive
    && GetCharacter(b, pos).value.playerId == player
  }

  /** The unit at `pos` may move now: it is alive, movable and owned by the player to move. */
  predicate MayMove(b: Board, pos: Position) {
    HoldsLiveUnitOf(b, b.currentPlayer, pos) && CanMove(GetCharacter(b, pos).value)
  }

  /** The legal moves of the unit at `pos`. */
  function GetValidMoves(b: Board, pos: Position): (ms: seq<Move>)
    ensures !MayMove(b, pos) ==> ms == []
    ensures |ms| <= 4
    ensures forall i :: 0 <= i < |ms| ==>
      ms[i].fromPos == pos && IsValidPosition(ms[i].toPos) && Distance(pos, ms[i].toPos) == 1
      && (GetCharacter(b, ms[i].toPos).None? || GetCharacter(b, ms[i].toPos).value.playerId != b.currentPlayer)
    ensures forall i, j :: 0 <= i < j < |ms| ==> DirectionOf(ms[i]) < DirectionOf(ms[j])
    ensures MayMove(b, pos) ==> forall e :: 0 <= e < 4 && OpenFor(b, b.currentPlayer, Neighbour(pos, e)) ==>
      Move(pos, Neighbour(pos, e)) in ms
  {
    match GetCharacter(b, pos)
    case None => []
    case Some(c) =>
      if !c.isAlive then []
      else if !CanMove(c) then []
      else if c.playerId != b.currentPlayer then []
      else StepsFrom(b, pos, c.playerId, 0)
  }

  lemma MovesComeFromOrigin(b: Board, pos: Position)
    ensures forall m :: m in GetValidMoves(b, pos) ==> m.fromPos == pos
  {
  }

  /** Every legal move starts from a live, movable unit of the player to move: never a flag or a bomb. */
  lemma MovesComeFromMovableUnits(b: Board, m: Move)
    requires m in GetValidMoves(b, m.fromPos)
    ensures MayMove(b, m.fromPos)
    ensures GetCharacter(b, m.fromPos).value.kind !in {Flag, Bomb1, Bomb2}
  {
  }

  /** A one-step move has one of the four directions. */
  lemma OneStepHasDirection(m: Move)
    requires Distance(m.fromPos, m.toPos) == 1
    ensures DirectionOf(m) < 4
  {
  }

  /**
   * The legal moves of `pos` are exactly the one-step moves from it onto an
   * open square, when the unit there may move, and none otherwise.
   */
  lemma ValidMovesExact(b: Board, pos: Position, m: Move)
    ensures m in GetValidMoves(b, pos) <==>
      MayMove(b, pos) && m.fromPos == pos && Distance(pos, m.toPos) == 1 && OpenFor(b, b.currentPlayer, m.toPos)
  {
    if MayMove(b, pos) && m.fromPos == pos && Distance(pos, m.toPos) == 1 && OpenFor(b, b.currentPlayer, m.toPos) {
      OneStepHasDirection(m);
      assert m == Move(pos, Neighbour(pos, DirectionOf(m)));
    }
  }

  /** The board after `m` moves the unit `c` onto an empty square. */
  function Relocate(b: Board, m: Move, c: Character): (b': Board)
    requires IsValidPosition(m.fromPos) && IsValidPosition(m.toPos) && m.fromPos != m.toPos
    ensures b'.grid[Index(m.toPos)] == Some(c) && b'.grid[Index(m.fromPos)].None?
    ensures forall i :: 0 <= i < Cells && i != Index(m.fromPos) && i != Index(m.toPos) ==>
      b'.grid[i] == b.grid[i]
    ensures b'.lastBattle.None? && b'.gameOver == b.gameOver && b'.winner == b.winner
    ensures b'.currentPlayer == b.currentPlayer
  {
    IndexInjective(m.fromPos, m.toPos);
    var g := b.grid[Index(m.toPos) := Some(c)][Index(m.fromPos) := None];
    b.(grid := g, lastBattle := None)
  }

  function RevealIf(c: Character, disclose: bool): Character {
    if disclose then Reveal(c) else c
  }

  /**
   * The grid after a battle with result `r` between `attacker` at index `src`
   * and `defender` at index `dst`: a unit that does not survive leaves the
   * grid, a surviving attacker takes the destination, and reveal flags are
   * applied to the copy that stays on the grid.
   */
  function BattleGrid(g: Grid, src: nat, dst: nat, r: BattleResult, attacker: Character, defender: Character): (g': Grid)
    requires src < Cells && dst < Cells
    requires !(r.attackerSurvives && r.defenderSurvives)
    ensures r.attackerSurvives ==> g'[dst] == Some(RevealIf(attacker, r.attackerRevealed))
    ensures r.defenderSurvives ==> g'[dst] == Some(RevealIf(defender, r.defenderRevealed))
    ensures r.BothDie() ==> g'[dst].None?
    ensures src != dst ==> g'[src].None?
    ensures forall i :: 0 <= i < Cells && i != src && i != dst ==> g'[i] == g[i]
  {
    var g1 := if !r.attackerSurvives then g[src := None] else g;
    var g2 := if !r.defenderSurvives then g1[dst := None]
              else g1[dst := Some(RevealIf(defender, r.defenderRevealed))];
    if !r.attackerSurvives then g2
    else if src != dst then g2[dst := Some(RevealIf(attacker, r.attackerRevealed))][src := None]
    else g2[dst := Some(RevealIf(attacker, r.attackerRevealed))]
  }

  /** The board after `attacker` (at `m.fromPos`) attacks `defender` (at `m.toPos`). */
  function Battle(b: Board, m: Move, attacker: Character, defender: Character): (b': Board)
    requires IsValidPosition(m.fromPos) && IsValidPosition(m.toPos)
    ensures var r := Resolve(attacker.kind, defender.kind);
      && b'.lastBattle == Some(BattleLog(Name(attacker), Name(defender), r.attackerSurvives, r.defenderSurvives, true, true))
      && (r.AttackerWins() ==> b'.grid[Index(m.toPos)] == Some(Reveal(attacker)))
      && (r.DefenderWins() ==> b'.grid[Index(m.toPos)] == Some(Reveal(defender)))
      && (r.BothDie() ==> b'.grid[Index(m.toPos)].None?)
      && (b'.gameOver <==> b.gameOver || defender.kind == Flag)
      && b'.winner == (if defender.kind == Flag then Some(attacker.playerId) else b.winner)
    ensures m.fromPos != m.toPos ==> b'.grid[Index(m.fromPos)].None?
    ensures forall i :: 0 <= i < Cells && i != Index(m.fromPos) && i != Index(m.toPos) ==>
      b'.grid[i] == b.grid[i]
    ensures b'.currentPlayer == b.currentPlayer
  {
    var r := Resolve(attacker.kind, defender.kind);
    var log := BattleLog(Name(attacker), Name(defender), r.attackerSurvives, r.defenderSurvives,
                         r.attackerRevealed, r.defenderRevealed);
    IndexInjective(m.fromPos, m.toPos);
    var g := BattleGrid(b.grid, Index(m.fromPos), Index(m.toPos), r, attacker, defender);
    // the flag dies to every attacker, so attacking it always captures it
    var captured := defender.kind == Flag && !r.defenderSurvives;
    b.(grid := g, lastBattle := Some(log),
       gameOver := if captured then true else b.gameOver,
       winner := if captured then Some(attacker.playerId) else b.winner)
  }

  /**
   * Applies `m`. The result's first component is false, and the board is
   * unchanged, unless `m` is one of the legal moves of its origin.
   */
  function MakeMove(b: Board, m: Move): (res: (bool, Board))
    ensures res.0 <==> m in GetValidMoves(b, m.fromPos)
    ensures !res.0 ==> res.1 == b
    // a successful move always passes the turn, even when the mover dies
    ensures res.0 ==> res.1.currentPlayer == 1 - b.currentPlayer
    // only the origin and the destination change, and the origin is always emptied
    ensures res.0 ==> forall i :: 0 <= i < Cells && i != Index(m.fromPos) && i != Index(m.toPos) ==>
      res.1.grid[i] == b.grid[i]
    ensures res.0 ==> res.1.grid[Index(m.fromPos)].None?
    // a step onto an empty square relocates the unit and clears the battle record
    ensures res.0 && GetCharacter(b, m.toPos).None? ==>
      && res.1.grid[Index(m.toPos)] == b.grid[Index(m.fromPos)]
      && res.1.lastBattle.None?
      && res.1.gameOver == b.gameOver && res.1.winner == b.winner
    // a step onto an enemy is a battle decided by the resolver
    ensures res.0 && GetCharacter(b, m.toPos).Some? ==>
      var a := b.grid[Index(m.fromPos)].value;
      var d := b.grid[Index(m.toPos)].value;
      var r := Resolve(a.kind, d.kind);
      && res.1.lastBattle == Some(BattleLog(Name(a), Name(d), r.attackerSurvives, r.defenderSurvives, true, true))
      && (r.AttackerWins() ==> res.1.grid[Index(m.toPos)] == Some(Reveal(a)))
      && (r.DefenderWins() ==> res.1.grid[Index(m.toPos)] == Some(Reveal(d)))
      && (r.BothDie() ==> res.1.grid[Index(m.toPos)].None?)
      && (res.1.gameOver <==> b.gameOver || d.kind == Flag)
      && res.1.winner == (if d.kind == Flag then Some(a.playerId) else b.winner)
  {
    match GetCharacter(b, m.fromPos)
    case None => (false, b)
    case Some(c) =>
      if m !in GetValidMoves(b, m.fromPos) then (false, b)
      else
        assert m.fromPos != m.toPos by {
          assert Distance(m.fromPos, m.toPos) == 1;
        }
        var next := (match GetCharacter(b, m.toPos)
          case None => Relocate(b, m, c)
          case Some(target) => Battle(b, m, c, target));
        (true, next.(currentPlayer := 1 - b.currentPlayer))
  }

  /** Capturing the flag ends the game in the attacker's favour. */
  lemma FlagCaptureEndsGame(b: Board, m: Move)
    requires MakeMove(b, m).0
    requires GetCharacter(b, m.toPos).Some? && GetCharacter(b, m.toPos).value.kind == Flag
    ensures MakeMove(b, m).1.gameOver
    ensures MakeMove(b, m).1.winner == Some(GetCharacter(b, m.fromPos).value.playerId)
    ensures MakeMove(b, m).1.lastBattle.value.defenderSurvives == false
  {
    assert Resolve(GetCharacter(b, m.fromPos).value.kind, Flag).AttackerWins();
  }

  /**
   * `make_move` never consults `game_over`: a finished game accepts exactly
   * the moves an unfinished one would, applies them alike, and stays finished.
   */
  lemma MakeMoveIgnoresGameOver(b: Board, m: Move)
    ensures MakeMove(b.(gameOver := true), m).0 == MakeMove(b, m).0
    ensures MakeMove(b, m).0 ==> MakeMove(b.(gameOver := true), m).1 == MakeMove(b, m).1.(gameOver := true)
  {
    var over := b.(gameOver := true);
    ValidMovesSameGrid(over, b, m.fromPos);
    if MakeMove(b, m).0 {
      var c := GetCharacter(b, m.fromPos).value;
      match GetCharacter(b, m.toPos)
      case None => RelocateIgnoresGameOver(b, m, c);
      case Some(target) => BattleIgnoresGameOver(b, m, c, target);
    }
  }

  /** The open steps from a square depend only on the grid. */
  lemma {:induction false} StepsFromSameGrid(b1: Board, b2: Board, pos: Position, owner: int, d: nat)
    requires b1.grid == b2.grid && d <= 4
    decreases 4 - d
    ensures StepsFrom(b1, pos, owner, d) == StepsFrom(b2, pos, owner, d)
  {
    if d < 4 {
      StepsFromSameGrid(b1, b2, pos, owner, d + 1);
      assert OpenFor(b1, owner, Neighbour(pos, d)) == OpenFor(b2, owner, Neighbour(pos, d));
    }
  }

  /** The legal moves depend only on the grid and the player to move. */
  lemma ValidMovesSameGrid(b1: Board, b2: Board, pos: Position)
    requires b1.grid == b2.grid && b1.currentPlayer == b2.currentPlayer
    ensures GetValidMoves(b1, pos) == GetValidMoves(b2, pos)
  {
    if GetCharacter(b1, pos).Some? {
      StepsFromSameGrid(b1, b2, pos, GetCharacter(b1, pos).value.playerId, 0);
    }
  }

  /** A step onto an empty square never reads `gameOver`. */
  lemma RelocateIgnoresGameOver(b: Board, m: Move, c: Character)
    requires IsValidPosition(m.fromPos) && IsValidPosition(m.toPos) && m.fromPos != m.toPos
    ensures Relocate(b.(gameOver := true), m, c) == Relocate(b, m, c).(gameOver := true)
  {
  }

  /** A battle never reads `gameOver`, and a finished game stays finished. */
  lemma BattleIgnoresGameOver(b: Board, m: Move, attacker: Character, defender: Character)
    requires IsValidPosition(m.fromPos) && IsValidPosition(m.toPos)
    ensures Battle(b.(gameOver := true), m, attacker, defender) == Battle(b, m, attacker, defender).(gameOver := true)
  {
  }

  // ----- invariants kept by every move -----

  /** Every unit on the grid is alive and the player to move is 0 or 1. */
  predicate Consistent(b: Board) {
    && (forall i :: 0 <= i < Cells && b.grid[i].Some? ==> b.grid[i].value.isAlive)
    && (b.currentPlayer == 0 || b.currentPlayer == 1)
  }

  lemma MakeMoveKeepsConsistent(b: Board, m: Move)
    requires Consistent(b)
    ensures Consistent(MakeMove(b, m).1)
  {
    var (ok, b') := MakeMove(b, m);
    if ok {
      forall i | 0 <= i < Cells && b'.grid[i].Some?
        ensures b'.grid[i].value.isAlive
      {
        if i == Index(m.toPos) && GetCharacter(b, m.toPos).Some? {
          ResolveHasOneOutcome(b.grid[Index(m.fromPos)].value.kind, b.grid[Index(m.toPos)].value.kind);
        }
      }
    }
  }

  /** The number of occupied cells of a grid. */
  function CountUnits(g: seq<Option<Character>>): (n: nat)
    ensures n <= |g|
  {
    if g == [] then 0 else (if g[0].Some? then 1 else 0) + CountUnits(g[1..])
  }

  /** Emptying or filling one cell changes the count by one; replacing a unit keeps it. */
  lemma {:induction false} CountUpdate(g: seq<Option<Character>>, i: nat, x: Option<Character>)
    requires i < |g|
    ensures CountUnits(g[i := x]) + (if g[i].Some? then 1 else 0)
         == CountUnits(g) + (if x.Some? then 1 else 0)
  {
    if i == 0 {
      assert g[i := x][1..] == g[1..];
    } else {
      assert g[i := x][1..] == g[1..][i - 1 := x];
      CountUpdate(g[1..], i - 1, x);
    }
  }

  /** Overwriting two distinct cells, the second with nothing, changes the count accordingly. */
  lemma TwoCellCount(g: seq<Option<Character>>, g': seq<Option<Character>>, src: nat, dst: nat)
    requires |g| == |g'| && src < |g| && dst < |g| && src != dst
    requires g'[src].None?
    requires forall i :: 0 <= i < |g| && i != src && i != dst ==> g'[i] == g[i]
    ensures CountUnits(g') + (if g[src].Some? then 1 else 0) + (if g[dst].Some? then 1 else 0)
         == CountUnits(g) + (if g'[dst].Some? then 1 else 0)
  {
    var mid := g[dst := g'[dst]];
    assert g' == mid[src := None];
    CountUpdate(g, dst, g'[dst]);
    CountUpdate(mid, src, None);
  }

  /**
   * No move adds a unit: a step onto an empty square keeps the count, and a
   * battle removes one unit, or two when both participants die.
   */
  lemma MakeMoveCount(b: Board, m: Move)
    requires MakeMove(b, m).0
    ensures var b' := MakeMove(b, m).1;
      && CountUnits(b'.grid) <= CountUnits(b.grid)
      && (GetCharacter(b, m.toPos).None? ==> CountUnits(b'.grid) == CountUnits(b.grid))
      && (GetCharacter(b, m.toPos).Some? ==>
            var r := Resolve(GetCharacter(b, m.fromPos).value.kind, GetCharacter(b, m.toPos).value.kind);
            CountUnits(b'.grid) == CountUnits(b.grid) - (if r.BothDie() then 2 else 1))
  {
    var b' := MakeMove(b, m).1;
    assert IsValidPosition(m.fromPos) && IsValidPosition(m.toPos) && Distance(m.fromPos, m.toPos) == 1;
    IndexInjective(m.fromPos, m.toPos);
    TwoCellCount(b.grid, b'.grid, Index(m.fromPos), Index(m.toPos));
    if GetCharacter(b, m.toPos).Some? {
      ResolveHasOneOutcome(GetCharacter(b, m.fromPos).value.kind, GetCharacter(b, m.toPos).value.kind);
    }
  }

  // ----- enumeration of all moves of one player -----

  /** Each move of `ms` paired with the origin `pos`, in order. */
  function WithOrigin(pos: Position, ms: seq<Move>): (ps: seq<(Position, Move)>)
    ensures |ps| == |ms|
    ensures forall k :: 0 <= k < |ps| ==> ps[k] == (pos, ms[k])
    ensures forall m :: m in ms ==> (pos, m) in ps
  {
    if ms == [] then [] else [(pos, ms[0])] + WithOrigin(pos, ms[1..])
  }

  /** A table with one entry per cell, indexed by row then column. */
  predicate IsTable<T>(t: seq<seq<T>>) {
    |t| == Rows && forall r :: 0 <= r < Rows ==> |t[r]| == Cols
  }

  /**
   * The moves `get_all_valid_moves(player)` takes from each cell: the legal
   * moves of a live unit of `player`, nothing elsewhere.
   */
  function MoveTable(b: Board, player: int): (t: seq<seq<seq<Move>>>)
    ensures IsTable(t)
  {
    seq(Rows, r requires 0 <= r < Rows => seq(Cols, c requires 0 <= c < Cols =>
      if HoldsLiveUnitOf(b, player, Position(r, c)) then GetValidMoves(b, Position(r, c)) else []))
  }

  /** The moves of the first `col` cells of row `row` of `t`, each paired with its cell: the inner loop. */
  function RowPairs(t: seq<seq<seq<Move>>>, row: nat, col: nat): (ps: seq<(Position, Move)>)
    requires IsTable(t) && row < Rows && col <= Cols
    ensures forall k :: 0 <= k < |ps| ==>
      ps[k].0.row == row && 0 <= ps[k].0.col < col && ps[k].1 in t[row][ps[k].0.col]
    ensures forall c, m :: 0 <= c < col && m in t[row][c] ==> (Position(row, c), m) in ps
  {
    if col == 0 then []
    else RowPairs(t, row, col - 1) + WithOrigin(Position(row, col - 1), t[row][col - 1])
  }

  /** The moves of the first `row` rows of `t`, each paired with its cell: the outer loop. */
  function TablePairs(t: seq<seq<seq<Move>>>, row: nat): (ps: seq<(Position, Move)>)
    requires IsTable(t) && row <= Rows
    ensures forall k :: 0 <= k < |ps| ==>
      IsValidPosition(ps[k].0) && ps[k].0.row < row && ps[k].1 in t[ps[k].0.row][ps[k].0.col]
    ensures forall r, c, m :: 0 <= r < row && 0 <= c < Cols && m in t[r][c] ==> (Position(r, c), m) in ps
  {
    if row == 0 then []
    else
      TablePairs(t, row - 1) + RowPairs(t, row - 1, Cols)
  }

  /** The origins of `ps` come in column order. */
  predicate ColumnOrdered(ps: seq<(Position, Move)>) {
    forall k, l :: 0 <= k < l < |ps| ==> ps[k].0.col <= ps[l].0.col
  }

  /** The origins of `ps` are cells of the board, in row-major order. */
  predicate RowMajor(ps: seq<(Position, Move)>) {
    forall k, l :: 0 <= k < l < |ps| ==>
      IsValidPosition(ps[k].0) && IsValidPosition(ps[l].0) && Index(ps[k].0) <= Index(ps[l].0)
  }

  /** Origins of `RowPairs` come in column order. */
  lemma {:induction false} RowPairsOrdered(t: seq<seq<seq<Move>>>, row: nat, col: nat)
    requires IsTable(t) && row < Rows && col <= Cols
    ensures ColumnOrdered(RowPairs(t, row, col))
  {
    if col > 0 {
      RowPairsOrdered(t, row, col - 1);
      var prev, here := RowPairs(t, row, col - 1), WithOrigin(Position(row, col - 1), t[row][col - 1]);
      var ps := RowPairs(t, row, col);
      assert ps == prev + here;
      forall k, l | 0 <= k < l < |ps|
        ensures ps[k].0.col <= ps[l].0.col
      {
        if l < |prev| {
          assert ps[k] == prev[k] && ps[l] == prev[l];
        } else if k < |prev| {
          assert ps[k] == prev[k] && ps[l] == here[l - |prev|];
          assert prev[k].0.col < col - 1;
          assert here[l - |prev|].0.col == col - 1;
        } else {
          assert ps[k] == here[k - |prev|] && ps[l] == here[l - |prev|];
          assert here[k - |prev|].0.col == col - 1;
          assert here[l - |prev|].0.col == col - 1;
        }
      }
    }
  }

  /** Origins of `TablePairs` come in row-major order. */
  lemma {:induction false} TablePairsOrdered(t: seq<seq<seq<Move>>>, row: nat)
    requires IsTable(t) && row <= Rows
    ensures RowMajor(TablePairs(t, row))
  {
    if row > 0 {
      TablePairsOrdered(t, row - 1);
      RowPairsOrdered(t, row - 1, Cols);
      var prev, here := TablePairs(t, row - 1), RowPairs(t, row - 1, Cols);
      var ps := TablePairs(t, row);
      assert ps == prev + here;
      forall k, l | 0 <= k < l < |ps|
        ensures IsValidPosition(ps[k].0) && IsValidPosition(ps[l].0) && Index(ps[k].0) <= Index(ps[l].0)
      {
        if l < |prev| {
          assert ps[k] == prev[k] && ps[l] == prev[l];
        } else if k < |prev| {
          assert ps[k] == prev[k] && ps[l] == here[l - |prev|];
          assert prev[k].0.row < row - 1 && here[l - |prev|].0.row == row - 1;
        } else {
          assert ps[k] == here[k - |prev|] && ps[l] == here[l - |prev|];
        }
      }
    }
  }

  /** Each cell of `t` lists its moves in strictly increasing direction order. */
  predicate CellsOrdered(t: seq<seq<seq<Move>>>)
    requires IsTable(t)
  {
    forall r, c, i, j :: 0 <= r < Rows && 0 <= c < Cols && 0 <= i < j < |t[r][c]| ==>
      DirectionOf(t[r][c][i]) < DirectionOf(t[r][c][j])
  }

  /**
   * Pairs sharing an origin come in strictly increasing direction order, so
   * no pair is listed twice.
   */
  predicate OriginOrdered(ps: seq<(Position, Move)>) {
    forall k, l :: 0 <= k < l < |ps| && ps[k].0 == ps[l].0 ==> DirectionOf(ps[k].1) < DirectionOf(ps[l].1)
  }

  /** No origin of `ps` is an origin of `qs`. */
  predicate DisjointOrigins(ps: seq<(Position, Move)>, qs: seq<(Position, Move)>) {
    forall k, l :: 0 <= k < |ps| && 0 <= l < |qs| ==> ps[k].0 != qs[l].0
  }

  /** Joining two origin-ordered lists with no origin in common keeps the order. */
  lemma OriginOrderedJoin(ps: seq<(Position, Move)>, prev: seq<(Position, Move)>, here: seq<(Position, Move)>)
    requires ps == prev + here
    requires OriginOrdered(prev) && OriginOrdered(here) && DisjointOrigins(prev, here)
    ensures OriginOrdered(ps)
  {
    forall k, l | 0 <= k < l < |ps| && ps[k].0 == ps[l].0
      ensures DirectionOf(ps[k].1) < DirectionOf(ps[l].1)
    {
      if l < |prev| {
        assert ps[k] == prev[k] && ps[l] == prev[l];
      } else if k < |prev| {
        assert false;
      } else {
        assert ps[k] == here[k - |prev|] && ps[l] == here[l - |prev|];
      }
    }
  }

  /** The inner loop keeps each cell's direction order. */
  lemma {:induction false} RowPairsOriginOrdered(t: seq<seq<seq<Move>>>, row: nat, col: nat)
    requires IsTable(t) && row < Rows && col <= Cols && CellsOrdered(t)
    ensures OriginOrdered(RowPairs(t, row, col))
  {
    if col > 0 {
      RowPairsOriginOrdered(t, row, col - 1);
      var prev, here := RowPairs(t, row, col - 1), WithOrigin(Position(row, col - 1), t[row][col - 1]);
      assert OriginOrdered(here) by {
        forall k, l | 0 <= k < l < |here|
          ensures DirectionOf(here[k].1) < DirectionOf(here[l].1)
        {
          assert here[k].1 == t[row][col - 1][k] && here[l].1 == t[row][col - 1][l];
        }
      }
      assert RowPairs(t, row, col) == prev + here;
      OriginOrderedJoin(RowPairs(t, row, col), prev, here);
    }
  }

  /** Appending row `row - 1` to the earlier rows keeps the direction order of each origin's pairs. */
  lemma TablePairsStepOrdered(t: seq<seq<seq<Move>>>, row: nat)
    requires IsTable(t) && 0 < row <= Rows
    requires OriginOrdered(TablePairs(t, row - 1)) && OriginOrdered(RowPairs(t, row - 1, Cols))
    ensures OriginOrdered(TablePairs(t, row))
  {
    var prev, here := TablePairs(t, row - 1), RowPairs(t, row - 1, Cols);
    forall k, l | 0 <= k < |prev| && 0 <= l < |here|
      ensures prev[k].0 != here[l].0
    {
      assert prev[k].0.row < row - 1 && here[l].0.row == row - 1;
    }
    OriginOrderedJoin(TablePairs(t, row), prev, here);
  }

  /** The pairs of each of the first `row` rows of `t` are origin-ordered. */
  predicate RowsOriginOrdered(t: seq<seq<seq<Move>>>, row: nat)
    requires IsTable(t) && row <= Rows
  {
    forall r :: 0 <= r < row ==> OriginOrdered(RowPairs(t, r, Cols))
  }

  /** The outer loop keeps the direction order of each row's pairs. */
  lemma {:induction false} TablePairsOriginOrdered(t: seq<seq<seq<Move>>>, row: nat)
    requires IsTable(t) && row <= Rows && RowsOriginOrdered(t, row)
    ensures OriginOrdered(TablePairs(t, row))
  {
    if row > 0 {
      TablePairsOriginOrdered(t, row - 1);
      TablePairsStepOrdered(t, row);
    }
  }

  /** The pairs of a whole table are exactly its cells' moves, each with its cell. */
  lemma TablePairsExact(t: seq<seq<seq<Move>>>, pos: Position, m: Move)
    requires IsTable(t)
    ensures (pos, m) in TablePairs(t, Rows) <==> IsValidPosition(pos) && m in t[pos.row][pos.col]
  {
    var ps := TablePairs(t, Rows);
    if (pos, m) in ps {
      var k :| 0 <= k < |ps| && ps[k] == (pos, m);
    }
  }

  /** A cell of the move table holds the legal moves of a live unit of `player`, and nothing otherwise. */
  lemma MoveTableCell(b: Board, player: int, pos: Position)
    requires IsValidPosition(pos)
    ensures MoveTable(b, player)[pos.row][pos.col] ==
      if HoldsLiveUnitOf(b, player, pos) then GetValidMoves(b, pos) else []
  {
  }

  /** Every cell of the move table lists its moves in up, down, left, right order. */
  lemma MoveTableOrdered(b: Board, player: int)
    ensures CellsOrdered(MoveTable(b, player))
  {
    var t := MoveTable(b, player);
    forall r, c | 0 <= r < Rows && 0 <= c < Cols
      ensures forall i, j :: 0 <= i < j < |t[r][c]| ==> DirectionOf(t[r][c][i]) < DirectionOf(t[r][c][j])
    {
      MoveTableCell(b, player, Position(r, c));
    }
  }

  /** The two loops list exactly the legal moves of `player`'s live units, each with its own origin. */
  lemma MoveTablePairsExact(b: Board, player: int)
    ensures forall pos, m :: (pos, m) in TablePairs(MoveTable(b, player), Rows) <==>
      IsValidPosition(pos) && HoldsLiveUnitOf(b, player, pos) && m in GetValidMoves(b, pos)
  {
    forall pos, m
      ensures (pos, m) in TablePairs(MoveTable(b, player), Rows) <==>
        IsValidPosition(pos) && HoldsLiveUnitOf(b, player, pos) && m in GetValidMoves(b, pos)
    {
      TablePairsExact(MoveTable(b, player), pos, m);
      if IsValidPosition(pos) {
        MoveTableCell(b, player, pos);
      }
    }
  }

  /**
   * All moves of `player`, each paired with its origin: exactly the legal
   * moves of the player's live units, origins in row-major order, and each
   * origin's moves in direction order.
   */
  function GetAllValidMoves(b: Board, player: int): (all: seq<(Position, Move)>)
    ensures RowMajor(all)
    ensures forall k, l :: 0 <= k < l < |all| && all[k].0 == all[l].0 ==>
      DirectionOf(all[k].1) < DirectionOf(all[l].1)
    ensures forall pos, m :: (pos, m) in all <==>
      IsValidPosition(pos) && HoldsLiveUnitOf(b, player, pos) && m in GetValidMoves(b, pos)
  {
    TablePairsOrdered(MoveTable(b, player), Rows);
    MoveTableOrdered(b, player);
    forall r | 0 <= r < Rows
      ensures OriginOrdered(RowPairs(MoveTable(b, player), r, Cols))
    {
      RowPairsOriginOrdered(MoveTable(b, player), r, Cols);
    }
    TablePairsOriginOrdered(MoveTable(b, player), Rows);
    MoveTablePairsExact(b, player);
    TablePairs(MoveTable(b, player), Rows)
  }

  /** Every listed move starts from its own origin. */
  lemma AllValidMovesFromOrigin(b: Board, player: int, pos: Position, m: Move)
    requires (pos, m) in GetAllValidMoves(b, player)
    ensures m.fromPos == pos
  {
    MovesComeFromOrigin(b, pos);
  }

  /** Only the player to move has moves. */
  lemma OnlyCurrentPlayerMoves(b: Board, player: int)
    requires GetAllValidMoves(b, player) != []
    ensures player == b.currentPlayer
  {
    var p := GetAllValidMoves(b, player)[0];
    assert (p.0, p.1) in GetAllValidMoves(b, player);
  }

  // ----- the per-player projection -----

  /** One cell of `get_board_state`: the unit's description as one player may see it. */
  datatype CellView = CellView(
    name: string,
    typeName: string,
    playerId: int,
    isAlive: bool,
    isRevealed: bool,
    priority: Option<int>)

  /** What `forPlayer` sees of unit `c`: everything when it is theirs or revealed, else a placeholder. */
  function ViewOf(c: Character, forPlayer: int): (v: CellView)
    ensures v.playerId == c.playerId && v.isAlive == c.isAlive
    ensures c.playerId == forPlayer || c.isRevealed ==>
      v.name == Name(c) && v.typeName == TypeName(c.kind) && v.priority == Some(CharPriority(c))
      && v.isRevealed == c.isRevealed
    ensures !(c.playerId == forPlayer || c.isRevealed) ==>
      v.name == "???" && v.typeName == "HIDDEN" && v.priority.None? && !v.isRevealed
  {
    if c.playerId == forPlayer || c.isRevealed then
      CellView(Name(c), TypeName(c.kind), c.playerId, c.isAlive, c.isRevealed, Some(CharPriority(c)))
    else
      CellView("???", "HIDDEN", c.playerId, c.isAlive, false, None)
  }

  /** The 9x7 grid as `forPlayer` sees it. */
  function GetBoardState(b: Board, forPlayer: int): (state: seq<seq<Option<CellView>>>)
    ensures |state| == Rows
    ensures forall r :: 0 <= r < Rows ==> |state[r]| == Cols
    ensures forall r, c :: 0 <= r < Rows && 0 <= c < Cols ==>
      (state[r][c].None? <==> GetCharacter(b, Position(r, c)).None?)
    ensures forall r, c :: 0 <= r < Rows && 0 <= c < Cols && GetCharacter(b, Position(r, c)).Some? ==>
      state[r][c] == Some(ViewOf(GetCharacter(b, Position(r, c)).value, forPlayer))
  {
    seq(Rows, r requires 0 <= r < Rows =>
      seq(Cols, c requires 0 <= c < Cols =>
        match b.grid[Index(Position(r, c))]
        case None => None
        case Some(u) => Some(ViewOf(u, forPlayer))))
  }

  /**
   * Two units `forPlayer` cannot tell apart: the same everywhere except,
   * when hidden from `forPlayer`, in their kind.
   */
  predicate Indistinguishable(c1: Character, c2: Character, forPlayer: int) {
    c1.playerId == c2.playerId && c1.isAlive == c2.isAlive && c1.isRevealed == c2.isRevealed
    && (c1.playerId == forPlayer || c1.isRevealed ==> c1.kind == c2.kind)
  }

  /** The projection never leaks the kind of a hidden enemy unit. */
  lemma BoardStateHidesEnemyKinds(b1: Board, b2: Board, forPlayer: int)
    requires forall i :: 0 <= i < Cells ==> (b1.grid[i].None? <==> b2.grid[i].None?)
    requires forall i :: 0 <= i < Cells && b1.grid[i].Some? && b2.grid[i].Some? ==>
      Indistinguishable(b1.grid[i].value, b2.grid[i].value, forPlayer)
    ensures GetBoardState(b1, forPlayer) == GetBoardState(b2, forPlayer)
  {
    var s1, s2 := GetBoardState(b1, forPlayer), GetBoardState(b2, forPlayer);
    forall r, c | 0 <= r < Rows && 0 <= c < Cols
      ensures s1[r][c] == s2[r][c]
    {
      var i := Index(Position(r, c));
      assert GetCharacter(b1, Position(r, c)) == b1.grid[i];
    }
    forall r | 0 <= r < Rows
      ensures s1[r] == s2[r]
    {
    }
  }

  // ----- initial placement -----

  /** `p` lists each of `0 .. n - 1` exactly once. */
  predicate IsPermutation(p: seq<int>, n: nat) {
    && |p| == n
    && (forall i :: 0 <= i < |p| ==> 0 <= p[i] < n)
    && (forall j :: 0 <= j < n ==> j in p)
    && (forall i, k :: 0 <= i < k < |p| ==> p[i] != p[k])
  }

  /**
   * Places the AI team (player 0) on rows 0-2 and the human team (player 1)
   * on rows 6-8, row-major, cell `i` of a region taking the team member
   * with index `order[i]`. Rows 3-5 are left as they were.
   */
  function SetupBoard(b: Board, aiOrder: seq<int>, playerOrder: seq<int>): (b': Board)
    requires IsPermutation(aiOrder, 21)
    requires |playerOrder| >= 21 && IsPermutation(playerOrder[..21], 21)
    ensures forall i :: 21 <= i < 42 ==> b'.grid[i] == b.grid[i]
    ensures b'.currentPlayer == b.currentPlayer && b'.gameOver == b.gameOver
    ensures b'.winner == b.winner && b'.lastBattle == b.lastBattle
    // home cell i of each side holds the fresh team member the order names for it
    ensures forall i :: 0 <= i < 21 ==> b'.grid[i] == Some(NewCharacter(TeamKind(aiOrder[i]), 0))
    ensures forall i :: 0 <= i < 21 ==> b'.grid[42 + i] == Some(NewCharacter(TeamKind(playerOrder[i]), 1))
  {
    var aiTeam, playerTeam := CreateFullTeam(0), CreateFullTeam(1);
    var g := seq(Cells, i requires 0 <= i < Cells =>
      if i < 21 then Some(aiTeam[aiOrder[i]])
      else if i < 42 then b.grid[i]
      else Some(playerTeam[playerOrder[i - 42]]));
    b.(grid := g)
  }

  /** Each team member stands on exactly one cell of its home rows, fresh and unrevealed. */
  lemma SetupPlacesEachMemberOnce(b: Board, aiOrder: seq<int>, playerOrder: seq<int>, k: CharacterType)
    requires IsPermutation(aiOrder, 21)
    requires |playerOrder| >= 21 && IsPermutation(playerOrder[..21], 21)
    ensures var g := SetupBoard(b, aiOrder, playerOrder).grid;
      && (exists i :: 0 <= i < 21 && g[i] == Some(NewCharacter(k, 0)))
      && (forall i, j :: 0 <= i < 21 && 0 <= j < 21 && g[i] == g[j] ==> i == j)
      && (exists i :: 42 <= i < Cells && g[i] == Some(NewCharacter(k, 1)))
      && (forall i, j :: 42 <= i < Cells && 42 <= j < Cells && g[i] == g[j] ==> i == j)
  {
    var g := SetupBoard(b, aiOrder, playerOrder).grid;
    var t := TeamIndex(k);
    TeamKindOfIndex(k);
    var pOrder := playerOrder[..21];
    assert t as int in aiOrder;
    var i :| 0 <= i < 21 && aiOrder[i] == t;
    assert g[i] == Some(NewCharacter(TeamKind(aiOrder[i]), 0));
    assert t as int in pOrder;
    var j :| 0 <= j < 21 && pOrder[j] == t;
    assert g[42 + j] == Some(NewCharacter(TeamKind(playerOrder[j]), 1));
    forall i1, i2 | 0 <= i1 < 21 && 0 <= i2 < 21 && g[i1] == g[i2]
      ensures i1 == i2
    {
      assert TeamIndex(TeamKind(aiOrder[i1])) == TeamIndex(TeamKind(aiOrder[i2]));
    }
    forall i1, i2 | 42 <= i1 < Cells && 42 <= i2 < Cells && g[i1] == g[i2]
      ensures i1 == i2
    {
      assert g[42 + (i1 - 42)] == g[i1] && g[42 + (i2 - 42)] == g[i2];
      assert TeamIndex(TeamKind(playerOrder[i1 - 42])) == TeamIndex(TeamKind(playerOrder[i2 - 42]));
      assert pOrder[i1 - 42] == pOrder[i2 - 42];
    }
  }

  /** A freshly set-up game: 42 live units, the middle rows empty, the human player to move. */
  lemma NewGameConsistent(aiOrder: seq<int>, playerOrder: seq<int>)
    requires IsPermutation(aiOrder, 21)
    requires |playerOrder| >= 21 && IsPermutation(playerOrder[..21], 21)
    ensures var b := SetupBoard(NewBoard(), aiOrder, playerOrder);
      Consistent(b) && b.currentPlayer == 1 && !b.gameOver
      && forall i :: 21 <= i < 42 ==> b.grid[i].None?
  {
  }
}
