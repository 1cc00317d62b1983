/**
 * The rule-based agent of backend/game/ai/basic_ai.py.
 *
 * `GetMove` sorts the legal moves of the agent's player into six ordered
 * classes (flag captures, sure wins, flag defence, safe attacks, forward
 * steps, anything) and picks from the first class that is not empty. The
 * source picks uniformly at random inside a class; here the pick is an
 * input `pick`, and the candidate at `pick % |class|` is chosen, so every
 * candidate is the choice for some pick (`EveryCandidateCanBeChosen`).
 */
module BasicAi {
  import opened Optional
  import opened Characters
  import opened Rules
  import opened GameBoard

  /** A move together with the origin `get_all_valid_moves` pairs it with. */
  type Pair = (Position, Move)

  /** The moves of `all`, in order. */
  function MovesOf(all: seq<Pair>): (ms: seq<Move>)
    ensures |ms| == |all|
    ensures forall k :: 0 <= k < |all| ==> ms[k] == all[k].1
  {
    seq(|all|, k requires 0 <= k < |all| => all[k].1)
  }

  /** The moves of the pairs of `all` that satisfy `keep`, in order: the loop shape of every finder. */
  function Keep(all: seq<Pair>, keep: Pair -> bool): seq<Move> {
    if all == [] then [] else (if keep(all[0]) then [all[0].1] else []) + Keep(all[1..], keep)
  }

  /** `Keep` retains exactly the moves of the pairs that satisfy `keep`, and is empty exactly when none does. */
  lemma {:induction false} KeepMembers(all: seq<Pair>, keep: Pair -> bool)
    ensures forall m :: m in Keep(all, keep) <==> exists k :: 0 <= k < |all| && keep(all[k]) && all[k].1 == m
    ensures Keep(all, keep) == [] <==> forall k :: 0 <= k < |all| ==> !keep(all[k])
  {
    if all != [] {
      KeepMembers(all[1..], keep);
      assert forall k :: 0 < k < |all| ==> all[k] == all[1..][k - 1];
    }
  }

  /** Filtering distributes over concatenation: the finders keep enumeration order. */
  lemma {:induction false} KeepAppend(a1: seq<Pair>, a2: seq<Pair>, keep: Pair -> bool)
    ensures Keep(a1 + a2, keep) == Keep(a1, keep) + Keep(a2, keep)
  {
    if a1 == [] {
      assert a1 + a2 == a2;
    } else {
      var head := if keep(a1[0]) then [a1[0].1] else [];
      assert (a1 + a2)[0] == a1[0];
      assert (a1 + a2)[1..] == a1[1..] + a2;
      KeepAppend(a1[1..], a2, keep);
      assert Keep(a1 + a2, keep) == head + (Keep(a1[1..], keep) + Keep(a2, keep));
      assert Keep(a1, keep) == head + Keep(a1[1..], keep);
    }
  }

  /** A random pick from a non-empty candidate list. */
  function Choose(cands: seq<Move>, pick: nat): (m: Move)
    requires cands != []
    ensures m in cands
  {
    cands[pick % |cands|]
  }

  /** Every candidate is the pick for some value of `pick`. */
  lemma ChooseCovers(cands: seq<Move>, m: Move)
    requires m in cands
    ensures exists pick: nat :: Choose(cands, pick) == m
  {
    var k :| 0 <= k < |cands| && cands[k] == m;
    assert Choose(cands, k) == m;
  }

  // ----- the candidate classes -----

  /** The destination of `m` holds a flag. */
  predicate TargetsFlag(b: Board, m: Move) {
    GetCharacter(b, m.toPos).Some? && GetCharacter(b, m.toPos).value.kind == Flag
  }

  /** No move of `all` reaches a flag. */
  predicate NoFlagIn(b: Board, all: seq<Pair>) {
    forall k :: 0 <= k < |all| ==> !TargetsFlag(b, all[k].1)
  }

  /** Class 1: the moves onto a flag. */
  function FlagCaptureMoves(b: Board, all: seq<Pair>): (r: seq<Move>)
    ensures forall m :: m in r <==> m in MovesOf(all) && TargetsFlag(b, m)
    ensures r == [] <==> NoFlagIn(b, all)
  {
    var keep := (pr: Pair) => TargetsFlag(b, pr.1);
    KeepMembers(all, keep);
    Keep(all, keep)
  }

  /** Every origin of `all` holds a unit, as it does for the lists `get_all_valid_moves` builds. */
  predicate OriginsOccupied(b: Board, all: seq<Pair>) {
    forall k :: 0 <= k < |all| ==> GetCharacter(b, all[k].0).Some?
  }

  /** The unit at the origin of `pr` would survive a battle against the unit at its destination, which would die. */
  predicate Wins(b: Board, pr: Pair) {
    && GetCharacter(b, pr.0).Some?
    && GetCharacter(b, pr.1.toPos).Some?
    && Resolve(GetCharacter(b, pr.0).value.kind, GetCharacter(b, pr.1.toPos).value.kind).AttackerWins()
  }

  /** How much the agent values beating `target`: its priority when revealed, else 10. */
  function WinKey(target: Character): (key: int)
    ensures target.isRevealed ==> key == CharPriority(target)
    ensures !target.isRevealed ==> key == 10
  {
    if target.isRevealed then CharPriority(target) else 10
  }

  /** The entries of all pairs of `all` concatenated, in order: the loop shape of `_find_winning_battles`. */
  function Collect(all: seq<Pair>, entry: Pair -> seq<(Move, int)>): (r: seq<(Move, int)>)
    ensures forall e :: e in r <==> exists k :: 0 <= k < |all| && e in entry(all[k])
    ensures r == [] <==> forall k :: 0 <= k < |all| ==> entry(all[k]) == []
  {
    if all == [] then []
    else
      assert forall k :: 0 < k < |all| ==> all[k] == all[1..][k - 1];
      entry(all[0]) + Collect(all[1..], entry)
  }

  /** Collecting distributes over concatenation: entries keep enumeration order. */
  lemma {:induction false} CollectAppend(a1: seq<Pair>, a2: seq<Pair>, entry: Pair -> seq<(Move, int)>)
    ensures Collect(a1 + a2, entry) == Collect(a1, entry) + Collect(a2, entry)
  {
    if a1 == [] {
      assert a1 + a2 == a2;
    } else {
      assert (a1 + a2)[0] == a1[0];
      assert (a1 + a2)[1..] == a1[1..] + a2;
      CollectAppend(a1[1..], a2, entry);
    }
  }

  /** What one pair adds to the sure wins: itself with its target's key when it wins, else nothing. */
  function WinEntry(b: Board, pr: Pair): (r: seq<(Move, int)>)
    ensures |r| <= 1
    ensures forall e :: e in r <==> Wins(b, pr) && e == (pr.1, WinKey(GetCharacter(b, pr.1.toPos).value))
    ensures r == [] <==> !Wins(b, pr)
  {
    if Wins(b, pr) then [(pr.1, WinKey(GetCharacter(b, pr.1.toPos).value))] else []
  }

  /** No pair of `all` is a sure win. */
  predicate NoWinIn(b: Board, all: seq<Pair>) {
    forall k :: 0 <= k < |all| ==> !Wins(b, all[k])
  }

  /** Class 2: the sure wins, each with the key of its target. */
  function WinningBattles(b: Board, all: seq<Pair>): (r: seq<(Move, int)>)
    requires OriginsOccupied(b, all)
    ensures forall e :: e in r <==>
      exists k :: 0 <= k < |all| && Wins(b, all[k])
        && e == (all[k].1, WinKey(GetCharacter(b, all[k].1.toPos).value))
    ensures r == [] <==> NoWinIn(b, all)
  {
    Collect(all, (pr: Pair) => WinEntry(b, pr))
  }

  /** The sure wins keep enumeration order. */
  lemma WinningBattlesAppend(b: Board, a1: seq<Pair>, a2: seq<Pair>)
    requires OriginsOccupied(b, a1) && OriginsOccupied(b, a2)
    ensures OriginsOccupied(b, a1 + a2)
    ensures WinningBattles(b, a1 + a2) == WinningBattles(b, a1) + WinningBattles(b, a2)
  {
    assert forall k :: 0 <= k < |a1 + a2| ==> (a1 + a2)[k] == if k < |a1| then a1[k] else a2[k - |a1|];
    CollectAppend(a1, a2, (pr: Pair) => WinEntry(b, pr));
  }

  /**
   * The first entry with the largest key: what the stable descending sort
   * puts at the front.
   */
  function FirstMax(ws: seq<(Move, int)>): (i: nat)
    requires ws != []
    ensures i < |ws|
    ensures forall k :: 0 <= k < |ws| ==> ws[k].1 <= ws[i].1
    ensures forall k :: 0 <= k < i ==> ws[k].1 < ws[i].1
  {
    if |ws| == 1 then 0
    else
      var j := FirstMax(ws[1..]) + 1;
      assert forall k :: 0 < k < |ws| ==> ws[k] == ws[1..][k - 1];
      if ws[0].1 >= ws[j].1 then 0 else j
  }

  /** Ties go to the earlier entry: a maximal key in a prefix wins over everything after it. */
  lemma FirstMaxPrefersPrefix(w1: seq<(Move, int)>, w2: seq<(Move, int)>, k: nat)
    requires k < |w1|
    requires forall e :: e in w1 + w2 ==> e.1 <= w1[k].1
    ensures FirstMax(w1 + w2) < |w1|
  {
    var ws := w1 + w2;
    assert ws[k] == w1[k];
    var i := FirstMax(ws);
    assert ws[i] in ws;
  }

  /** The agent's own flag sits at `p`. */
  predicate IsOwnFlag(b: Board, me: int, p: Position) {
    GetCharacter(b, p).Some? && GetCharacter(b, p).value.playerId == me
    && GetCharacter(b, p).value.kind == Flag
  }

  /** A cell holding the flag of player `me`. */
  predicate OwnFlagCell(cell: Option<Character>, me: int) {
    cell.Some? && cell.value.playerId == me && cell.value.kind == Flag
  }

  /** The index of the first cell of `cells` holding the flag of `me`. */
  function FirstFlag(cells: seq<Option<Character>>, me: int): (r: Option<nat>)
    ensures r.None? ==> forall i :: 0 <= i < |cells| ==> !OwnFlagCell(cells[i], me)
    ensures r.Some? ==> r.value < |cells| && OwnFlagCell(cells[r.value], me)
    ensures r.Some? ==> forall i :: 0 <= i < r.value ==> !OwnFlagCell(cells[i], me)
  {
    if cells == [] then None
    else if OwnFlagCell(cells[0], me) then Some(0)
    else
      assert forall i :: 0 < i < |cells| ==> cells[i] == cells[1..][i - 1];
      match FirstFlag(cells[1..], me)
      case None => None
      case Some(i) => Some(i + 1)
  }

  /** The agent's own flag, scanning rows top to bottom and each row left to right. */
  function MyFlag(b: Board, me: int): (f: Option<Position>)
    ensures f.None? ==> forall p :: IsValidPosition(p) ==> !IsOwnFlag(b, me, p)
    ensures f.Some? ==> IsValidPosition(f.value) && IsOwnFlag(b, me, f.value)
    ensures f.Some? ==> forall p :: IsValidPosition(p) && Index(p) < Index(f.value) ==> !IsOwnFlag(b, me, p)
  {
    match FirstFlag(b.grid, me)
    case None => None
    case Some(i) => Some(PositionAt(i))
  }

  /** Manhattan distance 1. */
  predicate IsAdjacent(p: Position, q: Position) {
    Distance(p, q) == 1
  }

  /** The squares adjacent to `p` are exactly its four neighbours, the squares a unit at `p` may step to. */
  lemma AdjacentIsNeighbour(p: Position, q: Position)
    ensures IsAdjacent(p, q) <==> exists d :: 0 <= d < 4 && q == Neighbour(p, d)
  {
    if IsAdjacent(p, q) {
      OneStepHasDirection(Move(p, q));
      assert q == Neighbour(p, DirectionOf(Move(p, q)));
    }
  }

  /** No move of `all` lands next to the agent's own flag, or there is no such flag. */
  predicate NoDefenceIn(b: Board, me: int, all: seq<Pair>) {
    MyFlag(b, me).Some? ==> forall k :: 0 <= k < |all| ==> !IsAdjacent(all[k].1.toPos, MyFlag(b, me).value)
  }

  /** Class 3: the moves onto a square next to the agent's own flag; none without a flag. */
  function DefensiveMoves(b: Board, me: int, all: seq<Pair>): (r: seq<Move>)
    ensures MyFlag(b, me).None? ==> r == []
    ensures MyFlag(b, me).Some? ==>
      forall m :: m in r <==> m in MovesOf(all) && IsAdjacent(m.toPos, MyFlag(b, me).value)
    ensures r == [] <==> NoDefenceIn(b, me, all)
  {
    match MyFlag(b, me)
    case None => []
    case Some(flag) =>
      var keep := (pr: Pair) => IsAdjacent(pr.1.toPos, flag);
      KeepMembers(all, keep);
      Keep(all, keep)
  }

  /**
   * An attack the agent considers safe: against a hidden target only with a
   * unit of priority at most 8 (major or better), against a revealed target
   * whenever the defender would not win.
   */
  predicate SafeAttack(b: Board, pr: Pair) {
    && GetCharacter(b, pr.0).Some?
    && GetCharacter(b, pr.1.toPos).Some?
    && var attacker := GetCharacter(b, pr.0).value;
       var target := GetCharacter(b, pr.1.toPos).value;
       if !target.isRevealed then CharPriority(attacker) <= 8
       else !Resolve(attacker.kind, target.kind).DefenderWins()
  }

  /** Class 4: the safe attacks. */
  function SafeAttacks(b: Board, all: seq<Pair>): (r: seq<Move>)
    requires OriginsOccupied(b, all)
    ensures forall m :: m in r <==> exists k :: 0 <= k < |all| && SafeAttack(b, all[k]) && all[k].1 == m
    ensures r == [] <==> forall k :: 0 <= k < |all| ==> !SafeAttack(b, all[k])
  {
    var keep := (pr: Pair) => SafeAttack(b, pr);
    KeepMembers(all, keep);
    Keep(all, keep)
  }

  /** The row direction the agent advances in: down for player 0, up for anyone else. */
  function Forward(me: int): (dir: int)
    ensures dir == 1 || dir == -1
    ensures dir == 1 <==> me == 0
  {
    if me == 0 then 1 else -1
  }

  /** A step onto an empty square in the agent's forward direction. */
  predicate Advances(b: Board, me: int, m: Move) {
    GetCharacter(b, m.toPos).None? && (m.toPos.row - m.fromPos.row) * Forward(me) > 0
  }

  /** Class 5: the forward steps onto empty squares. */
  function ForwardMoves(b: Board, me: int, all: seq<Pair>): (r: seq<Move>)
    ensures forall m :: m in r <==> m in MovesOf(all) && Advances(b, me, m)
    ensures r == [] <==> forall k :: 0 <= k < |all| ==> !Advances(b, me, all[k].1)
  {
    var keep := (pr: Pair) => Advances(b, me, pr.1);
    KeepMembers(all, keep);
    Keep(all, keep)
  }

  /** Forward steps go down the board for player 0 and up it for the other player. */
  lemma ForwardMeansRowDirection(b: Board, me: int, m: Move)
    ensures Advances(b, me, m) <==>
      GetCharacter(b, m.toPos).None? &&
      (if me == 0 then m.toPos.row > m.fromPos.row else m.toPos.row < m.fromPos.row)
  {
  }

  /** Each pair of `get_all_valid_moves` holds a live unit of `player` at its origin, and its move starts there. */
  lemma AllValidMovesOccupied(b: Board, player: int)
    ensures OriginsOccupied(b, GetAllValidMoves(b, player))
    ensures forall k :: 0 <= k < |GetAllValidMoves(b, player)| ==>
      GetAllValidMoves(b, player)[k].1.fromPos == GetAllValidMoves(b, player)[k].0
  {
    var all := GetAllValidMoves(b, player);
    forall k | 0 <= k < |all|
      ensures GetCharacter(b, all[k].0).Some? && all[k].1.fromPos == all[k].0
    {
      assert all[k] in all;
      AllValidMovesFromOrigin(b, player, all[k].0, all[k].1);
    }
  }

  // ----- the cascade -----

  /** The agent's move: the first non-empty class decides; `None` when the agent has no legal move. */
  function GetMove(b: Board, me: int, pick: nat): (r: Option<Move>)
    ensures r.None? <==> GetAllValidMoves(b, me) == []
    ensures r.Some? ==> r.value in MovesOf(GetAllValidMoves(b, me))
  {
    var all := GetAllValidMoves(b, me);
    AllValidMovesOccupied(b, me);
    if all == [] then None else Some(Cascade(b, me, all, pick))
  }

  /** Classes 1 to 6 in order. */
  function Cascade(b: Board, me: int, all: seq<Pair>, pick: nat): (m: Move)
    requires all != [] && OriginsOccupied(b, all)
    ensures m in MovesOf(all)
  {
    var flags := FlagCaptureMoves(b, all);
    if flags != [] then Choose(flags, pick) else AfterFlags(b, me, all, pick)
  }

  /** Classes 2 to 6, once no move reaches a flag. */
  function AfterFlags(b: Board, me: int, all: seq<Pair>, pick: nat): (m: Move)
    requires all != [] && OriginsOccupied(b, all)
    ensures m in MovesOf(all)
  {
    var wins := WinningBattles(b, all);
    if wins != [] then
      var best := wins[FirstMax(wins)];
      assert best in wins;
      best.0
    else AfterWins(b, me, all, pick)
  }

  /** Classes 3 to 6, once there is no sure win. */
  function AfterWins(b: Board, me: int, all: seq<Pair>, pick: nat): (m: Move)
    requires all != [] && OriginsOccupied(b, all)
    ensures m in MovesOf(all)
  {
    var defence := DefensiveMoves(b, me, all);
    if defence != [] then Choose(defence, pick) else AfterDefence(b, me, all, pick)
  }

  /** Classes 4 to 6, once no move guards the flag. */
  function AfterDefence(b: Board, me: int, all: seq<Pair>, pick: nat): (m: Move)
    requires all != [] && OriginsOccupied(b, all)
    ensures m in MovesOf(all)
  {
    var safe := SafeAttacks(b, all);
    if safe != [] then
      var m := Choose(safe, pick);
      assert m in MovesOf(all) by {
        var k :| 0 <= k < |all| && SafeAttack(b, all[k]) && all[k].1 == m;
        assert MovesOf(all)[k] == m;
      }
      m
    else AfterSafe(b, me, all, pick)
  }

  /** Classes 5 and 6, once there is no safe attack. */
  function AfterSafe(b: Board, me: int, all: seq<Pair>, pick: nat): (m: Move)
    requires all != []
    ensures m in MovesOf(all)
  {
    var forward := ForwardMoves(b, me, all);
    if forward != [] then Choose(forward, pick) else Choose(MovesOf(all), pick)
  }

  // ----- properties of the cascade -----

  /** The agent only proposes moves `make_move` accepts, and only when it is its turn. */
  lemma GetMoveIsLegal(b: Board, me: int, pick: nat)
    requires GetMove(b, me, pick).Some?
    ensures me == b.currentPlayer
    ensures MakeMove(b, GetMove(b, me, pick).value).0
  {
    var all := GetAllValidMoves(b, me);
    var m := GetMove(b, me, pick).value;
    OnlyCurrentPlayerMoves(b, me);
    var k :| 0 <= k < |all| && MovesOf(all)[k] == m;
    AllValidMovesOccupied(b, me);
    assert all[k] in all;
  }

  /** A flag within reach is always taken. */
  lemma CascadePrefersFlag(b: Board, me: int, all: seq<Pair>, pick: nat, k: nat)
    requires OriginsOccupied(b, all) && k < |all| && TargetsFlag(b, all[k].1)
    ensures TargetsFlag(b, Cascade(b, me, all, pick))
  {
    assert MovesOf(all)[k] == all[k].1;
    assert all[k].1 in FlagCaptureMoves(b, all);
  }

  /** Without a flag in reach, the first sure win with the largest key is taken, whatever the pick. */
  lemma CascadeTakesBestWin(b: Board, me: int, all: seq<Pair>, pick: nat, k: nat)
    requires OriginsOccupied(b, all) && NoFlagIn(b, all)
    requires k < |all| && Wins(b, all[k])
    ensures var wins := WinningBattles(b, all);
      wins != [] && Cascade(b, me, all, pick) == wins[FirstMax(wins)].0
  {
    assert (all[k].1, WinKey(GetCharacter(b, all[k].1.toPos).value)) in WinningBattles(b, all);
  }

  /** The first sure win with the largest key comes from a winning pair whose key no other winning pair exceeds. */
  lemma BestWinIsMaximal(b: Board, all: seq<Pair>, k: nat)
    requires OriginsOccupied(b, all)
    requires k < |all| && Wins(b, all[k])
    ensures var wins := WinningBattles(b, all);
      wins != [] &&
      exists j :: 0 <= j < |all| && Wins(b, all[j]) && all[j].1 == wins[FirstMax(wins)].0
        && WinKey(GetCharacter(b, all[k].1.toPos).value) <= WinKey(GetCharacter(b, all[j].1.toPos).value)
  {
    var wins := WinningBattles(b, all);
    var e := (all[k].1, WinKey(GetCharacter(b, all[k].1.toPos).value));
    assert e in wins;
    var best := wins[FirstMax(wins)];
    assert best in wins;
    var j :| 0 <= j < |all| && Wins(b, all[j])
      && best == (all[j].1, WinKey(GetCharacter(b, all[j].1.toPos).value));
    var i :| 0 <= i < |wins| && wins[i] == e;
  }

  /**
   * Ties between sure wins go to enumeration order: when the pair at index
   * `k` has a key no sure win exceeds, the best sure win comes from a pair
   * at index `k` or before.
   */
  lemma BestWinBreaksTiesInOrder(b: Board, all: seq<Pair>, k: nat)
    requires OriginsOccupied(b, all)
    requires k < |all| && Wins(b, all[k])
    requires forall j :: 0 <= j < |all| && Wins(b, all[j]) ==>
      WinKey(GetCharacter(b, all[j].1.toPos).value) <= WinKey(GetCharacter(b, all[k].1.toPos).value)
    ensures var wins := WinningBattles(b, all);
      wins != [] && exists j :: 0 <= j <= k && all[j].1 == wins[FirstMax(wins)].0
  {
    var a1, a2 := all[..k + 1], all[k + 1..];
    OccupiedSplit(b, all, k + 1);
    WinningBattlesAppend(b, a1, a2);
    var w1, w2 := WinningBattles(b, a1), WinningBattles(b, a2);
    var wins := WinningBattles(b, all);
    assert wins == w1 + w2;
    var t := WinIndexInPrefix(b, all, k);
    forall e: (Move, int) | e in w1 + w2
      ensures e.1 <= w1[t].1
    {
      assert e in wins;
    }
    FirstMaxPrefersPrefix(w1, w2, t);
    var i := FirstMax(wins);
    assert wins[i] == w1[i];
    assert w1[i] in w1;
    var j :| 0 <= j < |a1| && Wins(b, a1[j])
      && w1[i] == (a1[j].1, WinKey(GetCharacter(b, a1[j].1.toPos).value));
    assert all[j] == a1[j];
  }

  /** Both halves of a list with occupied origins have occupied origins. */
  lemma OccupiedSplit(b: Board, all: seq<Pair>, n: nat)
    requires OriginsOccupied(b, all) && n <= |all|
    ensures all == all[..n] + all[n..]
    ensures OriginsOccupied(b, all[..n]) && OriginsOccupied(b, all[n..])
  {
    var a1, a2 := all[..n], all[n..];
    forall i | 0 <= i < |a1| ensures GetCharacter(b, a1[i].0).Some? { assert a1[i] == all[i]; }
    forall i | 0 <= i < |a2| ensures GetCharacter(b, a2[i].0).Some? { assert a2[i] == all[n + i]; }
  }

  /** The sure win of the pair at index `k` appears among the sure wins of the pairs up to `k`. */
  lemma WinIndexInPrefix(b: Board, all: seq<Pair>, k: nat) returns (t: nat)
    requires OriginsOccupied(b, all) && k < |all| && Wins(b, all[k])
    ensures OriginsOccupied(b, all[..k + 1])
    ensures t < |WinningBattles(b, all[..k + 1])|
    ensures WinningBattles(b, all[..k + 1])[t] == (all[k].1, WinKey(GetCharacter(b, all[k].1.toPos).value))
  {
    OccupiedSplit(b, all, k + 1);
    var a1 := all[..k + 1];
    assert a1[k] == all[k];
    var top := (all[k].1, WinKey(GetCharacter(b, all[k].1.toPos).value));
    assert top in WinningBattles(b, a1);
    t :| 0 <= t < |WinningBattles(b, a1)| && WinningBattles(b, a1)[t] == top;
  }

  /** Without a flag in reach or a sure win, a move next to the agent's own flag is taken when there is one. */
  lemma CascadeDefends(b: Board, me: int, all: seq<Pair>, pick: nat, k: nat)
    requires OriginsOccupied(b, all) && NoFlagIn(b, all) && NoWinIn(b, all)
    requires MyFlag(b, me).Some? && k < |all| && IsAdjacent(all[k].1.toPos, MyFlag(b, me).value)
    ensures IsAdjacent(Cascade(b, me, all, pick).toPos, MyFlag(b, me).value)
    ensures Cascade(b, me, all, pick) in DefensiveMoves(b, me, all)
  {
  }

  /** Then a safe attack is taken when there is one. */
  lemma CascadeAttacksSafely(b: Board, me: int, all: seq<Pair>, pick: nat, k: nat)
    requires OriginsOccupied(b, all) && NoFlagIn(b, all) && NoWinIn(b, all) && NoDefenceIn(b, me, all)
    requires k < |all| && SafeAttack(b, all[k])
    ensures exists j :: 0 <= j < |all| && SafeAttack(b, all[j]) && all[j].1 == Cascade(b, me, all, pick)
    ensures Cascade(b, me, all, pick) in SafeAttacks(b, all)
  {
  }

  /** Then a forward step onto an empty square is taken when there is one; otherwise any listed move. */
  lemma CascadeAdvances(b: Board, me: int, all: seq<Pair>, pick: nat, k: nat)
    requires OriginsOccupied(b, all) && NoFlagIn(b, all) && NoWinIn(b, all) && NoDefenceIn(b, me, all)
    requires forall j :: 0 <= j < |all| ==> !SafeAttack(b, all[j])
    requires k < |all| && Advances(b, me, all[k].1)
    ensures Advances(b, me, Cascade(b, me, all, pick))
    ensures Cascade(b, me, all, pick) in ForwardMoves(b, me, all)
  {
  }

  /**
   * The random pick covers its whole class: every move of the class that
   * decides is the agent's choice for some pick.
   */
  lemma EveryCandidateCanBeChosen(b: Board, me: int, all: seq<Pair>, m: Move)
    requires all != [] && OriginsOccupied(b, all)
    requires
      || m in FlagCaptureMoves(b, all)
      || (NoFlagIn(b, all) && NoWinIn(b, all) && m in DefensiveMoves(b, me, all))
      || (NoFlagIn(b, all) && NoWinIn(b, all) && NoDefenceIn(b, me, all) && m in SafeAttacks(b, all))
      || (NoFlagIn(b, all) && NoWinIn(b, all) && NoDefenceIn(b, me, all)
          && SafeAttacks(b, all) == [] && m in ForwardMoves(b, me, all))
      || (NoFlagIn(b, all) && NoWinIn(b, all) && NoDefenceIn(b, me, all)
          && SafeAttacks(b, all) == [] && ForwardMoves(b, me, all) == [] && m in MovesOf(all))
    ensures exists pick: nat :: Cascade(b, me, all, pick) == m
  {
    if m in FlagCaptureMoves(b, all) {
      ChooseCovers(FlagCaptureMoves(b, all), m);
      var pick: nat :| Choose(FlagCaptureMoves(b, all), pick) == m;
      assert Cascade(b, me, all, pick) == m;
    } else if m in DefensiveMoves(b, me, all) {
      ChooseCovers(DefensiveMoves(b, me, all), m);
      var pick: nat :| Choose(DefensiveMoves(b, me, all), pick) == m;
      assert Cascade(b, me, all, pick) == m;
    } else if m in SafeAttacks(b, all) {
      ChooseCovers(SafeAttacks(b, all), m);
      var pick: nat :| Choose(SafeAttacks(b, all), pick) == m;
      assert Cascade(b, me, all, pick) == m;
    } else if m in ForwardMoves(b, me, all) {
      ChooseCovers(ForwardMoves(b, me, all), m);
      var pick: nat :| Choose(ForwardMoves(b, me, all), pick) == m;
      assert Cascade(b, me, all, pick) == m;
    } else {
      ChooseCovers(MovesOf(all), m);
      var pick: nat :| Choose(MovesOf(all), pick) == m;
      assert Cascade(b, me, all, pick) == m;
    }
  }

  /** When some legal move reaches a flag, the agent takes a flag. */
  lemma GetMovePrefersFlag(b: Board, me: int, pick: nat, pos: Position, m: Move)
    requires (pos, m) in GetAllValidMoves(b, me) && TargetsFlag(b, m)
    ensures GetMove(b, me, pick).Some? && TargetsFlag(b, GetMove(b, me, pick).value)
  {
    var all := GetAllValidMoves(b, me);
    AllValidMovesOccupied(b, me);
    var k :| 0 <= k < |all| && all[k] == (pos, m);
    CascadePrefersFlag(b, me, all, pick, k);
  }

  /**
   * Without a flag in reach, a sure win is taken when there is one: one whose
   * key no other sure win exceeds, and the same one whatever the pick.
   */
  lemma GetMoveTakesBestWin(b: Board, me: int, pick: nat, pos: Position, m: Move)
    requires NoFlagIn(b, GetAllValidMoves(b, me))
    requires (pos, m) in GetAllValidMoves(b, me) && Wins(b, (pos, m))
    ensures GetMove(b, me, pick).Some?
    ensures var chosen := GetMove(b, me, pick).value;
      && Wins(b, (chosen.fromPos, chosen))
      && WinKey(GetCharacter(b, m.toPos).value) <= WinKey(GetCharacter(b, chosen.toPos).value)
    ensures forall other: nat :: GetMove(b, me, other) == GetMove(b, me, pick)
  {
    var all := GetAllValidMoves(b, me);
    AllValidMovesOccupied(b, me);
    var k :| 0 <= k < |all| && all[k] == (pos, m);
    CascadeTakesBestWin(b, me, all, pick, k);
    BestWinIsMaximal(b, all, k);
    forall other: nat
      ensures GetMove(b, me, other) == GetMove(b, me, pick)
    {
      CascadeTakesBestWin(b, me, all, other, k);
    }
  }
}
