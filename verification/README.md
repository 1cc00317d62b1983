# A verified model of the capture-the-flag game engine and its rule-based agent

The system is a two-player hidden-information board game on a 9x7 grid. Each
side has 21 units of 21 kinds (fourteen ranks, two bombs, an engineer, two
wukongs, a flag and a military police unit). A unit moves one square
orthogonally onto an empty square or onto an enemy unit. Moving onto an enemy
starts a battle, which a fixed rule table decides. Capturing the enemy flag
wins the game. Units are hidden from the opponent until they fight.

This project models the game engine and the rule-based computer opponent in
Dafny. It has one module per source file:

- `Characters` (`character.dfy`): the catalog of kinds with their priorities,
  display names and special flags; the unit record; `can_move`; `reveal`; and
  the construction of a full team.
- `Rules` (`rules.dfy`): the battle result and its three outcome predicates,
  and the resolver cascade. The cascade tries the military police first, then
  the special rules (flag, engineer against bomb, bomb, wukong against the top
  five generals), then a plain priority comparison. The resolver is a pure
  function of the two kinds. Exhaustive lemmas show that swapping the
  participants mirrors the outcome, except for flag against flag.
- `GameBoard` (`board.dfy`): the board as an immutable value holding a
  row-major sequence of 63 cells. It covers position validity, per-square
  move generation, move application, row-major enumeration of all moves of a
  player, the per-player visibility projection, and the initial placement.
  `MakeMove` returns the success flag and the next board instead of mutating
  the board.
- `BasicAi` (`basic_ai.dfy`): the six ordered candidate classes of the
  rule-based agent and the cascade that picks from the first class that is
  not empty. The classes are flag captures, sure wins, flag defence, safe
  attacks, forward steps, and any legal move.
- `Optional` (`option.dfy`): the `Option` type used throughout.

Inputs:

- Randomness becomes an input. A random choice from a candidate list is the
  candidate at index `pick % |list|`, and `BasicAi.EveryCandidateCanBeChosen`
  shows that every candidate of the deciding class is reached by some `pick`.
- The setup shuffle becomes a permutation given by the caller.

After a flag capture, the HTTP layer refuses further moves once `game_over`
is set (backend/main.py:173-174 and 212-213). `make_move` itself never reads
`game_over` (backend/game/board.py:152-225), and the model follows
`make_move`: a finished game accepts and applies moves exactly as before
(`GameBoard.MakeMoveIgnoresGameOver`).

## Model

| member | source | states |
|---|---|---|
| Characters.Priority | backend/game/character.py:13-35 | The fourteen ranks have priorities 1 to 14, the top five generals 1 to 5, the bombs 0, the engineer 16, the wukongs 17, the military police 18 and the flag 19. Each range is stated in both directions. |
| Characters.IsSpecialKind | backend/game/character.py:13-35 | A kind is special exactly when it is not one of the fourteen ranks. |
| Characters.NewCharacter | backend/game/character.py:46-55 | A new unit has the given kind and owner, is alive and is not revealed. |
| Characters.Name | backend/game/character.py:57-60 | A unit's name is the display name of its kind. |
| Characters.CharPriority | backend/game/character.py:62-65 | A unit's priority is the priority of its kind. |
| Characters.NameAndPriorityFollowKind | backend/game/character.py:57-65 | Two units of the same kind have the same name and priority. |
| Characters.CanMove | backend/game/character.py:73-80 | A unit cannot move exactly when it is the flag or one of the two bombs. |
| Characters.ImmovableIffExtremePriority | backend/game/character.py:73-80 | The immovable units are exactly those with priority 0 or 19. |
| Characters.Reveal | backend/game/character.py:82-84 | Revealing sets the revealed flag and leaves kind, owner and alive status unchanged. |
| Characters.RevealIdempotent | backend/game/character.py:82-84 | Revealing twice gives the same unit as revealing once. |
| Characters.CreateFullTeam | backend/game/character.py:90-127 | A team has 21 units, all owned by the player, alive and unrevealed. Every kind sits at its list position and no kind repeats. |
| Characters.TeamComposition | backend/game/character.py:117-124 | Every kind occurs in a team exactly once. So a team has one flag, one military police and one engineer, plus two bombs (BOMB_1, BOMB_2) and two wukongs (WUKONG_1, WUKONG_2). |
| Rules.BattleResult.BothDie | backend/game/rules.py:32-35 | Neither participant survives. |
| Rules.BattleResult.AttackerWins | backend/game/rules.py:37-40 | The attacker survives and the defender does not. |
| Rules.BattleResult.DefenderWins | backend/game/rules.py:42-45 | The defender survives and the attacker does not. |
| Rules.OutcomesExclusive | backend/game/rules.py:32-45 | At most one of both-die, attacker-wins and defender-wins holds for any result. |
| Rules.ResolveHasOneOutcome | backend/game/rules.py:48-77 | Every resolved battle is exactly one of the three named outcomes. |
| Rules.ResolveGeneral | backend/game/rules.py:149-171 | A side survives exactly when its priority is strictly lower than the other side's, and both sides are revealed. |
| Rules.EqualPrioritiesBothDie | backend/game/rules.py:169-171 | Any two kinds of equal priority destroy each other, except a flag attacking a flag: two bombs, two wukongs, two military police and a rank against itself all fall through to the plain comparison. |
| Rules.WeakerAttackerDies | backend/game/rules.py:164-168 | A priority-5 attacker against a priority-3 defender loses. |
| Rules.GeneralSymmetric | backend/game/rules.py:149-171 | Swapping the participants of a plain comparison mirrors its result. |
| Rules.ResolveSpecial | backend/game/rules.py:80-146 | Gives the result of each special rule: flag defender, engineer against bomb in both roles, bomb against non-engineer in both roles, wukong against the top five generals in both roles. It falls through to the plain comparison exactly for pairs none of these rules covers. |
| Rules.Resolve | backend/game/rules.py:48-77 | Every outcome reveals both sides and never lets both survive. With the military police on either side only priorities decide. Otherwise the special rules apply in order, and pairs no rule covers compare priorities. |
| Rules.PoliceRevealsEvenWhenLosing | backend/game/rules.py:60-64 | A military police attacker that loses by priority still exposes the defender. |
| Rules.FlagSymmetric | backend/game/rules.py:90-92 | A flag defender loses to every non-police, non-flag attacker; with the roles swapped the flag is the loser as attacker, and the two outcomes mirror each other. |
| Rules.FlagAgainstFlagAsymmetric | backend/game/rules.py:90-92 | Flag against flag is not mirror-symmetric, because the flag rule reads only the defender. |
| Rules.LoneBombSymmetric | backend/game/rules.py:94-124 | A bomb against the engineer loses in both roles, and against any other non-bomb, non-police, non-flag kind wins in both roles; the two outcomes mirror each other. |
| Rules.BombDefends | backend/game/rules.py:118-124 | Every attacker other than a bomb, the engineer or the military police dies against a bomb. |
| Rules.BombsCancel | backend/game/rules.py:110-124 | Two bombs pass every special rule and destroy each other at equal priority. |
| Rules.WukongSymmetric | backend/game/rules.py:126-143 | A wukong beats each of the top five generals whether it attacks or defends, and the two outcomes mirror each other. |
| Rules.ResolveSymmetric | backend/game/rules.py:48-146 | For every pair of kinds except flag against flag, swapping attacker and defender mirrors the outcome. |
| GameBoard.NewBoard | backend/game/board.py:49-66 | A new board is empty, the human player (1) moves first, the game is not over, and there is no winner and no battle record. |
| GameBoard.IsValidPosition | backend/game/board.py:105-107 | A position is on the board when its row is in 0..8 and its column in 0..6. |
| GameBoard.ValidPositionIsCell | backend/game/board.py:105-107 | The on-board positions are exactly the 63 grid cells, each reached from one cell index. |
| GameBoard.GetCharacter | backend/game/board.py:99-103 | An off-board position holds nothing; an on-board position holds what its grid cell holds. |
| GameBoard.StepsFrom | backend/game/board.py:131-150 | The steps tried from a direction on are exactly the open neighbours in those directions, in up, down, left, right order. |
| GameBoard.GetValidMoves | backend/game/board.py:109-150 | There are no moves unless the unit is present, alive, movable and owned by the player to move. Otherwise there are at most four moves, each one step from the position onto an on-board square that is empty or held by an enemy, with every such square included, in up, down, left, right order. |
| GameBoard.ValidMovesExact | backend/game/board.py:119-150 | A move is legal from a position exactly when the unit there may move and the move is one step onto an open square. |
| GameBoard.MovesComeFromMovableUnits | backend/game/board.py:119-129 | Every legal move starts from a live unit of the player to move that is neither the flag nor a bomb. |
| GameBoard.Relocate | backend/game/board.py:178-181 | A step onto an empty square puts the unit on the destination, empties the origin, clears the battle record, and changes nothing else. |
| GameBoard.BattleGrid | backend/game/board.py:196-215 | Losers leave the grid. A surviving attacker takes the destination, a surviving defender stays on it, and the origin is emptied. Reveal flags apply to the unit left on the grid, and no other cell changes. |
| GameBoard.Battle | backend/game/board.py:183-220 | The battle record holds both names and the resolver's flags. The winner stands revealed on the destination, or nothing does if both die. The game ends with the attacker's owner as winner exactly when the defender is the flag. |
| GameBoard.MakeMove | backend/game/board.py:152-225 | A move is accepted exactly when it is among the legal moves of its origin, and a rejected move leaves the board unchanged. An accepted move changes only origin and destination and always empties the origin. It relocates or fights as appropriate and hands the turn to the other player even when the mover dies. |
| GameBoard.FlagCaptureEndsGame | backend/game/board.py:217-220 | Capturing a flag ends the game, the winner is the attacker's owner, and the record shows the defender did not survive. |
| GameBoard.StepsFromSameGrid | backend/game/board.py:134-148 | The open steps from a square depend only on the grid. |
| GameBoard.ValidMovesSameGrid | backend/game/board.py:119-150 | Two boards with the same grid and the same player to move have the same legal moves. |
| GameBoard.RelocateIgnoresGameOver | backend/game/board.py:178-181 | A step onto an empty square leaves a finished game finished and otherwise acts as on an unfinished one. |
| GameBoard.BattleIgnoresGameOver | backend/game/board.py:183-220 | A battle in a finished game has the same effect as in an unfinished one, and the game stays finished. |
| GameBoard.MakeMoveIgnoresGameOver | backend/game/board.py:152-225 | A finished game accepts exactly the same moves as an unfinished one, applies them the same way, and stays finished. |
| GameBoard.MakeMoveKeepsConsistent | backend/game/board.py:196-225 | Every move keeps only live units on the grid and keeps the player to move at 0 or 1. |
| GameBoard.MakeMoveCount | backend/game/board.py:175-209 | No move adds a unit. A step keeps the unit count, a battle removes one unit, and a battle where both die removes two. |
| GameBoard.RowPairs | backend/game/board.py:240-251 | The inner loop lists exactly the moves of the first columns of a row, each with its own cell. |
| GameBoard.TablePairs | backend/game/board.py:239-251 | The outer loop lists exactly the moves of the first rows, each with its own on-board cell. |
| GameBoard.RowPairsOrdered | backend/game/board.py:240-251 | The inner loop lists origins in column order. |
| GameBoard.TablePairsOrdered | backend/game/board.py:239-251 | The outer loop lists origins in row-major order. |
| GameBoard.MoveTableCell | backend/game/board.py:241-249 | The loops take a cell's legal moves when it holds a live unit of the player, and nothing otherwise. |
| GameBoard.MoveTableOrdered | backend/game/board.py:134-148 | Every cell's moves in the loops' table come in up, down, left, right order. |
| GameBoard.OriginOrderedJoin | backend/game/board.py:249-251 | Appending pairs whose origins are new keeps each origin's moves in direction order. |
| GameBoard.RowPairsOriginOrdered | backend/game/board.py:240-251 | The inner loop keeps each cell's moves in direction order. |
| GameBoard.TablePairsStepOrdered | backend/game/board.py:239-251 | One more pass of the outer loop keeps each origin's moves in direction order. |
| GameBoard.TablePairsOriginOrdered | backend/game/board.py:239-251 | The outer loop keeps each origin's moves in direction order. |
| GameBoard.MoveTablePairsExact | backend/game/board.py:239-251 | The two loops list exactly the legal moves of the player's live units, each with its own cell. |
| GameBoard.GetAllValidMoves | backend/game/board.py:227-253 | The pairs listed are exactly the legal moves of the player's live units, each with its origin. The origins come in row-major order, and the moves of one origin come in up, down, left, right order, so no pair is listed twice. |
| GameBoard.AllValidMovesFromOrigin | backend/game/board.py:249-251 | The position paired with a listed move is that move's origin. |
| GameBoard.OnlyCurrentPlayerMoves | backend/game/board.py:244-249 | Only the player to move has any listed move. |
| GameBoard.ViewOf | backend/game/board.py:276-302 | An own or revealed unit is shown with name, type, priority and revealed flag. Any other unit shows as "???"/HIDDEN with no priority and not revealed. Owner and alive status are always shown. |
| GameBoard.GetBoardState | backend/game/board.py:259-306 | The projection is a 9x7 grid that is empty exactly where the board is empty and otherwise shows each unit's view. |
| GameBoard.BoardStateHidesEnemyKinds | backend/game/board.py:291-302 | Two boards differing only in the kinds of units hidden from a player project identically for that player. |
| GameBoard.SetupBoard | backend/game/board.py:68-97 | Home cell i of the AI (rows 0-2, row-major) holds a fresh AI unit of the team member `aiOrder[i]`, and home cell i of the player (rows 6-8) the fresh player unit of `playerOrder[i]`. The middle rows and the game state are unchanged. |
| GameBoard.SetupPlacesEachMemberOnce | backend/game/board.py:76-97 | With permutations as orders, every team member stands on exactly one cell of its home rows, fresh and unrevealed. |
| GameBoard.NewGameConsistent | backend/game/board.py:49-97 | A freshly set-up game has only live units, empty middle rows, the human player to move, and is not over. |
| BasicAi.KeepMembers | backend/game/ai/basic_ai.py:82-87 | A finder loop keeps exactly the moves of the pairs meeting its test, and is empty exactly when no pair meets it. |
| BasicAi.KeepAppend | backend/game/ai/basic_ai.py:82-87 | A finder loop keeps enumeration order: filtering a concatenation concatenates the filtered parts. |
| BasicAi.Choose | backend/game/ai/basic_ai.py:49 | A random pick is a member of its candidate list. |
| BasicAi.ChooseCovers | backend/game/ai/basic_ai.py:49 | Every candidate is the pick for some value of the random input. |
| BasicAi.FlagCaptureMoves | backend/game/ai/basic_ai.py:76-87 | The flag-capture class is exactly the listed moves whose destination holds a flag, and it is empty exactly when no listed move reaches a flag. |
| BasicAi.Collect | backend/game/ai/basic_ai.py:93-110 | The accumulation loop holds exactly the entries of the pairs, and is empty exactly when every pair adds nothing. |
| BasicAi.WinKey | backend/game/ai/basic_ai.py:107 | The value of beating a target is its priority when it is revealed, and 10 when it is hidden. |
| BasicAi.WinningBattles | backend/game/ai/basic_ai.py:89-110 | The sure wins are exactly the listed moves whose attacker beats the target, each with its key, and the list is empty exactly when there is no such move. |
| BasicAi.WinningBattlesAppend | backend/game/ai/basic_ai.py:95-110 | Sure wins keep enumeration order. |
| BasicAi.FirstMax | backend/game/ai/basic_ai.py:55-56 | The stable descending sort puts first the earliest entry with the largest key: no key exceeds it and every earlier key is smaller. |
| BasicAi.FirstMaxPrefersPrefix | backend/game/ai/basic_ai.py:55-56 | When a prefix holds a maximal key, the first entry after sorting comes from that prefix. |
| BasicAi.FirstFlag | backend/game/ai/basic_ai.py:181-191 | The scan stops at the first cell holding the agent's own flag, or finds none when no cell does. |
| BasicAi.MyFlag | backend/game/ai/basic_ai.py:179-191 | The agent's flag position is the first row-major square holding its own flag, and it is absent exactly when no square does. |
| BasicAi.IsAdjacent | backend/game/ai/basic_ai.py:193-195 | Two positions are adjacent when their Manhattan distance is 1. |
| BasicAi.AdjacentIsNeighbour | backend/game/ai/basic_ai.py:193-195 | The squares adjacent to a position are exactly its four neighbours in the move generator's directions. |
| BasicAi.DefensiveMoves | backend/game/ai/basic_ai.py:112-129 | With no own flag the defence class is empty. Otherwise it is exactly the listed moves landing at Manhattan distance 1 from the flag, and it is empty exactly when no listed move does. |
| BasicAi.SafeAttacks | backend/game/ai/basic_ai.py:131-155 | The safe attacks are exactly the attacks on a hidden target by a unit of priority at most 8, plus the attacks on a revealed target that the defender would not win. The class is empty exactly when there are none. |
| BasicAi.Forward | backend/game/ai/basic_ai.py:165 | The forward row direction is +1 exactly for player 0 and -1 for anyone else. |
| BasicAi.ForwardMoves | backend/game/ai/basic_ai.py:157-177 | The forward class is exactly the listed steps onto empty squares in the forward row direction, and it is empty exactly when there are none. |
| BasicAi.ForwardMeansRowDirection | backend/game/ai/basic_ai.py:163-176 | A forward step goes onto an empty square, down the board for player 0 and up it for anyone else. |
| BasicAi.AllValidMovesOccupied | backend/game/board.py:244-251 | Every listed pair has a unit at its origin, and its move starts there. |
| BasicAi.GetMove | backend/game/ai/basic_ai.py:28-74 | The agent proposes nothing exactly when its player has no legal move, and otherwise proposes one of the listed moves. |
| BasicAi.Cascade | backend/game/ai/basic_ai.py:46-74 | The cascade always returns one of the listed moves. |
| BasicAi.AfterFlags | backend/game/ai/basic_ai.py:51-56 | The sure-win step returns a listed move. |
| BasicAi.AfterWins | backend/game/ai/basic_ai.py:58-61 | The defence step returns a listed move. |
| BasicAi.AfterDefence | backend/game/ai/basic_ai.py:63-66 | The safe-attack step returns a listed move. |
| BasicAi.AfterSafe | backend/game/ai/basic_ai.py:68-74 | The forward step and the final random fallback return a listed move. |
| BasicAi.GetMoveIsLegal | backend/game/ai/basic_ai.py:41-74 | A proposed move is only made on the agent's own turn, and `make_move` accepts it. |
| BasicAi.CascadePrefersFlag | backend/game/ai/basic_ai.py:46-49 | If any listed move reaches a flag, the chosen move reaches a flag. |
| BasicAi.GetMovePrefersFlag | backend/game/ai/basic_ai.py:41-49 | If any legal move of the agent reaches a flag, the agent proposes a flag capture. |
| BasicAi.CascadeTakesBestWin | backend/game/ai/basic_ai.py:51-56 | With no flag in reach and some sure win, the chosen move is the first sure win with the largest key, whatever the random input. |
| BasicAi.BestWinIsMaximal | backend/game/ai/basic_ai.py:52-56 | The chosen sure win comes from a winning pair whose key no other winning pair exceeds. |
| BasicAi.BestWinBreaksTiesInOrder | backend/game/ai/basic_ai.py:55-56 | Ties among the best sure wins go to the one listed first. |
| BasicAi.GetMoveTakesBestWin | backend/game/ai/basic_ai.py:41-56 | With no flag in reach, a sure win is proposed whenever one exists. Its key is at least that of any other sure win, and the choice does not depend on the random input. |
| BasicAi.CascadeDefends | backend/game/ai/basic_ai.py:58-61 | With no flag capture and no sure win, a move next to the agent's flag is chosen whenever one exists. |
| BasicAi.CascadeAttacksSafely | backend/game/ai/basic_ai.py:63-66 | If no earlier class applies, a safe attack is chosen whenever one exists. |
| BasicAi.CascadeAdvances | backend/game/ai/basic_ai.py:68-71 | If no earlier class applies, a forward step onto an empty square is chosen whenever one exists. |
| BasicAi.EveryCandidateCanBeChosen | backend/game/ai/basic_ai.py:46-74 | Each random class and the final fallback are covered in full: every member of the class that decides is the choice for some random input. |

## Left out

- The tree-search agent (`backend/game/ai/mcts_ai.py`) is not modelled. It relies on a wall-clock budget, floating-point UCT scores and random playouts.
- The HTTP layer and game sessions (`backend/main.py`) are not modelled. They are I/O plumbing.
- The abstract agent interface (`backend/game/ai/base_ai.py`) needs no counterpart. It holds no logic, and `BasicAi.GetMove` takes the agent's player id directly.
- `clone` is not modelled. Boards are immutable values, so a copy can never alias the original.
- The random shuffles and random choices are not modelled as such. The shuffle becomes a permutation input, and a random choice becomes the candidate at `pick % |list|`.
- GameBoard.SetupBoard: the caller's placement order must be a permutation of 0..20. The source does not check this, and backend/main.py:90 passes the request's order through unchecked. A repeated index would put one unit object on two squares, and an index of 21 or more raises an error. A negative index from -21 to -1 is accepted, because Python counts it from the end of the team list (backend/game/board.py:95-96). So an order that mixes negative indices and still names every member once places a complete team, but the model's precondition excludes it.
- GameBoard.MakeMove: a unit that dies is removed from the grid, but its alive flag is not set to false in the model. The one place the source reads a dead unit's flag is the flag-capture test right after the battle (backend/game/board.py:218, `target.is_alive`); the model reads the resolver's `defenderSurvives` flag there instead, which is the value the source has just written into `is_alive`.
- Rules.Resolve: the military police branch calls `reveal` on the other unit inside the resolver. The model has no such side effect, because every result already carries both reveal flags set to true and `make_move` applies them.
- BasicAi.WinningBattles: the agent simulates battles with the real resolver, and `reveal` is a side effect of that resolver. A military police unit on either side of a simulated battle therefore reveals a unit on the real board. A later pair in the same scan, or the safe-attack scan, can then read that unit as revealed. The model reads every key and reveal flag from the board as it was before the agent ran, and it does not model the reveal side effect on the board.
- BasicAi.WinningBattles: requires every listed origin to hold a unit. This always holds for lists built by `get_all_valid_moves` (`BasicAi.AllValidMovesOccupied`), and the source would fail on an empty origin.
- BasicAi.SafeAttacks: requires occupied origins, for the same reason as `BasicAi.WinningBattles`.
- The accumulation loops of `get_all_valid_moves` and of the agent's finders are modelled as recursive functions over the pairs, with their loop order made explicit (`RowPairs`, `TablePairs`, `Keep`, `Collect`).
