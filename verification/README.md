# Tic-tac-toe solver and turn logic, in Dafny

This project models the core of a Rust tic-tac-toe program, in two parts.
- **The solver (src/game.rs).** It builds the complete, unpruned minimax tree of the game from the empty board with X to move. It then compiles a table that maps every board of the tree to its legal moves, ranked best first for the side to move.
- **The turn logic (src/main.rs).** The `State` behind the window places marks and detects the end of the game. In a single-player game it answers each human move from that table.

Three modules:

- `StableSort` (sort.dfy): the `sort_by` the ranking uses, descending by score. It is stable, as Rust's `sort_by` is. Modelled as a stable insertion sort.
- `Game` (game.dfy): src/game.rs.
  - **Loops become methods.** `is_won`, `get_moves`, `get_boards`, `board_to_string`, `add_boards` and `calc_ai` are methods with the source's loops. Each is proved equal to a specification function: `Classify`, `EmptyCells`, `Tree`, `Key`, `Compile` and `RankingTable`.
  - **The running best.** `get_boards` keeps its running best and doubles terminal children in place.
  - **The table.** `add_boards` takes the table in and hands it back out, which models the `&mut HashMap`.
  - **Lemmas.** They state what the tree and the table mean.
- `App` (app.dfy): src/main.rs. `State` is a class.
  - **Fields.** The nine cells are an array overwritten in place. `turn`, `command` and `player` are mutable fields. `hash` is a `const` field: the table is assigned once, at start-up.
  - **Ghost history.** A ghost `history` records the cells played since the last reset. `Valid()` ties the board to legal play from the empty board, X first.
  - **Table invariant.** `Valid()` also requires the table to be faithful and covering. Faithful means each entry is the ranking of its own board's tree. Covering means every undecided board that play can reach has an entry.
  - **Safe lookups.** From these invariants, `Update` proves that the table lookup and its `unwrap`s always succeed. It also proves that the computer always plays a free cell.
  - **Structure of `update`.** Its `Message::Click` arm is the method `Press`. The computer's answer inside it is `Respond`.

Names that would clash in Dafny:
- `EndType::None` is `Ongoing`.
- `Command::None` is `NoAlert`.
- `Message::None` is `Nothing`.

## Model

| member | source | states |
|---|---|---|
| Game.NewTurn | src/game.rs:88-94 | X and O swap; every other value gives a side that is neither X nor O nor `Multi` |
| Game.IsWon | src/game.rs:37-61 | `Win` iff one of the eight triples holds three equal non-empty cells, even on a full board; `Draw` iff no triple wins and no cell is empty; otherwise the game goes on |
| Game.WinStays | src/game.rs:23-54 | filling an empty cell of a won board leaves it won |
| Game.EmptyCellsExact | src/game.rs:78-86 | the move list holds exactly the empty cells, in strictly ascending order |
| Game.GetMoves | src/game.rs:78-86 | the loop returns the move list; every entry is an in-range empty cell |
| Game.TreeShape | src/game.rs:96-121 | a decided board gives a childless terminal node with the board unchanged, scored 0 for a draw or the weight of `new_turn(turn)` for a win; an undecided board gives one child per empty cell in ascending order, each child's board the parent's with that cell set to `turn`, built with the other side to move, its terminal score doubled |
| Game.BestExtreme | src/game.rs:117-130 | the running best, started at -1 for X and 1 for O, ends as the largest (X) or smallest (O) score and is one of them, for scores in -1..1 |
| Game.TreeRange | src/game.rs:96-145 | every node's score lies in -1..1 |
| Game.TreeValue | src/game.rs:117-130 | an undecided node has children, and its score is the maximum (X) or minimum (O) of the children's undoubled scores |
| Game.StoredScores | src/game.rs:121-133 | a stored child score is the child's value, doubled exactly when the child is terminal; it lies in -2..2, equals twice the mover's weight iff the move wins at once, and is never the opposite |
| Game.TreeWellFormed | src/game.rs:96-145 | every node of a tree built from real cells is well formed at every depth: terminal exactly on decided boards, children exactly the empty cells in order, each child one mark further, the sides alternating |
| Game.GetBoards | src/game.rs:96-146 | the recursive loop with its running best and in-place doubling builds exactly the game tree `Tree(turn, board)` |
| Game.BoardToString | src/game.rs:148-154 | the loop builds the key: the cells' display strings concatenated in board order |
| Game.KeyRoundTrip | src/game.rs:12-21 | for cells X, O and empty the key has one symbol per cell, each from 'X', 'O' and ' ', and reads back to the board |
| Game.KeyInjective | src/game.rs:148-154 | two boards of real cells with the same key are the same board |
| StableSort.SortPermutes | src/game.rs:161 | sorting returns a permutation of the scored moves |
| StableSort.SortKeepsIndices | src/game.rs:161-162 | the indices of the sorted moves are a permutation of the input indices |
| StableSort.SortOrdered | src/game.rs:161 | the sorted moves descend by score, and moves of equal score keep their ascending index order |
| Game.RankingPermutes | src/game.rs:160-162 | a node's ranking is a permutation of its move indices |
| Game.RankingOrdered | src/game.rs:160-162 | the ranking descends by stored child score, ties in ascending cell order |
| Game.RankingFirstIsTop | src/game.rs:160-162 | when some move has the highest stored score, the first ranked cell has that score |
| Game.RankingLastIsBottom | src/game.rs:160-162 | when some move has the lowest stored score, the last ranked cell has that score |
| Game.CompileKeeps | src/game.rs:157-167 | compiling never overwrites or removes an entry |
| Game.CompileEntry | src/game.rs:158-164 | the root's key ends up in the table, bound to the root's ranking unless it was already present |
| Game.CompileCovers | src/game.rs:165-167 | after compiling, the key of every node of the tree is in the table |
| Game.CompileIdle | src/game.rs:157-167 | a table that already holds every key of the tree comes back unchanged |
| Game.CompileIdempotent | src/game.rs:157-167 | compiling the same tree a second time changes nothing |
| Game.CompileSound | src/game.rs:157-167 | compiling a well-formed tree keeps every entry a permutation of its board's empty cells, empty for decided boards |
| Game.MarkPlaced | src/game.rs:118-121 | on a balanced board, the mark of the side to move keeps the board balanced and hands the move to the other side |
| Game.CompileFaithful | src/game.rs:157-167 | compiling a tree built with each board's own side to move keeps every entry equal to the ranking of its board's own tree |
| Game.AddBoards | src/game.rs:157-168 | the recursive loop leaves exactly the compiled table |
| Game.CalcAi | src/game.rs:170-175 | the table is the one compiled from the tree of the empty board with X to move |
| Game.TableFacts | src/game.rs:170-175 | that table is sound, faithful, and holds every board of the tree |
| Game.ReplayAppend | src/main.rs:52-69 | a legal sequence of moves extends by any empty cell of the board it reaches, and that cell gets the side whose turn it is |
| Game.ReplayKeepsWin | src/game.rs:23-54 | once a board is won, further legal moves leave it won |
| Game.ReplayMover | src/main.rs:57-68 | play from the empty board keeps the board balanced, and the side whose turn it is is the one the mark counts say |
| Game.ReachedInTree | src/game.rs:115-121 | the tree contains every undecided board that legal play reaches from its root |
| Game.TableServesPlay | src/game.rs:170-175 | the computed table is faithful and has an entry for every undecided board reachable from the empty board |
| Game.ReachableBoardsHaveReplies | src/main.rs:87-94 | in such a table, the entry of a reachable undecided board is the ranking of that board's own tree, with the side whose turn it is to move |
| Game.RepliesAreEmptyCells | src/main.rs:87-94 | that entry is a non-empty permutation of the board's empty cells, so every cell it names is free |
| Game.EmptyBoardOngoing | src/game.rs:55-60 | the empty board is undecided |
| Game.OneMarkOngoing | src/main.rs:109-113 | a single mark on the empty board decides nothing |
| Game.ImmediateWinRanked | src/game.rs:117-133 | when the side to move can win at once, its preferred ranked cell, the first for X and the last for O, wins at once |
| App.ReplyTakesWin | src/main.rs:87-94 | the cell the computer takes from a board's ranking wins at once whenever a winning cell exists |
| App.State.constructor | src/main.rs:33-48 | start-up state: empty board, X to move, no alert, two humans, and the table is exactly the one `calc_ai` computes (`RankingTable()`), so it is faithful and covers every reachable undecided board |
| App.State.Play | src/main.rs:52-73 | an out-of-range or taken cell changes nothing and returns true; otherwise only that cell changes, to the mover, the turn flips even when the game ends, the result is true iff the board is decided, and exactly then the alert is set ("X Wins!", "O Wins!" or "Draw!") |
| App.State.Respond | src/main.rs:87-94 | on an undecided board, the table entry exists, is the ranking of the board's tree, is non-empty, and the computer plays its last cell (human X) or first cell (human O), a free cell |
| App.State.Press | src/main.rs:77-95 | a click out of turn in single-player mode changes nothing; a refused cell changes nothing; in two-player mode, or when the move decides the game, only the human move is played; otherwise the computer answers as `Respond` states |
| App.State.Update | src/main.rs:74-104 | `Nothing` changes nothing; `Click` behaves as `Press`; `Reset` restarts; `Player(p)` sets the human's side to p and restarts; every state stays reachable by legal play and the table stays faithful |
| App.State.Reset | src/main.rs:105-114 | the alert is cleared, X is to move and the board is empty; when the human is O, the computer has placed one X on a cell of the empty board's ranking and O is to move |

## Left out

- Rendering and start-up (src/main.rs:115-203) are window code: `view`, `create_button` and `main`.
- The random opening move in `reset` (`choose` over the ranking) is a nondeterministic choice of some element of the ranking. No random number generator is modelled.
- App.State.constructor does not model the `player == O` branch of `Default::default`. The player is `Multi` there, so the branch never runs.
- App.State.Reset: its postcondition says the computer's opening cell is some cell of the empty board, not the table entry it came from. That entry lists all nine cells (`RepliesAreEmptyCells`), so nothing is lost.
- The `unwrap`s in `update` and `reset` are not modelled as panics. `Respond` and `Reset` prove that the lookups succeed and that the rankings are non-empty.
- Game.GetBoards requires the side to move to be X or O, the only values the source passes to `get_boards`: `calc_ai` passes X, and the recursion passes `new_turn` of X or O. With `None` to move on an undecided board the source's recursion never ends, because `b[i] = None` leaves the board unchanged.
- The `i8` scores are unbounded integers. `TreeRange` and `StoredScores` show they stay within -2..2, so the `i8` arithmetic never overflows.
- A `Multi` value on the board is allowed by the type, as in the source. The key and table lemmas assume boards of X, O and empty cells, which is all play can produce (`ReplayOnlyCells`).
- Rust ownership and moves of `Boards` values, and the `HashMap`'s hashing and iteration order, are not modelled. Only the map's contents matter to the program.
- Nothing is proved about the concrete values of the full tree, such as the value of the empty board. The lemmas hold for every board.
