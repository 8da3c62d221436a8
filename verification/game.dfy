/**
 * The exhaustive tic-tac-toe solver of src/game.rs: board classification,
 * move enumeration, the unpruned minimax tree, board keys, and the table
 * that maps every board of the tree to its ranked replies.
 */
module Game {
  import opened StableSort

  /** A side or a cell value; the source's discriminants serve as score weights. */
  datatype Turn = X | O | None | Multi

  /** Outcome of a board; the source's `EndType::None` is `Ongoing` here. */
  datatype EndType = Ongoing | Win | Draw

  type Index = i: nat | i < 9

  /** Nine cells in row-major order (`[Turn; 9]`). */
  type Board = b: seq<Turn> | |b| == 9 witness [None, None, None, None, None, None, None, None, None]

  /** `[Turn::None; 9]`. */
  function EmptyBoard(): Board {
    seq(9, _ => None)
  }

  /** The eight winning triples, in the order `is_won` tries them. */
  const Lines: seq<(Index, Index, Index)> :=
    [(0, 1, 2), (3, 4, 5), (6, 7, 8),
     (0, 3, 6), (1, 4, 7), (2, 5, 8),
     (0, 4, 8), (6, 4, 2)]

  /** `turn as i8`: the score unit a side contributes. */
  function Weight(t: Turn): int {
    match t
    case X => 1
    case O => -1
    case None => 0
    case Multi => 2
  }

  /** `new_turn`: X and O swap; anything else becomes None. */
  function NewTurn(t: Turn): (r: Turn)
    ensures r == X <==> t == O
    ensures r == O <==> t == X
    ensures r != Multi
  {
    match t
    case X => O
    case O => X
    case _ => None
  }

  /** Boards made of real cells only (no `Multi` mark). */
  predicate OnlyCells(b: seq<Turn>) {
    forall i :: 0 <= i < |b| ==> b[i] != Multi
  }

  // ---------------------------------------------------------------------------
  // Terminal classifier
  // ---------------------------------------------------------------------------

  /** `check`: the three cells hold the same mark and it is not None. */
  predicate Check(board: Board, a: Index, b: Index, c: Index) {
    board[a] == board[b] && board[a] == board[c] && board[a] != None
  }

  predicate HasLine(board: Board) {
    exists k :: 0 <= k < |Lines| && Check(board, Lines[k].0, Lines[k].1, Lines[k].2)
  }

  predicate Full(board: Board) {
    forall i :: 0 <= i < 9 ==> board[i] != None
  }

  /** A won board is a win even when it is also full. */
  function Classify(board: Board): EndType {
    if HasLine(board) then Win else if Full(board) then Draw else Ongoing
  }

  /** `is_won`: the triples first, then a scan for an empty cell. */
  method IsWon(board: Board) returns (r: EndType)
    ensures r == Win <==> HasLine(board)
    ensures r == Draw <==> !HasLine(board) && Full(board)
    ensures r == Ongoing <==> !HasLine(board) && !Full(board)
    ensures r == Classify(board)
  {
    for k := 0 to |Lines|
      invariant forall j :: 0 <= j < k ==> !Check(board, Lines[j].0, Lines[j].1, Lines[j].2)
    {
      var (a, b, c) := Lines[k];
      if Check(board, a, b, c) {
        return Win;
      }
    }
    for i := 0 to 9
      invariant forall j :: 0 <= j < i ==> board[j] != None
    {
      if board[i] == None {
        return Ongoing;
      }
    }
    return Draw;
  }

  /** Filling an empty cell never undoes a win: the winning triple holds no empty cell. */
  lemma WinStays(board: Board, i: Index, t: Turn)
    requires board[i] == None
    requires Classify(board) == Win
    ensures Classify(board[i := t]) == Win
  {
    var k :| 0 <= k < |Lines| && Check(board, Lines[k].0, Lines[k].1, Lines[k].2);
    assert Check(board[i := t], Lines[k].0, Lines[k].1, Lines[k].2);
  }

  // ---------------------------------------------------------------------------
  // Move enumerator
  // ---------------------------------------------------------------------------

  /** The indices of the empty cells, in board order. */
  function EmptyCells(board: seq<Turn>): (r: seq<nat>)
    ensures forall k :: 0 <= k < |r| ==> r[k] < |board| && board[r[k]] == None
    decreases |board|
  {
    if board == [] then []
    else
      var rest := EmptyCells(board[..|board| - 1]);
      if board[|board| - 1] == None then rest + [|board| - 1] else rest
  }

  /** Exactly the empty cells are listed, each once, in strictly ascending order. */
  lemma {:induction false} EmptyCellsExact(board: seq<Turn>)
    ensures forall i :: 0 <= i < |board| ==> (i in EmptyCells(board) <==> board[i] == None)
    ensures Increasing(EmptyCells(board))
    decreases |board|
  {
    if board != [] {
      var p := board[..|board| - 1];
      EmptyCellsExact(p);
      forall i | 0 <= i < |p| ensures board[i] == p[i] {}
    }
  }

  /** `get_moves`. */
  method GetMoves(board: Board) returns (moves: seq<nat>)
    ensures moves == EmptyCells(board)
    ensures forall k :: 0 <= k < |moves| ==> moves[k] < 9 && board[moves[k]] == None
  {
    moves := [];
    for i := 0 to 9
      invariant moves == EmptyCells(board[..i])
    {
      assert board[..i + 1][..i] == board[..i];
      if board[i] == None {
        moves := moves + [i];
      }
    }
    assert board[..9] == board;
  }

  /** The empty cells, as a set; it shrinks with every move and bounds the recursion. */
  function Vacant(board: Board): set<nat> {
    set i: nat | i < 9 && board[i] == None
  }

  lemma VacantShrinks(board: Board, i: Index, t: Turn)
    requires board[i] == None && t != None
    ensures Vacant(board[i := t]) < Vacant(board)
  {
    assert i in Vacant(board) - Vacant(board[i := t]);
  }

  // ---------------------------------------------------------------------------
  // Tree builder
  // ---------------------------------------------------------------------------

  /** A child of a node: the cell played and the node it leads to (`Move`). */
  datatype Move = Move(index: nat, node: Boards)

  /** A game-tree node (`Boards`). */
  datatype Boards = Boards(score: int, end: bool, board: Board, moves: seq<Move>)

  /** The score a parent stores for a child: a terminal child's score is doubled. */
  function Recorded(child: Boards): Boards {
    if child.end then child.(score := child.score * 2) else child
  }

  /** One step of the running best: max for X, min for O. */
  function Improve(turn: Turn, s: int, c: int): int {
    if turn == X then (if c > s then c else s) else (if c < s then c else s)
  }

  /** The running best over the child scores, from -1 (X) or 1 (O). */
  function Best(turn: Turn, scores: seq<int>): int
    decreases |scores|
  {
    if scores == [] then (if turn == X then -1 else 1)
    else Improve(turn, Best(turn, scores[..|scores| - 1]), scores[|scores| - 1])
  }

  function Scores(nodes: seq<Boards>): seq<int> {
    seq(|nodes|, k requires 0 <= k < |nodes| => nodes[k].score)
  }

  function Indices(moves: seq<Move>): seq<nat> {
    seq(|moves|, k requires 0 <= k < |moves| => moves[k].index)
  }

  /** The game tree that `get_boards(turn, board)` returns. */
  function Tree(turn: Turn, board: Board): Boards
    requires turn == X || turn == O
    decreases Vacant(board), 1
  {
    match Classify(board)
    case Draw => Boards(0, true, board, [])
    case Win => Boards(Weight(NewTurn(turn)), true, board, [])
    case Ongoing =>
      var kids := Kids(turn, board);
      Boards(Best(turn, Scores(kids)), false, board, Links(EmptyCells(board), kids))
  }

  /** The subtrees below `board`, one per empty cell in ascending order, each with the other side to move. */
  function Kids(turn: Turn, board: Board): (kids: seq<Boards>)
    requires turn == X || turn == O
    ensures |kids| == |EmptyCells(board)|
    decreases Vacant(board), 0
  {
    var ms := EmptyCells(board);
    seq(|ms|, k requires 0 <= k < |ms| =>
      assert ms[k] in Vacant(board);
      Tree(NewTurn(turn), board[ms[k] := turn]))
  }

  /** The moves a node records: each cell with its child's recorded node. */
  function Links(ms: seq<nat>, kids: seq<Boards>): (r: seq<Move>)
    requires |kids| == |ms|
    ensures |r| == |ms|
  {
    seq(|ms|, k requires 0 <= k < |ms| => Move(ms[k], Recorded(kids[k])))
  }

  lemma LinksSnoc(ms: seq<nat>, kids: seq<Boards>, j: nat)
    requires |kids| == |ms| && j < |ms|
    ensures Links(ms[..j + 1], kids[..j + 1]) == Links(ms[..j], kids[..j]) + [Move(ms[j], Recorded(kids[j]))]
  {
  }

  /** `get_boards`: builds the tree with a loop, a running best and in-place doubling. */
  method GetBoards(turn: Turn, board: Board) returns (r: Boards)
    requires turn == X || turn == O
    ensures r == Tree(turn, board)
    decreases Vacant(board)
  {
    var w := IsWon(board);
    if w != Ongoing {
      if w == Draw {
        return Boards(0, true, board, []);
      } else {
        return Boards(Weight(NewTurn(turn)), true, board, []);
      }
    }
    var moves := GetMoves(board);
    ghost var kids := Kids(turn, board);
    ghost var raw := Scores(kids);
    var vec: seq<Move> := [];
    var s := if turn == X then -1 else 1;
    for j := 0 to |moves|
      invariant vec == Links(moves[..j], kids[..j])
      invariant s == Best(turn, raw[..j])
    {
      var i := moves[j];
      var b := board[i := turn];
      VacantShrinks(board, i, turn);
      var boards := GetBoards(NewTurn(turn), b);
      assert boards == kids[j];
      assert raw[..j + 1][..j] == raw[..j];
      if turn == X {
        if boards.score > s {
          s := boards.score;
        }
      } else {
        if boards.score < s {
          s := boards.score;
        }
      }
      if boards.end {
        boards := boards.(score := boards.score * 2);
      }
      vec := vec + [Move(i, boards)];
      LinksSnoc(moves, kids, j);
    }
    assert raw[..|moves|] == raw;
    assert moves[..|moves|] == moves && kids[..|kids|] == kids;
    r := Boards(s, false, board, vec);
    assert Classify(board) == Ongoing;
  }

  /**
   * A decided board gives a childless terminal node scored 0 for a draw, or
   * the weight of the side that just moved for a win; an undecided board gives
   * one child per empty cell, in ascending order, whose board is the parent's
   * with that cell set to the mover and whose subtree has the other side to move.
   */
  lemma TreeShape(turn: Turn, board: Board)
    requires turn == X || turn == O
    ensures Tree(turn, board).board == board
    ensures Tree(turn, board).end == (Classify(board) != Ongoing)
    ensures var r := Tree(turn, board);
      r.end ==> r.moves == [] && r.score == (if Classify(board) == Draw then 0 else Weight(NewTurn(turn)))
    ensures var r := Tree(turn, board);
      !r.end ==> (Indices(r.moves) == EmptyCells(board) &&
        forall k :: 0 <= k < |r.moves| ==>
          r.moves[k].index < 9 &&
          r.moves[k].node.board == board[r.moves[k].index := turn] &&
          r.moves[k].node == Recorded(Tree(NewTurn(turn), board[r.moves[k].index := turn])))
  {
    if Classify(board) == Ongoing {
      var ms := EmptyCells(board);
      forall k | 0 <= k < |ms| ensures Tree(NewTurn(turn), board[ms[k] := turn]).board == board[ms[k] := turn] {
        TreeBoard(NewTurn(turn), board[ms[k] := turn]);
      }
    }
  }

  lemma TreeBoard(turn: Turn, board: Board)
    requires turn == X || turn == O
    ensures Tree(turn, board).board == board
  {
  }

  /** Each empty cell of an undecided board is one of its node's moves. */
  lemma MoveFor(turn: Turn, board: Board, i: Index) returns (k: nat)
    requires turn == X || turn == O
    requires Classify(board) == Ongoing
    requires board[i] == None
    ensures k < |Tree(turn, board).moves| && Tree(turn, board).moves[k].index == i
  {
    EmptyCellsExact(board);
    TreeShape(turn, board);
    var ms := EmptyCells(board);
    assert i in ms;
    k :| 0 <= k < |ms| && ms[k] == i;
    assert Indices(Tree(turn, board).moves)[k] == i;
  }

  /** With scores in -1..1, the running best is the largest score (X) or the smallest (O). */
  lemma {:induction false} BestExtreme(turn: Turn, scores: seq<int>)
    requires turn == X || turn == O
    requires |scores| > 0
    requires forall k :: 0 <= k < |scores| ==> -1 <= scores[k] <= 1
    ensures -1 <= Best(turn, scores) <= 1
    ensures exists k :: 0 <= k < |scores| && scores[k] == Best(turn, scores)
    ensures turn == X ==> forall k :: 0 <= k < |scores| ==> scores[k] <= Best(turn, scores)
    ensures turn == O ==> forall k :: 0 <= k < |scores| ==> scores[k] >= Best(turn, scores)
    decreases |scores|
  {
    var n := |scores|;
    var p := scores[..n - 1];
    if n == 1 {
      assert p == [];
      assert scores[0] == Best(turn, scores);
    } else {
      BestExtreme(turn, p);
      var kp :| 0 <= kp < |p| && p[kp] == Best(turn, p);
      if Best(turn, scores) == scores[n - 1] {
        assert scores[n - 1] == Best(turn, scores);
      } else {
        assert scores[kp] == Best(turn, scores);
      }
      forall k | 0 <= k < n - 1 ensures scores[k] == p[k] {}
    }
  }

  /** An undecided board has at least one empty cell. */
  lemma OngoingHasMove(board: Board)
    requires Classify(board) == Ongoing
    ensures |EmptyCells(board)| > 0
  {
    EmptyCellsExact(board);
    var i :| 0 <= i < 9 && board[i] == None;
    assert i in EmptyCells(board);
  }

  /** The `k`-th subtree is the tree of the `k`-th empty cell filled by the mover. */
  lemma KidAt(turn: Turn, board: Board, k: nat)
    requires turn == X || turn == O
    requires k < |EmptyCells(board)|
    ensures EmptyCells(board)[k] < 9
    ensures Kids(turn, board)[k] == Tree(NewTurn(turn), board[EmptyCells(board)[k] := turn])
    ensures Vacant(board[EmptyCells(board)[k] := turn]) < Vacant(board)
  {
    VacantShrinks(board, EmptyCells(board)[k], turn);
  }

  /** Every node's value lies in -1..1. */
  lemma {:induction false} TreeRange(turn: Turn, board: Board)
    requires turn == X || turn == O
    ensures -1 <= Tree(turn, board).score <= 1
    decreases Vacant(board)
  {
    if Classify(board) == Ongoing {
      var ms := EmptyCells(board);
      var kids := Kids(turn, board);
      forall k | 0 <= k < |ms| ensures -1 <= Scores(kids)[k] <= 1 {
        KidAt(turn, board, k);
        TreeRange(NewTurn(turn), board[ms[k] := turn]);
      }
      OngoingHasMove(board);
      BestExtreme(turn, Scores(kids));
    }
  }

  /**
   * An undecided node's value is the largest (X to move) or smallest (O to
   * move) of its children's values, each taken undoubled from the child's
   * own subtree.
   */
  lemma TreeValue(turn: Turn, board: Board)
    requires turn == X || turn == O
    ensures var r := Tree(turn, board);
      !r.end ==> (|r.moves| > 0 &&
        (exists k :: 0 <= k < |r.moves| && Tree(NewTurn(turn), r.moves[k].node.board).score == r.score) &&
        (forall k :: 0 <= k < |r.moves| ==>
          (turn == X ==> Tree(NewTurn(turn), r.moves[k].node.board).score <= r.score) &&
          (turn == O ==> Tree(NewTurn(turn), r.moves[k].node.board).score >= r.score)))
  {
    if Classify(board) == Ongoing {
      var ms := EmptyCells(board);
      var kids := Kids(turn, board);
      var r := Tree(turn, board);
      assert r.moves == Links(ms, kids);
      forall k | 0 <= k < |ms|
        ensures -1 <= Scores(kids)[k] <= 1
        ensures Tree(NewTurn(turn), r.moves[k].node.board) == kids[k]
      {
        KidAt(turn, board, k);
        TreeRange(NewTurn(turn), board[ms[k] := turn]);
        TreeShape(NewTurn(turn), board[ms[k] := turn]);
      }
      OngoingHasMove(board);
      BestExtreme(turn, Scores(kids));
      var w :| 0 <= w < |kids| && Scores(kids)[w] == r.score;
      assert Tree(NewTurn(turn), r.moves[w].node.board).score == r.score;
    }
  }

  /**
   * The score a node stores for a child is the child's value, doubled when
   * the child is terminal; so it lies in -2..2, it equals twice the mover's
   * weight exactly when the move wins at once, and it is never the opposite.
   */
  lemma StoredScores(turn: Turn, board: Board)
    requires turn == X || turn == O
    ensures var r := Tree(turn, board);
      forall k :: 0 <= k < |r.moves| ==>
        var c := r.moves[k].node;
        c.score == (if c.end then 2 * Tree(NewTurn(turn), c.board).score else Tree(NewTurn(turn), c.board).score) &&
        -2 <= c.score <= 2 &&
        (c.score == 2 * Weight(turn) <==> Classify(c.board) == Win) &&
        c.score != -2 * Weight(turn)
  {
    var r := Tree(turn, board);
    TreeShape(turn, board);
    forall k | 0 <= k < |r.moves|
      ensures var c := r.moves[k].node;
        c.score == (if c.end then 2 * Tree(NewTurn(turn), c.board).score else Tree(NewTurn(turn), c.board).score) &&
        -2 <= c.score <= 2 &&
        (c.score == 2 * Weight(turn) <==> Classify(c.board) == Win) &&
        c.score != -2 * Weight(turn)
    {
      var b := board[r.moves[k].index := turn];
      TreeShape(NewTurn(turn), b);
      TreeRange(NewTurn(turn), b);
    }
  }

  /**
   * The structural invariants of a game tree built with `turn` to move at its
   * root: real cells only, terminal exactly on decided boards, no children
   * there, otherwise one child per empty cell in ascending order, each child's
   * board the parent's with the mover's mark added, the sides alternating.
   */
  ghost predicate WellFormed(turn: Turn, n: Boards)
    decreases n
  {
    (turn == X || turn == O) &&
    OnlyCells(n.board) &&
    n.end == (Classify(n.board) != Ongoing) &&
    (n.end ==> n.moves == []) &&
    (!n.end ==> Indices(n.moves) == EmptyCells(n.board)) &&
    forall k :: 0 <= k < |n.moves| ==>
      n.moves[k].index < 9 &&
      n.moves[k].node.board == n.board[n.moves[k].index := turn] &&
      WellFormed(NewTurn(turn), n.moves[k].node)
  }

  lemma RecordedWellFormed(turn: Turn, n: Boards)
    requires WellFormed(turn, n)
    ensures WellFormed(turn, Recorded(n))
  {
  }

  lemma {:induction false} TreeWellFormed(turn: Turn, board: Board)
    requires turn == X || turn == O
    requires OnlyCells(board)
    ensures WellFormed(turn, Tree(turn, board))
    decreases Vacant(board)
  {
    var r := Tree(turn, board);
    TreeShape(turn, board);
    forall k | 0 <= k < |r.moves| ensures WellFormed(NewTurn(turn), r.moves[k].node) {
      var i := r.moves[k].index;
      VacantShrinks(board, i, turn);
      TreeWellFormed(NewTurn(turn), board[i := turn]);
      RecordedWellFormed(NewTurn(turn), Tree(NewTurn(turn), board[i := turn]));
      TreeShape(NewTurn(turn), board[i := turn]);
    }
  }

  // ---------------------------------------------------------------------------
  // Key encoder
  // ---------------------------------------------------------------------------

  /** `Display for Turn`. */
  function Glyph(t: Turn): string {
    match t
    case X => "X"
    case O => "O"
    case None => " "
    case Multi => "Multiplayer"
  }

  /** The board's key: the glyphs of its cells, in board order. */
  function Key(board: seq<Turn>): string
    decreases |board|
  {
    if board == [] then [] else Key(board[..|board| - 1]) + Glyph(board[|board| - 1])
  }

  /** The cell a key symbol stands for. */
  function Cell(c: char): Turn {
    if c == 'X' then X else if c == 'O' then O else None
  }

  /** Reads a key back into cells. */
  function Decode(key: string): (b: seq<Turn>)
    ensures |b| == |key|
  {
    seq(|key|, i requires 0 <= i < |key| => Cell(key[i]))
  }

  /** `board_to_string`. */
  method BoardToString(board: Board) returns (s: string)
    ensures s == Key(board)
  {
    s := [];
    for i := 0 to 9
      invariant s == Key(board[..i])
    {
      assert board[..i + 1][..i] == board[..i];
      s := s + Glyph(board[i]);
    }
    assert board[..9] == board;
  }

  /** A key of real cells has one symbol per cell, from {'X', 'O', ' '}, and decodes back to the board. */
  lemma {:induction false} KeyRoundTrip(b: seq<Turn>)
    requires OnlyCells(b)
    ensures |Key(b)| == |b|
    ensures forall i :: 0 <= i < |b| ==> Key(b)[i] in "XO "
    ensures Decode(Key(b)) == b
    decreases |b|
  {
    if b != [] {
      var p, t := b[..|b| - 1], b[|b| - 1];
      KeyRoundTrip(p);
      var c := if t == X then 'X' else if t == O then 'O' else ' ';
      assert Glyph(t) == [c];
      assert Key(b) == Key(p) + [c];
      assert Cell(c) == t;
      assert Decode(Key(b)) == Decode(Key(p)) + [Cell(c)];
      assert b == p + [t];
    }
  }

  /** The key identifies the board. */
  lemma KeyInjective(a: Board, b: Board)
    requires OnlyCells(a) && OnlyCells(b)
    requires Key(a) == Key(b)
    ensures a == b
  {
    KeyRoundTrip(a);
    KeyRoundTrip(b);
  }

  // ---------------------------------------------------------------------------
  // Table compiler
  // ---------------------------------------------------------------------------

  type Table = map<string, seq<nat>>

  /** The (stored score, index) pairs of a node's moves, in move order. */
  function Pairs(n: Boards): seq<Scored> {
    seq(|n.moves|, k requires 0 <= k < |n.moves| => (n.moves[k].node.score, n.moves[k].index))
  }

  /** The move indices stable-sorted by descending stored child score. */
  function Ranking(n: Boards): seq<nat> {
    Seconds(SortDesc(Pairs(n)))
  }

  /** The stored score of the first move with index `i` (0 if none). */
  function StoredScore(moves: seq<Move>, i: nat): int {
    if moves == [] then 0
    else if moves[0].index == i then moves[0].node.score
    else StoredScore(moves[1..], i)
  }

  /** Sorting reorders the moves only: the ranking is a permutation of the node's move indices. */
  lemma RankingPermutes(n: Boards)
    ensures |Ranking(n)| == |n.moves|
    ensures multiset(Ranking(n)) == multiset(Indices(n.moves))
  {
    SortPermutes(Pairs(n));
    SortKeepsIndices(Pairs(n));
    assert Seconds(Pairs(n)) == Indices(n.moves);
  }

  /** With distinct ascending indices, the lookup finds the `k`-th move's own score. */
  lemma {:induction false} StoredScoreAt(moves: seq<Move>, k: nat)
    requires k < |moves|
    requires Increasing(Indices(moves))
    ensures StoredScore(moves, moves[k].index) == moves[k].node.score
  {
    if k > 0 {
      assert Indices(moves[1..]) == Indices(moves)[1..];
      assert Indices(moves)[0] < Indices(moves)[k];
      StoredScoreAt(moves[1..], k - 1);
    }
  }

  /**
   * The ranking lists the moves best first: descending by stored child score,
   * and among equal scores in ascending cell order (the sort is stable and
   * the moves come in ascending order).
   */
  lemma RankingOrdered(n: Boards)
    requires Increasing(Indices(n.moves))
    ensures forall a, b :: 0 <= a < b < |Ranking(n)| ==>
      StoredScore(n.moves, Ranking(n)[a]) > StoredScore(n.moves, Ranking(n)[b]) ||
      (StoredScore(n.moves, Ranking(n)[a]) == StoredScore(n.moves, Ranking(n)[b]) && Ranking(n)[a] < Ranking(n)[b])
  {
    var ps := Pairs(n);
    var s := SortDesc(ps);
    assert Seconds(ps) == Indices(n.moves);
    SortPermutes(ps);
    SortOrdered(ps);
    forall a | 0 <= a < |s| ensures StoredScore(n.moves, s[a].1) == s[a].0 {
      assert s[a] in multiset(ps);
      var k :| 0 <= k < |ps| && ps[k] == s[a];
      StoredScoreAt(n.moves, k);
    }
  }

  /** Inserts the node's ranking under its key unless the key is present. */
  function Enter(t: Table, n: Boards): Table {
    if Key(n.board) in t then t else t[Key(n.board) := Ranking(n)]
  }

  /** The table `add_boards` leaves after visiting `n` and, depth first, all of its descendants. */
  function Compile(t: Table, n: Boards): Table
    decreases n, 1, 0
  {
    CompileFrom(Enter(t, n), n, 0)
  }

  /** The table after visiting the children of `n` from the `i`-th on. */
  function CompileFrom(t: Table, n: Boards, i: nat): Table
    requires i <= |n.moves|
    decreases n, 0, |n.moves| - i
  {
    if i == |n.moves| then t else CompileFrom(Compile(t, n.moves[i].node), n, i + 1)
  }

  /** Every entry of `t` is in `u` with the same value. */
  ghost predicate Extends(t: Table, u: Table) {
    forall k :: k in t ==> k in u && u[k] == t[k]
  }

  /** Compiling never overwrites an entry: the first ranking stored under a key stays. */
  lemma {:induction false} CompileKeeps(t: Table, n: Boards)
    ensures Extends(t, Compile(t, n))
    decreases n, 1, 0
  {
    CompileFromKeeps(Enter(t, n), n, 0);
  }

  lemma {:induction false} CompileFromKeeps(t: Table, n: Boards, i: nat)
    requires i <= |n.moves|
    ensures Extends(t, CompileFrom(t, n, i))
    decreases n, 0, |n.moves| - i
  {
    if i < |n.moves| {
      CompileKeeps(t, n.moves[i].node);
      CompileFromKeeps(Compile(t, n.moves[i].node), n, i + 1);
    }
  }

  /** The root's key ends up in the table, bound to the node's ranking unless it was already there. */
  lemma CompileEntry(t: Table, n: Boards)
    ensures Key(n.board) in Compile(t, n)
    ensures Compile(t, n)[Key(n.board)] == if Key(n.board) in t then t[Key(n.board)] else Ranking(n)
  {
    CompileFromKeeps(Enter(t, n), n, 0);
  }

  /** The keys of `n` and of all its descendants are in `t`. */
  ghost predicate AllKeysIn(t: Table, n: Boards)
    decreases n
  {
    Key(n.board) in t && forall k :: 0 <= k < |n.moves| ==> AllKeysIn(t, n.moves[k].node)
  }

  lemma {:induction false} AllKeysGrow(t: Table, u: Table, n: Boards)
    requires AllKeysIn(t, n)
    requires t.Keys <= u.Keys
    ensures AllKeysIn(u, n)
    decreases n
  {
    forall k | 0 <= k < |n.moves| ensures AllKeysIn(u, n.moves[k].node) {
      AllKeysGrow(t, u, n.moves[k].node);
    }
  }

  /** Compiling a tree enters every board of it. */
  lemma {:induction false} CompileCovers(t: Table, n: Boards)
    ensures AllKeysIn(Compile(t, n), n)
    decreases n, 1, 0
  {
    var t1 := Enter(t, n);
    CompileFromCovers(t1, n, 0);
    CompileFromKeeps(t1, n, 0);
  }

  lemma {:induction false} CompileFromCovers(t: Table, n: Boards, i: nat)
    requires i <= |n.moves|
    ensures forall j :: i <= j < |n.moves| ==> AllKeysIn(CompileFrom(t, n, i), n.moves[j].node)
    decreases n, 0, |n.moves| - i
  {
    if i < |n.moves| {
      var t1 := Compile(t, n.moves[i].node);
      CompileCovers(t, n.moves[i].node);
      CompileFromCovers(t1, n, i + 1);
      CompileFromKeeps(t1, n, i + 1);
      AllKeysGrow(t1, CompileFrom(t1, n, i + 1), n.moves[i].node);
    }
  }

  /** A table that already holds every key of the tree is left as it is. */
  lemma {:induction false} CompileIdle(t: Table, n: Boards)
    requires AllKeysIn(t, n)
    ensures Compile(t, n) == t
    decreases n, 1, 0
  {
    CompileFromIdle(t, n, 0);
  }

  lemma {:induction false} CompileFromIdle(t: Table, n: Boards, i: nat)
    requires i <= |n.moves|
    requires forall j :: i <= j < |n.moves| ==> AllKeysIn(t, n.moves[j].node)
    ensures CompileFrom(t, n, i) == t
    decreases n, 0, |n.moves| - i
  {
    if i < |n.moves| {
      CompileIdle(t, n.moves[i].node);
      CompileFromIdle(t, n, i + 1);
    }
  }

  /** Compiling the same tree twice adds nothing the first pass did not. */
  lemma CompileIdempotent(t: Table, n: Boards)
    ensures Compile(Compile(t, n), n) == Compile(t, n)
  {
    CompileCovers(t, n);
    CompileIdle(Compile(t, n), n);
  }

  /** `x` is the board of `n` or of one of its descendants. */
  ghost predicate BoardInTree(x: Board, n: Boards)
    decreases n
  {
    n.board == x || exists k :: 0 <= k < |n.moves| && BoardInTree(x, n.moves[k].node)
  }

  lemma {:induction false} KeyOfBoardInTree(x: Board, t: Table, n: Boards)
    requires BoardInTree(x, n)
    requires AllKeysIn(t, n)
    ensures Key(x) in t
    decreases n
  {
    if n.board != x {
      var k :| 0 <= k < |n.moves| && BoardInTree(x, n.moves[k].node);
      KeyOfBoardInTree(x, t, n.moves[k].node);
    }
  }

  /** What an entry may hold for a board: its empty cells in some order while play goes on, nothing once it is decided. */
  ghost predicate Fits(board: Board, ranking: seq<nat>) {
    if Classify(board) == Ongoing then multiset(ranking) == multiset(EmptyCells(board)) else ranking == []
  }

  /** Every entry is keyed by a nine-cell board and fits it. */
  ghost predicate Sound(t: Table) {
    forall k :: k in t ==> |k| == 9 && Fits(Decode(k), t[k])
  }

  lemma EnterSound(t: Table, turn: Turn, n: Boards)
    requires Sound(t)
    requires WellFormed(turn, n)
    ensures Sound(Enter(t, n))
  {
    if Key(n.board) !in t {
      KeyRoundTrip(n.board);
      RankingPermutes(n);
    }
  }

  /** Compiling a well-formed tree keeps every entry of the table sound. */
  lemma {:induction false} CompileSound(t: Table, turn: Turn, n: Boards)
    requires Sound(t)
    requires WellFormed(turn, n)
    ensures Sound(Compile(t, n))
    decreases n, 1, 0
  {
    EnterSound(t, turn, n);
    CompileFromSound(Enter(t, n), turn, n, 0);
  }

  lemma {:induction false} CompileFromSound(t: Table, turn: Turn, n: Boards, i: nat)
    requires i <= |n.moves|
    requires Sound(t)
    requires WellFormed(turn, n)
    ensures Sound(CompileFrom(t, n, i))
    decreases n, 0, |n.moves| - i
  {
    if i < |n.moves| {
      CompileSound(t, NewTurn(turn), n.moves[i].node);
      CompileFromSound(Compile(t, n.moves[i].node), turn, n, i + 1);
    }
  }

  /** `add_boards`. */
  method AddBoards(hash: Table, boards: Boards) returns (r: Table)
    ensures r == Compile(hash, boards)
    decreases boards
  {
    var key := BoardToString(boards.board);
    r := hash;
    if key !in r {
      r := r[key := Ranking(boards)];
    }
    for i := 0 to |boards.moves|
      invariant CompileFrom(r, boards, i) == Compile(hash, boards)
    {
      r := AddBoards(r, boards.moves[i].node);
    }
  }

  /** The table `calc_ai` returns. */
  function RankingTable(): Table {
    Compile(map[], Tree(X, EmptyBoard()))
  }

  /** How many cells hold `t`. */
  function Marks(b: seq<Turn>, t: Turn): nat {
    multiset(b)[t]
  }

  /** X has played as often as O, or once more. */
  predicate Balanced(b: Board) {
    Marks(b, X) == Marks(b, O) || Marks(b, X) == Marks(b, O) + 1
  }

  /** The side to move on a balanced board, X moving first. */
  function Mover(b: Board): (r: Turn)
    ensures r == X || r == O
  {
    if Marks(b, X) == Marks(b, O) then X else O
  }

  /** The mover's mark on an empty cell keeps the board balanced and hands the move to the other side. */
  lemma MarkPlaced(b: Board, i: Index)
    requires Balanced(b) && b[i] == None
    ensures Balanced(b[i := Mover(b)])
    ensures Mover(b[i := Mover(b)]) == NewTurn(Mover(b))
  {
    var m := Mover(b);
    assert multiset(b[i := m]) == multiset(b) - multiset{None} + multiset{m};
  }

  /** A node of real, balanced cells whose moves are those of its board's own tree, that board's mover to play. */
  ghost predicate Genuine(n: Boards) {
    OnlyCells(n.board) && Balanced(n.board) && n.moves == Tree(Mover(n.board), n.board).moves
  }

  /** Every entry is the ranking of the tree of its own board, that board's mover to play. */
  ghost predicate Faithful(t: Table) {
    forall k {:trigger Decode(k)} :: k in t ==>
      |k| == 9 && Balanced(Decode(k)) && t[k] == Ranking(Tree(Mover(Decode(k)), Decode(k)))
  }

  lemma ChildGenuine(n: Boards, i: nat)
    requires Genuine(n)
    requires i < |n.moves|
    ensures Genuine(n.moves[i].node)
  {
    var b := n.board;
    var m := Mover(b);
    TreeShape(m, b);
    var idx := n.moves[i].index;
    assert Indices(n.moves)[i] == idx;
    MarkPlaced(b, idx);
  }

  lemma EnterFaithful(t: Table, n: Boards)
    requires Faithful(t)
    requires Genuine(n)
    ensures Faithful(Enter(t, n))
  {
    if Key(n.board) !in t {
      KeyRoundTrip(n.board);
      var m := Tree(Mover(n.board), n.board);
      assert Pairs(n) == Pairs(m);
    }
  }

  /** Compiling a genuine tree keeps every entry faithful to its board. */
  lemma {:induction false} CompileFaithful(t: Table, n: Boards)
    requires Faithful(t)
    requires Genuine(n)
    ensures Faithful(Compile(t, n))
    decreases n, 1, 0
  {
    EnterFaithful(t, n);
    CompileFromFaithful(Enter(t, n), n, 0);
  }

  lemma {:induction false} CompileFromFaithful(t: Table, n: Boards, i: nat)
    requires i <= |n.moves|
    requires Faithful(t)
    requires Genuine(n)
    ensures Faithful(CompileFrom(t, n, i))
    decreases n, 0, |n.moves| - i
  {
    if i < |n.moves| {
      ChildGenuine(n, i);
      CompileFaithful(t, n.moves[i].node);
      CompileFromFaithful(Compile(t, n.moves[i].node), n, i + 1);
    }
  }

  lemma EmptyBoardBalanced()
    ensures Balanced(EmptyBoard()) && Mover(EmptyBoard()) == X
  {
    var e := EmptyBoard();
    assert X !in e && O !in e;
  }

  /** The whole table is sound and holds every board of the tree. */
  lemma TableFacts()
    ensures Sound(RankingTable())
    ensures Faithful(RankingTable())
    ensures AllKeysIn(RankingTable(), Tree(X, EmptyBoard()))
  {
    TreeWellFormed(X, EmptyBoard());
    EmptyBoardBalanced();
    CompileFaithful(map[], Tree(X, EmptyBoard()));
    CompileSound(map[], X, Tree(X, EmptyBoard()));
    CompileCovers(map[], Tree(X, EmptyBoard()));
  }

  /** `calc_ai`. */
  method CalcAi() returns (hash: Table)
    ensures hash == RankingTable()
  {
    var boards := GetBoards(X, EmptyBoard());
    hash := AddBoards(map[], boards);
  }

  // ---------------------------------------------------------------------------
  // Play from the empty board
  // ---------------------------------------------------------------------------

  /** `path` is a sequence of moves from `board`, each on an empty cell, the sides alternating from `turn`. */
  predicate Legal(turn: Turn, board: Board, path: seq<nat>)
    decreases |path|
  {
    path == [] ||
    (path[0] < 9 && board[path[0]] == None && Legal(NewTurn(turn), board[path[0] := turn], path[1..]))
  }

  /** The board after playing `path` from `board`. */
  function Replay(turn: Turn, board: Board, path: seq<nat>): Board
    requires Legal(turn, board, path)
    decreases |path|
  {
    if path == [] then board else Replay(NewTurn(turn), board[path[0] := turn], path[1..])
  }

  /** The side to move after `n` moves when `turn` moved first. */
  function SideAfter(turn: Turn, n: nat): (r: Turn)
    requires turn == X || turn == O
    ensures r == X || r == O
  {
    if n == 0 then turn else NewTurn(SideAfter(turn, n - 1))
  }

  /** The sides alternate: starting with the other side gives the other side after any number of moves. */
  lemma {:induction false} SideAfterSwap(turn: Turn, n: nat)
    requires turn == X || turn == O
    ensures SideAfter(NewTurn(turn), n) == NewTurn(SideAfter(turn, n))
  {
    if n > 0 {
      SideAfterSwap(turn, n - 1);
    }
  }

  /** A legal path extends by any empty cell of the board it reaches; that cell gets the side to move. */
  lemma {:induction false} ReplayAppend(turn: Turn, board: Board, path: seq<nat>, v: nat)
    requires turn == X || turn == O
    requires Legal(turn, board, path)
    requires v < 9 && Replay(turn, board, path)[v] == None
    ensures Legal(turn, board, path + [v])
    ensures Replay(turn, board, path + [v]) == Replay(turn, board, path)[v := SideAfter(turn, |path|)]
    decreases |path|
  {
    if path == [] {
      assert path + [v] == [v];
      assert [v][1..] == [];
    } else {
      ReplayAppend(NewTurn(turn), board[path[0] := turn], path[1..], v);
      assert (path + [v])[1..] == path[1..] + [v];
      SideAfterSwap(turn, |path| - 1);
    }
  }

  /** Once a board is won, every further move leaves it won. */
  lemma {:induction false} ReplayKeepsWin(turn: Turn, board: Board, path: seq<nat>)
    requires Legal(turn, board, path)
    requires Classify(board) == Win
    ensures Classify(Replay(turn, board, path)) == Win
    decreases |path|
  {
    if path != [] {
      WinStays(board, path[0], turn);
      ReplayKeepsWin(NewTurn(turn), board[path[0] := turn], path[1..]);
    }
  }

  /** Play by X and O never puts a `Multi` mark on the board. */
  lemma {:induction false} ReplayOnlyCells(turn: Turn, board: Board, path: seq<nat>)
    requires turn == X || turn == O
    requires OnlyCells(board)
    requires Legal(turn, board, path)
    ensures OnlyCells(Replay(turn, board, path))
    decreases |path|
  {
    if path != [] {
      ReplayOnlyCells(NewTurn(turn), board[path[0] := turn], path[1..]);
    }
  }

  /** Play from a balanced board keeps it balanced, and the mover is the side whose turn it is. */
  lemma {:induction false} ReplayMover(turn: Turn, board: Board, path: seq<nat>)
    requires Legal(turn, board, path)
    requires Balanced(board) && Mover(board) == turn
    ensures Balanced(Replay(turn, board, path))
    ensures Mover(Replay(turn, board, path)) == SideAfter(turn, |path|)
    decreases |path|
  {
    if path != [] {
      MarkPlaced(board, path[0]);
      ReplayMover(NewTurn(turn), board[path[0] := turn], path[1..]);
      SideAfterSwap(turn, |path| - 1);
    }
  }

  lemma RecordedInTree(x: Board, n: Boards)
    requires BoardInTree(x, n)
    ensures BoardInTree(x, Recorded(n))
  {
  }

  /** The tree contains every undecided board that legal play reaches from its root. */
  lemma {:induction false} ReachedInTree(turn: Turn, board: Board, path: seq<nat>)
    requires turn == X || turn == O
    requires Legal(turn, board, path)
    requires Classify(Replay(turn, board, path)) == Ongoing
    ensures BoardInTree(Replay(turn, board, path), Tree(turn, board))
    decreases |path|
  {
    var x := Replay(turn, board, path);
    if path != [] {
      var i := path[0];
      var next := board[i := turn];
      if Classify(board) == Win {
        ReplayKeepsWin(turn, board, path);
        assert false;
      }
      assert !Full(board) by { assert board[i] == None; }
      ReachedInTree(NewTurn(turn), next, path[1..]);
      EmptyCellsExact(board);
      var ms := EmptyCells(board);
      assert i in ms;
      var k :| 0 <= k < |ms| && ms[k] == i;
      var r := Tree(turn, board);
      TreeShape(turn, board);
      assert r.moves[k].index == i;
      RecordedInTree(x, Tree(NewTurn(turn), next));
      assert BoardInTree(x, r.moves[k].node);
    }
  }

  /** The empty board is undecided. */
  lemma EmptyBoardOngoing()
    ensures Classify(EmptyBoard()) == Ongoing
  {
    var e := EmptyBoard();
    assert e[0] == None;
    assert !HasLine(e) by {
      forall k | 0 <= k < |Lines| ensures !Check(e, Lines[k].0, Lines[k].1, Lines[k].2) {}
    }
  }

  /** A single mark on the empty board decides nothing. */
  lemma OneMarkOngoing(i: Index, t: Turn)
    ensures Classify(EmptyBoard()[i := t]) == Ongoing
  {
    var b := EmptyBoard()[i := t];
    forall k | 0 <= k < |Lines| ensures !Check(b, Lines[k].0, Lines[k].1, Lines[k].2) {
    }
    assert b[(i + 1) % 9] == None;
  }

  /** Every undecided board that play from the empty board reaches, X first, has an entry. */
  ghost predicate Covers(t: Table) {
    forall path :: Legal(X, EmptyBoard(), path) && Classify(Replay(X, EmptyBoard(), path)) == Ongoing ==>
      Key(Replay(X, EmptyBoard(), path)) in t
  }

  /** The table `calc_ai` returns serves play: its entries are faithful and it covers every reachable undecided board. */
  lemma TableServesPlay()
    ensures Faithful(RankingTable())
    ensures Covers(RankingTable())
  {
    TableFacts();
    forall path | Legal(X, EmptyBoard(), path) && Classify(Replay(X, EmptyBoard(), path)) == Ongoing
      ensures Key(Replay(X, EmptyBoard(), path)) in RankingTable()
    {
      ReachedInTree(X, EmptyBoard(), path);
      KeyOfBoardInTree(Replay(X, EmptyBoard(), path), RankingTable(), Tree(X, EmptyBoard()));
    }
  }

  /**
   * In a faithful table that covers play, the entry for a board reached from
   * the empty board, X first, is the ranking of that board's own tree with
   * the side whose turn it is to move.
   */
  lemma ReachableBoardsHaveReplies(t: Table, path: seq<nat>)
    requires Faithful(t) && Covers(t)
    requires Legal(X, EmptyBoard(), path)
    requires Classify(Replay(X, EmptyBoard(), path)) == Ongoing
    ensures var b := Replay(X, EmptyBoard(), path);
      Key(b) in t && t[Key(b)] == Ranking(Tree(SideAfter(X, |path|), b))
  {
    var b := Replay(X, EmptyBoard(), path);
    ReplayOnlyCells(X, EmptyBoard(), path);
    KeyRoundTrip(b);
    EmptyBoardBalanced();
    ReplayMover(X, EmptyBoard(), path);
  }

  /**
   * That entry lists the board's empty cells, each once, so it is not empty
   * and every cell in it is free.
   */
  lemma RepliesAreEmptyCells(t: Table, path: seq<nat>)
    requires Faithful(t) && Covers(t)
    requires Legal(X, EmptyBoard(), path)
    requires Classify(Replay(X, EmptyBoard(), path)) == Ongoing
    ensures var b := Replay(X, EmptyBoard(), path);
      Key(b) in t &&
      multiset(t[Key(b)]) == multiset(EmptyCells(b)) &&
      |t[Key(b)]| > 0 &&
      forall k :: 0 <= k < |t[Key(b)]| ==> t[Key(b)][k] < 9 && b[t[Key(b)][k]] == None
  {
    var b := Replay(X, EmptyBoard(), path);
    var side := SideAfter(X, |path|);
    ReachableBoardsHaveReplies(t, path);
    TreeShape(side, b);
    RankingPermutes(Tree(side, b));
    OngoingHasMove(b);
    var e := t[Key(b)];
    forall k | 0 <= k < |e| ensures e[k] < 9 && b[e[k]] == None {
      assert e[k] in multiset(EmptyCells(b));
    }
  }

  /**
   * When a move's stored score is the highest any move has, the first entry
   * of the ranking is a move with that score.
   */
  lemma RankingFirstIsTop(n: Boards, k: nat) returns (j: nat)
    requires Increasing(Indices(n.moves))
    requires k < |n.moves|
    requires forall j :: 0 <= j < |n.moves| ==> n.moves[j].node.score <= n.moves[k].node.score
    ensures |Ranking(n)| > 0
    ensures j < |n.moves| && n.moves[j].index == Ranking(n)[0] && n.moves[j].node.score == n.moves[k].node.score
  {
    var r := Ranking(n);
    RankingPermutes(n);
    RankingOrdered(n);
    StoredScoreAt(n.moves, k);
    assert Indices(n.moves)[k] == n.moves[k].index;
    assert n.moves[k].index in multiset(Indices(n.moves));
    var a :| 0 <= a < |r| && r[a] == n.moves[k].index;
    assert r[0] in multiset(Indices(n.moves));
    j :| 0 <= j < |n.moves| && n.moves[j].index == r[0];
    StoredScoreAt(n.moves, j);
  }

  /**
   * When a move's stored score is the lowest any move has, the last entry
   * of the ranking is a move with that score.
   */
  lemma RankingLastIsBottom(n: Boards, k: nat) returns (j: nat)
    requires Increasing(Indices(n.moves))
    requires k < |n.moves|
    requires forall j :: 0 <= j < |n.moves| ==> n.moves[j].node.score >= n.moves[k].node.score
    ensures |Ranking(n)| > 0
    ensures j < |n.moves| && n.moves[j].index == Ranking(n)[|Ranking(n)| - 1] && n.moves[j].node.score == n.moves[k].node.score
  {
    var r := Ranking(n);
    RankingPermutes(n);
    RankingOrdered(n);
    StoredScoreAt(n.moves, k);
    assert Indices(n.moves)[k] == n.moves[k].index;
    assert n.moves[k].index in multiset(Indices(n.moves));
    var a :| 0 <= a < |r| && r[a] == n.moves[k].index;
    assert r[|r| - 1] in multiset(Indices(n.moves));
    j :| 0 <= j < |n.moves| && n.moves[j].index == r[|r| - 1];
    StoredScoreAt(n.moves, j);
  }

  /** A move that wins at once is stored with the best score any move of the mover can have. */
  lemma WinningMoveIsExtreme(turn: Turn, board: Board, k: nat)
    requires turn == X || turn == O
    requires Classify(board) == Ongoing
    requires k < |Tree(turn, board).moves|
    requires Classify(board[Tree(turn, board).moves[k].index := turn]) == Win
    ensures var n := Tree(turn, board);
      Increasing(Indices(n.moves)) &&
      n.moves[k].node.score == 2 * Weight(turn) &&
      forall j :: 0 <= j < |n.moves| ==>
        (turn == X ==> n.moves[j].node.score <= n.moves[k].node.score) &&
        (turn == O ==> n.moves[j].node.score >= n.moves[k].node.score)
  {
    TreeShape(turn, board);
    EmptyCellsExact(board);
    StoredScores(turn, board);
  }

  /** A move stored with twice the mover's weight wins at once. */
  lemma TopScoreWins(turn: Turn, board: Board, j: nat)
    requires turn == X || turn == O
    requires j < |Tree(turn, board).moves|
    requires Tree(turn, board).moves[j].node.score == 2 * Weight(turn)
    ensures var m := Tree(turn, board).moves[j].index;
      m < 9 && board[m] == None && Classify(board[m := turn]) == Win
  {
    TreeShape(turn, board);
    StoredScores(turn, board);
    assert Indices(Tree(turn, board).moves)[j] == Tree(turn, board).moves[j].index;
  }

  /**
   * When the side to move can win at once, the entry it uses from the
   * ranking (the first for X, the last for O) is such a winning move.
   */
  lemma ImmediateWinRanked(turn: Turn, board: Board, i: Index)
    requires turn == X || turn == O
    requires Classify(board) == Ongoing
    requires board[i] == None && Classify(board[i := turn]) == Win
    ensures var r := Ranking(Tree(turn, board));
      |r| > 0 &&
      var pick := if turn == X then r[0] else r[|r| - 1];
      pick < 9 && board[pick] == None && Classify(board[pick := turn]) == Win
  {
    var n := Tree(turn, board);
    var k := MoveFor(turn, board, i);
    WinningMoveIsExtreme(turn, board, k);
    var j: nat;
    if turn == X {
      j := RankingFirstIsTop(n, k);
    } else {
      j := RankingLastIsBottom(n, k);
    }
    TopScoreWins(turn, board, j);
  }
}
