/**
 * The turn logic of src/main.rs: the `State` the interface drives, its
 * `play`, `update` and `reset`, with the computer answering from the
 * ranking table.
 */
module App {
  import opened Game

  /** Interface events; the source's `Message::None` is `Nothing` here. */
  datatype Message = Click(cell: nat) | Nothing | Reset | Player(side: Turn)

  /** The alert over the board; the source's `Command::None` is `NoAlert` here. */
  datatype Command = NoAlert | Alert(text: string)

  /** The command after `mover` has produced `board`: an alert when the board is decided, else `command` unchanged. */
  function Announce(board: Board, mover: Turn, command: Command): Command {
    match Classify(board)
    case Win => Alert(Glyph(mover) + " Wins!")
    case Draw => Alert("Draw!")
    case Ongoing => command
  }

  /** The cell the computer plays from a ranking: the last when the human is X (the computer is O), else the first. */
  function Reply(e: seq<nat>, player: Turn): nat
    requires |e| > 0
  {
    if player == X then e[|e| - 1] else e[0]
  }

  /**
   * The computer, playing the side opposite `player`, answers an immediate
   * win with that win: the cell it takes from the ranking of the board's tree
   * completes a line.
   */
  lemma ReplyTakesWin(player: Turn, board: Board, i: Index)
    requires player == X || player == O
    requires Classify(board) == Ongoing
    requires board[i] == None && Classify(board[i := NewTurn(player)]) == Win
    ensures var e := Ranking(Tree(NewTurn(player), board));
      |e| > 0 &&
      Reply(e, player) < 9 &&
      board[Reply(e, player)] == None &&
      Classify(board[Reply(e, player) := NewTurn(player)]) == Win
  {
    ImmediateWinRanked(NewTurn(player), board, i);
  }

  class State {
    /** The nine cells, overwritten in place. */
    const board: array<Turn>
    /** The side whose mark the next move places. */
    var turn: Turn
    var command: Command
    /** The ranking table, computed once at start-up and never reassigned. */
    const hash: Table
    /** The human's side: X, O, or `Multi` for two humans. */
    var player: Turn
    /** The cells played since the last reset, in order. */
    ghost var history: seq<nat>

    /** The board is the result of legal play from the empty board, X first, and `turn` is the side to move. */
    ghost predicate Playing()
      reads this, board
    {
      board.Length == 9 &&
      Legal(X, EmptyBoard(), history) &&
      board[..] == Replay(X, EmptyBoard(), history) &&
      turn == SideAfter(X, |history|)
    }

    /** Play is consistent and the table answers every board play can reach. */
    ghost predicate Valid()
      reads this, board
    {
      Playing() && Faithful(hash) && Covers(hash)
    }

    /** The state right after a reset: no alert, an empty board with X to move, or, when the human is O, one opening mark by the computer. */
    ghost predicate Restarted()
      reads this, board
    {
      command == NoAlert &&
      (player != O ==> board[..] == EmptyBoard() && turn == X && history == []) &&
      (player == O ==> |history| == 1 && history[0] < 9 && board[..] == EmptyBoard()[history[0] := X] && turn == O)
    }

    /** `Default::default`: the empty board, X to move, no alert, two humans, the table `calc_ai` computes. */
    constructor ()
      ensures Valid()
      ensures hash == RankingTable()
      ensures fresh(board)
      ensures board[..] == EmptyBoard() && turn == X && command == NoAlert && player == Multi && history == []
    {
      var h := CalcAi();
      TableServesPlay();
      var cells := new Turn[9](_ => None);
      assert cells[..] == EmptyBoard();
      board := cells;
      turn := X;
      command := NoAlert;
      hash := h;
      player := Multi;
      history := [];
    }

    /**
     * `play`: a cell off the board or already taken changes nothing and
     * reports true; otherwise the mover's mark goes there, an alert is raised
     * if that decides the game, the turn passes, and the result says whether
     * the game is over.
     */
    method Play(v: nat) returns (over: bool)
      requires Playing()
      modifies this, board
      ensures Playing()
      ensures player == old(player)
      ensures !(v < 9 && old(board[..])[v] == None) ==>
        over && board[..] == old(board[..]) && turn == old(turn) &&
        command == old(command) && history == old(history)
      ensures v < 9 && old(board[..])[v] == None ==>
        board[..] == old(board[..])[v := old(turn)] &&
        history == old(history) + [v] &&
        turn == NewTurn(old(turn)) &&
        over == (Classify(board[..]) != Ongoing) &&
        command == Announce(board[..], old(turn), old(command))
    {
      if v >= board.Length {
        return true;
      }
      if board[v] != None {
        return true;
      }
      board[v] := turn;
      ReplayAppend(X, EmptyBoard(), history, v);
      history := history + [v];
      var w := IsWon(board[..]);
      over := false;
      if w != Ongoing {
        over := true;
        if w == Win {
          command := Alert(Glyph(turn) + " Wins!");
        } else {
          command := Alert("Draw!");
        }
      }
      turn := NewTurn(turn);
    }

    /** `reset`: clears the alert and the board, X to move; when the human is O the computer opens on some cell of the empty board's ranking. */
    method Reset()
      requires Valid()
      modifies this, board
      ensures Valid() && Restarted()
      ensures player == old(player)
    {
      command := NoAlert;
      turn := X;
      forall i | 0 <= i < board.Length {
        board[i] := None;
      }
      history := [];
      assert board[..] == EmptyBoard();
      if player == O {
        var key := BoardToString(board[..]);
        EmptyBoardOngoing();
        RepliesAreEmptyCells(hash, history);
        assert key == Key(Replay(X, EmptyBoard(), history));
        var e := hash[key];
        assert e[0] in e;
        var n :| n in e;
        OneMarkOngoing(n, X);
        var _ := Play(n);
      }
    }

    /**
     * The effect of a click on cell `v`: ignored when it is not the human's
     * turn or the cell cannot be played; otherwise the mark is placed and,
     * against the computer, if the game goes on, the computer answers with
     * the cell its table entry puts first (human O) or last (human X); that
     * entry is the ranking of the new board's own tree.
     */
    twostate predicate Clicked(v: nat)
      requires old(Playing())
      reads this, board
    {
      var b0: Board := old(board[..]);
      var t0 := old(turn);
      player == old(player) &&
      if (t0 != player && player != Multi) || !(v < 9 && b0[v] == None) then
        board[..] == b0 && turn == t0 && command == old(command) && history == old(history)
      else
        var mid := b0[v := t0];
        if Classify(mid) != Ongoing || player == Multi then
          board[..] == mid && turn == NewTurn(t0) && history == old(history) + [v] &&
          command == Announce(mid, t0, old(command))
        else
          var e := Ranking(Tree(NewTurn(t0), mid));
          Key(mid) in hash && hash[Key(mid)] == e && |e| > 0 &&
          Reply(e, player) < 9 && mid[Reply(e, player)] == None &&
          board[..] == mid[Reply(e, player) := NewTurn(t0)] && turn == t0 &&
          history == old(history) + [v, Reply(e, player)] &&
          command == Announce(board[..], NewTurn(t0), old(command))
    }

    /**
     * The computer's answer within the `Message::Click` arm of `update`: it
     * looks up the current board's entry, which is the ranking of that
     * board's own tree, and plays its last cell when the human is X, its
     * first otherwise; that cell is free, so the mark is placed.
     */
    method Respond()
      requires Valid()
      requires player == X || player == O
      requires Classify(board[..]) == Ongoing
      modifies this, board
      ensures Valid()
      ensures player == old(player)
      ensures var b0: Board := old(board[..]);
        var e := Ranking(Tree(old(turn), b0));
        Key(b0) in hash && hash[Key(b0)] == e && |e| > 0 &&
        Reply(e, player) < 9 && b0[Reply(e, player)] == None &&
        board[..] == b0[Reply(e, player) := old(turn)] &&
        turn == NewTurn(old(turn)) &&
        history == old(history) + [Reply(e, player)] &&
        command == Announce(board[..], old(turn), old(command))
    {
      var key := BoardToString(board[..]);
      ReachableBoardsHaveReplies(hash, history);
      RepliesAreEmptyCells(hash, history);
      var e := hash[key];
      var n;
      if player == X {
        n := e[|e| - 1];
      } else {
        n := e[0];
      }
      var _ := Play(n);
    }

    /** The `Message::Click` arm of `update`. */
    method Press(v: nat)
      requires Valid()
      modifies this, board
      ensures Valid()
      ensures Clicked(v)
    {
      if turn != player && player != Multi {
        return;
      }
      var over := Play(v);
      if over {
        return;
      }
      if player == Multi {
        return;
      }
      Respond();
    }

    /** `update`: dispatches an interface event. */
    method Update(message: Message)
      requires Valid()
      modifies this, board
      ensures Valid()
      ensures message.Nothing? ==>
        board[..] == old(board[..]) && turn == old(turn) && command == old(command) &&
        player == old(player) && history == old(history)
      ensures message.Click? ==> Clicked(message.cell)
      ensures message.Reset? ==> player == old(player) && Restarted()
      ensures message.Player? ==> player == message.side && Restarted()
    {
      match message
      case Nothing =>
      case Click(v) =>
        Press(v);
      case Reset =>
        Reset();
      case Player(side) =>
        player := side;
        Reset();
    }
  }
}
