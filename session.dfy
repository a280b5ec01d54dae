/**
 * GameManager: the server's session, an append-only list of player names,
 * the index of the player whose turn it is, and the board.
 */
module Session {
  import opened Optional
  import opened Board

  /** switchPlayerTurn on the turn index: 0 becomes 1, anything else becomes 0. */
  function Flip(turn: int): (next: int)
    ensures next == 0 || next == 1
    ensures turn == 0 || turn == 1 ==> next != turn
  {
    if turn == 0 then 1 else 0
  }

  /** Two flips give back a turn index in {0, 1}. */
  lemma FlipTwice(turn: int)
    requires turn == 0 || turn == 1
    ensures Flip(Flip(turn)) == turn
  {
  }

  /** getPlayers: each name followed by a single space, in insertion order. */
  function JoinNames(names: seq<string>): (all: string)
  {
    if names == [] then "" else JoinNames(names[..|names| - 1]) + names[|names| - 1] + " "
  }

  /** The listing of a concatenated roster is the concatenation of the listings. */
  lemma {:induction false} JoinNamesAppend(a: seq<string>, b: seq<string>)
    ensures JoinNames(a + b) == JoinNames(a) + JoinNames(b)
    decreases |b|
  {
    if b == [] {
      assert a + b == a;
    } else {
      var front, last := b[..|b| - 1], b[|b| - 1];
      assert (a + b)[..|a + b| - 1] == a + front;
      JoinNamesAppend(a, front);
      calc {
        JoinNames(a + b);
        JoinNames(a + front) + last + " ";
        (JoinNames(a) + JoinNames(front)) + last + " ";
        JoinNames(a) + (JoinNames(front) + last + " ");
      }
    }
  }

  /** One name: the name and a space. */
  lemma JoinNamesSingle(name: string)
    ensures JoinNames([name]) == name + " "
  {
    assert [name][..0] == [];
  }

  /** The listing has one space per player beyond the names' own characters. */
  lemma {:induction false} JoinNamesLength(names: seq<string>, total: nat)
    requires total == NamesLength(names)
    ensures |JoinNames(names)| == total + |names|
    decreases |names|
  {
    if names != [] {
      JoinNamesLength(names[..|names| - 1], NamesLength(names[..|names| - 1]));
    }
  }

  function NamesLength(names: seq<string>): nat {
    if names == [] then 0 else NamesLength(names[..|names| - 1]) + |names[|names| - 1]|
  }

  /** The listing of the two-player roster of the session's unit test. */
  lemma TwoPlayerListing()
    ensures JoinNames(["Player 1", "Player 2"]) == "Player 1 Player 2 "
  {
    JoinNamesSingle("Player 1");
    JoinNamesAppend(["Player 1"], ["Player 2"]);
    JoinNamesSingle("Player 2");
  }

  class GameManager {
    var players: seq<string>
    var playerTurn: int
    const boardGrid: BoardGrid
    /** The number of moves handled so far. */
    ghost var movesHandled: nat

    /** The turn index alternates 0, 1, 0, … with the moves. */
    ghost predicate Valid()
      reads this, boardGrid.matrix
    {
      boardGrid.Valid() && playerTurn == movesHandled % 2
    }

    constructor ()
      ensures Valid() && fresh(boardGrid) && fresh(boardGrid.matrix)
      ensures players == [] && playerTurn == 0 && movesHandled == 0
      ensures boardGrid.Cells() == EmptyGrid() && boardGrid.reportedWinners == []
    {
      boardGrid := new BoardGrid();
      players := [];
      playerTurn := 0;
      movesHandled := 0;
    }

    /** addPlayer: the name goes at the end, with no capacity or duplicate check. */
    method AddPlayer(playerName: string)
      requires Valid()
      modifies this
      ensures Valid()
      ensures players == old(players) + [playerName]
      ensures playerTurn == old(playerTurn) && movesHandled == old(movesHandled)
    {
      players := players + [playerName];
    }

    /** getPlayers: the names, each followed by a space, accumulated in a loop. */
    method GetPlayers() returns (allPlayers: string)
      ensures allPlayers == JoinNames(players)
    {
      allPlayers := "";
      for i := 0 to |players|
        invariant allPlayers == JoinNames(players[..i])
      {
        assert players[..i + 1][..i] == players[..i];
        allPlayers := allPlayers + players[i] + " ";
      }
      assert players[..|players|] == players;
    }

    /**
     * handlePlayerMove: the move is made for the player whose turn it is, and
     * the turn passes to the other player whether or not the column was full.
     */
    method HandlePlayerMove(column: int)
      requires Valid() && 0 <= column < COLS
      modifies this, boardGrid, boardGrid.matrix
      ensures Valid()
      ensures boardGrid.playerID == old(playerTurn)
      ensures boardGrid.Cells() == Drop(old(boardGrid.Cells()), column, old(playerTurn))
      ensures boardGrid.reportedWinners ==
                old(boardGrid.reportedWinners) + MoveReports(old(boardGrid.Cells()), column, old(playerTurn))
      ensures playerTurn == Flip(old(playerTurn)) && players == old(players)
      ensures movesHandled == old(movesHandled) + 1
    {
      boardGrid.MakeMove(column, playerTurn);
      SwitchPlayerTurn();
    }

    method GetBoardStateAsText() returns (text: string)
      requires Valid()
      ensures text == GridText(boardGrid.Cells())
    {
      text := boardGrid.GetGridAsText();
    }

    /**
     * getPlayerTurn: the name of the player whose turn it is; None stands for
     * the IndexOutOfBoundsException of a roster too short for the turn index.
     */
    method GetPlayerTurn() returns (name: Option<string>)
      requires Valid()
      ensures name.Some? <==> playerTurn < |players|
      ensures name.Some? ==> name.value == players[playerTurn]
    {
      if playerTurn < |players| {
        name := Some(players[playerTurn]);
      } else {
        name := None;
      }
    }

    method NumberOfPlayers() returns (n: nat)
      ensures n == |players|
    {
      n := |players|;
    }

    /** switchPlayerTurn: here the move counter advances too. */
    method SwitchPlayerTurn()
      requires playerTurn == movesHandled % 2
      modifies this
      ensures playerTurn == Flip(old(playerTurn)) && movesHandled == old(movesHandled) + 1
      ensures playerTurn == movesHandled % 2
      ensures players == old(players)
    {
      if playerTurn == 0 {
        playerTurn := 1;
      } else {
        playerTurn := 0;
      }
      movesHandled := movesHandled + 1;
    }
  }
}
