/**
 * The decisions of the game server's HTTP handlers, with the transport
 * reduced to a request record (method and body) and a response value.
 */
module Server {
  import opened Text
  import opened Session

  datatype Request = Request(requestMethod: string, body: string)

  /**
   * What a handler does with the exchange: closes it without a reply, fails
   * with an exception, replies with headers and a body, or replies with the
   * product computed for the task endpoint.
   */
  datatype Response =
    | Closed
    | Failed
    | Reply(headers: map<string, string>, body: string)
    | MultiplicationResult(product: int)

  const FULL_MESSAGE := "Sorry, the game is full."
  const STATUS_MESSAGE := "Server is alive!\n"
  const STATE_MESSAGE := "returning state"
  const GAME_INFO_HEADER := "X-Game-Info"
  const PLAYER_TURN_HEADER := "X-Player-Turn"

  /** The reply to a successful join. */
  function JoinedMessage(name: string, allPlayers: string): string {
    "[SERVER] Player " + name + " has joined!\n All players: " + allPlayers + ".\n"
  }

  /** The method guard every handler starts with. */
  predicate Accepts(req: Request, verb: string) {
    EqualsIgnoreCase(req.requestMethod, verb)
  }

  /**
   * The roster after a join: earlier players keep their places, the name is
   * added at the end exactly when the game is not full, and a roster of at
   * most two stays at most two.
   */
  function Admit(roster: seq<string>, name: string): (after: seq<string>)
    ensures roster <= after && |after| <= |roster| + 1
    ensures |after| == |roster| + 1 <==> |roster| != 2
    ensures |after| == |roster| + 1 ==> after[|roster|] == name
    ensures |roster| <= 2 ==> |after| <= 2
  {
    if |roster| == 2 then roster else roster + [name]
  }

  /** The body of the reply to a join. */
  function JoinReply(roster: seq<string>, name: string): string {
    if |roster| == 2 then FULL_MESSAGE else JoinedMessage(name, JoinNames(roster + [name]))
  }

  /** The join reply is the refusal exactly when two players were present. */
  lemma RefusalIffFull(roster: seq<string>, name: string)
    ensures JoinReply(roster, name) == FULL_MESSAGE <==> |roster| == 2
  {
    if |roster| != 2 {
      assert JoinReply(roster, name)[0] == '[' != FULL_MESSAGE[0];
    }
  }

  /** The roster after a run of joins, in order. */
  function AdmitAll(roster: seq<string>, names: seq<string>): seq<string> {
    if names == [] then roster else Admit(AdmitAll(roster, names[..|names| - 1]), names[|names| - 1])
  }

  /** From at most two players, any run of joins keeps at most two. */
  lemma {:induction false} AdmitAllBounded(roster: seq<string>, names: seq<string>)
    requires |roster| <= 2
    ensures |AdmitAll(roster, names)| <= 2
    decreases |names|
  {
    if names != [] {
      AdmitAllBounded(roster, names[..|names| - 1]);
    }
  }

  /** From an empty roster, the players are the first two to join, in order. */
  lemma {:induction false} AdmitAllFromEmpty(names: seq<string>)
    ensures AdmitAll([], names) == names[..if |names| < 2 then |names| else 2]
    decreases |names|
  {
    if names != [] {
      var front := names[..|names| - 1];
      AdmitAllFromEmpty(front);
      if |names| <= 2 {
        assert names[..|names|] == front + [names[|names| - 1]];
      } else {
        assert front[..2] == names[..2];
      }
    }
  }

  /** The product of the operands, starting from 1, in order. */
  function Product(xs: seq<int>): int {
    if xs == [] then 1 else Product(xs[..|xs| - 1]) * xs[|xs| - 1]
  }

  lemma {:induction false} ProductAppend(a: seq<int>, b: seq<int>)
    ensures Product(a + b) == Product(a) * Product(b)
    decreases |b|
  {
    if b == [] {
      assert a + b == a;
    } else {
      var front := b[..|b| - 1];
      assert (a + b)[..|a + b| - 1] == a + front;
      ProductAppend(a, front);
      assert Product(a + b) == (Product(a) * Product(front)) * b[|b| - 1];
    }
  }

  /** The product is zero exactly when some operand is zero. */
  lemma {:induction false} ProductZero(xs: seq<int>)
    ensures Product(xs) == 0 <==> 0 in xs
    decreases |xs|
  {
    if xs != [] {
      var front := xs[..|xs| - 1];
      ProductZero(front);
      assert xs == front + [xs[|xs| - 1]];
    }
  }

  class WebServer {
    const gameManager: GameManager

    /** Joins go through the capacity check, so the roster never exceeds two. */
    ghost predicate Valid()
      reads this, gameManager, gameManager.boardGrid.matrix
    {
      gameManager.Valid() && |gameManager.players| <= 2
    }

    constructor ()
      ensures Valid() && fresh(gameManager) && gameManager.players == [] && gameManager.playerTurn == 0
    {
      gameManager := new GameManager();
    }

    /** gameIsFull: exactly two players are present. */
    method GameIsFull() returns (full: bool)
      ensures full <==> |gameManager.players| == 2
    {
      var n := gameManager.NumberOfPlayers();
      full := n == 2;
    }

    /** handleStatusCheckRequest: a GET is answered with the game-info header and the alive message. */
    method HandleStatusCheckRequest(req: Request) returns (resp: Response)
      ensures !Accepts(req, "get") ==> resp == Closed
      ensures Accepts(req, "get") ==> resp == Reply(map[GAME_INFO_HEADER := "player 1"], STATUS_MESSAGE)
    {
      if !EqualsIgnoreCase(req.requestMethod, "get") {
        return Closed;
      }
      resp := Reply(map[GAME_INFO_HEADER := "player 1"], STATUS_MESSAGE);
    }

    /**
     * handleGameStateCheckRequest: a GET is answered with the name of the
     * player whose turn it is; before that player has joined the lookup fails.
     */
    method HandleGameStateCheckRequest(req: Request) returns (resp: Response)
      requires Valid()
      ensures !Accepts(req, "get") ==> resp == Closed
      ensures Accepts(req, "get") && gameManager.playerTurn < |gameManager.players| ==>
                resp == Reply(map[PLAYER_TURN_HEADER := gameManager.players[gameManager.playerTurn]], STATE_MESSAGE)
      ensures Accepts(req, "get") && gameManager.playerTurn >= |gameManager.players| ==> resp == Failed
    {
      if !EqualsIgnoreCase(req.requestMethod, "get") {
        return Closed;
      }
      var name := gameManager.GetPlayerTurn();
      match name
      case None =>
        resp := Failed;
      case Some(n) =>
        resp := Reply(map[PLAYER_TURN_HEADER := n], STATE_MESSAGE);
    }

    /**
     * handleJoinRequest: a POST adds the body as a player's name unless two
     * players are present; any other method leaves the roster alone.
     */
    method HandleJoinRequest(req: Request) returns (resp: Response)
      requires Valid()
      modifies gameManager
      ensures Valid()
      ensures !Accepts(req, "post") ==> resp == Closed && gameManager.players == old(gameManager.players)
      ensures Accepts(req, "post") ==>
                gameManager.players == Admit(old(gameManager.players), req.body) &&
                resp == Reply(map[], JoinReply(old(gameManager.players), req.body))
      ensures gameManager.playerTurn == old(gameManager.playerTurn)
      ensures gameManager.movesHandled == old(gameManager.movesHandled)
    {
      if !EqualsIgnoreCase(req.requestMethod, "post") {
        return Closed;
      }
      var full := GameIsFull();
      if full {
        return Reply(map[], FULL_MESSAGE);
      }
      gameManager.AddPlayer(req.body);
      var all := gameManager.GetPlayers();
      resp := Reply(map[], JoinedMessage(req.body, all));
    }

    /** handleTaskRequest: a POST is answered with the product of its operands. */
    method HandleTaskRequest(req: Request, operands: seq<int>) returns (resp: Response)
      ensures !Accepts(req, "post") ==> resp == Closed
      ensures Accepts(req, "post") ==> resp == MultiplicationResult(Product(operands))
    {
      if !EqualsIgnoreCase(req.requestMethod, "post") {
        return Closed;
      }
      var result := CalculateResponse(operands);
      resp := MultiplicationResult(result);
    }

    /** calculateResponse: the operands multiplied into an accumulator that starts at 1. */
    method CalculateResponse(operands: seq<int>) returns (result: int)
      ensures result == Product(operands)
    {
      result := 1;
      for i := 0 to |operands|
        invariant result == Product(operands[..i])
      {
        assert operands[..i + 1][..i] == operands[..i];
        result := result * operands[i];
      }
      assert operands[..|operands|] == operands;
    }
  }
}
