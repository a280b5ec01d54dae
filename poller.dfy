/**
 * GameRunner: the client's polling state machine.  The server's replies to
 * state checks and the lines typed at the console are inputs consumed in
 * order; what the client prints and the moves it sends are outputs.  The
 * state of the client is a value (Client), each step of GameRunner is a
 * function on it, and the class below performs the same steps on its fields.
 */
module Poller {
  import opened Optional
  import opened Text
  import opened Session
  import opened Server

  /** A response header: its name and its first value. */
  datatype Header = Header(name: string, value: string)

  /** The server's reply to a state check: the board text and the headers. */
  datatype Snapshot = Snapshot(body: string, headers: seq<Header>)

  /** A console line: a number, or a line equal to "q" ignoring case. */
  datatype Token = Number(n: int) | Quit

  /** The outcome of the column prompt and the number of lines it read. */
  datatype Choice = Column(n: int, used: nat) | QuitChosen(used: nat) | Exhausted

  const TURN_HEADER := "X-Player-Turn"
  const WAITING_HEADER := "X-Waiting"
  const WINNER_HEADER := "X-Winner"
  const WAITING_MESSAGE := "Waiting for opponent to join...\n"
  const SENT_MESSAGE := "Waiting for opponent...\n"
  const CONGRATULATIONS := "\nCongratulation!! You won the game!\n"

  /** The part of the client's state that the response headers change, and the console. */
  datatype Flags = Flags(isOurTurn: bool, waitingForOpponent: bool, winnerAnnounced: bool,
                         exited: bool, console: seq<string>)

  /**
   * The client's state.  exited records System.exit(0); failed records that
   * the client stopped on an exception (no reply from the server, or the
   * console closed while a column was asked for).
   */
  datatype Client = Client(
    flags: Flags, deciding: bool, isGameFull: bool, displayedWaitingMessage: bool,
    gameOver: bool, failed: bool, playerName: string, matrixAsText: string,
    responses: seq<Snapshot>, keyboard: seq<Token>, movesSent: seq<int>)
  {
    predicate Halted() {
      flags.exited || failed
    }

    /** timeToMakeAMove */
    predicate TimeToMakeAMove() {
      flags.isOurTurn && !flags.waitingForOpponent && !deciding
    }

    /** System.out.println(line) */
    function Print(line: string): Client {
      this.(flags := flags.(console := flags.console + [line]))
    }

    /** System.exit(0) */
    function Exit(): Client {
      this.(flags := flags.(exited := true))
    }
  }

  /** The state of a new GameRunner. */
  function Initial(replies: seq<Snapshot>, typed: seq<Token>): Client {
    Client(Flags(false, true, false, false, []), false, false, false, false, false, "", "", replies, typed, [])
  }

  /** Only columns 1 .. 9 are ever sent, and an announced winner or a full game ends the client. */
  predicate Invariant(s: Client) {
    (forall m :: m in s.movesSent ==> 1 <= m <= 9) &&
    (s.flags.winnerAnnounced ==> s.flags.exited) &&
    (s.isGameFull ==> s.flags.exited)
  }

  /** announceWinner's message: congratulations only for a case-sensitively equal name. */
  function WinnerMessage(winner: string, me: string): string {
    if winner == me then CONGRATULATIONS else "\nSorry - " + winner + " has won the game.\n"
  }

  /** analyseHeaders on one header, for the player named me. */
  function ReadHeader(f: Flags, me: string, h: Header): Flags {
    if EqualsIgnoreCase(h.name, TURN_HEADER) then f.(isOurTurn := EqualsIgnoreCase(h.value, me))
    else if EqualsIgnoreCase(h.name, WAITING_HEADER) then f.(waitingForOpponent := EqualsIgnoreCase(h.value, "true"))
    else if EqualsIgnoreCase(h.name, WINNER_HEADER) && h.value != "" then
      f.(winnerAnnounced := true, exited := true, console := f.console + [WinnerMessage(h.value, me)])
    else f
  }

  /**
   * analyseHeaders: the headers in order, until announcing a winner ends the
   * client.  An exit is final, and a winner is announced only by exiting.
   */
  function ReadHeaders(f: Flags, me: string, hs: seq<Header>): (r: Flags)
    ensures f.exited ==> r.exited
  {
    if hs == [] then f
    else
      var before := ReadHeaders(f, me, hs[..|hs| - 1]);
      if before.exited then before else ReadHeader(before, me, hs[|hs| - 1])
  }

  /** An exit is final, and reading headers announces a winner only by exiting. */
  lemma {:induction false} ReadHeadersExit(f: Flags, me: string, hs: seq<Header>)
    ensures f.exited ==> ReadHeaders(f, me, hs) == f
    ensures ReadHeaders(f, me, hs).winnerAnnounced ==> f.winnerAnnounced || ReadHeaders(f, me, hs).exited
    decreases |hs|
  {
    if hs != [] {
      ReadHeadersExit(f, me, hs[..|hs| - 1]);
    }
  }

  /** checkGameState: the next reply is taken; with none left the client fails. */
  function CheckState(s: Client): (r: Client)
    ensures r.Halted() || |r.responses| < |s.responses|
    ensures |r.responses| <= |s.responses| && (s.Halted() ==> r.Halted())
  {
    if s.responses == [] then s.(failed := true)
    else
      s.(matrixAsText := s.responses[0].body, responses := s.responses[1..],
         flags := ReadHeaders(s.flags, s.playerName, s.responses[0].headers))
  }

  /** conditionalWaitingMessage */
  function WaitingCheck(s: Client): (r: Client)
    ensures r.Halted() || |r.responses| < |s.responses|
    ensures |r.responses| <= |s.responses| && (s.Halted() ==> r.Halted())
  {
    var t := CheckState(s);
    if t.Halted() then t
    else if t.flags.waitingForOpponent && !t.displayedWaitingMessage then
      t.Print(WAITING_MESSAGE).(displayedWaitingMessage := true)
    else t
  }

  predicate Rejected(t: Token) {
    t.Number? && (t.n > 9 || t.n < 1)
  }

  /**
   * requestColumnChoice on the typed lines: the first number in 1 .. 9 is the
   * choice, a quit line ends the client, and every line before either was a
   * number out of range; with no such line the lines run out.
   */
  function ColumnChoice(ts: seq<Token>): (c: Choice)
    ensures c.Column? || c.QuitChosen? ==> 1 <= c.used <= |ts|
  {
    if ts == [] then Exhausted
    else match ts[0]
      case Quit => QuitChosen(1)
      case Number(n) => if 1 <= n <= 9 then Column(n, 1) else Shifted(ColumnChoice(ts[1..]), 1)
  }

  lemma {:induction false} ColumnChoiceMeaning(ts: seq<Token>)
    ensures var c := ColumnChoice(ts);
            (c.Column? ==> 1 <= c.n <= 9 && 1 <= c.used <= |ts| && ts[c.used - 1] == Number(c.n)) &&
            (c.QuitChosen? ==> 1 <= c.used <= |ts| && ts[c.used - 1] == Quit) &&
            (!c.Exhausted? ==> forall i :: 0 <= i < c.used - 1 ==> Rejected(ts[i])) &&
            (c.Exhausted? ==> forall i :: 0 <= i < |ts| ==> Rejected(ts[i]))
    decreases |ts|
  {
    if ts != [] && ts[0].Number? && !(1 <= ts[0].n <= 9) {
      ColumnChoiceMeaning(ts[1..]);
    }
  }

  /** The same outcome, k lines later. */
  function Shifted(c: Choice, k: nat): Choice {
    match c
    case Column(n, used) => Column(n, used + k)
    case QuitChosen(used) => QuitChosen(used + k)
    case Exhausted => Exhausted
  }

  /** The state after the column prompt: the lines read are consumed. */
  function Choose(s: Client): (r: Client)
    ensures r.Halted() <==> s.Halted() || !ColumnChoice(s.keyboard).Column?
    ensures r.responses == s.responses && r.movesSent == s.movesSent
  {
    match ColumnChoice(s.keyboard)
    case Column(_, used) => s.(keyboard := s.keyboard[used..])
    case QuitChosen(used) => s.(keyboard := s.keyboard[used..]).Exit()
    case Exhausted => s.(keyboard := [], failed := true)
  }

  /** makeNextMove */
  function NextMove(s: Client): (r: Client)
    ensures |r.responses| <= |s.responses| && (s.Halted() ==> r.Halted())
  {
    var s1 := Choose(s.(deciding := true));
    if s1.Halted() then s1
    else
      var s2 := CheckState(s1);
      if s2.Halted() then s2
      else Send(s2, ColumnChoice(s.keyboard).n)
  }

  /** The end of makeNextMove: the column goes to the server unless the opponent is awaited. */
  function Send(s: Client, column: int): Client {
    var t := if s.flags.waitingForOpponent then s
             else s.(movesSent := s.movesSent + [column]).Print(SENT_MESSAGE);
    t.(deciding := false, displayedWaitingMessage := false)
  }

  /** One pass of runGame's loop. */
  function PollOnce(s: Client): (r: Client)
    ensures !s.Halted() ==> Measure(r) < Measure(s)
  {
    var t := WaitingCheck(s);
    if t.Halted() || !t.TimeToMakeAMove() then t
    else NextMove(t.Print(t.matrixAsText))
  }

  /** Every pass of the loop that keeps the client running consumes a reply. */
  function Measure(s: Client): nat {
    |s.responses| + if s.Halted() then 0 else 1
  }

  /** runGame: passes of the loop until the game is over or the client has stopped. */
  function Run(s: Client): (r: Client)
    ensures r.gameOver || r.Halted()
    decreases Measure(s)
  {
    if s.gameOver || s.Halted() then s else Run(PollOnce(s))
  }

  /** joinGame, from the name typed and the server's reply to the join. */
  function JoinStep(s: Client, name: string, joinResult: string): Client {
    var t := s.(playerName := name);
    if Contains(joinResult, "full") then t.(isGameFull := true).Print(joinResult).Exit()
    else Run(CheckState(t.Print(joinResult)))
  }

  // ---------------------------------------------------------------------
  // Properties of the steps
  // ---------------------------------------------------------------------

  /** The three header names differ even ignoring case. */
  lemma HeaderNamesDistinct()
    ensures !EqualsIgnoreCase(TURN_HEADER, WAITING_HEADER)
    ensures !EqualsIgnoreCase(TURN_HEADER, WINNER_HEADER)
    ensures !EqualsIgnoreCase(WAITING_HEADER, WINNER_HEADER)
  {
    DifferAt(TURN_HEADER, WAITING_HEADER, 2);
    DifferAt(TURN_HEADER, WINNER_HEADER, 2);
    DifferAt(WAITING_HEADER, WINNER_HEADER, 3);
  }

  /** A header name matching one of the three names ignoring case matches no other. */
  lemma HeaderKindUnique(k: string)
    ensures EqualsIgnoreCase(k, TURN_HEADER) ==> !EqualsIgnoreCase(k, WAITING_HEADER) && !EqualsIgnoreCase(k, WINNER_HEADER)
    ensures EqualsIgnoreCase(k, WAITING_HEADER) ==> !EqualsIgnoreCase(k, WINNER_HEADER)
  {
    HeaderNamesDistinct();
    EqualsIgnoreCaseEquivalence(k, TURN_HEADER, WAITING_HEADER);
    EqualsIgnoreCaseEquivalence(TURN_HEADER, k, WAITING_HEADER);
    EqualsIgnoreCaseEquivalence(k, TURN_HEADER, WINNER_HEADER);
    EqualsIgnoreCaseEquivalence(TURN_HEADER, k, WINNER_HEADER);
    EqualsIgnoreCaseEquivalence(k, WAITING_HEADER, WINNER_HEADER);
    EqualsIgnoreCaseEquivalence(WAITING_HEADER, k, WINNER_HEADER);
  }

  /**
   * What each header does: the turn header sets isOurTurn to whether it names
   * this player ignoring case, the waiting header sets waitingForOpponent to
   * whether it says "true" ignoring case, an empty winner header does nothing
   * and any other winner header announces the winner and ends the client.
   */
  lemma ReadHeaderEffect(f: Flags, me: string, k: string, v: string)
    ensures EqualsIgnoreCase(k, TURN_HEADER) ==>
              ReadHeader(f, me, Header(k, v)) == f.(isOurTurn := EqualsIgnoreCase(v, me))
    ensures EqualsIgnoreCase(k, WAITING_HEADER) ==>
              ReadHeader(f, me, Header(k, v)) == f.(waitingForOpponent := EqualsIgnoreCase(v, "true"))
    ensures EqualsIgnoreCase(k, WINNER_HEADER) && v == "" ==> ReadHeader(f, me, Header(k, v)) == f
    ensures EqualsIgnoreCase(k, WINNER_HEADER) && v != "" ==>
              ReadHeader(f, me, Header(k, v)) ==
                f.(winnerAnnounced := true, exited := true, console := f.console + [WinnerMessage(v, me)])
  {
    HeaderKindUnique(k);
  }

  /** Once announcing a winner has ended the client, the remaining headers are not read. */
  lemma {:induction false} ReadHeadersStopped(f: Flags, me: string, hs: seq<Header>, i: int)
    requires 0 <= i <= |hs| && ReadHeaders(f, me, hs[..i]).exited
    ensures ReadHeaders(f, me, hs) == ReadHeaders(f, me, hs[..i])
    decreases |hs| - i
  {
    if i < |hs| {
      assert hs[..i + 1][..i] == hs[..i];
      ReadHeadersStopped(f, me, hs, i + 1);
    } else {
      assert hs[..i] == hs;
    }
  }

  /** One more header, while the client is still running. */
  lemma ReadHeadersStep(f: Flags, me: string, hs: seq<Header>, i: int)
    requires 0 <= i < |hs| && !ReadHeaders(f, me, hs[..i]).exited
    ensures ReadHeaders(f, me, hs[..i + 1]) == ReadHeader(ReadHeaders(f, me, hs[..i]), me, hs[i])
  {
    assert hs[..i + 1][..i] == hs[..i];
  }

  /**
   * The turn test ignores case but the congratulation test does not: a
   * player "Bob" told that it is "BOB"'s turn plays, yet is told "BOB" won
   * as if that were someone else.
   */
  lemma WinnerTestIsCaseSensitive(f: Flags)
    requires !f.exited
    ensures ReadHeaders(f, "Bob", [Header(TURN_HEADER, "BOB")]).isOurTurn
    ensures ReadHeaders(f, "Bob", [Header(WINNER_HEADER, "BOB")]).console == f.console + [WinnerMessage("BOB", "Bob")]
    ensures WinnerMessage("BOB", "Bob") != CONGRATULATIONS
  {
    var turn, win := Header(TURN_HEADER, "BOB"), Header(WINNER_HEADER, "BOB");
    assert [turn][..0] == [] && [win][..0] == [];
    EqualsIgnoreCaseIff("BOB", "Bob");
    assert Lower("BOB") == Lower("Bob");
    EqualsIgnoreCaseEquivalence(TURN_HEADER, TURN_HEADER, TURN_HEADER);
    EqualsIgnoreCaseEquivalence(WINNER_HEADER, WINNER_HEADER, WINNER_HEADER);
    ReadHeaderEffect(f, "Bob", TURN_HEADER, "BOB");
    ReadHeaderEffect(f, "Bob", WINNER_HEADER, "BOB");
    assert "BOB"[1] != "Bob"[1];
    WinnerMessageOther("BOB", "Bob");
  }

  /** A winner whose name differs from the player's, even only in case, is not congratulated. */
  lemma WinnerMessageOther(winner: string, me: string)
    requires winner != me
    ensures WinnerMessage(winner, me) != CONGRATULATIONS
  {
    assert WinnerMessage(winner, me)[1] == 'S' != CONGRATULATIONS[1];
  }

  /** The waiting message is printed only while waiting and not yet shown, and then the latch is set. */
  lemma WaitingMessageLatch(s: Client)
    ensures var t, w := CheckState(s), WaitingCheck(s);
            |w.flags.console| > |t.flags.console| ==>
              t.flags.waitingForOpponent && !s.displayedWaitingMessage && w.displayedWaitingMessage
    ensures s.displayedWaitingMessage ==> WaitingCheck(s).displayedWaitingMessage
  {
  }

  /** After the waiting message was printed, the next waiting check prints none. */
  lemma WaitingMessageOnce(s: Client)
    requires |WaitingCheck(s).flags.console| > |CheckState(s).flags.console|
    ensures var t := WaitingCheck(s);
            WaitingCheck(t).flags.console == CheckState(t).flags.console
  {
    WaitingMessageLatch(s);
  }

  /**
   * makeNextMove, when the client keeps running: the move is sent only if the
   * second state check says the opponent is still there, it is a typed
   * column in 1 .. 9, and the deciding and waiting-message flags end false.
   */
  lemma NextMoveEffect(s: Client)
    requires !NextMove(s).Halted()
    ensures var r := NextMove(s);
            !r.deciding && !r.displayedWaitingMessage &&
            (r.flags.waitingForOpponent ==> r.movesSent == s.movesSent) &&
            (!r.flags.waitingForOpponent ==>
               exists n :: 1 <= n <= 9 && r.movesSent == s.movesSent + [n] && Number(n) in s.keyboard)
  {
    var c := ColumnChoice(s.keyboard);
    ColumnChoiceMeaning(s.keyboard);
    assert c.Column?;
    var r := NextMove(s);
    if !r.flags.waitingForOpponent {
      assert s.keyboard[c.used - 1] == Number(c.n);
      assert r.movesSent == s.movesSent + [c.n];
    }
  }

  /** A state check keeps the invariant. */
  lemma CheckStateInvariant(s: Client)
    requires Invariant(s)
    ensures Invariant(CheckState(s)) && Invariant(WaitingCheck(s))
  {
    if s.responses != [] {
      ReadHeadersExit(s.flags, s.playerName, s.responses[0].headers);
    }
  }

  lemma NextMoveInvariant(s: Client)
    requires Invariant(s)
    ensures Invariant(NextMove(s))
  {
    var s1 := Choose(s.(deciding := true));
    if !s1.Halted() {
      CheckStateInvariant(s1);
      ColumnChoiceMeaning(s.keyboard);
    }
  }

  lemma PollOnceInvariant(s: Client)
    requires Invariant(s)
    ensures Invariant(PollOnce(s))
  {
    var t := WaitingCheck(s);
    CheckStateInvariant(s);
    if !(t.Halted() || !t.TimeToMakeAMove()) {
      NextMoveInvariant(t.Print(t.matrixAsText));
    }
  }

  /** A running client polls once more. */
  lemma RunStep(s: Client)
    requires !s.gameOver && !s.Halted()
    ensures Run(s) == Run(PollOnce(s))
  {
  }

  /** The poll loop keeps the invariant. */
  lemma {:induction false} RunInvariant(s: Client)
    requires Invariant(s)
    ensures Invariant(Run(s))
    decreases Measure(s)
  {
    if !(s.gameOver || s.Halted()) {
      PollOnceInvariant(s);
      RunInvariant(PollOnce(s));
    }
  }

  /** A reply containing "full" ends the client before any state check. */
  lemma FullReplyStopsClient(s: Client, name: string, joinResult: string)
    requires Contains(joinResult, "full")
    ensures var r := JoinStep(s, name, joinResult);
            r.isGameFull && r.flags.exited && r.responses == s.responses && r.movesSent == s.movesSent
  {
  }

  /** The server's refusal does stop the client. */
  lemma RefusalStopsClient(s: Client, name: string)
    ensures JoinStep(s, name, FULL_MESSAGE).isGameFull
  {
    ContainsInfix("Sorry, the game is ", "full", ".");
    assert "Sorry, the game is " + "full" + "." == FULL_MESSAGE;
  }

  /**
   * The join test as written: a player whose name contains "full" is admitted
   * by the server, yet the reply contains "full" and the client stops as if
   * the game were full, leaving its seat taken.
   */
  lemma JoinCheckMisfires(s: Client)
    ensures Admit([], "fullback") == ["fullback"]
    ensures JoinReply([], "fullback") != FULL_MESSAGE
    ensures JoinStep(s, "fullback", JoinReply([], "fullback")).isGameFull
  {
    RefusalIffFull([], "fullback");
    ContainsInfix("", "full", "back");
    assert "" + "full" + "back" == "fullback";
    var rest := " has joined!\n All players: " + JoinNames(["fullback"]) + ".\n";
    ContainsOfPart("[SERVER] Player ", "fullback", rest, "full");
    assert JoinReply([], "fullback") == "[SERVER] Player " + "fullback" + rest;
  }

  /** The join test with the intended meaning: the reply is the server's refusal. */
  predicate IsRefusal(joinResult: string) {
    joinResult == FULL_MESSAGE
  }

  /** The intended test stops the client exactly when the server turned the join down. */
  lemma RefusalTestExact(roster: seq<string>, name: string)
    ensures IsRefusal(JoinReply(roster, name)) <==> |roster| == 2
  {
    RefusalIffFull(roster, name);
  }

  /** After u rejected lines, the outcome is decided by the next line. */
  lemma {:induction false} ChoiceAfterRejects(ts: seq<Token>, u: int)
    requires 0 <= u <= |ts| && forall i :: 0 <= i < u ==> Rejected(ts[i])
    ensures u == |ts| ==> ColumnChoice(ts) == Exhausted
    ensures u < |ts| && ts[u] == Quit ==> ColumnChoice(ts) == QuitChosen(u + 1)
    ensures u < |ts| && ts[u].Number? && 1 <= ts[u].n <= 9 ==> ColumnChoice(ts) == Column(ts[u].n, u + 1)
    decreases u
  {
    if u > 0 {
      ChoiceAfterRejects(ts[1..], u - 1);
    }
  }

  /** The column prompt changes only the console position and the two ways of stopping. */
  lemma ChooseFrame(s: Client)
    ensures var r := Choose(s);
            r == s.(keyboard := r.keyboard, failed := r.failed, flags := s.flags.(exited := r.flags.exited))
  {
  }

  /** The column prompt's effect, field by field, is Choose. */
  lemma ChooseByFields(s: Client, keyboard: seq<Token>, exited: bool, failed: bool, r: Client)
    requires match ColumnChoice(s.keyboard)
             case Column(n, used) => keyboard == s.keyboard[used..] && exited == s.flags.exited && failed == s.failed
             case QuitChosen(used) => keyboard == s.keyboard[used..] && exited && failed == s.failed
             case Exhausted => keyboard == [] && failed && exited == s.flags.exited
    requires r == s.(keyboard := keyboard, failed := failed, flags := s.flags.(exited := exited))
    ensures r == Choose(s)
  {
  }

  // ---------------------------------------------------------------------
  // The client object
  // ---------------------------------------------------------------------

  class GameRunner {
    var isOurTurn: bool
    var waitingForOpponent: bool
    var deciding: bool
    var isGameFull: bool
    var displayedWaitingMessage: bool
    var winnerAnnounced: bool
    var gameOver: bool
    var exited: bool
    var failed: bool
    var playerName: string
    var matrixAsText: string
    var responses: seq<Snapshot>
    var keyboard: seq<Token>
    var console: seq<string>
    var movesSent: seq<int>

    function State(): Client
      reads this
    {
      Client(Flags(isOurTurn, waitingForOpponent, winnerAnnounced, exited, console),
             deciding, isGameFull, displayedWaitingMessage, gameOver, failed,
             playerName, matrixAsText, responses, keyboard, movesSent)
    }

    ghost predicate Valid()
      reads this
    {
      Invariant(State())
    }

    constructor (replies: seq<Snapshot>, typed: seq<Token>)
      ensures Valid() && State() == Initial(replies, typed)
    {
      isOurTurn, waitingForOpponent, deciding, isGameFull := false, true, false, false;
      displayedWaitingMessage, winnerAnnounced, gameOver := false, false, false;
      exited, failed := false, false;
      playerName, matrixAsText := "", "";
      responses, keyboard, console, movesSent := replies, typed, [], [];
    }

    /** joinGame */
    method JoinGame(name: string, joinResult: string)
      requires Valid()
      modifies this
      ensures Valid() && State() == JoinStep(old(State()), name, joinResult)
    {
      playerName := name;
      if Contains(joinResult, "full") {
        isGameFull := true;
        console := console + [joinResult];
        exited := true;
      } else {
        console := console + [joinResult];
        ghost var t := State();
        CheckStateInvariant(t);
        CheckGameState();
        RunGame();
      }
    }

    /** runGame: poll until the game is over; a stopped client polls no more. */
    method RunGame()
      requires Valid()
      modifies this
      ensures Valid() && State() == Run(old(State()))
    {
      ghost var s0 := State();
      while !gameOver && !(exited || failed)
        invariant Valid() && Run(State()) == Run(s0)
        decreases Measure(State())
      {
        ghost var before := State();
        RunStep(before);
        PollOnceInvariant(before);
        ConditionalWaitingMessage();
        if !exited && !failed && State().TimeToMakeAMove() {
          console := console + [matrixAsText];
          assert State() == WaitingCheck(before).Print(WaitingCheck(before).matrixAsText);
          MakeNextMove();
        }
        assert State() == PollOnce(before);
      }
    }

    /** checkGameState */
    method CheckGameState()
      modifies this
      ensures State() == CheckState(old(State()))
    {
      if responses == [] {
        failed := true;
        return;
      }
      var reply := responses[0];
      responses := responses[1..];
      matrixAsText := reply.body;
      AnalyseHeaders(reply.headers);
    }

    /** analyseHeaders */
    method AnalyseHeaders(headers: seq<Header>)
      modifies this
      ensures State() == old(State()).(flags := ReadHeaders(old(State()).flags, playerName, headers))
    {
      ghost var s0 := State();
      var i := 0;
      while i < |headers| && !exited
        invariant 0 <= i <= |headers|
        invariant State() == s0.(flags := ReadHeaders(s0.flags, playerName, headers[..i]))
      {
        ReadHeadersStep(s0.flags, playerName, headers, i);
        AnalyseHeader(headers[i]);
        i := i + 1;
      }
      ReadHeadersExit(s0.flags, playerName, headers);
      if i < |headers| {
        ReadHeadersStopped(s0.flags, playerName, headers, i);
      } else {
        assert headers[..i] == headers;
      }
    }

    /** The body of analyseHeaders' loop, for one header. */
    method AnalyseHeader(h: Header)
      modifies this
      ensures State() == old(State()).(flags := ReadHeader(old(State()).flags, playerName, h))
    {
      if EqualsIgnoreCase(h.name, TURN_HEADER) {
        isOurTurn := EqualsIgnoreCase(h.value, playerName);
      } else if EqualsIgnoreCase(h.name, WAITING_HEADER) {
        waitingForOpponent := EqualsIgnoreCase(h.value, "true");
      } else if EqualsIgnoreCase(h.name, WINNER_HEADER) {
        if h.value == "" {
          return;
        }
        AnnounceWinner(h.value);
      }
    }

    /** announceWinner: the message goes to the console and the client exits. */
    method AnnounceWinner(name: string)
      modifies this
      ensures State() == old(State()).(flags := old(State()).flags.(winnerAnnounced := true, exited := true,
                                         console := old(console) + [WinnerMessage(name, playerName)]))
    {
      winnerAnnounced := true;
      var message := WinnerMessage(name, playerName);
      console := console + [message];
      exited := true;
    }

    /** conditionalWaitingMessage */
    method ConditionalWaitingMessage()
      modifies this
      ensures State() == WaitingCheck(old(State()))
    {
      CheckGameState();
      if exited || failed {
        return;
      }
      if waitingForOpponent && !displayedWaitingMessage {
        console := console + [WAITING_MESSAGE];
        displayedWaitingMessage := true;
      }
    }

    /**
     * requestColumnChoice: lines are read until one is a column in 1 .. 9 or
     * a quit.  Only the console position and the two ways of stopping change.
     */
    method RequestColumnChoice() returns (chosenColumn: int)
      modifies this`keyboard, this`exited, this`failed
      ensures match ColumnChoice(old(keyboard))
              case Column(n, used) =>
                chosenColumn == n && keyboard == old(keyboard)[used..] && exited == old(exited) && failed == old(failed)
              case QuitChosen(used) => keyboard == old(keyboard)[used..] && exited && failed == old(failed)
              case Exhausted => keyboard == [] && failed && exited == old(exited)
    {
      ghost var k0 := keyboard;
      ghost var used := 0;
      chosenColumn := -1;
      while chosenColumn > 9 || chosenColumn < 1
        invariant 0 <= used <= |k0| && keyboard == k0[used..] && exited == old(exited) && failed == old(failed)
        invariant chosenColumn > 9 || chosenColumn < 1 ==> forall i :: 0 <= i < used ==> Rejected(k0[i])
        invariant 1 <= chosenColumn <= 9 ==> ColumnChoice(k0) == Column(chosenColumn, used)
        decreases |keyboard|
      {
        var line := GetInput();
        ChoiceAfterRejects(k0, used);
        match line
        case None =>
          failed := true;
          break;
        case Some(Quit) =>
          exited := true;
          break;
        case Some(Number(n)) =>
          chosenColumn := n;
          used := used + 1;
      }
    }

    /** getInput: the next console line; None when the console is closed. */
    method GetInput() returns (line: Option<Token>)
      modifies this`keyboard
      ensures old(keyboard) == [] ==> line == None && keyboard == old(keyboard)
      ensures old(keyboard) != [] ==> line == Some(old(keyboard)[0]) && keyboard == old(keyboard)[1..]
    {
      if keyboard == [] {
        return None;
      }
      line := Some(keyboard[0]);
      keyboard := keyboard[1..];
    }

    /** makeNextMove */
    method MakeNextMove()
      modifies this
      ensures State() == NextMove(old(State()))
    {
      ghost var s := State();
      deciding := true;
      var choice := RequestColumnChoice();
      ChooseByFields(s.(deciding := true), keyboard, exited, failed, State());
      if !exited && !failed {
        RecheckAndSend(choice);
      }
    }

    /** The rest of makeNextMove: the second state check, then the move unless the opponent is awaited. */
    method RecheckAndSend(choice: int)
      modifies this
      ensures var t := CheckState(old(State())); State() == if t.Halted() then t else Send(t, choice)
    {
      CheckGameState();
      if !exited && !failed {
        SendMove(choice);
      }
    }

    /** The end of makeNextMove, once the client is still running after the second state check. */
    method SendMove(choice: int)
      modifies this`movesSent, this`console, this`deciding, this`displayedWaitingMessage
      ensures !old(waitingForOpponent) ==> movesSent == old(movesSent) + [choice] && console == old(console) + [SENT_MESSAGE]
      ensures old(waitingForOpponent) ==> movesSent == old(movesSent) && console == old(console)
      ensures !deciding && !displayedWaitingMessage
    {
      if !waitingForOpponent {
        movesSent := movesSent + [choice];
        console := console + [SENT_MESSAGE];
      }
      deciding, displayedWaitingMessage := false, false;
    }

    /** endGame: called from the shutdown hook; the poll loop then stops. */
    method EndGame()
      modifies this
      ensures State() == old(State()).(gameOver := true)
    {
      gameOver := true;
    }
  }
}
