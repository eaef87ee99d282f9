/**
 * The bot's game handling: routing of button presses by their callback
 * data, the `move:` and `resign:` handlers, and the parts of the games
 * table they read and write. The table is a map from game id to record;
 * chat messages, keyboards and texts are not modelled.
 */
module Bot {
  import opened Wrappers
  import opened Board
  import opened Rules
  import opened Text
  import opened GameLogic
  import opened Opening
  import Stats

  // ---------------------------------------------------------------------
  // Callback data
  // ---------------------------------------------------------------------

  /** Python's `s.startswith(prefix)`. */
  predicate StartsWith(s: string, prefix: string) {
    |prefix| <= |s| && s[..|prefix|] == prefix
  }

  /** The handler `handle_callback` hands a button press to. */
  datatype Route = NewGame | Accept | Reject | Move | Status | Resign | Unrouted

  /** The characters that tell the callback prefixes apart. */
  lemma PrefixHeads(data: string)
    ensures StartsWith(data, "accept:") ==> data[0] == 'a'
    ensures StartsWith(data, "reject:") ==> data[0] == 'r' && data[2] == 'j'
    ensures StartsWith(data, "move:") ==> data[0] == 'm'
    ensures StartsWith(data, "status:") ==> data[0] == 's'
    ensures StartsWith(data, "resign:") ==> data[0] == 'r' && data[2] == 's'
  {
  }

  /**
   * `handle_callback`: "new_game" exactly, otherwise by prefix. No two of
   * the prefixes can start the same string, so each route is taken exactly
   * when its prefix is present; any other data, such as "scores", reaches
   * no handler.
   */
  function RouteOf(data: string): (r: Route)
    ensures r == NewGame <==> data == "new_game"
    ensures r == Accept <==> StartsWith(data, "accept:")
    ensures r == Reject <==> StartsWith(data, "reject:")
    ensures r == Move <==> StartsWith(data, "move:")
    ensures r == Status <==> StartsWith(data, "status:")
    ensures r == Resign <==> StartsWith(data, "resign:")
  {
    PrefixHeads(data);
    if data == "new_game" then NewGame
    else if StartsWith(data, "accept:") then Accept
    else if StartsWith(data, "reject:") then Reject
    else if StartsWith(data, "move:") then Move
    else if StartsWith(data, "status:") then Status
    else if StartsWith(data, "resign:") then Resign
    else Unrouted
  }

  /** The callback data of board cell (row, col) of a game's keyboard. */
  function MoveData(gameId: int, row: int, col: int): string {
    "move:" + IntToString(gameId) + ":" + IntToString(row) + ":" + IntToString(col)
  }

  /** The callback data of a game's status button. */
  function StatusData(gameId: int): string {
    "status:" + IntToString(gameId)
  }

  /** The callback data of a game's resign button. */
  function ResignData(gameId: int): string {
    "resign:" + IntToString(gameId)
  }

  datatype MoveRequest = MoveRequest(gameId: int, row: int, col: int)

  /**
   * `_, game_id, row, col = data.split(":")` followed by three `int`
   * conversions; a wrong number of pieces or a piece that is not a number
   * raises, written None here.
   */
  function ParseMove(data: string): Option<MoveRequest> {
    var parts := Split(data, ':');
    if |parts| != 4 then None
    else
      match (ParseInt(parts[1]), ParseInt(parts[2]), ParseInt(parts[3]))
      case (Some(gameId), Some(row), Some(col)) => Some(MoveRequest(gameId, row, col))
      case _ => None
  }

  /** `_, game_id = data.split(":")` followed by `int(game_id)`. */
  function ParseGameId(data: string): Option<int> {
    var parts := Split(data, ':');
    if |parts| != 2 then None else ParseInt(parts[1])
  }

  lemma NoColon(i: int)
    ensures ':' !in IntToString(i)
  {
  }

  /** A cell button's data reaches `handle_move`, which reads back the game and cell it was made for. */
  lemma MoveDataRoundTrip(gameId: int, row: int, col: int)
    ensures RouteOf(MoveData(gameId, row, col)) == Move
    ensures ParseMove(MoveData(gameId, row, col)) == Some(MoveRequest(gameId, row, col))
  {
    var a, b, c := IntToString(gameId), IntToString(row), IntToString(col);
    var data := MoveData(gameId, row, col);
    assert data[..5] == "move:";
    MoveDataPieces(gameId, row, col);
    ParseFormatted(gameId);
    ParseFormatted(row);
    ParseFormatted(col);
  }

  lemma MoveDataPieces(gameId: int, row: int, col: int)
    ensures Split(MoveData(gameId, row, col), ':') == ["move", IntToString(gameId), IntToString(row), IntToString(col)]
  {
    var a, b, c := IntToString(gameId), IntToString(row), IntToString(col);
    var data := MoveData(gameId, row, col);
    NoColon(gameId);
    NoColon(row);
    NoColon(col);
    assert data == "move" + [':'] + (a + [':'] + (b + [':'] + c));
    SplitAt("move", a + [':'] + (b + [':'] + c), ':');
    SplitAt(a, b + [':'] + c, ':');
    SplitAt(b, c, ':');
    SplitWhole(c, ':');
    assert Split(data, ':') == ["move", a, b, c];
  }

  lemma GameIdRoundTrip(prefix: string, gameId: int)
    requires ':' !in prefix
    ensures ParseGameId(prefix + ":" + IntToString(gameId)) == Some(gameId)
  {
    var a := IntToString(gameId);
    NoColon(gameId);
    assert prefix + ":" + a == prefix + [':'] + a;
    SplitAt(prefix, a, ':');
    SplitWhole(a, ':');
    ParseFormatted(gameId);
  }

  /** The status and resign buttons reach their handlers with the game id they were made for. */
  lemma GameButtonsRoundTrip(gameId: int)
    ensures RouteOf(StatusData(gameId)) == Status && ParseGameId(StatusData(gameId)) == Some(gameId)
    ensures RouteOf(ResignData(gameId)) == Resign && ParseGameId(ResignData(gameId)) == Some(gameId)
  {
    assert StatusData(gameId) == "status" + ":" + IntToString(gameId);
    assert ResignData(gameId) == "resign" + ":" + IntToString(gameId);
    assert StatusData(gameId)[..7] == "status:";
    assert ResignData(gameId)[..7] == "resign:";
    GameIdRoundTrip("status", gameId);
    GameIdRoundTrip("resign", gameId);
  }

  // ---------------------------------------------------------------------
  // The games table
  // ---------------------------------------------------------------------

  datatype GameStatus = Active | Ended

  /** The columns of a games row that the handlers use; `winner` is NULL (None) or a text. */
  datatype GameRecord = GameRecord(player1: int, player2: int, board: Grid, currentPlayer: Player,
                                   status: GameStatus, winner: Option<string>)

  /** The `winner` argument of `end_game`, which Python does not type: a number or a text. */
  datatype WinnerArg = Code(n: int) | Label(s: string)

  /** `end_game`'s winner text: 1, 2 and 0 are named; every other argument, texts included, becomes NULL. */
  function WinnerText(w: WinnerArg): (t: Option<string>)
    ensures t == Some("player1") <==> w == Code(1)
    ensures t == Some("player2") <==> w == Code(2)
    ensures t == Some("draw") <==> w == Code(0)
    ensures t.None? <==> !(w.Code? && 0 <= w.n <= 2)
  {
    assert "player1"[6] != "player2"[6] && "player1"[0] != "draw"[0] && "player2"[0] != "draw"[0];
    if w == Code(1) then Some("player1")
    else if w == Code(2) then Some("player2")
    else if w == Code(0) then Some("draw")
    else None
  }

  /** A row created by `create_game`: the column defaults, Black to move, still active. */
  function NewRecord(player1: int, player2: int): GameRecord {
    GameRecord(player1, player2, InitialGrid(), Black, Active, None)
  }

  /** A row has a winner text exactly when it has ended. */
  predicate Settled(rec: GameRecord) {
    rec.status == Ended <==> rec.winner.Some?
  }

  predicate AllSettled(games: map<int, GameRecord>) {
    forall id :: id in games ==> Settled(games[id])
  }

  /** The games table, with the last id its AUTOINCREMENT handed out. */
  class GameStore {
    var games: map<int, GameRecord>
    var lastId: int

    ghost predicate Valid()
      reads this
    {
      lastId >= 0 && forall id :: id in games ==> 1 <= id <= lastId
    }

    /**
     * Opening the database: `CREATE TABLE IF NOT EXISTS` keeps the rows the
     * file already holds and the last id handed out; a new file has none.
     */
    constructor (rows: map<int, GameRecord>, counter: int)
      requires counter >= 0 && forall id :: id in rows ==> 1 <= id <= counter
      ensures Valid() && games == rows && lastId == counter
    {
      games := rows;
      lastId := counter;
    }

    /** `create_game`: a new row under a fresh id, every other column at its default. */
    method CreateGame(player1: int, player2: int) returns (id: int)
      requires Valid()
      modifies this
      ensures Valid()
      ensures id !in old(games) && games == old(games)[id := NewRecord(player1, player2)]
    {
      lastId := lastId + 1;
      id := lastId;
      games := games[id := NewRecord(player1, player2)];
    }

    /** `get_game`: the row, or None when no row has this id. */
    method GetGame(id: int) returns (game: Option<GameRecord>)
      ensures game.Some? <==> id in games
      ensures game.Some? ==> game.value == games[id]
    {
      game := if id in games then Some(games[id]) else None;
    }

    /** `update_game_board`: an UPDATE by id, which touches no row when the id is unknown. */
    method UpdateGameBoard(id: int, board: Grid, currentPlayer: Player)
      modifies this`games
      ensures games == if id in old(games) then old(games)[id := old(games)[id].(board := board, currentPlayer := currentPlayer)] else old(games)
    {
      if id in games {
        games := games[id := games[id].(board := board, currentPlayer := currentPlayer)];
      }
    }

    /** `end_game`: marks the row ended and stores the winner text of `winner`. */
    method EndGame(id: int, winner: WinnerArg)
      modifies this`games
      ensures games == if id in old(games) then old(games)[id := old(games)[id].(status := Ended, winner := WinnerText(winner))] else old(games)
    {
      if id in games {
        games := games[id := games[id].(status := Ended, winner := WinnerText(winner))];
      }
    }
  }

  /** A fresh game matches the table defaults, has a winner text only once ended, and Black can move. */
  lemma NewGameReady(player1: int, player2: int)
    ensures forall r :: 0 <= r < 8 ==> NewRecord(player1, player2).board[r] == DefaultBoardState[r]
    ensures Settled(NewRecord(player1, player2))
    ensures HasMove(NewRecord(player1, player2).board, NewRecord(player1, player2).currentPlayer)
  {
    InitialIsDefault();
    OpeningMoves();
  }

  // ---------------------------------------------------------------------
  // handle_move
  // ---------------------------------------------------------------------

  /** The answer a handler gives to the button press. */
  datatype Reply = NoGame | NotYourTurn | InvalidMove | Moved | Finished | Resigned | Failed | Delegated(route: Route) | Unanswered

  /** A handler's answer, and the row it writes back under the game's id, if any. */
  datatype Outcome = Outcome(reply: Reply, written: Option<GameRecord>)

  /** The table after an outcome: only the handled game's row can change. */
  function Applied(games: map<int, GameRecord>, gameId: int, o: Outcome): map<int, GameRecord> {
    if o.written.Some? then games[gameId := o.written.value] else games
  }

  /** The user whose turn it is: player1 when the current player is 1, player2 otherwise. */
  function ToMove(rec: GameRecord): int {
    if rec.currentPlayer == 1 then rec.player1 else rec.player2
  }

  /** An accepted move. */
  predicate Accepted(reply: Reply) {
    reply == Moved || reply == Finished
  }

  /**
   * The row after an accepted move: the new board and the turn as
   * `make_move` leaves them, and, when neither player can move any more,
   * ended with the winner text of `get_winner`'s number.
   */
  function MovedRecord(rec: GameRecord, row: int, col: int): GameRecord
    requires InBounds(row, col)
  {
    var after := AfterMove(rec.board, row, col, rec.currentPlayer);
    var moved := rec.(board := after, currentPlayer := NextPlayer(after, rec.currentPlayer));
    if GameOver(after) then moved.(status := Ended, winner := WinnerText(Code(Winner(after)))) else moved
  }

  /**
   * What `handle_move` answers and writes: an unknown game, a sender whose
   * turn it is not, and an illegal cell are answered without writing; a
   * move is accepted, and the game's row rewritten, exactly when the game
   * exists, the sender is the user to move and the cell is legal for the
   * stored current player.
   */
  function MoveOutcome(games: map<int, GameRecord>, sender: int, gameId: int, row: int, col: int): (o: Outcome)
    ensures o.written.Some? <==> Accepted(o.reply)
    ensures Accepted(o.reply) <==>
      gameId in games && sender == ToMove(games[gameId]) && IsLegal(games[gameId].board, row, col, games[gameId].currentPlayer)
    ensures o.reply == NoGame <==> gameId !in games
    ensures o.reply == NotYourTurn <==> gameId in games && sender != ToMove(games[gameId])
    ensures o.reply == InvalidMove <==>
      gameId in games && sender == ToMove(games[gameId]) && !IsLegal(games[gameId].board, row, col, games[gameId].currentPlayer)
    ensures o.written.Some? ==>
      && InBounds(row, col) && o.written.value == MovedRecord(games[gameId], row, col)
      && (o.reply == Finished <==> GameOver(o.written.value.board))
  {
    if gameId !in games then Outcome(NoGame, None)
    else
      var rec := games[gameId];
      if sender != ToMove(rec) then Outcome(NotYourTurn, None)
      else if !IsLegal(rec.board, row, col, rec.currentPlayer) then Outcome(InvalidMove, None)
      else
        var next := MovedRecord(rec, row, col);
        Outcome(if GameOver(next.board) then Finished else Moved, Some(next))
  }

  lemma Overwrite<K, V>(m: map<K, V>, k: K, a: V, b: V)
    ensures m[k := a][k := b] == m[k := b]
  {
  }

  /** `handle_move` on a parsed request, with the game rebuilt from its stored row. */
  method HandleMove(store: GameStore, sender: int, gameId: int, row: int, col: int) returns (reply: Reply)
    modifies store`games
    ensures var o := MoveOutcome(old(store.games), sender, gameId, row, col);
      reply == o.reply && store.games == Applied(old(store.games), gameId, o)
  {
    var game := store.GetGame(gameId);
    if game.None? {
      return NoGame;
    }
    var logic := new OthelloGame(Some(game.value.board), game.value.currentPlayer);
    var toMove := if logic.currentPlayer == 1 then game.value.player1 else game.value.player2;
    if sender != toMove {
      return NotYourTurn;
    }
    ghost var before, rec := store.games, game.value;
    var ok := logic.MakeMove(row, col, logic.currentPlayer);
    if !ok {
      return InvalidMove;
    }
    store.UpdateGameBoard(gameId, logic.board, logic.currentPlayer);
    ghost var moved := rec.(board := logic.board, currentPlayer := logic.currentPlayer);
    assert store.games == before[gameId := moved];
    var over := logic.IsGameOver();
    GameOverIff(logic.board);
    if over {
      var winner := Winner(logic.board);
      store.EndGame(gameId, Code(winner));
      Overwrite(before, gameId, moved, moved.(status := Ended, winner := WinnerText(Code(winner))));
      reply := Finished;
    } else {
      reply := Moved;
    }
    assert store.games == before[gameId := MovedRecord(rec, row, col)];
  }

  /**
   * After a legal move the stored turn belongs to the opponent exactly when
   * the opponent can move; while the game goes on the player to move has a
   * legal move, and the game is ended exactly when nobody can move.
   */
  lemma MoveKeepsGamePlayable(rec: GameRecord, row: int, col: int)
    requires IsLegal(rec.board, row, col, rec.currentPlayer)
    ensures var next := MovedRecord(rec, row, col);
      && next.board == AfterMove(rec.board, row, col, rec.currentPlayer)
      && (next.currentPlayer == Opponent(rec.currentPlayer) <==> HasMove(next.board, Opponent(rec.currentPlayer)))
      && (next.status == Ended || HasMove(next.board, next.currentPlayer))
      && (!HasMove(next.board, Black) && !HasMove(next.board, White) ==> next.status == Ended)
  {
    var after := AfterMove(rec.board, row, col, rec.currentPlayer);
    NextPlayerCanMove(after, rec.currentPlayer);
    GameOverIff(after);
  }

  /**
   * When a move leaves nobody able to move, the row is ended with the
   * winner text of the disk counts; otherwise status and winner stay as
   * they were.
   */
  lemma MoveRecordsWinner(rec: GameRecord, row: int, col: int)
    requires InBounds(row, col)
    ensures var next := MovedRecord(rec, row, col);
      && (GameOver(next.board) ==>
            && next.status == Ended
            && (next.winner == Some("player1") <==> Count(next.board, Black) > Count(next.board, White))
            && (next.winner == Some("player2") <==> Count(next.board, White) > Count(next.board, Black))
            && (next.winner == Some("draw") <==> Count(next.board, Black) == Count(next.board, White)))
      && (!GameOver(next.board) ==> next.status == rec.status && next.winner == rec.winner)
  {
    var after := AfterMove(rec.board, row, col, rec.currentPlayer);
    var next := MovedRecord(rec, row, col);
    assert next.board == after;
    if GameOver(after) {
      var w := Winner(after);
      assert next.winner == WinnerText(Code(w));
      assert next.winner == Some("player1") <==> w == 1;
      assert next.winner == Some("player2") <==> w == 2;
      assert next.winner == Some("draw") <==> w == 0;
    }
  }

  /** A row that has a winner text exactly when it has ended keeps that property through a move. */
  lemma MoveKeepsSettled(rec: GameRecord, row: int, col: int)
    requires InBounds(row, col) && Settled(rec)
    ensures Settled(MovedRecord(rec, row, col))
  {
  }

  /**
   * `handle_move` does not look at the status column: a game that has
   * ended, by resignation say, answers a move exactly as it would if it
   * were still active.
   */
  lemma MoveIgnoresStatus(games: map<int, GameRecord>, sender: int, gameId: int, row: int, col: int, status: GameStatus)
    requires gameId in games
    ensures var marked := games[gameId := games[gameId].(status := status)];
      MoveOutcome(marked, sender, gameId, row, col).reply == MoveOutcome(games, sender, gameId, row, col).reply
  {
  }

  // ---------------------------------------------------------------------
  // handle_resign
  // ---------------------------------------------------------------------

  /** The winner `handle_resign` passes to `end_game`: the text naming the other seat. */
  function ResignWinnerAsWritten(rec: GameRecord, sender: int): WinnerArg {
    if sender == rec.player1 then Label("player2") else Label("player1")
  }

  /**
   * Passed as text, the winner is none of `end_game`'s numbers: the row
   * ends with no winner, and the game counts as neither a win nor a loss
   * for either player.
   */
  lemma ResignAsWrittenLosesWinner(rec: GameRecord, sender: int)
    ensures WinnerText(ResignWinnerAsWritten(rec, sender)) == None
    ensures !Settled(rec.(status := Ended, winner := WinnerText(ResignWinnerAsWritten(rec, sender))))
    ensures Stats.ResultOf(WinnerText(ResignWinnerAsWritten(rec, sender)), Stats.First) == Stats.Unscored
    ensures Stats.ResultOf(WinnerText(ResignWinnerAsWritten(rec, sender)), Stats.Second) == Stats.Unscored
  {
  }

  /**
   * What `handle_resign` answers and writes: an unknown game is answered
   * without writing; any other game's row is ended, whoever presses, and
   * keeps its board, with no winner stored.
   */
  function ResignOutcome(games: map<int, GameRecord>, sender: int, gameId: int): (o: Outcome)
    ensures o.reply == NoGame <==> gameId !in games
    ensures o.written.Some? <==> gameId in games
    ensures o.written.Some? ==>
      && o.written.value.status == Ended && o.written.value.winner == None
      && o.written.value.board == games[gameId].board
    ensures gameId in games ==> o == Outcome(Resigned, Some(games[gameId].(status := Ended, winner := None)))
  {
    if gameId !in games then Outcome(NoGame, None)
    else
      var rec := games[gameId];
      Outcome(Resigned, Some(rec.(status := Ended, winner := WinnerText(ResignWinnerAsWritten(rec, sender)))))
  }

  method HandleResign(store: GameStore, sender: int, gameId: int) returns (reply: Reply)
    modifies store`games
    ensures var o := ResignOutcome(old(store.games), sender, gameId);
      reply == o.reply && store.games == Applied(old(store.games), gameId, o)
  {
    var game := store.GetGame(gameId);
    if game.None? {
      return NoGame;
    }
    var winner := if sender == game.value.player1 then Label("player2") else Label("player1");
    store.EndGame(gameId, winner);
    reply := Resigned;
  }

  /**
   * Corrected: the winner a resignation is meant to record, player2 when
   * player1 resigns and player1 when anyone else does, passed as the
   * number `end_game` expects.
   */
  function ResignWinner(rec: GameRecord, sender: int): (w: WinnerArg)
    ensures WinnerText(w) == Some(if sender == rec.player1 then "player2" else "player1")
  {
    if sender == rec.player1 then Code(2) else Code(1)
  }

  /** Corrected: the row after a resignation, ended with the other seat as winner. */
  function ResignedRecord(rec: GameRecord, sender: int): GameRecord {
    rec.(status := Ended, winner := WinnerText(ResignWinner(rec, sender)))
  }

  /** Corrected `handle_resign`: as `ResignOutcome`, but the ended row names the other seat as winner. */
  function ResignOutcomeFixed(games: map<int, GameRecord>, sender: int, gameId: int): (o: Outcome)
    ensures o.reply == ResignOutcome(games, sender, gameId).reply
    ensures o.written.Some? <==> gameId in games
    ensures o.written.Some? ==>
      && o.written.value.status == Ended && o.written.value.board == games[gameId].board
      && o.written.value.winner == Some(if sender == games[gameId].player1 then "player2" else "player1")
  {
    if gameId !in games then Outcome(NoGame, None)
    else Outcome(Resigned, Some(ResignedRecord(games[gameId], sender)))
  }

  /**
   * Corrected: a resignation counts as a loss in the resigning player's
   * statistics and as a win in the other player's, and leaves the row
   * settled.
   */
  lemma ResignCountsAsLoss(rec: GameRecord, sender: int)
    ensures var next := ResignedRecord(rec, sender);
      && Settled(next)
      && Stats.ResultOf(next.winner, Stats.First) == (if sender == rec.player1 then Stats.Loss else Stats.Win)
      && Stats.ResultOf(next.winner, Stats.Second) == (if sender == rec.player1 then Stats.Win else Stats.Loss)
  {
  }

  /** Writing back a settled row keeps the whole table settled. */
  lemma AppliedSettled(games: map<int, GameRecord>, gameId: int, o: Outcome)
    requires AllSettled(games) && (o.written.Some? ==> Settled(o.written.value))
    ensures AllSettled(Applied(games, gameId, o))
  {
  }

  /** In a table where every row has a winner text exactly when it has ended, that stays so after any move. */
  lemma MovesKeepSettled(games: map<int, GameRecord>, sender: int, gameId: int, row: int, col: int)
    requires AllSettled(games)
    ensures AllSettled(Applied(games, gameId, MoveOutcome(games, sender, gameId, row, col)))
  {
    if MoveOutcome(games, sender, gameId, row, col).written.Some? {
      MoveKeepsSettled(games[gameId], row, col);
    }
    AppliedSettled(games, gameId, MoveOutcome(games, sender, gameId, row, col));
  }

  /** A resignation as written leaves an ended row without a winner, so the table is no longer settled. */
  lemma ResignBreaksSettled(games: map<int, GameRecord>, sender: int, gameId: int)
    requires gameId in games
    ensures !AllSettled(Applied(games, gameId, ResignOutcome(games, sender, gameId)))
  {
    var after := Applied(games, gameId, ResignOutcome(games, sender, gameId));
    assert gameId in after && !Settled(after[gameId]);
  }

  /** Corrected: with the winner passed as a number, a resignation keeps the table settled. */
  lemma FixedResignKeepsSettled(games: map<int, GameRecord>, sender: int, gameId: int)
    requires AllSettled(games)
    ensures AllSettled(Applied(games, gameId, ResignOutcomeFixed(games, sender, gameId)))
  {
    if gameId in games {
      ResignCountsAsLoss(games[gameId], sender);
    }
    AppliedSettled(games, gameId, ResignOutcomeFixed(games, sender, gameId));
  }

  // ---------------------------------------------------------------------
  // handle_callback
  // ---------------------------------------------------------------------

  /**
   * `handle_callback` for a press by user `sender`. A move or resign press
   * whose data cannot be parsed raises, and the exception handler answers
   * "Error" (Failed). The new-game, accept, reject and status handlers are
   * not modelled; of those only accept writes to the games table.
   */
  method HandleCallback(store: GameStore, sender: int, data: string) returns (reply: Reply)
    modifies store`games
    ensures RouteOf(data) == Move ==>
      match ParseMove(data)
      case None => reply == Failed && store.games == old(store.games)
      case Some(m) =>
        var o := MoveOutcome(old(store.games), sender, m.gameId, m.row, m.col);
        reply == o.reply && store.games == Applied(old(store.games), m.gameId, o)
    ensures RouteOf(data) == Resign ==>
      match ParseGameId(data)
      case None => reply == Failed && store.games == old(store.games)
      case Some(id) =>
        var o := ResignOutcome(old(store.games), sender, id);
        reply == o.reply && store.games == Applied(old(store.games), id, o)
    ensures RouteOf(data) in {NewGame, Accept, Reject, Status} ==> reply == Delegated(RouteOf(data))
    ensures RouteOf(data) in {NewGame, Reject, Status, Unrouted} ==> store.games == old(store.games)
    ensures RouteOf(data) == Unrouted ==> reply == Unanswered
    ensures old(store.Valid()) ==> store.Valid()
  {
    var route := RouteOf(data);
    if route == Move {
      var request := ParseMove(data);
      if request.None? {
        return Failed;
      }
      reply := HandleMove(store, sender, request.value.gameId, request.value.row, request.value.col);
    } else if route == Resign {
      var gameId := ParseGameId(data);
      if gameId.None? {
        return Failed;
      }
      reply := HandleResign(store, sender, gameId.value);
    } else if route == Unrouted {
      reply := Unanswered;
    } else {
      reply := Delegated(route);
    }
  }
}
