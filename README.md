# Othello Telegram bot — verified model of the game core

This project models the core of a Telegram bot on which two users play Othello (Reversi). It covers:

- the rules engine (`OthelloGame`): the start position, legality of a move, the list of valid moves, applying a move with its flips and the turn hand-over, scores, game over and winner;
- the button handlers that drive it: routing a press by its callback data, `handle_move` and `handle_resign`;
- the rows of the games table that those handlers read and write;
- the statistics a player is shown (`get_player_stats`).

Modules:

- `Board`: cells, the 8×8 grid, disk counts, the start position and the table's default board.
- `Rules`: the rules as functions of a board value. It states what `is_valid_move` and `make_move` compute: the runs of opponent disks bracketed along the eight directions, the board after a move, the next player, game over, scores and winner.
- `GameLogic`: class `OthelloGame`, whose `board` and `currentPlayer` fields its methods update in place.
  - The loops of `is_valid_move`, `get_valid_moves`, `make_move` and `is_game_over` are methods proved against `Rules`.
  - `make_move` flips direction by direction on the board it is changing. The proof shows this is the same as flipping every bracketed disk of the original board.
- `Text`: the bits of Python string handling the handlers rely on: `str(int)`, `int(str)` and `str.split`.
- `Bot`:
  - callback routing and parsing;
  - the games table as class `GameStore`, whose `games` map its methods reassign;
  - `handle_move`, `handle_resign` and `handle_callback` as methods. Each is specified by a function giving the reply and the row written back.
- `Opening`: the start position worked through: Black's four legal moves and the effect of the first of them.
- `Stats`: `get_player_stats` as a method with the two loops of the source over the query rows. It is specified by a ghost predicate relating the result to the sequence of games it has seen.

Neither handler reads the status column. A move or a resignation on a game that has already ended is handled as if the game were active (`Bot.MoveIgnoresStatus`).

`handle_resign` passes the winner to `end_game` as text, which `end_game` does not recognise (see "## Findings"). `Bot.ResignOutcome` and `Bot.HandleResign` model the code as written: the row is ended with no winner. `Bot.ResignOutcomeFixed` is the corrected behaviour, and the lemmas marked "Corrected" are about it.

## Model

| member | source | states |
|---|---|---|
| Board.InitialCells | game_logic.py:10-16 | The start position has Black at (3,3) and (4,4), White at (3,4) and (4,3), and every other cell empty |
| Board.InitialCounts | game_logic.py:10-16 | The start position holds two disks of each colour and 60 empty cells |
| Board.InitialIsDefault | database.py:36 | The start position built by `get_initial_board` equals the `board_state` column default |
| Board.Conservation | game_logic.py:101-104 | Black, White and empty cells always add up to 64 |
| GameLogic.OthelloGame.constructor | game_logic.py:4-8 | A game built from a stored board uses that board, and with none uses the start position; the current player is the one given |
| GameLogic.OthelloGame.IsValidMove | game_logic.py:18-49 | The direction-by-direction walk answers exactly `IsLegal`: on the board, empty, and some direction has one or more opponent disks followed by the player's disk |
| GameLogic.OthelloGame.ScanDirection | game_logic.py:30-47 | One direction's walk reports true exactly when that direction captures |
| Rules.LegalIff | game_logic.py:18-49 | A move is legal iff the cell is on the board, empty, and in some direction a non-empty run of opponent disks is directly followed by a disk of the player |
| Rules.IllegalCells | game_logic.py:19-23 | Off-board and occupied cells are never legal |
| GameLogic.OthelloGame.GetValidMoves | game_logic.py:51-57 | Returns `ValidMoves`, the legal cells in row-major order |
| GameLogic.OthelloGame.RowValidMoves | game_logic.py:54-56 | The inner loop collects one row's legal cells from left to right |
| Rules.ValidMovesIff | game_logic.py:51-57 | A cell is in the list iff it is a legal move |
| Rules.ValidMovesSorted | game_logic.py:51-57 | The list is strictly ascending in row-major order, so it has no duplicates |
| Rules.NoValidMoves | game_logic.py:96 | The list is empty iff the player has no legal move anywhere |
| GameLogic.OthelloGame.MakeMove | game_logic.py:59-99 | An illegal move returns false and leaves board and turn unchanged. A legal one returns true, leaves the board equal to `AfterMove` of the old board and gives the turn to `NextPlayer` |
| GameLogic.OthelloGame.PlaceAndFlip | game_logic.py:63-92 | Placing the disk and flipping direction by direction on the changing board gives `AfterMove` of the original board |
| GameLogic.OthelloGame.CollectRun | game_logic.py:71-92 | The walk collects the cells of the opponent run along a direction and reports whether that direction captures |
| GameLogic.OthelloGame.FlipDirection | game_logic.py:70-89 | After one direction's pass the board is the next stage of the flip: the collected run is flipped when the direction captures, and otherwise nothing changes |
| GameLogic.OthelloGame.PassTurn | game_logic.py:94-97 | The turn goes to the opponent, and back to the mover when the opponent has no valid move |
| Rules.MoveEffects | game_logic.py:63-92 | After a legal move the target holds the mover's disk, every flipped disk was the opponent's and is now the mover's, every other cell is unchanged, and the neighbouring disk in each capturing direction flips |
| Rules.FlipsIff | game_logic.py:78-92 | A disk k steps along a direction flips iff it lies in an opponent run bracketed by the mover's disk |
| Rules.FlippedWasOpponent | game_logic.py:78-90 | Only opponent disks are flipped |
| Rules.NoCaptureNoChange | game_logic.py:83-89 | Along a direction that does not capture, no cell changes |
| Rules.MoveCounts | game_logic.py:59-99 | A legal move flips f ≥ 1 disks. The mover gains 1 + f disks, the opponent loses f, and one empty cell is filled |
| Rules.NextPlayerCanMove | game_logic.py:94-97 | The opponent gets the turn iff it has a legal move. Unless the game is over, whoever gets the turn has a legal move; once it is over the turn stays with the mover |
| Rules.GameOverIff | game_logic.py:106-109 | The game is over iff neither Black nor White has a legal move |
| GameLogic.OthelloGame.IsGameOver | game_logic.py:106-109 | Answers true exactly when neither player has a legal move |
| Rules.Scores | game_logic.py:101-104 | The Black and White counts together with the empty cells make 64 |
| Rules.Winner | game_logic.py:111-118 | 1 iff Black has more disks, 2 iff White has more, 0 iff the counts are equal |
| Opening.InitialStartDisks | game_logic.py:10-16 | The start position has White exactly at (3,4) and (4,3) and Black exactly at (3,3) and (4,4) |
| Opening.CaptureNext | game_logic.py:18-49 | An empty cell whose neighbour is an opponent disk with the player's disk right behind it is a legal move |
| Opening.OnlyOpeningCaptures | game_logic.py:30-47 | With the start position's disks, a capturing direction for Black can only start at (2,4), (3,5), (4,2) or (5,3) |
| Opening.StartLegalIff | game_logic.py:18-49 | With the start position's disks, Black may play a cell iff it is one of those four |
| Opening.StartLegalSound | game_logic.py:18-49 | Every legal Black move in the start position is one of the four |
| Opening.StartLegalComplete | game_logic.py:18-49 | Each of the four is a legal Black move in the start position |
| Opening.StartMoves | game_logic.py:51-57 | With the start position's disks, `get_valid_moves(1)` is exactly [(2,4), (3,5), (4,2), (5,3)] |
| Opening.OpeningMoves | game_logic.py:51-57 | `get_valid_moves(1)` on the start position is exactly those four cells in that order, so Black has a move |
| Opening.Untouched | game_logic.py:78-92 | A cell off the move's lines, or not holding an opponent disk, keeps its value |
| Opening.FlipNeighbour | game_logic.py:78-92 | A move capturing the neighbour in a direction turns that neighbour to the mover |
| Opening.SingleFlip | game_logic.py:59-99 | From two disks each, a legal move that leaves an opponent disk standing changes two cells and leaves the counts at 4 and 1 |
| Opening.FirstMoveFlipsOne | game_logic.py:59-99 | Black's move at (2,4) from the start disks changes two cells: Black has 4 disks and White 1 |
| Opening.FirstMovePasses | game_logic.py:94-97 | After Black's move at (2,4), White can answer at (2,5), so White moves next |
| Opening.OpeningMoveFlipsOne | game_logic.py:59-99 | From the start position, Black's move at (2,4) flips exactly one disk and hands the turn to White |
| Text.NatToString | keyboards.py:31 | Decimal digits with no leading zero, as `str` writes a non-negative number |
| Text.IntToString | keyboards.py:31 | `str` of an integer is non-empty, digits with a leading minus only for negatives |
| Text.ParseFormatted | bot.py:199-202 | `int` reads back exactly the number `str` wrote |
| Text.FormatInjective | stats.py:29 | Different integers are written differently |
| Text.Split | bot.py:199 | `split` gives at least one piece, and no piece contains the separator |
| Text.SplitAt | bot.py:199 | Splitting `a + sep + t`, with no separator in a, gives a followed by the pieces of t |
| Text.SplitWhole | bot.py:315 | A string without the separator splits into itself alone |
| Bot.RouteOf | bot.py:95-117 | Each handler is chosen iff its prefix (or, for new games, the exact text) is present; the prefixes cannot overlap; any other data reaches no handler |
| Bot.MoveDataRoundTrip | keyboards.py:31 | A cell button's data is routed to `handle_move`, which parses back the same game, row and column |
| Bot.MoveDataPieces | bot.py:199 | A cell button's data splits into "move" and the three numbers |
| Bot.GameIdRoundTrip | bot.py:315-316 | Data `prefix:id` parses back to the id |
| Bot.GameButtonsRoundTrip | keyboards.py:36-37 | The status and resign buttons are routed to their handlers and parse back their game id |
| Bot.WinnerText | database.py:134-147 | `end_game` stores "player1" iff passed 1, "player2" iff 2, "draw" iff 0, and NULL for anything else |
| Bot.GameStore.constructor | database.py:29-39 | Opening the database keeps the rows and the AUTOINCREMENT counter the file holds; a new file starts with none |
| Bot.GameStore.CreateGame | database.py:102-109 | Inserts a row under a fresh id: the default board, Black to move, active, no winner. Every other row is unchanged |
| Bot.GameStore.GetGame | database.py:111-125 | Returns the row iff the id is present, otherwise None |
| Bot.GameStore.UpdateGameBoard | database.py:127-132 | Rewrites only the board and current player of that id's row; an unknown id changes nothing |
| Bot.GameStore.EndGame | database.py:134-147 | Marks only that id's row ended with the winner text of its argument; an unknown id changes nothing |
| Bot.NewGameReady | database.py:36-38 | A created row carries the default board, has no winner while active, and the player to move has a legal move |
| Bot.MoveOutcome | bot.py:198-275 | Unknown game → "No game". Wrong sender → "Not your turn". Right sender on an illegal cell → "Invalid move". A move is accepted and a row written iff the game exists, the sender holds the current seat and the cell is legal. The row written is `MovedRecord`, and the reply is "finished" iff nobody can move on its board |
| Bot.HandleMove | bot.py:198-275 | Answers with `MoveOutcome`'s reply and leaves the table as `MoveOutcome` writes it: an accepted move stores the new board and turn, and ends the game with `get_winner`'s number when nobody can move. The id counter is untouched |
| Bot.MoveKeepsGamePlayable | bot.py:219-247 | After an accepted move the stored board is `AfterMove`. The turn passes iff the opponent can move, an active game's player to move has a move, and the row is ended once nobody can move |
| Bot.MoveRecordsWinner | bot.py:247-255 | When a move ends the game, the row is ended with "player1", "player2" or "draw" exactly as the disk counts say; otherwise status and winner are untouched |
| Bot.MoveKeepsSettled | bot.py:223-255 | A row with a winner exactly when ended keeps that property after a move |
| Bot.MoveIgnoresStatus | bot.py:204-221 | The reply to a move does not depend on the game's status |
| Bot.ResignAsWrittenLosesWinner | bot.py:325-334 | The text "player2" or "player1" that `handle_resign` passes is none of `end_game`'s numbers: the row ends with a NULL winner and counts as neither win nor loss for either seat |
| Bot.ResignOutcome | bot.py:314-351 | Unknown game → "No game" and nothing written. Otherwise the row is ended whoever presses, board unchanged, with a NULL winner |
| Bot.HandleResign | bot.py:314-351 | Answers with `ResignOutcome`'s reply and leaves the table as `ResignOutcome` writes it; the id counter is untouched |
| Bot.ResignBreaksSettled | bot.py:314-334 | A resignation as written leaves an ended row without a winner, so the table no longer has a winner on exactly its ended rows |
| Bot.ResignWinner | bot.py:323-334 | Corrected: the other seat's number, so the stored text names player2 when player1 resigns and player1 otherwise |
| Bot.ResignOutcomeFixed | bot.py:314-334 | Corrected: the same reply as `ResignOutcome`; the ended row names the other seat as winner |
| Bot.ResignCountsAsLoss | bot.py:314-334 | Corrected: a resigned row has a winner; it is a loss for the resigning seat and a win for the other in the statistics |
| Bot.MovesKeepSettled | database.py:134-147 | In a table where every row has a winner exactly when ended, any move keeps that so |
| Bot.FixedResignKeepsSettled | database.py:134-147 | Corrected: with the winner passed as a number, a resignation keeps every row with a winner exactly when ended |
| Bot.HandleCallback | bot.py:95-120 | Move and resign presses run their handlers on the parsed data. Unparsable data answers "Error" and writes nothing. The other routes are handed on; data no prefix matches is not answered |
| Stats.ResultOf | stats.py:39-47 | A game is a win iff the winner text names the player's seat, a loss iff it names the other seat, a draw iff "draw"; any other value counts for none |
| Stats.KeyInjective | stats.py:29 | Equal opponent keys come from the same id and name |
| Stats.AddGame | stats.py:26-47 | One loop iteration keeps the statistics describing the games seen so far, now including this row |
| Stats.GetPlayerStats | stats.py:7-79 | The result describes the games as player1 followed by those as player2: game count, totals, opponents in first-seen order, each created once and holding its own tally |
| Stats.KeyOrderIff | stats.py:30-37 | An opponent is listed iff some game was against that opponent |
| Stats.KeyOrderDistinct | stats.py:30-37 | No opponent is listed twice |
| Stats.UnlistedUnscored | stats.py:30-47 | An opponent never met has no wins, losses or draws |
| Stats.GameRecorded | stats.py:29-37 | Every game appears under its opponent's key, with that opponent's id and name |
| Stats.ScoredAtMostPlayed | stats.py:27-47 | Wins, losses and draws together never exceed the number of games |
| Stats.OpponentsAddUp | stats.py:39-47 | Summed over the listed opponents, the per-opponent tallies equal the player's totals |
| Stats.SumOfAll | stats.py:39-76 | Summed over the opponent order, the per-key counts equal the overall counts |

## Left out

- Telegram I/O is not modelled: sending and editing messages, answer texts, keyboards, the `game_messages` registry and player names. Replies are the `Reply` values.
- JSON encoding of the board and SQLite storage are not modelled. The table is a map from id to row, and the board is stored as a value.
- The other callback handlers (`handle_accept`, `handle_reject`, `handle_status`, new game) and the command handlers are not modelled. `HandleCallback` only reports that it hands their presses on.
- The invites and moves tables are not modelled.
- `ai_player.py` and `format_stats_message` are not part of this model.
- The SQL queries of `get_player_stats` are not modelled. The rows they return, for ended games with the user as player1 and as player2, are the method's inputs.
- Bot.GameRecord does not hold the player names. In the statistics they arrive as the `opponentName` of each input row, from which the opponent key and entry name are built.
- Text.ParseInt: accepts only an optional sign and ASCII digits. Python's `int` also allows surrounding whitespace, underscores between digits and non-ASCII digits; such data is treated as unparsable.
- GameLogic.OthelloGame.constructor: takes the stored board as `Option<Grid>`. The source's `board_state or ...` would also replace an empty list, and a stored board of another shape is not representable. The current player has no default value (`current_player=1` in the source); every caller in bot.py passes it.
- Bot.HandleCallback: exceptions other than malformed callback data (a failing database call, a Telegram error) are not modelled.
- Bot.GameStore.CreateGame: models AUTOINCREMENT as a counter one past the largest id handed out.

## Findings

| source | as written | input that shows it | evidently intended | confidence | as-written member | corrected member |
|---|---|---|---|---|---|---|
| bot.py:325-334 | `handle_resign` passes the text "player2" or "player1" to `end_game`, which maps only 1, 2 and 0 to a winner text (database.py:134-141) | player1 resigns game 7: the row becomes ended with winner NULL; `get_player_stats` then counts the game as neither a loss for player1 nor a win for player2 | pass 2 when player1 resigns and 1 otherwise, so that "player2" / "player1" is stored | high (not executed) | Bot.ResignAsWrittenLosesWinner | Bot.ResignCountsAsLoss |
