/**
 * `StatsManager.get_player_stats`: a player's wins, losses and draws over
 * their ended games, overall and per opponent. The two queries' rows are
 * the method's inputs; the dictionary it builds is a `PlayerStats` value.
 */
module Stats {
  import opened Wrappers
  import opened Text

  /** The seat the player whose statistics are gathered had in a game. */
  datatype Side = First | Second

  /** One row of a query: the opponent's id and name and the stored `winner` text (NULL is None). */
  datatype GameRow = GameRow(opponentId: int, opponentName: string, winner: Option<string>)

  /** A row together with the seat the player had in that game and the row's opponent key. */
  datatype Game = Game(row: GameRow, side: Side, key: string)

  datatype Result = Win | Loss | Draw | Unscored

  /** The `wins`, `losses` and `draws` counters of a statistics dictionary. */
  datatype Tally = Tally(wins: nat, losses: nat, draws: nat)

  /** An entry of `stats['opponents']`. */
  datatype OpponentEntry = OpponentEntry(id: int, name: string, tally: Tally)

  /**
   * The dictionary `get_player_stats` returns; `order` is the order in which
   * the keys of `opponents` were inserted, which is the order a Python
   * dictionary iterates in.
   */
  datatype PlayerStats = PlayerStats(totals: Tally, totalGames: nat, opponents: map<string, OpponentEntry>, order: seq<string>)

  function Other(side: Side): Side {
    if side == First then Second else First
  }

  /** The `winner` text naming a seat. */
  function SeatName(side: Side): string {
    if side == First then "player1" else "player2"
  }

  /**
   * How a game counts for the player in seat `side`: a win when the winner
   * text names that seat, a loss when it names the other seat, a draw on
   * "draw"; any other text, or NULL, counts for none of the three.
   */
  function ResultOf(winner: Option<string>, side: Side): (r: Result)
    ensures r == Win <==> winner == Some(SeatName(side))
    ensures r == Loss <==> winner == Some(SeatName(Other(side)))
    ensures r == Draw <==> winner == Some("draw")
  {
    assert "player1"[6] != "player2"[6] && "player1"[0] != "draw"[0] && "player2"[0] != "draw"[0];
    if winner == Some(SeatName(side)) then Win
    else if winner == Some(SeatName(Other(side))) then Loss
    else if winner == Some("draw") then Draw
    else Unscored
  }

  /** `f"{opponent_id}_{opponent_name}"`. */
  function OpponentKey(id: int, name: string): string {
    IntToString(id) + "_" + name
  }

  /** The key's first underscore comes right after the id. */
  lemma KeyUnderscore(id: int, name: string)
    ensures OpponentKey(id, name)[|IntToString(id)|] == '_'
    ensures forall j :: 0 <= j < |IntToString(id)| ==> OpponentKey(id, name)[j] != '_'
  {
  }

  /** The id written in front of the underscore can be read back, so a key names one opponent. */
  lemma KeyInjective(id1: int, name1: string, id2: int, name2: string)
    requires OpponentKey(id1, name1) == OpponentKey(id2, name2)
    ensures id1 == id2 && name1 == name2
  {
    var s1, s2 := IntToString(id1), IntToString(id2);
    var k := OpponentKey(id1, name1);
    KeyUnderscore(id1, name1);
    KeyUnderscore(id2, name2);
    assert |s1| == |s2|;
    assert s1 == k[..|s1|] == s2;
    FormatInjective(id1, id2);
    assert name1 == k[|s1| + 1..] == name2;
  }

  /** A game row as seen from one seat, keyed by the opponent it names. */
  function GameOf(row: GameRow, side: Side): Game {
    Game(row, side, OpponentKey(row.opponentId, row.opponentName))
  }

  function ResultIn(g: Game): Result {
    ResultOf(g.row.winner, g.side)
  }

  /** The tally after one more game with result r. */
  function Bump(t: Tally, r: Result): Tally {
    match r
    case Win => t.(wins := t.wins + 1)
    case Loss => t.(losses := t.losses + 1)
    case Draw => t.(draws := t.draws + 1)
    case Unscored => t
  }

  function Plus(a: Tally, b: Tally): Tally {
    Tally(a.wins + b.wins, a.losses + b.losses, a.draws + b.draws)
  }

  /** The number of games with result r. */
  function Count(games: seq<Game>, r: Result): nat
    decreases |games|
  {
    if |games| == 0 then 0
    else Count(games[..|games| - 1], r) + (if ResultIn(games[|games| - 1]) == r then 1 else 0)
  }

  /** The number of games against the opponent with this key that had result r. */
  function CountFor(games: seq<Game>, key: string, r: Result): nat
    decreases |games|
  {
    if |games| == 0 then 0
    else
      var g := games[|games| - 1];
      CountFor(games[..|games| - 1], key, r) + (if g.key == key && ResultIn(g) == r then 1 else 0)
  }

  function TallyOf(games: seq<Game>): Tally {
    Tally(Count(games, Win), Count(games, Loss), Count(games, Draw))
  }

  function TallyFor(games: seq<Game>, key: string): Tally {
    Tally(CountFor(games, key, Win), CountFor(games, key, Loss), CountFor(games, key, Draw))
  }

  /** The opponent keys in the order of their first game. */
  function KeyOrder(games: seq<Game>): seq<string>
    decreases |games|
  {
    if |games| == 0 then []
    else
      var before := KeyOrder(games[..|games| - 1]);
      var key := games[|games| - 1].key;
      if key in before then before else before + [key]
  }

  /**
   * s is the statistics of exactly these games: one game counted per game,
   * the three totals counted by result, one opponent entry per key in the
   * order the keys first occur, each entry holding the id and name the key
   * was made from and the tally of that opponent's games.
   */
  ghost predicate Describes(s: PlayerStats, games: seq<Game>) {
    && s.totalGames == |games|
    && s.totals == TallyOf(games)
    && s.order == KeyOrder(games)
    && (forall key :: key in s.opponents <==> key in s.order)
    && (forall key :: key in s.opponents ==>
          OpponentKey(s.opponents[key].id, s.opponents[key].name) == key &&
          s.opponents[key].tally == TallyFor(games, key))
  }

  /** The player's games: the rows where they were player1, then those where they were player2. */
  function Seated(rows: seq<GameRow>, side: Side): (games: seq<Game>)
    ensures |games| == |rows|
  {
    seq(|rows|, i requires 0 <= i < |rows| => GameOf(rows[i], side))
  }

  function Played(asFirst: seq<GameRow>, asSecond: seq<GameRow>): seq<Game> {
    Seated(asFirst, First) + Seated(asSecond, Second)
  }

  lemma SeatedAppend(rows: seq<GameRow>, side: Side, i: int)
    requires 0 <= i < |rows|
    ensures Seated(rows[..i + 1], side) == Seated(rows[..i], side) + [GameOf(rows[i], side)]
  {
  }

  /** How each count moves when one game is appended. */
  lemma Appended(games: seq<Game>, g: Game)
    ensures TallyOf(games + [g]) == Bump(TallyOf(games), ResultIn(g))
    ensures forall key :: TallyFor(games + [g], key) ==
                           if key == g.key then Bump(TallyFor(games, key), ResultIn(g)) else TallyFor(games, key)
    ensures KeyOrder(games + [g]) == if g.key in KeyOrder(games) then KeyOrder(games) else KeyOrder(games) + [g.key]
  {
    assert (games + [g])[..|games|] == games;
  }

  /** A key is listed exactly when some game was played against that opponent. */
  lemma {:induction false} KeyOrderIff(games: seq<Game>, key: string)
    ensures key in KeyOrder(games) <==> exists j :: 0 <= j < |games| && games[j].key == key
    decreases |games|
  {
    if |games| > 0 {
      var before := games[..|games| - 1];
      KeyOrderIff(before, key);
      if exists j :: 0 <= j < |before| && before[j].key == key {
        var j :| 0 <= j < |before| && before[j].key == key;
        assert games[j].key == key;
      }
      if exists j :: 0 <= j < |games| && games[j].key == key {
        var j :| 0 <= j < |games| && games[j].key == key;
        if j < |before| {
          assert before[j].key == key;
        }
      }
    }
  }

  /** No key is listed twice. */
  lemma {:induction false} KeyOrderDistinct(games: seq<Game>)
    ensures forall a, b :: 0 <= a < b < |KeyOrder(games)| ==> KeyOrder(games)[a] != KeyOrder(games)[b]
    decreases |games|
  {
    if |games| > 0 {
      KeyOrderDistinct(games[..|games| - 1]);
    }
  }

  /** An opponent never listed has played no scored game. */
  lemma {:induction false} UnlistedUnscored(games: seq<Game>, key: string)
    requires key !in KeyOrder(games)
    ensures TallyFor(games, key) == Tally(0, 0, 0)
    decreases |games|
  {
    if |games| > 0 {
      var before := games[..|games| - 1];
      Appended(before, games[|games| - 1]);
      assert before + [games[|games| - 1]] == games;
      UnlistedUnscored(before, key);
    }
  }

  /** The statistics after one more game, described by what changes. */
  lemma RecordGame(s: PlayerStats, games: seq<Game>, g: Game, entry: OpponentEntry, next: PlayerStats)
    requires Describes(s, games) && g == GameOf(g.row, g.side)
    requires entry == if g.key in s.opponents then s.opponents[g.key] else OpponentEntry(g.row.opponentId, g.row.opponentName, Tally(0, 0, 0))
    requires next.totalGames == s.totalGames + 1 && next.totals == Bump(s.totals, ResultIn(g))
    requires next.order == if g.key in s.opponents then s.order else s.order + [g.key]
    requires next.opponents == s.opponents[g.key := entry.(tally := Bump(entry.tally, ResultIn(g)))]
    ensures Describes(next, games + [g])
  {
    Appended(games, g);
    if g.key !in s.opponents {
      UnlistedUnscored(games, g.key);
    }
  }

  /**
   * The body of both loops of `get_player_stats`: count the game, create the
   * opponent's entry the first time its key is seen, then add the game to
   * the win, loss or draw counters according to the winner text.
   */
  method AddGame(stats: PlayerStats, row: GameRow, side: Side, ghost games: seq<Game>) returns (next: PlayerStats)
    requires Describes(stats, games)
    ensures Describes(next, games + [GameOf(row, side)])
  {
    var key := OpponentKey(row.opponentId, row.opponentName);
    var entry, order := OpponentEntry(row.opponentId, row.opponentName, Tally(0, 0, 0)), stats.order;
    if key in stats.opponents {
      entry := stats.opponents[key];
    } else {
      order := order + [key];
    }
    var totals, tally := stats.totals, entry.tally;
    if row.winner == Some(SeatName(side)) {
      totals, tally := totals.(wins := totals.wins + 1), tally.(wins := tally.wins + 1);
    } else if row.winner == Some(SeatName(Other(side))) {
      totals, tally := totals.(losses := totals.losses + 1), tally.(losses := tally.losses + 1);
    } else if row.winner == Some("draw") {
      totals, tally := totals.(draws := totals.draws + 1), tally.(draws := tally.draws + 1);
    }
    ghost var result := ResultOf(row.winner, side);
    assert totals == Bump(stats.totals, result) && tally == Bump(entry.tally, result);
    next := PlayerStats(totals, stats.totalGames + 1, stats.opponents[key := entry.(tally := tally)], order);
    RecordGame(stats, games, GameOf(row, side), entry, next);
  }

  /** `get_player_stats`: the statistics of the games played as player1 and then as player2. */
  method GetPlayerStats(asFirst: seq<GameRow>, asSecond: seq<GameRow>) returns (stats: PlayerStats)
    ensures Describes(stats, Played(asFirst, asSecond))
  {
    stats := PlayerStats(Tally(0, 0, 0), 0, map[], []);
    ghost var games: seq<Game> := [];
    for i := 0 to |asFirst|
      invariant games == Seated(asFirst[..i], First)
      invariant Describes(stats, games)
    {
      stats := AddGame(stats, asFirst[i], First, games);
      games := games + [GameOf(asFirst[i], First)];
      SeatedAppend(asFirst, First, i);
    }
    assert asFirst[..|asFirst|] == asFirst;
    for i := 0 to |asSecond|
      invariant games == Seated(asFirst, First) + Seated(asSecond[..i], Second)
      invariant Describes(stats, games)
    {
      stats := AddGame(stats, asSecond[i], Second, games);
      games := games + [GameOf(asSecond[i], Second)];
      SeatedAppend(asSecond, Second, i);
    }
    assert asSecond[..|asSecond|] == asSecond;
  }

  // ---------------------------------------------------------------------
  // What the statistics promise
  // ---------------------------------------------------------------------

  /** Wins, losses and draws together never exceed the games counted. */
  lemma {:induction false} ScoredAtMostPlayed(games: seq<Game>)
    ensures Count(games, Win) + Count(games, Loss) + Count(games, Draw) <= |games|
    decreases |games|
  {
    if |games| > 0 {
      ScoredAtMostPlayed(games[..|games| - 1]);
    }
  }

  /** Every game appears under its opponent's key, with that opponent's id and name. */
  lemma GameRecorded(s: PlayerStats, games: seq<Game>, j: int)
    requires Describes(s, games) && 0 <= j < |games| && games[j] == GameOf(games[j].row, games[j].side)
    ensures games[j].key in s.opponents
    ensures s.opponents[games[j].key].id == games[j].row.opponentId
    ensures s.opponents[games[j].key].name == games[j].row.opponentName
  {
    var key := games[j].key;
    KeyOrderIff(games, key);
    var o := s.opponents[key];
    KeyInjective(o.id, o.name, games[j].row.opponentId, games[j].row.opponentName);
  }

  /** The tallies of the listed keys, added up. */
  function SumFor(games: seq<Game>, keys: seq<string>): Tally
    decreases |keys|
  {
    if |keys| == 0 then Tally(0, 0, 0) else Plus(SumFor(games, keys[..|keys| - 1]), TallyFor(games, keys[|keys| - 1]))
  }

  /** The tallies of the given entries, added up. */
  function SumEntries(opponents: map<string, OpponentEntry>, keys: seq<string>): Tally
    requires forall key :: key in keys ==> key in opponents
    decreases |keys|
  {
    if |keys| == 0 then Tally(0, 0, 0)
    else Plus(SumEntries(opponents, keys[..|keys| - 1]), opponents[keys[|keys| - 1]].tally)
  }

  /** One more game moves the sum over distinct keys only when its opponent is among them. */
  lemma {:induction false} SumForAppended(games: seq<Game>, g: Game, keys: seq<string>)
    requires forall a, b :: 0 <= a < b < |keys| ==> keys[a] != keys[b]
    ensures SumFor(games + [g], keys) == if g.key in keys then Bump(SumFor(games, keys), ResultIn(g)) else SumFor(games, keys)
    decreases |keys|
  {
    if |keys| > 0 {
      var init, last := keys[..|keys| - 1], keys[|keys| - 1];
      SumForAppended(games, g, init);
      Appended(games, g);
      assert keys == init + [last];
      var before := SumFor(games, init);
      if g.key == last {
        assert g.key !in init;
        PlusBump(before, TallyFor(games, last), ResultIn(g));
      } else if g.key in init {
        PlusBump(before, TallyFor(games, last), ResultIn(g));
      }
    }
  }

  lemma PlusBump(a: Tally, b: Tally, r: Result)
    ensures Plus(Bump(a, r), b) == Bump(Plus(a, b), r) == Plus(a, Bump(b, r))
  {
  }

  /** Summed over every listed opponent, the per-opponent tallies give the totals. */
  lemma {:induction false} SumOfAll(games: seq<Game>)
    ensures SumFor(games, KeyOrder(games)) == TallyOf(games)
    decreases |games|
  {
    if |games| > 0 {
      var before, g := games[..|games| - 1], games[|games| - 1];
      assert before + [g] == games;
      SumOfAll(before);
      Appended(before, g);
      KeyOrderDistinct(before);
      SumForAppended(before, g, KeyOrder(before));
      if g.key !in KeyOrder(before) {
        var keys := KeyOrder(before) + [g.key];
        assert keys[..|keys| - 1] == KeyOrder(before);
        UnlistedUnscored(before, g.key);
      }
    }
  }

  lemma {:induction false} EntriesAreTallies(s: PlayerStats, games: seq<Game>, keys: seq<string>)
    requires Describes(s, games)
    requires forall key :: key in keys ==> key in s.opponents
    ensures SumEntries(s.opponents, keys) == SumFor(games, keys)
    decreases |keys|
  {
    if |keys| > 0 {
      EntriesAreTallies(s, games, keys[..|keys| - 1]);
    }
  }

  /** The per-opponent wins, losses and draws add up to the player's totals. */
  lemma OpponentsAddUp(s: PlayerStats, games: seq<Game>)
    requires Describes(s, games)
    ensures SumEntries(s.opponents, s.order) == s.totals
  {
    EntriesAreTallies(s, games, s.order);
    SumOfAll(games);
  }
}
