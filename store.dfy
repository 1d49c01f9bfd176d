/** The server's in-memory game store (`let games = {}`) and its route
    handlers: create a game, draw a random task, add a player, eliminate
    a player, read the status. Both server files hold this store; they
    differ only in how addPlayer checks the type of `playerName`, which
    the `variant` constant selects. */
module GameStore {
  import opened Options
  import opened JsStrings
  import opened Catalog
  import opened Session

  /** backend/server.js or the top-level server.js. */
  datatype Variant = Backend | Root

  /** The `playerName` field of a JSON request body: missing (or `null`),
      a string, or any other JSON value (number, boolean, array, object). */
  datatype NameField = Absent | Text(s: string) | NotText

  /** The failures the handlers answer with. InternalError is the 500 that
      Express sends when a handler throws. */
  datatype Error =
    | GameNotFound
    | PlayerNotFound
    | InvalidName
    | PlayerExists
    | NoTasksForDifficulty
    | InternalError

  datatype Result<T> = Ok(value: T) | Err(error: Error)

  /** The body of a successful eliminate: `{eliminated, winner}`. */
  datatype EliminateReply = EliminateReply(eliminated: seq<string>, winner: Option<string>)

  /** The HTTP status code each failure is sent with. */
  function HttpStatus(e: Error): (code: int)
    ensures code == 404 <==> e in {GameNotFound, PlayerNotFound, NoTasksForDifficulty}
    ensures code == 400 <==> e in {InvalidName, PlayerExists}
    ensures code == 500 <==> e == InternalError
  {
    match e
    case GameNotFound => 404
    case PlayerNotFound => 404
    case NoTasksForDifficulty => 404
    case InvalidName => 400
    case PlayerExists => 400
    case InternalError => 500
  }

  /** addPlayer's first check. The backend tests `!playerName?.trim()`:
      a missing name or a blank string is a 400, and any other JSON value
      has no `trim` method, so the call throws. The root server tests
      `!playerName || typeof playerName !== "string" || !playerName.trim()`
      and answers 400 to all three. Either way only a string with a
      non-whitespace character passes. */
  function NameError(v: Variant, f: NameField): (r: Option<Error>)
    ensures r.None? <==> f.Text? && !AllSpace(f.s)
    ensures r == Some(InternalError) <==> v == Backend && f.NotText?
    ensures r.Some? ==> r.value in {InvalidName, InternalError}
  {
    match f
    case Absent => Some(InvalidName)
    case NotText => if v == Backend then Some(InternalError) else Some(InvalidName)
    case Text(s) =>
      TrimEmptyIffBlank(s);
      if Trim(s) == "" then Some(InvalidName) else None
  }

  /** `players.includes(playerName)`: only a string can be in the roster. */
  predicate IsRostered(g: Game, f: NameField) {
    f.Text? && f.s in g.players
  }

  class Store {
    const variant: Variant
    /** tasks.json, loaded once at start-up. */
    const tasks: seq<Task>
    var games: map<string, Game>

    ghost predicate Valid()
      reads this
    {
      forall id :: id in games ==> GameInv(games[id])
    }

    constructor (variant: Variant, tasks: seq<Task>)
      ensures Valid()
      ensures this.variant == variant && this.tasks == tasks && games == map[]
    {
      this.variant := variant;
      this.tasks := tasks;
      games := map[];
    }

    /** POST /api/games. `id` is the random token the handler generates;
        a token that is already in use replaces that game's record. */
    method Create(id: string) returns (gameId: string)
      requires Valid()
      modifies this
      ensures Valid()
      ensures gameId == id
      ensures games == old(games)[id := EmptyGame]
      ensures games[id].players == [] && games[id].eliminated == [] && games[id].winner == None
    {
      games := games[id := EmptyGame];
      gameId := id;
    }

    /** GET /api/games/:id/random-task?difficulty=... . `r` is the value
        Math.random() returns. */
    method RandomTask(id: string, query: Option<string>, r: real) returns (res: Result<Task>)
      requires 0.0 <= r < 1.0
      ensures id !in games ==> res == Err(GameNotFound)
      ensures id in games && Pool(tasks, RequestedDifficulty(query)) == [] ==>
        res == Err(NoTasksForDifficulty)
      ensures res.Ok? ==> id in games && res.value in tasks
      ensures res.Ok? && RequestedDifficulty(query) != AnyDifficulty ==>
        res.value.difficulty == RequestedDifficulty(query)
      ensures id in games && Pool(tasks, RequestedDifficulty(query)) != [] ==>
        var pool := Pool(tasks, RequestedDifficulty(query));
        res == Ok(pool[PickIndex(r, |pool|)])
    {
      var diff := RequestedDifficulty(query);
      if id !in games {
        return Err(GameNotFound);
      }
      var pool := Pool(tasks, diff);
      if |pool| == 0 {
        return Err(NoTasksForDifficulty);
      }
      var k := PickIndex(r, |pool|);
      assert pool[k] in pool;
      res := Ok(pool[k]);
    }

    /** POST /api/games/:id/players with body `{playerName}`. The name is
        checked before the game is looked up; a name already in the roster
        is refused; otherwise it is appended, untrimmed, and the stored
        roster is returned. A game that already has a winner still accepts
        players. */
    method AddPlayer(id: string, field: NameField) returns (res: Result<seq<string>>)
      requires Valid()
      modifies this
      ensures Valid()
      ensures NameError(variant, field).Some? ==>
        res == Err(NameError(variant, field).value) && games == old(games)
      ensures NameError(variant, field).None? && id !in old(games) ==>
        res == Err(GameNotFound) && games == old(games)
      ensures NameError(variant, field).None? && id in old(games) && IsRostered(old(games)[id], field) ==>
        res == Err(PlayerExists) && games == old(games)
      ensures NameError(variant, field).None? && id in old(games) && !IsRostered(old(games)[id], field) ==>
        && games == old(games)[id := AfterAdd(old(games)[id], field.s)]
        && games[id].players == old(games)[id].players + [field.s]
        && res == Ok(games[id].players)
    {
      var err := NameError(variant, field);
      if err.Some? {
        return Err(err.value);
      }
      if id !in games {
        return Err(GameNotFound);
      }
      var name := field.s;
      if name in games[id].players {
        return Err(PlayerExists);
      }
      TrimEmptyIffBlank(name);
      AddPreservesInv(games[id], name);
      games := games[id := AfterAdd(games[id], name)];
      res := Ok(games[id].players);
    }

    /** POST /api/games/:id/eliminate with body `{playerName}`. An unknown
        game or a name not in the roster is a 404 and changes nothing.
        Otherwise the name is added to `eliminated` unless it is there
        already, and if exactly one player is left that player becomes
        the winner. */
    method Eliminate(id: string, field: NameField) returns (res: Result<EliminateReply>)
      requires Valid()
      modifies this
      ensures Valid()
      ensures id !in old(games) ==> res == Err(GameNotFound) && games == old(games)
      ensures id in old(games) && !IsRostered(old(games)[id], field) ==>
        res == Err(PlayerNotFound) && games == old(games)
      ensures id in old(games) && IsRostered(old(games)[id], field) ==>
        && games == old(games)[id := AfterEliminate(old(games)[id], field.s)]
        && res == Ok(EliminateReply(games[id].eliminated, games[id].winner))
    {
      if id !in games {
        return Err(GameNotFound);
      }
      if !IsRostered(games[id], field) {
        return Err(PlayerNotFound);
      }
      var name := field.s;
      EliminatePreservesInv(games[id], name);
      var g := AfterEliminate(games[id], name);
      games := games[id := g];
      // `winner || null`: a winner is a rostered, hence non-blank, name.
      res := Ok(EliminateReply(g.eliminated, g.winner));
    }

    /** GET /api/games/:id/status: the stored record, or 404. */
    method Status(id: string) returns (res: Result<Game>)
      requires Valid()
      ensures id !in games ==> res == Err(GameNotFound)
      ensures id in games ==> res.Ok? && res.value == games[id] && GameInv(res.value)
    {
      if id !in games {
        return Err(GameNotFound);
      }
      res := Ok(games[id]);
    }
  }

  /** Create a game and add "Ana" and "Bo". */
  method TwoPlayerGame(v: Variant, tasks: seq<Task>) returns (store: Store, id: string)
    ensures fresh(store) && store.Valid() && id in store.games
    ensures store.games[id] == Game(["Ana", "Bo"], [], None)
  {
    assert !IsSpace("Ana"[0]) && !IsSpace("Bo"[0]);
    assert NameError(v, Text("Ana")).None? && NameError(v, Text("Bo")).None?;
    store := new Store(v, tasks);
    id := store.Create("g1");
    var added := store.AddPlayer(id, Text("Ana"));
    assert store.games[id] == Game(["Ana"], [], None);
    assert "Bo" !in ["Ana"];
    added := store.AddPlayer(id, Text("Bo"));
    assert store.games[id].players == ["Ana", "Bo"];
  }

  /** Create a game, add "Ana" and "Bo", eliminate "Ana": the status shows
      both players, "Ana" eliminated and "Bo" as the winner. */
  method EliminationExample(v: Variant, tasks: seq<Task>) returns (status: Result<Game>)
    ensures status == Ok(Game(["Ana", "Bo"], ["Ana"], Some("Bo")))
  {
    var store, id := TwoPlayerGame(v, tasks);
    assert Remaining(["Ana", "Bo"], ["Ana"]) == ["Bo"];
    assert AfterEliminate(Game(["Ana", "Bo"], [], None), "Ana") == Game(["Ana", "Bo"], ["Ana"], Some("Bo"));
    var out := store.Eliminate(id, Text("Ana"));
    status := store.Status(id);
  }

  /** Adding "Ana" twice: the second call is refused and the roster is
      still `["Ana"]`. */
  method DuplicateExample(v: Variant, tasks: seq<Task>) returns (second: Result<seq<string>>, roster: seq<string>)
    ensures second == Err(PlayerExists) && roster == ["Ana"]
  {
    assert !IsSpace("Ana"[0]);
    var store := new Store(v, tasks);
    var id := store.Create("g1");
    var first := store.AddPlayer(id, Text("Ana"));
    second := store.AddPlayer(id, Text("Ana"));
    roster := store.games[id].players;
  }
}
