/** `connectGameHandler` and `disconnectGameHandler`: a game link is a
    `user_games` row plus the game's name in the user's `connected_games`
    array, both written in one transaction. */
module GameLinks {
  import opened Seqs
  import opened Store
  import opened Http
  import StringArray
  import Social

  datatype ConnectRequest = ConnectRequest(gameName: string, gameUsername: string, gameId: string)

  /** `array_append(...) WHERE NOT ($1 = ANY(...))`: the name is added at the
      end unless it is already listed. */
  function AppendAbsent(list: seq<string>, name: string): (r: seq<string>)
    ensures name in r
    ensures name in list ==> r == list
    ensures name !in list ==> r == list + [name]
  {
    if name in list then list else list + [name]
  }

  /** `array_remove(...)`: every occurrence of the name is dropped, and every
      other element keeps its place and its number of copies. */
  function RemoveAll(list: seq<string>, name: string): (r: seq<string>)
    ensures forall x :: x in r <==> x in list && x != name
    ensures forall x :: multiset(r)[x] == if x == name then 0 else multiset(list)[x]
    ensures IsSubsequence(r, list)
  {
    FilterCounts(list, NotNamed(name));
    Filter(list, NotNamed(name))
  }

  function NotNamed(name: string): string -> bool {
    x => x != name
  }

  function NotLinkOf(user: string, name: string): GameRow -> bool {
    (g: GameRow) => !(g.user == user && g.gameName == name)
  }

  /** The `user_games` rows a `DELETE ... WHERE user_id = $1 AND game_name = $2`
      leaves: each row of another user or another game survives with all its
      copies (the table has no uniqueness constraint), in table order. */
  function OtherRows(rows: seq<GameRow>, user: string, name: string): (r: seq<GameRow>)
    ensures forall g :: g in r <==> g in rows && !(g.user == user && g.gameName == name)
    ensures forall g :: multiset(r)[g] == if g.user == user && g.gameName == name then 0 else multiset(rows)[g]
    ensures IsSubsequence(r, rows)
  {
    FilterCounts(rows, NotLinkOf(user, name));
    Filter(rows, NotLinkOf(user, name))
  }

  /** The state a failure-free connect leaves behind. */
  function Connected(db: Db, me: string, req: ConnectRequest): Db
    requires me in db.users
  {
    var row := db.users[me];
    db.(users := db.users[me := row.(connectedGames := AppendAbsent(row.connectedGames, req.gameName))],
        userGames := db.userGames + [GameRow(me, req.gameName, req.gameUsername, req.gameId)])
  }

  /** `connectGameHandler`. Failure points: 1 the user id lookup, 2 begin,
      3 the `user_games` insert, 4 the `connected_games` update, 5 commit. */
  function Connect(db: Db, me: string, body: RequestBody<ConnectRequest>, fault: Fault): (r: (Reply, Db))
    ensures !body.Parsed? ==> r == (Reply(StatusBadRequest, ErrorText("Invalid request body")), db)
    ensures body.Parsed? && (Fails(fault, 1) || me !in db.users) ==>
      r.0 == Reply(StatusInternalServerError, ErrorText("Failed to get user ID"))
    ensures body.Parsed? && me in db.users && Fails(fault, 2) ==>
      r.0 == Reply(StatusInternalServerError, ErrorText("Failed to start transaction"))
    ensures body.Parsed? && me in db.users && Fails(fault, 3) ==>
      r.0 == Reply(StatusInternalServerError, ErrorText("Failed to connect game"))
    ensures body.Parsed? && me in db.users && Fails(fault, 4) ==>
      r.0 == Reply(StatusInternalServerError, ErrorText("Failed to update user's connected games"))
    ensures body.Parsed? && me in db.users && Fails(fault, 5) ==>
      r.0 == Reply(StatusInternalServerError, ErrorText("Failed to commit transaction"))
    ensures r.0.status == StatusOK <==> body.Parsed? && me in db.users && Survives(fault, 5)
    ensures r.0.status != StatusOK ==> r.1 == db
    ensures r.0.status == StatusOK ==>
      && r.0.body == Message("Game connected successfully")
      && r.1.followers == db.followers && r.1.requests == db.requests
      && r.1.users.Keys == db.users.Keys
      && (forall u :: u in db.users && u != me ==> r.1.users[u] == db.users[u])
      && r.1.users[me].password == db.users[me].password
      && r.1.users[me].isPrivate == db.users[me].isPrivate
      && r.1.users[me].connectedGames == AppendAbsent(db.users[me].connectedGames, body.value.gameName)
      && r.1.userGames == db.userGames + [GameRow(me, body.value.gameName, body.value.gameUsername, body.value.gameId)]
  {
    if !body.Parsed? then (Reply(StatusBadRequest, ErrorText("Invalid request body")), db)
    else if Fails(fault, 1) || me !in db.users then
      (Reply(StatusInternalServerError, ErrorText("Failed to get user ID")), db)
    else if Fails(fault, 2) then (Reply(StatusInternalServerError, ErrorText("Failed to start transaction")), db)
    else if Fails(fault, 3) then (Reply(StatusInternalServerError, ErrorText("Failed to connect game")), db)
    else if Fails(fault, 4) then
      (Reply(StatusInternalServerError, ErrorText("Failed to update user's connected games")), db)
    else if Fails(fault, 5) then (Reply(StatusInternalServerError, ErrorText("Failed to commit transaction")), db)
    else (Reply(StatusOK, Message("Game connected successfully")), Connected(db, me, body.value))
  }

  /** The state a failure-free disconnect leaves behind. */
  function Disconnected(db: Db, me: string, name: string): Db
    requires me in db.users
  {
    var row := db.users[me];
    db.(users := db.users[me := row.(connectedGames := RemoveAll(row.connectedGames, name))],
        userGames := OtherRows(db.userGames, me, name))
  }

  /** `disconnectGameHandler`. Failure points: 1 the user id lookup, 2 begin,
      3 the `user_games` delete, 4 the `connected_games` update, 5 commit. */
  function Disconnect(db: Db, me: string, body: RequestBody<string>, fault: Fault): (r: (Reply, Db))
    ensures !body.Parsed? ==> r == (Reply(StatusBadRequest, ErrorText("Invalid request body")), db)
    ensures body.Parsed? && (Fails(fault, 1) || me !in db.users) ==>
      r.0 == Reply(StatusInternalServerError, ErrorText("Failed to get user ID"))
    ensures body.Parsed? && me in db.users && Fails(fault, 2) ==>
      r.0 == Reply(StatusInternalServerError, ErrorText("Failed to start transaction"))
    ensures body.Parsed? && me in db.users && Fails(fault, 3) ==>
      r.0 == Reply(StatusInternalServerError, ErrorText("Failed to disconnect game"))
    ensures body.Parsed? && me in db.users && Fails(fault, 4) ==>
      r.0 == Reply(StatusInternalServerError, ErrorText("Failed to update user's connected games"))
    ensures body.Parsed? && me in db.users && Fails(fault, 5) ==>
      r.0 == Reply(StatusInternalServerError, ErrorText("Failed to commit transaction"))
    ensures r.0.status == StatusOK <==> body.Parsed? && me in db.users && Survives(fault, 5)
    ensures r.0.status != StatusOK ==> r.1 == db
    ensures r.0.status == StatusOK ==>
      && r.0.body == Message("Game disconnected successfully")
      && r.1.followers == db.followers && r.1.requests == db.requests
      && r.1.users.Keys == db.users.Keys
      && (forall u :: u in db.users && u != me ==> r.1.users[u] == db.users[u])
      && r.1.users[me].password == db.users[me].password
      && r.1.users[me].isPrivate == db.users[me].isPrivate
      && r.1.users[me].connectedGames == RemoveAll(db.users[me].connectedGames, body.value)
      && r.1.userGames == OtherRows(db.userGames, me, body.value)
      && body.value !in r.1.users[me].connectedGames
      && (forall x :: x in r.1.users[me].connectedGames <==> x in db.users[me].connectedGames && x != body.value)
      && (forall g :: g in r.1.userGames <==> g in db.userGames && !(g.user == me && g.gameName == body.value))
  {
    if !body.Parsed? then (Reply(StatusBadRequest, ErrorText("Invalid request body")), db)
    else if Fails(fault, 1) || me !in db.users then
      (Reply(StatusInternalServerError, ErrorText("Failed to get user ID")), db)
    else if Fails(fault, 2) then (Reply(StatusInternalServerError, ErrorText("Failed to start transaction")), db)
    else if Fails(fault, 3) then (Reply(StatusInternalServerError, ErrorText("Failed to disconnect game")), db)
    else if Fails(fault, 4) then
      (Reply(StatusInternalServerError, ErrorText("Failed to update user's connected games")), db)
    else if Fails(fault, 5) then (Reply(StatusInternalServerError, ErrorText("Failed to commit transaction")), db)
    else (Reply(StatusOK, Message("Game disconnected successfully")), Disconnected(db, me, body.value))
  }

  // ---------------------------------------------------------------- properties

  /** Connecting keeps a duplicate-free `connected_games` duplicate-free. */
  lemma ConnectKeepsNoDuplicates(db: Db, me: string, body: RequestBody<ConnectRequest>, fault: Fault)
    requires me in db.users && NoDuplicates(db.users[me].connectedGames)
    ensures NoDuplicates(Connect(db, me, body, fault).1.users[me].connectedGames)
  {
    if Connect(db, me, body, fault).0.status == StatusOK {
      var list := db.users[me].connectedGames;
      var name := body.value.gameName;
      if name !in list {
        var r := list + [name];
        forall i, j | 0 <= i < j < |r| ensures r[i] != r[j] {
          if j == |list| {
            assert r[i] == list[i];
            assert list[i] in list;
          }
        }
      }
    }
  }

  /** Connecting the same game twice lists it once: the second connect leaves
      `connected_games` as the first left it (it still adds a row). */
  lemma ConnectTwiceListsOnce(db: Db, me: string, req: ConnectRequest)
    requires me in db.users
    ensures var db1 := Connect(db, me, Parsed(req), Healthy).1;
      Connect(db1, me, Parsed(req), Healthy).1.users == db1.users
  {
    var db1 := Connect(db, me, Parsed(req), Healthy).1;
    assert db1.users[me := db1.users[me]] == db1.users;
  }

  /** After a disconnect the game is neither listed nor backed by a row. */
  lemma DisconnectRemovesGame(db: Db, me: string, req: ConnectRequest)
    requires me in db.users
    ensures var db1 := Connect(db, me, Parsed(req), Healthy).1;
      var db2 := Disconnect(db1, me, Parsed(req.gameName), Healthy).1;
      && req.gameName in db1.users[me].connectedGames
      && req.gameName !in db2.users[me].connectedGames
      && (forall g :: g in db2.userGames ==> !(g.user == me && g.gameName == req.gameName))
  {
  }

  /** Removing a name just appended to a list without it gives the list back. */
  lemma RemoveAllUndoesAppend(list: seq<string>, name: string)
    requires name !in list
    ensures RemoveAll(AppendAbsent(list, name), name) == list
  {
    FilterSnoc(list, name, NotNamed(name));
    FilterKeepsAll(list, NotNamed(name));
  }

  /** Dropping a user's rows for a game just inserted, when there were none
      before, gives the rows back. */
  lemma OtherRowsUndoesInsert(rows: seq<GameRow>, link: GameRow)
    requires forall g :: g in rows ==> !(g.user == link.user && g.gameName == link.gameName)
    ensures OtherRows(rows + [link], link.user, link.gameName) == rows
  {
    FilterSnoc(rows, link, NotLinkOf(link.user, link.gameName));
    FilterKeepsAll(rows, NotLinkOf(link.user, link.gameName));
  }

  lemma DisconnectedUndoesConnected(db: Db, me: string, req: ConnectRequest)
    requires me in db.users
    requires req.gameName !in db.users[me].connectedGames
    requires forall g :: g in db.userGames ==> !(g.user == me && g.gameName == req.gameName)
    ensures Disconnected(Connected(db, me, req), me, req.gameName) == db
  {
    var row := db.users[me];
    var link := GameRow(me, req.gameName, req.gameUsername, req.gameId);
    var list := RemoveAll(AppendAbsent(row.connectedGames, req.gameName), req.gameName);
    var rows := OtherRows(db.userGames + [link], me, req.gameName);
    RemoveAllUndoesAppend(row.connectedGames, req.gameName);
    OtherRowsUndoesInsert(db.userGames, link);
    RoundTripFields(db, me, req, list, rows);
  }

  /** The shape of a connect followed by a disconnect, given what the two
      list updates leave behind. */
  lemma RoundTripFields(db: Db, me: string, req: ConnectRequest, list: seq<string>, rows: seq<GameRow>)
    requires me in db.users
    requires list == RemoveAll(AppendAbsent(db.users[me].connectedGames, req.gameName), req.gameName)
    requires rows == OtherRows(db.userGames + [GameRow(me, req.gameName, req.gameUsername, req.gameId)], me, req.gameName)
    ensures Disconnected(Connected(db, me, req), me, req.gameName) ==
      db.(users := db.users[me := db.users[me].(connectedGames := list)], userGames := rows)
  {
  }

  /** Disconnecting a game that was not linked before undoes the connect. */
  lemma DisconnectUndoesConnect(db: Db, me: string, req: ConnectRequest)
    requires me in db.users
    requires req.gameName !in db.users[me].connectedGames
    requires forall g :: g in db.userGames ==> !(g.user == me && g.gameName == req.gameName)
    ensures var db1 := Connect(db, me, Parsed(req), Healthy).1;
      Disconnect(db1, me, Parsed(req.gameName), Healthy).1 == db
  {
    var db1 := Connected(db, me, req);
    ConnectHealthy(db, me, req);
    DisconnectHealthy(db1, me, req.gameName);
    DisconnectedUndoesConnected(db, me, req);
  }

  lemma ConnectHealthy(db: Db, me: string, req: ConnectRequest)
    requires me in db.users
    ensures Connect(db, me, Parsed(req), Healthy).1 == Connected(db, me, req)
  {
  }

  lemma DisconnectHealthy(db: Db, me: string, name: string)
    requires me in db.users
    ensures Disconnect(db, me, Parsed(name), Healthy).1 == Disconnected(db, me, name)
  {
  }

  /** Connecting a game whose name holds a space, then reading the profile:
      the database prints the name in double quotes, the as-written reader
      keeps them, and the profile lists a name the user never connected.
      The quote-aware read lists the name as connected. */
  lemma SpacedGameShowsQuoted(db: Db, me: string)
    requires me in db.users && db.users[me].connectedGames == []
    ensures var req := ConnectRequest(StringArray.SpacedName, "summoner", "1");
      var db1 := Connect(db, me, Parsed(req), Healthy).1;
      && Social.GetProfile(db1, me, Healthy).body.connectedGames == ["\"" + StringArray.SpacedName + "\""]
      && Social.GetProfile(db1, me, Healthy).body.connectedGames != [req.gameName]
      && Social.GetProfileCorrected(db1, me, Healthy).body.connectedGames == [req.gameName]
  {
    var req := ConnectRequest(StringArray.SpacedName, "summoner", "1");
    var db1 := Connect(db, me, Parsed(req), Healthy).1;
    assert db1.users[me].connectedGames == [req.gameName];
    StringArray.SpacedNameReadBack();
  }
}
