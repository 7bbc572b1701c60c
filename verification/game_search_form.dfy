/** The `GameSearch` component's handlers as transitions on its state
    record. Each returns the next state and the argument of the API call it
    made, if any; the call's outcome is an input. */
module GameSearchForm {
  import opened Wrappers
  import opened Text
  import opened Http
  import opened Js

  const EnterSearchTerm := "Please enter a search term"
  const NoGamesFound := "No games found"
  const SearchFailed := "Failed to search games"
  const EnterGameId := "Please enter your game ID"
  const ConnectFailed := "Failed to connect game"

  datatype Form = Form(query: string, games: seq<string>, loading: bool, error: Option<string>,
                       success: Option<string>, selectedGame: Option<string>, gameId: string)

  /** `!s.trim()`: blank in the ECMAScript sense. */
  predicate Blank(s: string) {
    Trim(EcmaScript, s) == ""
  }

  /** How `api.searchGames` settled: the list the server sent (a JSON array,
      or `null`), or a rejection. */
  datatype SearchOutcome = Results(list: GameList) | SearchThrew(e: JsError)

  /** `handleSearch`. The query is sent untrimmed. A `null` list is stored,
      then reading its `length` throws, and the catch clears the list. */
  function Search(f: Form, outcome: SearchOutcome): (r: (Form, Option<string>))
    ensures Blank(f.query) <==> r.1.None?
    ensures Blank(f.query) ==> r.0 == f.(error := Some(EnterSearchTerm))
    ensures !Blank(f.query) ==> r.1 == Some(f.query) && !r.0.loading
    ensures !Blank(f.query) && outcome.Results? && outcome.list.JsonArray? ==>
      && r.0.games == outcome.list.names
      && (r.0.error == Some(NoGamesFound) <==> outcome.list.names == [])
      && (outcome.list.names != [] ==> r.0.error == None)
    ensures !Blank(f.query) && outcome.Results? && outcome.list.JsonNull? ==>
      r.0.games == [] && r.0.error == Some(NullPropertyMessage("length"))
    ensures !Blank(f.query) && outcome.SearchThrew? ==>
      r.0.games == [] && r.0.error == Some(MessageOr(outcome.e, SearchFailed))
    ensures r.0.query == f.query && r.0.success == f.success
    ensures r.0.selectedGame == f.selectedGame && r.0.gameId == f.gameId
  {
    if Blank(f.query) then (f.(error := Some(EnterSearchTerm)), None)
    else
      var started := f.(loading := true, error := None);
      var settled := match outcome
        case Results(JsonArray(names)) =>
          started.(games := names, error := if |names| == 0 then Some(NoGamesFound) else None)
        case Results(JsonNull) =>
          started.(games := [], error := Some(NullPropertyMessage("length")))
        case SearchThrew(e) =>
          started.(games := [], error := Some(MessageOr(e, SearchFailed)));
      (settled.(loading := false), Some(f.query))
  }

  /** `handleGameSelect`. */
  function Select(f: Form, game: string): (r: Form)
    ensures r.selectedGame == Some(game) && r.gameId == "" && r.error == None && r.success == None
    ensures r.query == f.query && r.games == f.games && r.loading == f.loading
  {
    f.(selectedGame := Some(game), gameId := "", error := None, success := None)
  }

  /** The Cancel button: afterwards a connect is refused without a call,
      and the search side of the form is untouched. */
  function Cancel(f: Form): (r: Form)
    ensures NoSelection(r) && forall o :: Connect(r, o).1.None?
    ensures r.query == f.query && r.games == f.games && r.error == f.error && r.gameId == f.gameId
  {
    f.(selectedGame := None)
  }

  /** How the connect call settled. */
  datatype ConnectOutcome = ConnectDone | ConnectThrew(e: JsError)

  /** `!selectedGame`: absent or the empty string. */
  predicate NoSelection(f: Form) {
    f.selectedGame.None? || f.selectedGame.value == ""
  }

  /** `handleConnectGame`: the call gets the selection and the untrimmed
      game id. The error from an earlier attempt survives a success. */
  function Connect(f: Form, outcome: ConnectOutcome): (r: (Form, Option<(string, string)>))
    ensures (NoSelection(f) || Blank(f.gameId)) <==> r.1.None?
    ensures r.1.None? ==> r.0 == f.(error := Some(EnterGameId))
    ensures r.1.Some? ==> r.1.value == (f.selectedGame.value, f.gameId)
    ensures r.1.Some? && outcome.ConnectDone? ==>
      && r.0.success == Some("Successfully connected to " + f.selectedGame.value)
      && r.0.selectedGame == None && r.0.gameId == "" && r.0.error == f.error
    ensures r.1.Some? && outcome.ConnectThrew? ==>
      r.0 == f.(error := Some(MessageOr(outcome.e, ConnectFailed)))
    ensures r.0.query == f.query && r.0.games == f.games && r.0.loading == f.loading
  {
    if NoSelection(f) || Blank(f.gameId) then (f.(error := Some(EnterGameId)), None)
    else
      var game := f.selectedGame.value;
      var next := match outcome
        case ConnectDone => f.(success := Some("Successfully connected to " + game), selectedGame := None, gameId := "")
        case ConnectThrew(e) => f.(error := Some(MessageOr(e, ConnectFailed)));
      (next, Some((game, f.gameId)))
  }

  // ---------------------------------------------------------------- properties

  /** A search that was sent always ends with loading off and, unless it
      listed games, with an error to show. */
  lemma SearchSettles(f: Form, outcome: SearchOutcome)
    requires !Blank(f.query)
    ensures !Search(f, outcome).0.loading
    ensures Search(f, outcome).0.games == [] ==> Search(f, outcome).0.error.Some?
  {
  }

  /** Selecting and then connecting successfully lands in the state with no
      selection and a success message naming the game. */
  lemma SelectThenConnect(f: Form, game: string, gameId: string)
    requires game != "" && !Blank(gameId)
    ensures var r := Connect(Select(f, game).(gameId := gameId), ConnectDone);
      && r.1 == Some((game, gameId))
      && r.0.selectedGame == None && r.0.gameId == ""
      && r.0.success == Some("Successfully connected to " + game) && r.0.error == None
  {
  }
}
