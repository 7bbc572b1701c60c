/** `searchGamesHandler`: a case-insensitive substring filter over a fixed
    catalogue of popular games. */
module Games {
  import opened Seqs
  import opened Text
  import opened Http

  const Catalogue: seq<string> := [
    "Valorant",
    "BGMI",
    "Counter-Strike 2",
    "League of Legends",
    "Dota 2",
    "Apex Legends",
    "Fortnite",
    "Call of Duty: Warzone",
    "PUBG: BATTLEGROUNDS",
    "Minecraft",
    "GTA V",
    "Overwatch 2",
    "Rainbow Six Siege",
    "Rocket League"
  ]

  /** A game matches when its lower-cased name contains the lower-cased query. */
  predicate Matches(loweredQuery: string, name: string) {
    Contains(Lower(name), loweredQuery)
  }

  /** The names a list reply carries (`null` carries none). */
  function Listed(list: GameList): seq<string> {
    match list
    case JsonNull => []
    case JsonArray(names) => names
  }

  /** Go's JSON encoding of the results slice, which starts out nil and is
      only grown by `append`: it is `null` exactly when nothing matched. */
  function EncodeResults(results: seq<string>): (r: GameList)
    ensures r.JsonNull? <==> results == []
    ensures Listed(r) == results
  {
    if |results| == 0 then JsonNull else JsonArray(results)
  }

  /** The encoding a client expecting a list can always read: an empty match
      is the empty JSON array. */
  function EncodeResultsFixed(results: seq<string>): (r: GameList)
    ensures r.JsonArray?
    ensures Listed(r) == results
  {
    JsonArray(results)
  }

  /** The matching loop of `searchGamesHandler`: walks `names` in order and
      appends every name that matches. */
  method MatchingGames(names: seq<string>, loweredQuery: string) returns (results: seq<string>)
    ensures results == Filter(names, (name: string) => Matches(loweredQuery, name))
  {
    var keep := (name: string) => Matches(loweredQuery, name);
    results := [];
    var i := 0;
    while i < |names|
      invariant 0 <= i <= |names|
      invariant results == Filter(names[..i], keep)
    {
      FilterSnoc(names[..i], names[i], keep);
      assert names[..i + 1] == names[..i] + [names[i]];
      if Matches(loweredQuery, names[i]) {
        results := results + [names[i]];
      }
      i := i + 1;
    }
    assert names[..|names|] == names;
  }

  /** The catalogue games a query matches, in catalogue order. */
  function Results(rawQuery: string): (r: seq<string>)
    ensures forall g :: g in r <==> g in Catalogue && Matches(Lower(rawQuery), g)
    ensures IsSubsequence(r, Catalogue)
  {
    Filter(Catalogue, (name: string) => Matches(Lower(rawQuery), name))
  }

  /** `searchGamesHandler` on the raw `q` parameter: an empty query is a 400;
      otherwise the reply lists exactly the matching catalogue games, in
      catalogue order, and is `null` when none matches. */
  method SearchGames(rawQuery: string) returns (reply: Reply)
    ensures rawQuery == "" <==> reply == Reply(StatusBadRequest, ErrorJson("Search query is required"))
    ensures rawQuery != "" ==> reply.status == StatusOK && reply.body.Games?
    ensures rawQuery != "" ==> var found := Listed(reply.body.list);
      && (forall g :: g in found <==> g in Catalogue && Matches(Lower(rawQuery), g))
      && IsSubsequence(found, Catalogue)
      && (reply.body.list.JsonNull? <==> found == [])
    ensures rawQuery != "" ==> reply.body.list == EncodeResults(Results(rawQuery))
  {
    var query := Lower(rawQuery);
    if query == "" {
      return Reply(StatusBadRequest, ErrorJson("Search query is required"));
    }
    var results := MatchingGames(Catalogue, query);
    reply := Reply(StatusOK, Games(EncodeResults(results)));
  }
}
