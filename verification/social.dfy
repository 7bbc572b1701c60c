/** The follow handlers of the backend as state transitions over the
    `followers` edge set and the `follow_requests` status map:
    `followUserHandler`, `unfollowUserHandler`, `getFollowStateHandler`,
    `acceptFollowRequestHandler`, `rejectFollowRequestHandler`, and the
    follower counts of `getProfileHandler`. `me` is the username of the
    authenticated caller, `target` the `{username}` path segment. */
module Social {
  import opened Store
  import opened Http
  import StringArray

  /** The request status a follow leaves behind on a private target: a new
      request is pending, a rejected one is reopened, a pending or accepted
      one is kept (`ON CONFLICT ... DO UPDATE ... WHERE status = 'rejected'`). */
  function RequestAfterFollow(requests: map<Edge, RequestStatus>, e: Edge): RequestStatus {
    if e !in requests || requests[e] == Rejected then Pending else requests[e]
  }

  /** `followUserHandler`. Failure points: 1 the caller's id lookup, 2 the
      target lookup, 3 begin, 4 the insert, 5 commit. */
  function Follow(db: Db, me: string, target: string, fault: Fault): (r: (Reply, Db))
    ensures me == target ==> r == (Reply(StatusBadRequest, ErrorText("Cannot follow yourself")), db)
    ensures me != target && (Fails(fault, 1) || me !in db.users) ==>
      r.0 == Reply(StatusInternalServerError, ErrorText("Failed to get follower ID"))
    ensures me != target && me in db.users && Fails(fault, 2) ==>
      r.0 == Reply(StatusInternalServerError, ErrorText("Failed to get target user"))
    ensures me != target && me in db.users && target in db.users && Fails(fault, 3) ==>
      r.0 == Reply(StatusInternalServerError, ErrorText("Internal server error"))
    ensures me != target && me in db.users && target in db.users && Fails(fault, 4) ==>
      r.0 == Reply(StatusInternalServerError, ErrorText("Error processing follow action"))
    ensures me != target && me in db.users && target in db.users && Fails(fault, 5) ==>
      r.0 == Reply(StatusInternalServerError, ErrorText("Error completing follow action"))
    ensures r.0.status == StatusOK <==>
      me != target && me in db.users && target in db.users && Survives(fault, 5)
    ensures (me != target && me in db.users && Survives(fault, 2) && target !in db.users) ==>
      r.0 == Reply(StatusNotFound, ErrorText("Target user not found"))
    ensures r.0.status != StatusOK ==> r.1 == db
    ensures r.1.users == db.users && r.1.userGames == db.userGames
    ensures r.0.status == StatusOK && !db.users[target].isPrivate ==>
      && r.0.body == FollowStatus("following", "Successfully followed user")
      && r.1.followers == db.followers + {Edge(me, target)}
      && r.1.requests == db.requests
    ensures r.0.status == StatusOK && db.users[target].isPrivate ==>
      && r.0.body == FollowStatus("requested", "Follow request sent")
      && r.1.followers == db.followers
      && r.1.requests.Keys == db.requests.Keys + {Edge(me, target)}
      && r.1.requests[Edge(me, target)] == RequestAfterFollow(db.requests, Edge(me, target))
      && (forall k :: k in db.requests && k != Edge(me, target) ==> r.1.requests[k] == db.requests[k])
  {
    var e := Edge(me, target);
    if me == target then (Reply(StatusBadRequest, ErrorText("Cannot follow yourself")), db)
    else if Fails(fault, 1) || me !in db.users then
      (Reply(StatusInternalServerError, ErrorText("Failed to get follower ID")), db)
    else if Fails(fault, 2) then (Reply(StatusInternalServerError, ErrorText("Failed to get target user")), db)
    else if target !in db.users then (Reply(StatusNotFound, ErrorText("Target user not found")), db)
    else if Fails(fault, 3) then (Reply(StatusInternalServerError, ErrorText("Internal server error")), db)
    else if Fails(fault, 4) then (Reply(StatusInternalServerError, ErrorText("Error processing follow action")), db)
    else if Fails(fault, 5) then (Reply(StatusInternalServerError, ErrorText("Error completing follow action")), db)
    else if db.users[target].isPrivate then
      (Reply(StatusOK, FollowStatus("requested", "Follow request sent")),
       db.(requests := db.requests[e := RequestAfterFollow(db.requests, e)]))
    else
      (Reply(StatusOK, FollowStatus("following", "Successfully followed user")),
       db.(followers := db.followers + {e}))
  }

  /** `unfollowUserHandler`. Failure points: 1 begin, 2 the follower delete,
      3 the request delete, 4 commit. There is no self check; when either
      user is missing the deletes match no row. */
  function Unfollow(db: Db, me: string, target: string, fault: Fault): (r: (Reply, Db))
    ensures r.0.status == StatusOK <==> Survives(fault, 4)
    ensures r.0.status == StatusOK ==> r.0.body == FollowStatus("not_following", "Successfully unfollowed user")
    ensures r.0.status != StatusOK ==> r.1 == db
    ensures r.1.users == db.users && r.1.userGames == db.userGames
    ensures r.0.status == StatusOK && me in db.users && target in db.users ==>
      && Edge(me, target) !in r.1.followers && Edge(me, target) !in r.1.requests
      && r.1.followers == db.followers - {Edge(me, target)}
      && r.1.requests == db.requests - {Edge(me, target)}
    ensures (me !in db.users || target !in db.users) ==> r.1 == db
  {
    var e := Edge(me, target);
    if Fails(fault, 1) then (Reply(StatusInternalServerError, ErrorText("Internal server error")), db)
    else if Fails(fault, 2) then (Reply(StatusInternalServerError, ErrorText("Error removing follow relationship")), db)
    else if Fails(fault, 3) then (Reply(StatusInternalServerError, ErrorText("Error removing follow request")), db)
    else if Fails(fault, 4) then (Reply(StatusInternalServerError, ErrorText("Error completing unfollow action")), db)
    else
      var db' := if me in db.users && target in db.users
                 then db.(followers := db.followers - {e}, requests := db.requests - {e})
                 else db;
      (Reply(StatusOK, FollowStatus("not_following", "Successfully unfollowed user")), db')
  }

  datatype Decision = Accept | Reject

  function StatusFor(d: Decision): RequestStatus {
    match d
    case Accept => Accepted
    case Reject => Rejected
  }

  /** `acceptFollowRequestHandler` (decision Accept) and
      `rejectFollowRequestHandler` (decision Reject). Failure points: 1 the
      lookup of both ids, 2 begin, 3 the update, 4 commit. The request
      updated is the one from the caller (`me`) to `target`; only its status
      can change, and the follower edges never do. */
  function Answer(db: Db, me: string, target: string, d: Decision, fault: Fault): (r: (Reply, Db))
    ensures r.1.followers == db.followers
    ensures r.1.users == db.users && r.1.userGames == db.userGames
    ensures r.1.requests.Keys == db.requests.Keys
    ensures forall k :: k in db.requests && k != Edge(me, target) ==> r.1.requests[k] == db.requests[k]
    ensures r.0.status == StatusOK <==> me in db.users && target in db.users && Survives(fault, 4)
    ensures r.0.status == StatusOK && Edge(me, target) in db.requests ==>
      r.1.requests[Edge(me, target)] == StatusFor(d)
    ensures r.0.status != StatusOK ==> r.1 == db
    ensures (Fails(fault, 1) || me !in db.users || target !in db.users) ==>
      r.0 == Reply(StatusNotFound, ErrorText("User not found"))
  {
    var e := Edge(me, target);
    if Fails(fault, 1) || me !in db.users || target !in db.users then
      (Reply(StatusNotFound, ErrorText("User not found")), db)
    else if Fails(fault, 2) then (Reply(StatusInternalServerError, ErrorText("Internal server error")), db)
    else if Fails(fault, 3) then
      (Reply(StatusInternalServerError,
             ErrorText(if d == Accept then "Error accepting follow request" else "Error rejecting follow request")), db)
    else if Fails(fault, 4) then (Reply(StatusInternalServerError, ErrorText("Error completing follow request")), db)
    else
      var requests' := if e in db.requests then db.requests[e := StatusFor(d)] else db.requests;
      (Reply(StatusOK, Message(if d == Accept then "Follow request accepted" else "Follow request rejected")),
       db.(requests := requests'))
  }

  /** `getFollowStateHandler`. Failure points: 1 the target lookup, 2 the
      caller lookup, 3 the follower-edge query, 4 the pending-request query
      (issued only when there is no edge and the target is private). The
      state reported for another user depends on the target's privacy flag
      alone: the two query results are computed and then ignored. */
  function FollowStateQuery(db: Db, me: string, target: string, fault: Fault): (r: Reply)
    ensures me == target ==> r == Reply(StatusOK, SelfStatus("self", 0))
    ensures me != target ==>
      (r.status == StatusOK <==>
         && target in db.users && me in db.users && Survives(fault, 3)
         && (Fails(fault, 4) ==> Edge(me, target) in db.followers || !db.users[target].isPrivate))
    ensures me != target && r.status == StatusOK ==>
      r.body.FollowStatus? && (r.body.followState == "requested" <==> db.users[target].isPrivate)
      && (r.body.followState == "following" <==> !db.users[target].isPrivate)
  {
    var e := Edge(me, target);
    if me == target then Reply(StatusOK, SelfStatus("self", 0))
    else if Fails(fault, 1) || target !in db.users then Reply(StatusNotFound, ErrorText("User not found"))
    else if Fails(fault, 2) || me !in db.users then Reply(StatusNotFound, ErrorText("Follower not found"))
    else if Fails(fault, 3) then Reply(StatusInternalServerError, ErrorText("Error checking follow status"))
    else if e !in db.followers && db.users[target].isPrivate && Fails(fault, 4) then
      Reply(StatusInternalServerError, ErrorText("Error checking request status"))
    else if db.users[target].isPrivate then Reply(StatusOK, FollowStatus("requested", "Follow request sent"))
    else Reply(StatusOK, FollowStatus("following", "Successfully followed user"))
  }

  /** `getProfileHandler` on the caller's own row. Failure points: 1 the user
      lookup, 2 the count query (a failure there is only logged, and both
      counts stay 0). `connected_games` reaches the reply as `Scan` reads
      the text the database writes for it. */
  function GetProfile(db: Db, me: string, fault: Fault): (r: Reply)
    ensures r.status == StatusOK <==> me in db.users && Survives(fault, 1)
    ensures me !in db.users && Survives(fault, 1) ==> r == Reply(StatusNotFound, ErrorText("User not found"))
    ensures r.status == StatusOK ==>
      && r.body.Profile?
      && r.body.username == me && r.body.isPrivate == db.users[me].isPrivate
      && r.body.connectedGames == StringArray.ReadThroughScan(db.users[me].connectedGames)
      && ((forall g :: g in db.users[me].connectedGames ==> !StringArray.NeedsQuotes(g)) ==>
            r.body.connectedGames == db.users[me].connectedGames)
      && r.body.followersCount == (if Fails(fault, 2) then 0 else |set e | e in db.followers && e.following == me|)
      && r.body.followingCount == (if Fails(fault, 2) then 0 else |set e | e in db.followers && e.follower == me|)
  {
    if Fails(fault, 1) then Reply(StatusInternalServerError, ErrorText("Internal server error"))
    else if me !in db.users then Reply(StatusNotFound, ErrorText("User not found"))
    else
      var row := db.users[me];
      var followers := if Fails(fault, 2) then 0 else FollowersCount(db, me);
      var following := if Fails(fault, 2) then 0 else FollowingCount(db, me);
      Reply(StatusOK, Profile(me, row.isPrivate, StringArray.ReadThroughScan(row.connectedGames), followers, following))
  }

  /** `getProfileHandler` reading `connected_games` with a quote-aware
      reader: the profile lists exactly the stored games. */
  function GetProfileCorrected(db: Db, me: string, fault: Fault): (r: Reply)
    ensures r.status == GetProfile(db, me, fault).status
    ensures r.status != StatusOK ==> r == GetProfile(db, me, fault)
    ensures r.status == StatusOK ==>
      && r.body.Profile?
      && r.body.connectedGames == db.users[me].connectedGames
      && r.body == GetProfile(db, me, fault).body.(connectedGames := db.users[me].connectedGames)
  {
    var asWritten := GetProfile(db, me, fault);
    if asWritten.status != StatusOK then asWritten
    else
      asWritten.(body := asWritten.body.(connectedGames :=
        StringArray.ReadThroughScanQuoted(db.users[me].connectedGames)))
  }

  /** The relation `me` actually has with `target`: an edge means
      following, a pending request to a private target means requested. */
  function CurrentFollowState(db: Db, me: string, target: string): string
    requires target in db.users
  {
    if Edge(me, target) in db.followers then "following"
    else if db.users[target].isPrivate && Edge(me, target) in db.requests
            && db.requests[Edge(me, target)] == Pending then "requested"
    else "not_following"
  }

  function StateMessage(state: string): string {
    if state == "following" then "Successfully followed user"
    else if state == "requested" then "Follow request sent"
    else "Successfully unfollowed user"
  }

  /** `getFollowStateHandler` with the two query results used: same failure
      points, but the state reported is the relation that holds. */
  function FollowStateQueryCorrected(db: Db, me: string, target: string, fault: Fault): (r: Reply)
    ensures me == target ==> r == Reply(StatusOK, SelfStatus("self", 0))
    ensures me != target ==> (r.status == StatusOK <==> FollowStateQuery(db, me, target, fault).status == StatusOK)
    ensures me != target && r.status == StatusOK ==>
      && r.body.FollowStatus?
      && (r.body.followState == "following" <==> Edge(me, target) in db.followers)
      && (r.body.followState == "requested" <==>
            Edge(me, target) !in db.followers && db.users[target].isPrivate
            && Edge(me, target) in db.requests && db.requests[Edge(me, target)] == Pending)
      && (r.body.followState == "not_following" <==>
            Edge(me, target) !in db.followers
            && !(db.users[target].isPrivate && Edge(me, target) in db.requests
                 && db.requests[Edge(me, target)] == Pending))
  {
    var asWritten := FollowStateQuery(db, me, target, fault);
    if me == target || asWritten.status != StatusOK then asWritten
    else
      var state := CurrentFollowState(db, me, target);
      Reply(StatusOK, FollowStatus(state, StateMessage(state)))
  }

  /** `acceptFollowRequestHandler` and `rejectFollowRequestHandler` with the
      request read the right way round: the caller `me` answers the request
      `requester` sent to them, and accepting it makes `requester` a
      follower of `me`. Failure points as in `Answer`. */
  function AnswerCorrected(db: Db, me: string, requester: string, d: Decision, fault: Fault): (r: (Reply, Db))
    ensures r.1.users == db.users && r.1.userGames == db.userGames
    ensures r.0.status == StatusOK <==> me in db.users && requester in db.users && Survives(fault, 4)
    ensures r.0.status != StatusOK ==> r.1 == db
    ensures r.1.requests.Keys == db.requests.Keys
    ensures forall k :: k in db.requests && k != Edge(requester, me) ==> r.1.requests[k] == db.requests[k]
    ensures r.0.status == StatusOK && Edge(requester, me) in db.requests ==>
      r.1.requests[Edge(requester, me)] == StatusFor(d)
    ensures r.1.followers == db.followers ||
      (r.0.status == StatusOK && d == Accept && Edge(requester, me) in db.requests
       && r.1.followers == db.followers + {Edge(requester, me)})
    ensures r.0.status == StatusOK && d == Accept ==>
      (Edge(requester, me) in r.1.followers <==>
         Edge(requester, me) in db.followers || Edge(requester, me) in db.requests)
  {
    var e := Edge(requester, me);
    var asWritten := Answer(db, requester, me, d, fault);
    if asWritten.0.status != StatusOK then (asWritten.0, db)
    else
      var followers' := if d == Accept && e in db.requests then db.followers + {e} else db.followers;
      (asWritten.0, asWritten.1.(followers := followers'))
  }

  // ---------------------------------------------------------------- properties

  /** Following twice leaves the same state as following once. */
  lemma FollowIdempotent(db: Db, me: string, target: string)
    ensures Follow(Follow(db, me, target, Healthy).1, me, target, Healthy).1 == Follow(db, me, target, Healthy).1
  {
    var db1 := Follow(db, me, target, Healthy).1;
    if me != target && me in db.users && target in db.users && db.users[target].isPrivate {
      var e := Edge(me, target);
      assert db1.requests[e] != Rejected;
      assert db1.requests[e := RequestAfterFollow(db1.requests, e)] == db1.requests;
    }
  }

  /** Unfollowing undoes a follow that created the relation from nothing. */
  lemma UnfollowUndoesFollow(db: Db, me: string, target: string)
    requires Edge(me, target) !in db.followers && Edge(me, target) !in db.requests
    ensures Unfollow(Follow(db, me, target, Healthy).1, me, target, Healthy).1 == db
  {
    var e := Edge(me, target);
    var db1 := Follow(db, me, target, Healthy).1;
    if me != target && me in db.users && target in db.users {
      if db.users[target].isPrivate {
        assert db1.requests - {e} == db.requests;
      } else {
        assert db1.followers - {e} == db.followers;
      }
    }
  }

  lemma CountAddEdge(followers: set<Edge>, e: Edge)
    requires e !in followers
    ensures |set x | x in followers + {e} && x.following == e.following|
         == |set x | x in followers && x.following == e.following| + 1
  {
    var before := set x | x in followers && x.following == e.following;
    var after := set x | x in followers + {e} && x.following == e.following;
    assert after == before + {e};
  }

  lemma CountRemoveEdge(followers: set<Edge>, e: Edge)
    requires e in followers
    ensures |set x | x in followers - {e} && x.following == e.following|
         == |set x | x in followers && x.following == e.following| - 1
  {
    var before := set x | x in followers && x.following == e.following;
    var after := set x | x in followers - {e} && x.following == e.following;
    assert before == after + {e};
  }

  /** A successful follow raises the target's follower count by one exactly
      when it created a new edge, that is on a public target not already
      followed; a follow request leaves the count alone. */
  lemma FollowersCountAfterFollow(db: Db, me: string, target: string)
    requires Follow(db, me, target, Healthy).0.status == StatusOK
    ensures FollowersCount(Follow(db, me, target, Healthy).1, target) ==
      FollowersCount(db, target) +
      (if !db.users[target].isPrivate && Edge(me, target) !in db.followers then 1 else 0)
  {
    var e := Edge(me, target);
    var db1 := Follow(db, me, target, Healthy).1;
    if !db.users[target].isPrivate && e !in db.followers {
      CountAddEdge(db.followers, e);
    } else if !db.users[target].isPrivate {
      assert db1.followers == db.followers;
    }
  }

  /** A successful unfollow lowers the target's follower count by one exactly
      when the edge existed. */
  lemma FollowersCountAfterUnfollow(db: Db, me: string, target: string)
    requires me in db.users && target in db.users
    ensures FollowersCount(Unfollow(db, me, target, Healthy).1, target) ==
      FollowersCount(db, target) - (if Edge(me, target) in db.followers then 1 else 0)
  {
    var e := Edge(me, target);
    if e in db.followers {
      CountRemoveEdge(db.followers, e);
    } else {
      assert db.followers - {e} == db.followers;
    }
  }

  // ------------------------------------------------------------------ findings

  /** Alice (private) is looked at by Bob, who has never followed her nor
      asked to: the handler reports "requested". Carol (public) is looked at
      by Bob with no edge: the handler reports "following". */
  lemma FollowStateIgnoresRelation()
    ensures var db := Db(map["alice" := UserRow(Bcrypt("a"), true, []),
                             "bob" := UserRow(Bcrypt("b"), false, []),
                             "carol" := UserRow(Bcrypt("c"), false, [])], {}, map[], []);
      && FollowStateQuery(db, "bob", "alice", Healthy).body.followState == "requested"
      && FollowStateQuery(db, "bob", "carol", Healthy).body.followState == "following"
      && CurrentFollowState(db, "bob", "alice") == "not_following"
      && CurrentFollowState(db, "bob", "carol") == "not_following"
  {
  }

  /** Bob asks to follow the private Alice, then Alice accepts: the
      as-written handler looks for a request from Alice to Bob, finds none,
      and Bob's request stays pending with no follower edge. */
  lemma AcceptNeverAddsFollower()
    ensures var db0 := Db(map["alice" := UserRow(Bcrypt("a"), true, []),
                              "bob" := UserRow(Bcrypt("b"), false, [])], {}, map[], []);
      var db1 := Follow(db0, "bob", "alice", Healthy).1;
      var db2 := Answer(db1, "alice", "bob", Accept, Healthy).1;
      && Answer(db1, "alice", "bob", Accept, Healthy).0.status == StatusOK
      && Edge("bob", "alice") !in db2.followers
      && db2.requests[Edge("bob", "alice")] == Pending
  {
    var db0 := Db(map["alice" := UserRow(Bcrypt("a"), true, []),
                      "bob" := UserRow(Bcrypt("b"), false, [])], {}, map[], []);
    var db1 := Follow(db0, "bob", "alice", Healthy).1;
    assert db1.requests == map[Edge("bob", "alice") := Pending];
  }

  /** With the corrected handler, a follow request to a private account
      that the account accepts makes the requester a follower, and the
      corrected state query then says "following". */
  lemma RequestThenAcceptFollows(db: Db, requester: string, me: string)
    requires requester != me && requester in db.users && me in db.users
    requires db.users[me].isPrivate
    ensures var db1 := Follow(db, requester, me, Healthy).1;
      var db2 := AnswerCorrected(db1, me, requester, Accept, Healthy).1;
      && Edge(requester, me) in db2.followers
      && CurrentFollowState(db2, requester, me) == "following"
  {
  }

  /** A request marked accepted is backed by the follower edge it grants. */
  predicate AcceptedIsFollower(db: Db, e: Edge) {
    e in db.requests && db.requests[e] == Accepted ==> e in db.followers
  }

  /** The invariant the corrected answer keeps: every accepted request is
      backed by its follower edge. */
  ghost predicate AcceptedAreFollowers(db: Db) {
    forall e :: AcceptedIsFollower(db, e)
  }

  /** Following, unfollowing and the corrected answer all keep every
      accepted request backed by its edge, so the states these handlers
      reach from an empty database satisfy the invariant. */
  lemma FollowKeepsAcceptedFollowers(db: Db, me: string, target: string, fault: Fault)
    requires AcceptedAreFollowers(db)
    ensures AcceptedAreFollowers(Follow(db, me, target, fault).1)
  {
    var db1 := Follow(db, me, target, fault).1;
    forall e ensures AcceptedIsFollower(db1, e) {
      assert AcceptedIsFollower(db, e);
    }
  }

  lemma UnfollowKeepsAcceptedFollowers(db: Db, me: string, target: string, fault: Fault)
    requires AcceptedAreFollowers(db)
    ensures AcceptedAreFollowers(Unfollow(db, me, target, fault).1)
  {
    var db1 := Unfollow(db, me, target, fault).1;
    forall e ensures AcceptedIsFollower(db1, e) {
      assert AcceptedIsFollower(db, e);
    }
  }

  lemma AnswerCorrectedKeepsAcceptedFollowers(db: Db, me: string, requester: string, d: Decision, fault: Fault)
    requires AcceptedAreFollowers(db)
    ensures AcceptedAreFollowers(AnswerCorrected(db, me, requester, d, fault).1)
  {
    var db1 := AnswerCorrected(db, me, requester, d, fault).1;
    forall e ensures AcceptedIsFollower(db1, e) {
      assert AcceptedIsFollower(db, e);
    }
  }

  /** As written, the answer handler breaks the invariant: Bob asks to
      follow the private Alice and then calls accept on Alice himself. His
      own request is marked accepted with no edge; a later follow keeps it
      accepted and replies "requested", while the relation that holds is
      "not_following". */
  lemma SelfAcceptStrandsRequest()
    ensures var db0 := Db(map["alice" := UserRow(Bcrypt("a"), true, []),
                              "bob" := UserRow(Bcrypt("b"), false, [])], {}, map[], []);
      var db1 := Follow(db0, "bob", "alice", Healthy).1;
      var db2 := Answer(db1, "bob", "alice", Accept, Healthy).1;
      var db3 := Follow(db2, "bob", "alice", Healthy).1;
      && AcceptedAreFollowers(db0) && !AcceptedAreFollowers(db2)
      && Follow(db2, "bob", "alice", Healthy).0.body.followState == "requested"
      && CurrentFollowState(db3, "bob", "alice") == "not_following"
  {
    var db0 := Db(map["alice" := UserRow(Bcrypt("a"), true, []),
                      "bob" := UserRow(Bcrypt("b"), false, [])], {}, map[], []);
    var e := Edge("bob", "alice");
    var db1 := Follow(db0, "bob", "alice", Healthy).1;
    assert db1.requests == map[e := Pending];
    var db2 := Answer(db1, "bob", "alice", Accept, Healthy).1;
    assert db2.requests == map[e := Accepted];
    assert !AcceptedIsFollower(db2, e);
    var db3 := Follow(db2, "bob", "alice", Healthy).1;
    assert db3.requests == map[e := Accepted];
  }

  /** With the corrected query, the state after a successful follow is the
      one the follow reply announced, unless `me` already followed `target`:
      then it stays "following", whatever the reply said (see
      `FollowerOfPrivateToldRequested`). After an unfollow it is
      "not_following". This needs the request, if accepted, to be backed by
      its edge, which the corrected handlers keep and the as-written accept
      does not (see `SelfAcceptStrandsRequest`). */
  lemma StateAfterFollowAndUnfollow(db: Db, me: string, target: string)
    requires me != target && me in db.users && target in db.users
    requires AcceptedIsFollower(db, Edge(me, target))
    ensures var db1 := Follow(db, me, target, Healthy).1;
      CurrentFollowState(db1, me, target) ==
        (if Edge(me, target) in db.followers then "following"
         else Follow(db, me, target, Healthy).0.body.followState)
    ensures CurrentFollowState(Unfollow(db, me, target, Healthy).1, me, target) == "not_following"
  {
  }

  /** The follow reply depends on the target's privacy alone: an existing
      follower of a private account who follows again is told "requested",
      while the edge stays and the relation is still "following". The
      corrected answer reaches such a state from an accepted request. */
  lemma FollowerOfPrivateToldRequested()
    ensures var db := Db(map["alice" := UserRow(Bcrypt("a"), true, []),
                             "bob" := UserRow(Bcrypt("b"), false, [])],
                         {Edge("bob", "alice")}, map[Edge("bob", "alice") := Accepted], []);
      && AcceptedAreFollowers(db)
      && Follow(db, "bob", "alice", Healthy).0.body.followState == "requested"
      && CurrentFollowState(Follow(db, "bob", "alice", Healthy).1, "bob", "alice") == "following"
  {
    var e := Edge("bob", "alice");
    var db := Db(map["alice" := UserRow(Bcrypt("a"), true, []),
                     "bob" := UserRow(Bcrypt("b"), false, [])],
                 {e}, map[e := Accepted], []);
    forall x ensures AcceptedIsFollower(db, x) {
    }
    assert e in Follow(db, "bob", "alice", Healthy).1.followers;
  }
}
