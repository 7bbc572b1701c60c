/** The `FollowButton` component as a state machine. Each handler is split
    at its `await`: `Begin*` is the synchronous part up to the request, and
    `End*` applies the request's outcome. Renders are taken to happen between
    events, so a handler always sees the latest state. */
module FollowButton {
  import opened Wrappers

  /** `followState`. The server's string is stored as received, so a value
      outside the four known ones is kept as `Other`. */
  datatype FollowState = NotFollowing | Following | Requested | Self | Other(name: string)

  function FromServer(s: string): (r: FollowState)
    ensures r.Other? <==> s !in {"not_following", "following", "requested", "self"}
    ensures r.Other? ==> r.name == s
    ensures s == "not_following" <==> r == NotFollowing
    ensures s == "following" <==> r == Following
    ensures s == "requested" <==> r == Requested
    ensures s == "self" <==> r == Self
  {
    if s == "not_following" then NotFollowing
    else if s == "following" then Following
    else if s == "requested" then Requested
    else if s == "self" then Self
    else Other(s)
  }

  datatype Props = Props(targetUsername: string, currentUsername: string, isPrivate: bool,
                         initialFollowState: bool, initialFollowersCount: int)

  datatype Button = Button(state: FollowState, followersCount: int, isLoading: bool)

  /** What the awaited call settled to: a reply carrying `followState`, or a
      rejection (which the handlers only log). */
  datatype Outcome = Replied(followState: string) | Failed

  /** The state right after mounting, before the effect runs. */
  function Mount(p: Props): Button {
    Button(NotFollowing, p.initialFollowersCount, true)
  }

  /** The effect on `initialFollowState`. */
  function ApplyInitialState(b: Button, initialFollowState: bool): (r: Button)
    ensures r.state == (if initialFollowState then Following else NotFollowing)
    ensures !r.isLoading && r.followersCount == b.followersCount
  {
    b.(state := if initialFollowState then Following else NotFollowing, isLoading := false)
  }

  /** The guard of `handleFollow` and, when it passes, the loading flag. */
  function BeginFollow(b: Button, p: Props): (r: Option<Button>)
    ensures r.None? <==> b.isLoading || b.state == Self || p.targetUsername == p.currentUsername
    ensures r.Some? ==> r.value == b.(isLoading := true)
  {
    if b.isLoading || b.state == Self || p.targetUsername == p.currentUsername then None
    else Some(b.(isLoading := true))
  }

  /** The rest of `handleFollow`: the state becomes the server's, the count
      grows by one only for "following" (which is also when the parent is
      told), and a failure changes nothing; loading ends either way. */
  function EndFollow(b: Button, outcome: Outcome): (r: (Button, Option<bool>))
    ensures !r.0.isLoading
    ensures outcome.Failed? ==> r.0 == b.(isLoading := false) && r.1 == None
    ensures outcome.Replied? ==> r.0.state == FromServer(outcome.followState)
    ensures outcome.Replied? && outcome.followState == "following" ==>
      r.0.followersCount == b.followersCount + 1 && r.1 == Some(true)
    ensures outcome.Replied? && outcome.followState != "following" ==>
      r.0.followersCount == b.followersCount && r.1 == None
  {
    match outcome
    case Failed => (b.(isLoading := false), None)
    case Replied(s) =>
      if s == "following" then
        (Button(FromServer(s), b.followersCount + 1, false), Some(true))
      else (Button(FromServer(s), b.followersCount, false), None)
  }

  function BeginUnfollow(b: Button): (r: Option<Button>)
    ensures r.None? <==> b.isLoading || b.state == Self
    ensures r.Some? ==> r.value == b.(isLoading := true)
  {
    if b.isLoading || b.state == Self then None else Some(b.(isLoading := true))
  }

  /** The rest of `handleUnfollow`: any reply means "not_following" and one
      follower fewer, whatever the state was. */
  function EndUnfollow(b: Button, outcome: Outcome): (r: (Button, Option<bool>))
    ensures !r.0.isLoading
    ensures outcome.Failed? ==> r.0 == b.(isLoading := false) && r.1 == None
    ensures outcome.Replied? ==>
      r.0.state == NotFollowing && r.0.followersCount == b.followersCount - 1 && r.1 == Some(false)
  {
    match outcome
    case Failed => (b.(isLoading := false), None)
    case Replied(_) => (Button(NotFollowing, b.followersCount - 1, false), Some(false))
  }

  /** `handleUnfollow` as it should be: cancelling a follow request removes
      no follower, so only leaving "following" lowers the count. */
  function EndUnfollowCorrected(b: Button, outcome: Outcome): (r: (Button, Option<bool>))
    ensures !r.0.isLoading
    ensures outcome.Failed? ==> r.0 == b.(isLoading := false) && r.1 == None
    ensures outcome.Replied? ==> r.0.state == NotFollowing && r.1 == Some(false)
    ensures outcome.Replied? ==>
      r.0.followersCount == b.followersCount - (if b.state == Following then 1 else 0)
  {
    match outcome
    case Failed => (b.(isLoading := false), None)
    case Replied(_) =>
      (Button(NotFollowing, b.followersCount - (if b.state == Following then 1 else 0), false), Some(false))
  }

  datatype Action = Follow | Unfollow

  /** `getButtonProps().onClick`: none while the component renders nothing
      (state "self"). */
  function ClickAction(b: Button): (r: Option<Action>)
    ensures r.None? <==> b.state == Self
    ensures r == Some(Unfollow) <==> b.state == Following || b.state == Requested
  {
    match b.state
    case Self => None
    case Following => Some(Unfollow)
    case Requested => Some(Unfollow)
    case _ => Some(Follow)
  }

  datatype Label = Spinner | Text(text: string)
  datatype Variant = Destructive | Secondary | Default

  datatype Rendered = Rendered(disabled: bool, variant: Variant, caption: Label, onClick: Action)

  /** What the component renders. */
  function Render(b: Button): (r: Option<Rendered>)
    ensures r.None? <==> b.state == Self
    ensures r.Some? ==> r.value.disabled == b.isLoading && Some(r.value.onClick) == ClickAction(b)
    ensures r.Some? ==> (r.value.caption == Spinner <==> b.isLoading)
  {
    var caption := (text: string) => if b.isLoading then Spinner else Text(text);
    match b.state
    case Self => None
    case Following => Some(Rendered(b.isLoading, Destructive, caption("Unfollow"), Unfollow))
    case Requested => Some(Rendered(b.isLoading, Secondary, caption("Requested"), Unfollow))
    case _ => Some(Rendered(b.isLoading, Default, caption("Follow"), Follow))
  }

  /** A whole click: dispatch, guard, request, outcome. A click the guard
      stops makes no request and changes nothing. */
  function Click(b: Button, p: Props, outcome: Outcome): (r: Button)
    ensures b.isLoading || b.state == Self ==> r == b
    ensures !r.isLoading || r == b
  {
    match ClickAction(b)
    case None => b
    case Some(Follow) =>
      if BeginFollow(b, p).None? then b else EndFollow(BeginFollow(b, p).value, outcome).0
    case Some(Unfollow) =>
      if BeginUnfollow(b).None? then b else EndUnfollow(BeginUnfollow(b).value, outcome).0
  }

  // ---------------------------------------------------------------- properties

  /** While a request is in flight no other request can start: the button
      is rendered disabled with a spinner, and both guards refuse. Starting
      a request changes nothing but the loading flag. */
  lemma NoDoubleSubmit(b: Button, p: Props)
    requires BeginFollow(b, p).Some? || BeginUnfollow(b).Some?
    ensures var busy := if BeginFollow(b, p).Some? then BeginFollow(b, p).value else BeginUnfollow(b).value;
      && BeginFollow(busy, p).None? && BeginUnfollow(busy).None?
      && Render(busy).Some? && Render(busy).value.disabled && Render(busy).value.caption == Spinner
      && busy.(isLoading := false) == b
  {
  }

  /** No server string is lost: two strings that give the same state are
      the same string. */
  lemma FromServerKeepsString(a: string, b: string)
    ensures FromServer(a) == FromServer(b) <==> a == b
  {
  }

  /** A failed request leaves the button as it was, apart from loading. */
  lemma FailureChangesNothing(b: Button, p: Props)
    requires !b.isLoading
    ensures Click(b, p, Failed) == b
  {
  }

  /** After mounting and the effect, the state mirrors the prop. */
  lemma MountedState(p: Props)
    ensures var b := ApplyInitialState(Mount(p), p.initialFollowState);
      && (b.state == Following <==> p.initialFollowState)
      && b.followersCount == p.initialFollowersCount && !b.isLoading
  {
  }

  /** Cancelling a request through the "Requested" button still takes one
      off the displayed count. */
  lemma CancelRequestDecrements(count: int)
    ensures EndUnfollow(Button(Requested, count, true), Replied("not_following")).0.followersCount == count - 1
    ensures EndUnfollowCorrected(Button(Requested, count, true), Replied("not_following")).0.followersCount == count
  {
  }
}
