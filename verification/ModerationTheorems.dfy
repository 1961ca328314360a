/** Whole-run properties of moderation: the log rebuilds the relations, schedules fit the bans. */
module ModerationTheorems {
  import opened Wrappers
  import opened Moderation

  datatype Event =
    | Friend(q: FriendRequest)
    | Unfriend(rel: Rel, user: User, permitted: bool)
    | Accept(user: User)
    | LeaveModerator(user: User)
    | LeaveContributor(user: User)
    | MuteAuthor(user: User, permitted: bool)
    | UnmuteAuthor(user: User, permitted: bool)
    | UnbanDue(rel: Rel, user: User, now: int)
    | UnmuteDue(user: User)

  /** The effect of one handler or job, as the methods of `Subreddit` have it. */
  function Next(s: Site, e: Event, limit: nat): Site {
    match e
    case Friend(q) => AfterFriend(s, q, limit)
    case Unfriend(rel, u, permitted) => if permitted then AfterUnfriend(s, rel, u) else s
    case Accept(u) => AfterAccept(s, u)
    case LeaveModerator(u) => AfterLeaveModerator(s, u)
    case LeaveContributor(u) => AfterLeaveContributor(s, u)
    case MuteAuthor(u, permitted) => AfterMuteAuthor(s, u, permitted)
    case UnmuteAuthor(u, permitted) => AfterUnmuteAuthor(s, u, permitted)
    case UnbanDue(rel, u, now) => AfterUnbanJob(s, rel, u, now)
    case UnmuteDue(u) => AfterUnmuteJob(s, u)
  }

  /** A new subreddit with its creator as moderator. */
  function Created(creator: User): Site {
    Site(Rels({creator}, {}, {}, {}, {}, {}, {}), map[], {}, [])
  }

  function Run(creator: User, events: seq<Event>, limit: nat): Site
    decreases |events|
  {
    if events == [] then Created(creator)
    else Next(Run(creator, events[..|events| - 1], limit), events[|events| - 1], limit)
  }

  // ---------------------------------------------------------------- invariant

  ghost predicate Inv(s: Site, limit: nat) {
    && s.rels.moderator !! s.rels.invited
    && |s.rels.invited| <= limit
    && s.muteIndex == s.rels.muted
    && (forall rel, u | (rel, u) in s.pending :: IsBan(rel) && u in s.rels.Of(rel))
  }

  lemma AddOneUser(users: set<User>, u: User)
    ensures |users + {u}| <= |users| + 1
    ensures |users - {u}| <= |users|
  {
    if u in users {
      assert users + {u} == users;
      assert |users| == |users - {u}| + 1;
    } else {
      assert users - {u} == users;
    }
  }

  lemma FriendKeepsInv(s: Site, q: FriendRequest, limit: nat)
    requires Inv(s, limit)
    ensures Inv(AfterFriend(s, q, limit), limit)
  {
    AddOneUser(s.rels.invited, q.friend);
    var rel := EffectiveRel(q);
    if !Refused(s, q, limit) {
      if IsBan(rel) { BanKeepsPending(s, q); }
      match rel
      case Moderator => case ModeratorInvite => case Contributor => case Banned =>
      case Muted => case WikiBanned => case WikiContributor =>
    }
  }

  lemma BanKeepsPending(s: Site, q: FriendRequest)
    requires IsBan(q.rel) && forall rel, u | (rel, u) in s.pending :: IsBan(rel) && u in s.rels.Of(rel)
    ensures var rels := s.rels.With(q.rel, q.friend);
      forall rel, u | (rel, u) in BanSchedule(s.pending, q.friend !in s.rels.Of(q.rel), q).0 ::
        IsBan(rel) && u in rels.Of(rel)
  {
  }

  lemma UnfriendKeepsInv(s: Site, rel: Rel, u: User, limit: nat)
    requires Inv(s, limit)
    ensures Inv(AfterUnfriend(s, rel, u), limit)
  {
    AddOneUser(s.rels.invited, u);
    match rel
    case Moderator => case ModeratorInvite => case Contributor => case Banned =>
    case Muted => case WikiBanned => case WikiContributor =>
  }

  lemma UnbanJobKeepsInv(s: Site, rel: Rel, u: User, now: int, limit: nat)
    requires Inv(s, limit)
    ensures Inv(AfterUnbanJob(s, rel, u, now), limit)
  {
  }

  lemma AcceptKeepsInv(s: Site, u: User, limit: nat)
    requires Inv(s, limit)
    ensures Inv(AfterAccept(s, u), limit)
  {
    AddOneUser(s.rels.invited, u);
  }

  lemma SmallStepsKeepInv(s: Site, e: Event, limit: nat)
    requires Inv(s, limit)
    requires e.LeaveModerator? || e.LeaveContributor? || e.MuteAuthor? || e.UnmuteAuthor? || e.UnmuteDue?
    ensures Inv(Next(s, e, limit), limit)
  {
  }

  lemma NextKeepsInv(s: Site, e: Event, limit: nat)
    requires Inv(s, limit)
    ensures Inv(Next(s, e, limit), limit)
  {
    match e
    case Friend(q) => FriendKeepsInv(s, q, limit);
    case Unfriend(rel, u, _) => UnfriendKeepsInv(s, rel, u, limit);
    case Accept(u) => AcceptKeepsInv(s, u, limit);
    case UnbanDue(rel, u, now) => UnbanJobKeepsInv(s, rel, u, now, limit);
    case _ => SmallStepsKeepInv(s, e, limit);
  }

  lemma {:induction false} InvAlways(creator: User, events: seq<Event>, limit: nat)
    ensures Inv(Run(creator, events, limit), limit)
    decreases |events|
  {
    if events != [] {
      InvAlways(creator, events[..|events| - 1], limit);
      NextKeepsInv(Run(creator, events[..|events| - 1], limit), events[|events| - 1], limit);
    }
  }

  // ---------------------------------------------------------------- replaying the log

  /** What a reader of the log does with one entry. */
  function Apply(r: Rels, e: Entry): Rels {
    match e.action
    case Added(Moderator) => r.Without(ModeratorInvite, e.target).With(Moderator, e.target)
    case Added(rel) => r.With(rel, e.target)
    case Removed(rel) => r.Without(rel, e.target)
    case AcceptedInvite => r.Without(ModeratorInvite, e.target).With(Moderator, e.target)
  }

  function Replay(r: Rels, log: seq<Entry>): Rels
    decreases |log|
  {
    if log == [] then r else Apply(Replay(r, log[..|log| - 1]), log[|log| - 1])
  }

  lemma ReplayOfAppend(r: Rels, log: seq<Entry>, e: Entry)
    ensures Replay(r, log + [e]) == Apply(Replay(r, log), e)
  {
    assert (log + [e])[..|log|] == log;
  }

  /** The users who left the contributors and were not added again; leaving is not logged. */
  function SilentAfter(s: Site, e: Event, limit: nat, silent: set<User>): set<User> {
    match e
    case LeaveContributor(u) => if u in s.rels.contributor then silent + {u} else silent
    case Friend(q) =>
      if EffectiveRel(q).Contributor? && !Refused(s, q, limit) then silent - {q.friend} else silent
    case _ => silent
  }

  function SilentLeavers(creator: User, events: seq<Event>, limit: nat): set<User>
    decreases |events|
  {
    if events == [] then {}
    else
      var before := events[..|events| - 1];
      SilentAfter(Run(creator, before, limit), events[|events| - 1], limit, SilentLeavers(creator, before, limit))
  }

  /** The relations as the log shows them: those of the site plus the silent leavers. */
  function Shown(r: Rels, silent: set<User>): Rels {
    r.(contributor := r.contributor + silent)
  }

  /** The step from `s` to `t`, seen through the log: nothing, or exactly one entry that explains it. */
  ghost predicate Explained(s: Site, t: Site, silent: set<User>, silent': set<User>) {
    && t.rels.contributor !! silent'
    && (t.log == s.log ==> Shown(t.rels, silent') == Shown(s.rels, silent))
    && (t.log != s.log ==>
          |t.log| == |s.log| + 1 && t.log[..|s.log|] == s.log
          && Shown(t.rels, silent') == Apply(Shown(s.rels, silent), t.log[|s.log|]))
  }

  lemma FriendExplained(s: Site, q: FriendRequest, limit: nat, silent: set<User>)
    requires Inv(s, limit) && s.rels.contributor !! silent
    ensures Explained(s, AfterFriend(s, q, limit), silent, SilentAfter(s, Friend(q), limit, silent))
  {
    match EffectiveRel(q)
    case Moderator => case ModeratorInvite => case Contributor => case Banned =>
    case Muted => case WikiBanned => case WikiContributor =>
  }

  lemma RemovalExplained(s: Site, e: Event, limit: nat, silent: set<User>)
    requires Inv(s, limit) && s.rels.contributor !! silent && (e.Unfriend? || e.UnbanDue?)
    ensures Explained(s, Next(s, e, limit), silent, SilentAfter(s, e, limit, silent))
  {
    match e.rel
    case Moderator => case ModeratorInvite => case Contributor => case Banned =>
    case Muted => case WikiBanned => case WikiContributor =>
  }

  lemma NextExplained(s: Site, e: Event, limit: nat, silent: set<User>)
    requires Inv(s, limit) && s.rels.contributor !! silent
    ensures Explained(s, Next(s, e, limit), silent, SilentAfter(s, e, limit, silent))
  {
    if e.Friend? {
      FriendExplained(s, e.q, limit, silent);
    } else if e.Unfriend? || e.UnbanDue? {
      RemovalExplained(s, e, limit, silent);
    }
  }

  /** In every reachable state, replaying the log from the creation of the subreddit gives
      its moderators, invites, bans, mutes and wiki relations, and its contributors
      together with those who left silently. */
  lemma {:induction false} ReplayRebuilds(creator: User, events: seq<Event>, limit: nat)
    ensures var s, silent := Run(creator, events, limit), SilentLeavers(creator, events, limit);
      && s.rels.contributor !! silent
      && Replay(Created(creator).rels, s.log) == Shown(s.rels, silent)
    decreases |events|
  {
    if events != [] {
      var before, e := events[..|events| - 1], events[|events| - 1];
      ReplayRebuilds(creator, before, limit);
      InvAlways(creator, before, limit);
      var s, t := Run(creator, before, limit), Run(creator, events, limit);
      NextExplained(s, e, limit, SilentLeavers(creator, before, limit));
      if t.log != s.log {
        assert t.log == s.log + [t.log[|s.log|]];
        ReplayOfAppend(Created(creator).rels, s.log, t.log[|s.log|]);
      }
    }
  }

  /** The whole state of the relations is in the log if and only if nobody who left the
      contributors is still missing an entry. */
  lemma ReplayIsExactIff(creator: User, events: seq<Event>, limit: nat)
    ensures Replay(Created(creator).rels, Run(creator, events, limit).log) == Run(creator, events, limit).rels
       <==> SilentLeavers(creator, events, limit) == {}
  {
    ReplayRebuilds(creator, events, limit);
    var r, silent := Run(creator, events, limit).rels, SilentLeavers(creator, events, limit);
    if silent != {} {
      var u :| u in silent;
      assert u in Shown(r, silent).contributor && u !in r.contributor;
    }
  }

  lemma OneMoreEvent(creator: User, before: seq<Event>, e: Event, limit: nat)
    ensures Run(creator, before + [e], limit) == Next(Run(creator, before, limit), e, limit)
    ensures SilentLeavers(creator, before + [e], limit)
         == SilentAfter(Run(creator, before, limit), e, limit, SilentLeavers(creator, before, limit))
  {
    assert (before + [e])[..|before|] == before;
    hide Next, SilentAfter;
  }

  function AddContributor(user: User): Event {
    Friend(FriendRequest(Contributor, user, false, true, true, false, None, 0))
  }

  lemma AddedContributor(s: Site, user: User, limit: nat)
    requires user !in s.rels.banned && user !in s.rels.muted
    ensures user in Next(s, AddContributor(user), limit).rels.contributor
    ensures SilentAfter(s, AddContributor(user), limit, {}) == {}
  {
  }

  /** A contributor who is added and leaves is such a case. */
  lemma LeavingIsNotLogged(creator: User, user: User, limit: nat)
    ensures var events := [AddContributor(user)] + [LeaveContributor(user)];
      && SilentLeavers(creator, events, limit) == {user}
      && Replay(Created(creator).rels, Run(creator, events, limit).log) != Run(creator, events, limit).rels
  {
    var e := AddContributor(user);
    assert Run(creator, [], limit) == Created(creator) && SilentLeavers(creator, [], limit) == {};
    AddedContributor(Created(creator), user, limit);
    hide Run, SilentLeavers, Next, Replay, AddContributor;
    OneMoreEvent(creator, [], e, limit);
    assert [] + [e] == [e];
    OneMoreEvent(creator, [e], LeaveContributor(user), limit);
    ReplayIsExactIff(creator, [e] + [LeaveContributor(user)], limit);
  }

  // ---------------------------------------------------------------- bans and mutes

  /** After an accepted ban call the user is banned; with a duration an unban is pending
      less than six hours from the requested end, without one none is pending. */
  lemma BanCallSchedules(creator: User, events: seq<Event>, limit: nat, q: FriendRequest)
    requires IsBan(q.rel) && !Refused(Run(creator, events, limit), q, limit)
    ensures var t := AfterFriend(Run(creator, events, limit), q, limit); var key := (q.rel, q.friend);
      && q.friend in t.rels.Of(q.rel)
      && (key in t.pending <==> q.duration.Some?)
      && (q.duration.Some? ==> Abs(t.pending[key] - (q.now + q.duration.value * DAY)) < BAN_BUFFER)
  {
    InvAlways(creator, events, limit);
  }

  // ---------------------------------------------------------------- restricted moderators

  ghost predicate ModeratorsUnrestricted(s: Site) {
    s.rels.moderator !! s.rels.banned && s.rels.moderator !! s.rels.muted
  }

  /** The handlers never ban or mute a moderator, and no banned or muted user becomes one,
      with a single exception: accepting an invite, which checks neither. */
  lemma OnlyAcceptMakesRestrictedModerators(s: Site, e: Event, limit: nat)
    requires ModeratorsUnrestricted(s)
    ensures ModeratorsUnrestricted(Next(s, e, limit))
       <==> !(e.Accept? && e.user in s.rels.invited && (e.user in s.rels.banned || e.user in s.rels.muted))
  {
    if e.Accept? && e.user in s.rels.invited {
      assert e.user in Next(s, e, limit).rels.moderator;
    }
  }

  /** Invite, ban, accept: a banned moderator. */
  lemma BannedInviteeBecomesModerator(creator: User, user: User, limit: nat)
    requires creator != user && limit > 0
    ensures var request := (rel: Rel) => FriendRequest(rel, user, false, true, true, false, None, 0);
      var events := [Friend(request(ModeratorInvite)), Friend(request(Banned)), Accept(user)];
      var s := Run(creator, events, limit);
      user in s.rels.moderator && user in s.rels.banned
  {
    var e1 := Friend(FriendRequest(ModeratorInvite, user, false, true, true, false, None, 0));
    var e2 := Friend(FriendRequest(Banned, user, false, true, true, false, None, 0));
    var events := [e1, e2, Accept(user)];
    assert events[..2] == [e1, e2] && [e1, e2][..1] == [e1] && [e1][..0] == [];
    assert Run(creator, [e1], limit) == Next(Created(creator), e1, limit);
    assert Run(creator, [e1, e2], limit) == Next(Run(creator, [e1], limit), e2, limit);
  }
}
