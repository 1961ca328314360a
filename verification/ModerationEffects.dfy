/** Who is related to the subreddit and whose unban is pending after any run, and what one
    handler undoes of another. */
module ModerationEffects {
  import opened Moderation
  import opened ModerationTheorems

  // ---------------------------------------------------------------- which requests are accepted

  /** Neither banned, here or everywhere, nor muted. */
  predicate InGoodStanding(s: Site, q: FriendRequest) {
    !q.globallyBanned && q.friend !in s.rels.banned && q.friend !in s.rels.muted
  }

  /** There is room for one more invite, and the user does not need one. */
  predicate CanBeInvited(s: Site, q: FriendRequest, limit: nat) {
    InGoodStanding(s, q) && |s.rels.invited| < limit && q.friend !in s.rels.moderator
  }

  /** Which requests are granted, relation by relation. */
  predicate Granted(s: Site, q: FriendRequest, limit: nat) {
    q.permitted &&
    match q.rel
    case Moderator => if q.admin then InGoodStanding(s, q) else CanBeInvited(s, q, limit)
    case ModeratorInvite => CanBeInvited(s, q, limit)
    case Contributor => InGoodStanding(s, q)
    case WikiContributor => InGoodStanding(s, q)
    case Banned => q.friend !in s.rels.moderator
    case Muted => q.friend !in s.rels.moderator && q.canMute
    case WikiBanned => true
  }

  /** A request that is not granted changes nothing; one that is granted relates the user:
      an admin's moderator is one at once, anybody else's is invited and no more. */
  lemma GrantedIff(s: Site, q: FriendRequest, limit: nat)
    ensures Refused(s, q, limit) <==> !Granted(s, q, limit)
    ensures !Granted(s, q, limit) ==> AfterFriend(s, q, limit) == s
    ensures Granted(s, q, limit) ==> var t := AfterFriend(s, q, limit).rels;
      match q.rel
      case Moderator =>
        if q.admin then t.moderator == s.rels.moderator + {q.friend} && t.invited == s.rels.invited - {q.friend}
        else t.invited == s.rels.invited + {q.friend} && t.moderator == s.rels.moderator
      case ModeratorInvite => t == s.rels.(invited := s.rels.invited + {q.friend})
      case Contributor => t == s.rels.(contributor := s.rels.contributor + {q.friend})
      case WikiContributor => t == s.rels.(wikicontributor := s.rels.wikicontributor + {q.friend})
      case Banned => t == s.rels.(banned := s.rels.banned + {q.friend})
      case Muted => t == s.rels.(muted := s.rels.muted + {q.friend})
      case WikiBanned => t == s.rels.(wikibanned := s.rels.wikibanned + {q.friend})
  {
    hide BanSchedule;
  }

  // ---------------------------------------------------------------- what one event changes

  /** The event makes `u` a `rel`. */
  predicate Joins(s: Site, e: Event, limit: nat, rel: Rel, u: User) {
    match e
    case Friend(q) =>
      && Granted(s, q, limit) && u == q.friend
      && (if q.rel == Moderator && !q.admin then rel == ModeratorInvite else rel == q.rel)
    case Accept(v) => u == v && rel.Moderator? && v in s.rels.invited
    case MuteAuthor(v, permitted) => u == v && rel.Muted? && permitted && v !in s.rels.moderator
    case _ => false
  }

  /** The event ends it. */
  predicate Leaves(s: Site, e: Event, limit: nat, rel: Rel, u: User) {
    match e
    case Friend(q) =>
      Granted(s, q, limit) && u == q.friend && q.rel == Moderator && q.admin && rel == ModeratorInvite
    case Unfriend(r, v, permitted) => permitted && r == rel && v == u
    case Accept(v) => v == u && rel.ModeratorInvite?
    case LeaveModerator(v) => v == u && rel.Moderator?
    case LeaveContributor(v) => v == u && rel.Contributor?
    case MuteAuthor(_, _) => false
    case UnmuteAuthor(v, permitted) => permitted && v == u && rel.Muted?
    case UnbanDue(r, v, now) => IsDue(s, r, v, now) && r == rel && v == u
    case UnmuteDue(v) => v == u && rel.Muted? && v in s.muteIndex
  }

  /** The event is a granted call that bans `u` in this way. */
  predicate Bans(s: Site, e: Event, limit: nat, rel: Rel, u: User) {
    && e.Friend? && e.q.rel == rel && e.q.friend == u && (rel == Banned || rel == WikiBanned)
    && Granted(s, e.q, limit)
  }

  predicate IsDue(s: Site, rel: Rel, u: User, now: int) {
    (rel, u) in s.pending && s.pending[(rel, u)] <= now
  }

  lemma PutThenOf(r: Rels, rel: Rel, other: Rel, users: set<User>)
    ensures r.Put(rel, users).Of(other) == if other == rel then users else r.Of(other)
  {
  }

  /** For every event, relation and user: those related afterwards are the ones who join,
      and the ones who were related and do not leave. */
  lemma MembershipIff(s: Site, e: Event, limit: nat, rel: Rel, u: User)
    ensures u in Next(s, e, limit).rels.Of(rel)
       <==> Joins(s, e, limit, rel, u) || (u in s.rels.Of(rel) && !Leaves(s, e, limit, rel, u))
  {
    if e.Friend? {
      FriendMembership(s, e.q, limit, rel, u);
    } else {
      match rel
      case Moderator => case ModeratorInvite => case Contributor => case Banned =>
      case Muted => case WikiBanned => case WikiContributor =>
    }
  }

  lemma FriendMembership(s: Site, q: FriendRequest, limit: nat, rel: Rel, u: User)
    ensures u in AfterFriend(s, q, limit).rels.Of(rel)
       <==> Joins(s, Friend(q), limit, rel, u) || (u in s.rels.Of(rel) && !Leaves(s, Friend(q), limit, rel, u))
  {
    GrantedIff(s, q, limit);
    var added, invite := EffectiveRel(q), s.rels.Without(ModeratorInvite, q.friend);
    PutThenOf(s.rels, ModeratorInvite, rel, s.rels.invited - {q.friend});
    PutThenOf(s.rels, added, rel, s.rels.Of(added) + {q.friend});
    PutThenOf(invite, added, rel, invite.Of(added) + {q.friend});
    PutThenOf(s.rels, ModeratorInvite, added, s.rels.invited - {q.friend});
    hide Refused, Granted, BanSchedule;
  }

  /** An unban schedule changes only by an accepted ban call or the end of that very ban. */
  lemma ScheduleKept(s: Site, e: Event, limit: nat, rel: Rel, u: User)
    requires !Bans(s, e, limit, rel, u)
    ensures var t := Next(s, e, limit); var key := (rel, u);
      && (key in t.pending <==>
            key in s.pending && !(Leaves(s, e, limit, rel, u) && (e.UnbanDue? || (e.Unfriend? && IsBan(rel)))))
      && (key in t.pending ==> t.pending[key] == s.pending[key])
  {
    if e.Friend? { GrantedIff(s, e.q, limit); }
    hide Refused, Granted;
  }

  /** Removing somebody who was newly added restores everything but the log, which has the
      two entries; of a moderator's pending invite nothing remains. */
  lemma UnfriendUndoesFriend(s: Site, q: FriendRequest, limit: nat)
    requires Inv(s, limit) && Granted(s, q, limit)
    requires q.friend !in s.rels.Of(if q.rel == Moderator && !q.admin then ModeratorInvite else q.rel)
    ensures var rel, u := if q.rel == Moderator && !q.admin then ModeratorInvite else q.rel, q.friend;
      var t := AfterUnfriend(AfterFriend(s, q, limit), rel, u);
      && t.pending == s.pending && t.muteIndex == s.muteIndex
      && t.rels == (if rel.Moderator? then s.rels.Without(ModeratorInvite, u) else s.rels)
      && |t.log| == |s.log| + 2 && t.log[..|s.log|] == s.log
      && t.log[|s.log|].action == Added(rel) && t.log[|s.log|].target == u
      && t.log[|s.log| + 1] == Entry(Removed(rel), u, NoDetails)
  {
    GrantedIff(s, q, limit);
    hide Granted;
    var rel, u := EffectiveRel(q), q.friend;
    assert IsBan(rel) ==> (rel, u) !in s.pending;
    match rel
    case Moderator => assert s.rels.moderator + {u} - {u} == s.rels.moderator;
    case ModeratorInvite => assert s.rels.invited + {u} - {u} == s.rels.invited;
    case Contributor => assert s.rels.contributor + {u} - {u} == s.rels.contributor;
    case Banned => assert s.rels.banned + {u} - {u} == s.rels.banned;
    case Muted => assert s.rels.muted + {u} - {u} == s.rels.muted;
    case WikiBanned => assert s.rels.wikibanned + {u} - {u} == s.rels.wikibanned;
    case WikiContributor => assert s.rels.wikicontributor + {u} - {u} == s.rels.wikicontributor;
  }

  // ---------------------------------------------------------------- over whole runs

  /** Something that each event can begin or end holds at last exactly if some event began it,
      or it held at first, and no later event ended it. */
  lemma {:induction false} LastWord(n: nat, holds: nat -> bool, begins: nat -> bool, ends: nat -> bool)
    requires forall i: nat | i < n :: holds(i + 1) <==> begins(i) || (holds(i) && !ends(i))
    ensures holds(n) <==>
      || (exists k: nat :: k < n && begins(k) && forall j: nat | k < j < n :: !ends(j))
      || (holds(0) && forall j: nat | j < n :: !ends(j))
    decreases n
  {
    if n > 0 {
      LastWord(n - 1, holds, begins, ends);
      assert holds((n - 1) + 1) <==> begins(n - 1) || (holds(n - 1) && !ends(n - 1));
      if k: nat :| k < n - 1 && begins(k) && (forall j: nat | k < j < n - 1 :: !ends(j)) && !ends(n - 1) {
        assert forall j: nat | k < j < n :: !ends(j);
      }
    }
  }

  function Before(creator: User, events: seq<Event>, limit: nat, k: nat): Site {
    if k <= |events| then Run(creator, events[..k], limit) else Created(creator)
  }

  /** Event `k` of the run makes `u` a `rel`, or ends it. */
  predicate JoinsAt(creator: User, events: seq<Event>, limit: nat, rel: Rel, u: User, k: nat) {
    k < |events| && Joins(Before(creator, events, limit, k), events[k], limit, rel, u)
  }

  predicate LeavesAt(creator: User, events: seq<Event>, limit: nat, rel: Rel, u: User, k: nat) {
    k < |events| && Leaves(Before(creator, events, limit, k), events[k], limit, rel, u)
  }

  lemma BeforeNext(creator: User, events: seq<Event>, limit: nat, k: nat)
    requires k < |events|
    ensures Before(creator, events, limit, k + 1) == Next(Before(creator, events, limit, k), events[k], limit)
  {
    assert events[..k + 1][..k] == events[..k];
  }

  /** After any run: `u` is a `rel` exactly if some event made it one and no later event ended
      it, or it is the creator, still moderator from the beginning. */
  lemma RelatedIff(creator: User, events: seq<Event>, limit: nat, rel: Rel, u: User)
    ensures u in Run(creator, events, limit).rels.Of(rel) <==>
      || (exists k: nat :: k < |events| && JoinsAt(creator, events, limit, rel, u, k)
            && forall j: nat | k < j < |events| :: !LeavesAt(creator, events, limit, rel, u, j))
      || (rel.Moderator? && u == creator
            && forall j: nat | j < |events| :: !LeavesAt(creator, events, limit, rel, u, j))
  {
    var n := |events|;
    var holds := (i: nat) => u in Before(creator, events, limit, i).rels.Of(rel);
    var begins := (i: nat) => JoinsAt(creator, events, limit, rel, u, i);
    var ends := (i: nat) => LeavesAt(creator, events, limit, rel, u, i);
    hide Joins, Leaves, Next;
    forall i: nat | i < n ensures holds(i + 1) <==> begins(i) || (holds(i) && !ends(i)) {
      BeforeNext(creator, events, limit, i);
      MembershipIff(Before(creator, events, limit, i), events[i], limit, rel, u);
    }
    LastWord(n, holds, begins, ends);
    assert events[..n] == events;
    assert holds(0) <==> rel.Moderator? && u == creator;
    hide LeavesAt, JoinsAt, Run;
    assert forall i: nat :: begins(i) == JoinsAt(creator, events, limit, rel, u, i);
    assert forall i: nat :: ends(i) == LeavesAt(creator, events, limit, rel, u, i);
  }

  predicate SchedulesAt(creator: User, events: seq<Event>, limit: nat, rel: Rel, u: User, k: nat) {
    k < |events| && Bans(Before(creator, events, limit, k), events[k], limit, rel, u) && events[k].q.duration.Some?
  }

  /** Event `k` makes the ban permanent, or ends it. */
  predicate UnschedulesAt(creator: User, events: seq<Event>, limit: nat, rel: Rel, u: User, k: nat) {
    && k < |events|
    && var s, e := Before(creator, events, limit, k), events[k];
    || (Bans(s, e, limit, rel, u) && e.q.duration.None?)
    || (Leaves(s, e, limit, rel, u) && (e.Unfriend? || e.UnbanDue?))
  }

  lemma PendingAfter(s: Site, e: Event, limit: nat, rel: Rel, u: User)
    requires Inv(s, limit)
    ensures (rel, u) in Next(s, e, limit).pending <==>
      || (Bans(s, e, limit, rel, u) && e.q.duration.Some?)
      || ((rel, u) in s.pending && !(Bans(s, e, limit, rel, u) && e.q.duration.None?)
          && !(Leaves(s, e, limit, rel, u) && (e.Unfriend? || e.UnbanDue?)))
  {
    if !Bans(s, e, limit, rel, u) { ScheduleKept(s, e, limit, rel, u); } else { GrantedIff(s, e.q, limit); }
  }

  /** After any run: an unban of `u` is pending exactly if the last event that decided about
      it was a ban call with a duration. */
  lemma PendingIff(creator: User, events: seq<Event>, limit: nat, rel: Rel, u: User)
    ensures (rel, u) in Run(creator, events, limit).pending <==>
      exists k: nat :: k < |events| && SchedulesAt(creator, events, limit, rel, u, k)
        && forall j: nat | k < j < |events| :: !UnschedulesAt(creator, events, limit, rel, u, j)
  {
    var n := |events|;
    var holds := (i: nat) => (rel, u) in Before(creator, events, limit, i).pending;
    var begins := (i: nat) => SchedulesAt(creator, events, limit, rel, u, i);
    var ends := (i: nat) => UnschedulesAt(creator, events, limit, rel, u, i);
    hide Bans, Leaves, Next;
    forall i: nat | i < n ensures holds(i + 1) <==> begins(i) || (holds(i) && !ends(i)) {
      BeforeNext(creator, events, limit, i);
      InvAlways(creator, events[..i], limit);
      PendingAfter(Before(creator, events, limit, i), events[i], limit, rel, u);
    }
    LastWord(n, holds, begins, ends);
    assert events[..n] == events;
    assert !holds(0);
    hide SchedulesAt, UnschedulesAt, Run;
    assert forall i: nat :: begins(i) == SchedulesAt(creator, events, limit, rel, u, i);
    assert forall i: nat :: ends(i) == UnschedulesAt(creator, events, limit, rel, u, i);
  }

  /** After any run a moderator is the creator, or has accepted an invite, or was made one by
      an admin. */
  lemma HowModeratorsAreMade(creator: User, events: seq<Event>, limit: nat, u: User)
    requires u in Run(creator, events, limit).rels.moderator
    ensures || u == creator
            || (exists k: nat :: k < |events| && events[k] == Accept(u)
                  && u in Before(creator, events, limit, k).rels.invited)
            || (exists k: nat :: k < |events| && events[k].Friend? && events[k].q.rel == Moderator
                  && events[k].q.admin && events[k].q.friend == u
                  && Granted(Before(creator, events, limit, k), events[k].q, limit))
  {
    RelatedIff(creator, events, limit, Moderator, u);
    if u != creator {
      var k: nat :| k < |events| && JoinsAt(creator, events, limit, Moderator, u, k)
        && forall j: nat | k < j < |events| :: !LeavesAt(creator, events, limit, Moderator, u, j);
      hide Run, Granted;
    }
  }

  // ---------------------------------------------------------------- when the log grows

  predicate CallsBan(e: Event) { e.Friend? && (e.q.rel == Banned || e.q.rel == WikiBanned) }

  lemma FriendLogsIff(s: Site, q: FriendRequest, limit: nat)
    requires Inv(s, limit) && !CallsBan(Friend(q))
    ensures AfterFriend(s, q, limit).log == s.log <==> AfterFriend(s, q, limit).rels == s.rels
  {
    GrantedIff(s, q, limit);
    var rel, u, t := EffectiveRel(q), q.friend, AfterFriend(s, q, limit);
    assert Granted(s, q, limit) && u in s.rels.Of(rel) ==> s.rels.Of(rel) + {u} == s.rels.Of(rel);
    assert s.rels.invited - {u} == s.rels.invited || u in s.rels.invited;
    assert t.log != s.log ==> u in t.rels.Of(rel) && u !in s.rels.Of(rel);
    hide Granted, Refused;
  }

  lemma RemovalLogsIff(s: Site, rel: Rel, u: User)
    ensures AfterUnfriend(s, rel, u).log == s.log <==> u !in s.rels.Of(rel)
    ensures AfterUnfriend(s, rel, u).rels == s.rels <==> u !in s.rels.Of(rel)
  {
    PutThenOf(s.rels, rel, rel, s.rels.Of(rel) - {u});
    if u !in s.rels.Of(rel) { assert s.rels.Of(rel) - {u} == s.rels.Of(rel); }
  }

  /** Apart from bans, whose entries also tell of changed ends, and from contributors who leave
      by themselves, an event writes to the log if and only if it changes a relation. */
  lemma LogGrowsIff(s: Site, e: Event, limit: nat)
    requires Inv(s, limit) && !CallsBan(e) && !e.LeaveContributor?
    ensures Next(s, e, limit).log == s.log <==> Next(s, e, limit).rels == s.rels
  {
    match e
    case Friend(q) => FriendLogsIff(s, q, limit);
    case Unfriend(rel, u, _) => RemovalLogsIff(s, rel, u);
    case UnbanDue(rel, u, _) => RemovalLogsIff(s, rel, u);
    case Accept(u) => assert u in s.rels.invited ==> u !in s.rels.moderator;
    case LeaveModerator(u) => assert u in s.rels.moderator ==> u !in s.rels.moderator - {u};
    case MuteAuthor(u, _) => assert u !in s.rels.muted ==> s.rels.muted + {u} != s.rels.muted;
    case UnmuteAuthor(u, _) => assert u in s.rels.muted ==> u !in s.rels.muted - {u};
    case UnmuteDue(u) => assert u in s.rels.muted ==> u !in s.rels.muted - {u};
  }

  /** Moderators who leave and bans that end are marked as such. */
  lemma MarkedEntries(s: Site, u: User, rel: Rel, now: int)
    ensures u in s.rels.moderator ==>
      AfterLeaveModerator(s, u).log == s.log + [Entry(Removed(Moderator), u, RemoveSelf)]
    ensures IsDue(s, rel, u, now) && u in s.rels.Of(rel) ==>
      AfterUnbanJob(s, rel, u, now).log == s.log + [Entry(Removed(rel), u, WasTemporary)]
  {
  }

  // ---------------------------------------------------------------- what the log says of a ban

  /** The entry of a ban call tells whether the user was banned before and when the ban ends;
      nothing is logged exactly if nothing changes, because no end was given and none was
      pending, or one was pending less than six hours from the one given. */
  lemma BanIsLogged(s: Site, q: FriendRequest, limit: nat)
    requires Inv(s, limit) && Bans(s, Friend(q), limit, q.rel, q.friend)
    ensures var t, key := AfterFriend(s, q, limit), (q.rel, q.friend);
      var again := q.friend in s.rels.Of(q.rel);
      var settled := again && if q.duration.None? then key !in s.pending
        else key in s.pending && -21600 < q.duration.value * 86400 - (s.pending[key] - q.now) < 21600;
      && (settled ==> t.log == s.log && t.pending == s.pending)
      && (!settled ==>
            && |t.log| == |s.log| + 1 && t.log[..|s.log|] == s.log
            && t.log[|s.log|].action == Added(q.rel) && t.log[|s.log|].target == q.friend
            && match q.duration
               case Some(d) =>
                 && t.log[|s.log|].details == (if again then ChangedTo(d) else Days(d))
                 && t.pending == s.pending[key := q.now + d * 86400]
               case None =>
                 && t.log[|s.log|].details == (if again then ChangedToPermanent else Permanent)
                 && t.pending == s.pending - {key})
  {
    GrantedIff(s, q, limit);
    hide Granted, Refused;
    assert q.friend !in s.rels.Of(q.rel) ==> s.pending - {(q.rel, q.friend)} == s.pending;
  }
}
