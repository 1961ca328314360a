/**
 Moderation relationships of one subreddit: the friend, unfriend, invite, accept, leave
 and mute handlers of r2/r2/controllers/api.py, with the unban and unmute jobs of
 r2/r2/models/subreddit.py.  One handler call is atomic.
 */
module Moderation {
  import opened Wrappers

  type User = string

  datatype Rel = Moderator | ModeratorInvite | Contributor | Banned | Muted | WikiBanned | WikiContributor

  /** The users related to the subreddit, relation by relation. */
  datatype Rels = Rels(
    moderator: set<User>, invited: set<User>, contributor: set<User>, banned: set<User>,
    muted: set<User>, wikibanned: set<User>, wikicontributor: set<User>)
  {
    function Of(rel: Rel): set<User> {
      match rel
      case Moderator => moderator
      case ModeratorInvite => invited
      case Contributor => contributor
      case Banned => banned
      case Muted => muted
      case WikiBanned => wikibanned
      case WikiContributor => wikicontributor
    }

    function Put(rel: Rel, users: set<User>): Rels {
      match rel
      case Moderator => this.(moderator := users)
      case ModeratorInvite => this.(invited := users)
      case Contributor => this.(contributor := users)
      case Banned => this.(banned := users)
      case Muted => this.(muted := users)
      case WikiBanned => this.(wikibanned := users)
      case WikiContributor => this.(wikicontributor := users)
    }

    function With(rel: Rel, u: User): Rels { Put(rel, Of(rel) + {u}) }

    function Without(rel: Rel, u: User): Rels { Put(rel, Of(rel) - {u}) }
  }

  datatype Details =
    | NoDetails | RemoveSelf | Permanent | ChangedToPermanent | Days(n: nat) | ChangedTo(n: nat) | WasTemporary

  /** A moderation log entry.  `Added(rel)` and `Removed(rel)` stand for the action names
      of the two `mod_action_by_type` tables. */
  datatype ModAction = Added(rel: Rel) | Removed(rel: Rel) | AcceptedInvite
  datatype Entry = Entry(action: ModAction, target: User, details: Details)

  /** The state as one value.  Times are in seconds; `pending` holds scheduled unbans. */
  datatype Site = Site(rels: Rels, pending: map<(Rel, User), int>, muteIndex: set<User>, log: seq<Entry>)

  const DAY: int := 86400
  const BAN_BUFFER: int := 6 * 3600

  /** `permitted` stands for the checks of the acting user: permissions, timeouts, quotas, form errors. */
  datatype FriendRequest = FriendRequest(
    rel: Rel, friend: User, admin: bool, permitted: bool, canMute: bool, globallyBanned: bool,
    duration: Option<nat>, now: int)

  predicate IsBan(rel: Rel) { rel.Banned? || rel.WikiBanned? }

  predicate IsPrivilege(rel: Rel) {
    rel.Moderator? || rel.ModeratorInvite? || rel.Contributor? || rel.WikiContributor?
  }

  function Abs(x: int): int { if x < 0 then -x else x }

  // ---------------------------------------------------------------- specification

  /** Non-admins who add a moderator send an invite instead. */
  function EffectiveRel(q: FriendRequest): Rel {
    if q.rel.Moderator? && !q.admin then ModeratorInvite else q.rel
  }

  /** `POST_friend` changes nothing. */
  predicate Refused(s: Site, q: FriendRequest, inviteLimit: nat) {
    var rel := EffectiveRel(q);
    || !q.permitted
    || (rel.ModeratorInvite? && (|s.rels.invited| >= inviteLimit || q.friend in s.rels.moderator))
    || ((rel.Banned? || rel.Muted?) && q.friend in s.rels.moderator)
    || (rel.Muted? && !q.canMute)
    || (IsPrivilege(rel) && (q.globallyBanned || q.friend in s.rels.banned || q.friend in s.rels.muted))
  }

  /** A scheduled unban this close to the requested one is left as it is. */
  predicate CloseEnough(pendingAt: int, now: int, days: nat) {
    Abs(days * DAY - (pendingAt - now)) < BAN_BUFFER
  }

  /** The schedule after an accepted ban, and what the log says of it; None logs nothing. */
  function BanSchedule(pending: map<(Rel, User), int>, isNew: bool, q: FriendRequest)
    : (map<(Rel, User), int>, Option<Details>)
  {
    var key := (q.rel, q.friend);
    var existing := !isNew && key in pending;
    match q.duration
    case Some(d) =>
      if existing && CloseEnough(pending[key], q.now, d) then (pending, None)
      else (pending[key := q.now + d * DAY], Some(if isNew then Days(d) else ChangedTo(d)))
    case None =>
      if existing then (pending - {key}, Some(ChangedToPermanent))
      else (pending, if isNew then Some(Permanent) else None)
  }

  function AfterFriend(s: Site, q: FriendRequest, inviteLimit: nat): Site {
    if Refused(s, q, inviteLimit) then s
    else
      var rel, u := EffectiveRel(q), q.friend;
      var isNew := u !in s.rels.Of(rel);
      var rels := (if rel.Moderator? then s.rels.Without(ModeratorInvite, u) else s.rels).With(rel, u);
      if IsBan(rel) then
        var (pending, details) := BanSchedule(s.pending, isNew, q);
        Site(rels, pending, s.muteIndex,
             if details.Some? then s.log + [Entry(Added(rel), u, details.value)] else s.log)
      else
        Site(rels, s.pending, if isNew && rel.Muted? then s.muteIndex + {u} else s.muteIndex,
             if isNew then s.log + [Entry(Added(rel), u, NoDetails)] else s.log)
  }

  function AfterUnfriend(s: Site, rel: Rel, u: User): Site {
    Site(s.rels.Without(rel, u),
         if IsBan(rel) then s.pending - {(rel, u)} else s.pending,
         if rel.Muted? then s.muteIndex - {u} else s.muteIndex,
         if u in s.rels.Of(rel) then s.log + [Entry(Removed(rel), u, NoDetails)] else s.log)
  }

  function AfterAccept(s: Site, u: User): Site {
    if u !in s.rels.invited then s
    else s.(rels := s.rels.Without(ModeratorInvite, u).With(Moderator, u),
        log := s.log + [Entry(AcceptedInvite, u, NoDetails)])
  }

  function AfterLeaveModerator(s: Site, u: User): Site {
    if u !in s.rels.moderator then s
    else s.(rels := s.rels.Without(Moderator, u), log := s.log + [Entry(Removed(Moderator), u, RemoveSelf)])
  }

  function AfterLeaveContributor(s: Site, u: User): Site {
    s.(rels := s.rels.Without(Contributor, u))
  }

  function AfterMuteAuthor(s: Site, u: User, permitted: bool): Site {
    if !permitted || u in s.rels.moderator || u in s.rels.muted then s
    else s.(rels := s.rels.With(Muted, u), muteIndex := s.muteIndex + {u},
        log := s.log + [Entry(Added(Muted), u, NoDetails)])
  }

  function AfterUnmuteAuthor(s: Site, u: User, permitted: bool): Site {
    if !permitted || u !in s.rels.muted then s
    else s.(rels := s.rels.Without(Muted, u), muteIndex := s.muteIndex - {u},
        log := s.log + [Entry(Removed(Muted), u, NoDetails)])
  }

  function AfterUnbanJob(s: Site, rel: Rel, u: User, now: int): Site {
    if (rel, u) !in s.pending || s.pending[(rel, u)] > now then s
    else
      Site(s.rels.Without(rel, u), s.pending - {(rel, u)}, s.muteIndex,
           if u in s.rels.Of(rel) then s.log + [Entry(Removed(rel), u, WasTemporary)] else s.log)
  }

  function AfterUnmuteJob(s: Site, u: User): Site {
    if u !in s.muteIndex then s
    else s.(rels := s.rels.Without(Muted, u), muteIndex := s.muteIndex - {u},
        log := s.log + [Entry(Removed(Muted), u, NoDetails)])
  }

  // ---------------------------------------------------------------- the handlers

  class Subreddit {
    const inviteLimit: nat
    var rels: Rels
    var pending: map<(Rel, User), int>
    var muteIndex: set<User>
    var log: seq<Entry>

    ghost function View(): Site
      reads this
    {
      Site(rels, pending, muteIndex, log)
    }

    constructor (inviteLimit: nat, creator: User)
      ensures View() == Site(Rels({creator}, {}, {}, {}, {}, {}, {}), map[], {}, [])
      ensures this.inviteLimit == inviteLimit
    {
      this.inviteLimit := inviteLimit;
      rels, pending, muteIndex, log := Rels({creator}, {}, {}, {}, {}, {}, {}), map[], {}, [];
    }

    /** `add_<relation>`: true when the relation is new. */
    method AddRel(rel: Rel, u: User) returns (isNew: bool)
      modifies this`rels
      ensures isNew == (u !in old(rels).Of(rel)) && rels == old(rels).With(rel, u)
    {
      isNew := u !in rels.Of(rel);
      rels := rels.Put(rel, rels.Of(rel) + {u});
    }

    /** `remove_<relation>`: true when there was one. */
    method RemoveRel(rel: Rel, u: User) returns (existed: bool)
      modifies this`rels
      ensures existed == (u in old(rels).Of(rel)) && rels == old(rels).Without(rel, u)
    {
      existed := u in rels.Of(rel);
      rels := rels.Put(rel, rels.Of(rel) - {u});
    }

    method UnscheduleUnban(u: User, rel: Rel)
      modifies this`pending
      ensures pending == old(pending) - {(rel, u)}
    {
      pending := pending - {(rel, u)};
    }

    /** What is pending is what the index by user shows.  Scheduling overwrites the entry of
        the index only, so the handlers unschedule an earlier unban first. */
    method ScheduleUnban(rel: Rel, u: User, at: int)
      modifies this`pending
      ensures pending == old(pending)[(rel, u) := at]
    {
      pending := pending[(rel, u) := at];
    }

    method CreateModAction(action: ModAction, target: User, details: Details)
      modifies this`log
      ensures log == old(log) + [Entry(action, target, details)]
    {
      log := log + [Entry(action, target, details)];
    }

    /** The checks of `POST_friend` that look at the subreddit, in source order. */
    method CheckFriend(rel: Rel, q: FriendRequest) returns (ok: bool)
      requires rel == EffectiveRel(q)
      ensures ok == !Refused(View(), q, inviteLimit)
    {
      if !q.permitted { return false; }
      if rel == ModeratorInvite && |rels.invited| >= inviteLimit { return false; }
      if rel == ModeratorInvite && q.friend in rels.moderator { return false; }
      if (rel == Banned || rel == Muted) && q.friend in rels.moderator { return false; }
      if rel == Muted && !q.canMute { return false; }
      if IsPrivilege(rel) {
        if q.friend in rels.banned || q.globallyBanned { return false; }
        if q.friend in rels.muted { return false; }
      }
      return true;
    }

    method PostFriend(q: FriendRequest)
      modifies this`rels, this`pending, this`muteIndex, this`log
      ensures View() == AfterFriend(old(View()), q, inviteLimit)
    {
      var rel := q.rel;
      if rel == Moderator && !q.admin { rel := ModeratorInvite; }
      var ok := CheckFriend(rel, q);
      if !ok { return; }
      if rel == Moderator { var _ := RemoveRel(ModeratorInvite, q.friend); }
      var isNew := AddRel(rel, q.friend);
      var details: Option<Details> := None;
      if rel == Banned || rel == WikiBanned {
        details := ApplyBan(rel, q, isNew);
      } else if isNew && rel == Muted {
        muteIndex := muteIndex + {q.friend};
      }
      if isNew || details.Some? {
        CreateModAction(Added(rel), q.friend, if details.Some? then details.value else NoDetails);
      }
    }

    /** The temporary-ban bookkeeping in the middle of `POST_friend`. */
    method ApplyBan(rel: Rel, q: FriendRequest, isNew: bool) returns (details: Option<Details>)
      requires IsBan(rel) && q.rel == rel
      modifies this`pending
      ensures (pending, details) == BanSchedule(old(pending), isNew, q)
    {
      details := None;
      var key := (rel, q.friend);
      var existing: Option<int> := None;
      if !isNew && key in pending { existing := Some(pending[key]); }
      if q.duration.Some? {
        var d := q.duration.value;
        var far := true;
        if existing.Some? {
          var remaining := existing.value - q.now;
          far := Abs(d * DAY - remaining) >= BAN_BUFFER;
        }
        if far {
          UnscheduleUnban(q.friend, rel);
          ScheduleUnban(rel, q.friend, q.now + d * DAY);
          assert pending == old(pending)[key := q.now + d * DAY];
          details := Some(if isNew then Days(d) else ChangedTo(d));
        }
      } else if !isNew && existing.Some? {
        UnscheduleUnban(q.friend, rel);
        details := Some(ChangedToPermanent);
      } else if isNew {
        details := Some(Permanent);
      }
    }

    method PostUnfriend(rel: Rel, victim: User, permitted: bool)
      modifies this`rels, this`pending, this`muteIndex, this`log
      ensures View() == if permitted then AfterUnfriend(old(View()), rel, victim) else old(View())
    {
      if !permitted { return; }
      var existed := RemoveRel(rel, victim);
      if existed { CreateModAction(Removed(rel), victim, NoDetails); }
      if rel == Banned || rel == WikiBanned { UnscheduleUnban(victim, rel); }
      if rel == Muted { muteIndex := muteIndex - {victim}; }
    }

    method PostAcceptModeratorInvite(user: User) returns (found: bool)
      modifies this`rels, this`log
      ensures View() == AfterAccept(old(View()), user) && found == (user in old(rels).invited)
    {
      found := RemoveRel(ModeratorInvite, user);
      if !found { assert rels == old(rels); return; }
      CreateModAction(AcceptedInvite, user, NoDetails);
      var _ := AddRel(Moderator, user);
    }

    method PostLeaveModerator(user: User)
      modifies this`rels, this`log
      ensures View() == AfterLeaveModerator(old(View()), user)
    {
      if user in rels.moderator {
        var _ := RemoveRel(Moderator, user);
        CreateModAction(Removed(Moderator), user, RemoveSelf);
      }
    }

    method PostLeaveContributor(user: User)
      modifies this`rels
      ensures View() == AfterLeaveContributor(old(View()), user)
    {
      if user in rels.contributor {
        var _ := RemoveRel(Contributor, user);
      } else {
        assert rels.Without(Contributor, user) == rels;
      }
    }

    method PostMuteMessageAuthor(user: User, permitted: bool)
      modifies this`rels, this`muteIndex, this`log
      ensures View() == AfterMuteAuthor(old(View()), user, permitted)
    {
      if !permitted || user in rels.moderator { return; }
      var added := AddRel(Muted, user);
      if added {
        muteIndex := muteIndex + {user};
        CreateModAction(Added(Muted), user, NoDetails);
      } else {
        assert rels == old(rels);
      }
    }

    method PostUnmuteMessageAuthor(user: User, permitted: bool)
      modifies this`rels, this`muteIndex, this`log
      ensures View() == AfterUnmuteAuthor(old(View()), user, permitted)
    {
      if !permitted { return; }
      var removed := RemoveRel(Muted, user);
      if removed {
        muteIndex := muteIndex - {user};
        CreateModAction(Removed(Muted), user, NoDetails);
      } else {
        assert rels == old(rels);
      }
    }

    /** `on_subreddit_unban` for one scheduled item that is due. */
    method UnbanJob(rel: Rel, user: User, now: int)
      modifies this`rels, this`pending, this`log
      ensures View() == AfterUnbanJob(old(View()), rel, user, now)
    {
      if (rel, user) in pending && pending[(rel, user)] <= now {
        var existed := RemoveRel(rel, user);
        if existed { CreateModAction(Removed(rel), user, WasTemporary); }
        pending := pending - {(rel, user)};
      }
    }

    /** `unmute_hook` for one entry of the mute index. */
    method UnmuteJob(user: User)
      modifies this`rels, this`muteIndex, this`log
      ensures View() == AfterUnmuteJob(old(View()), user)
    {
      if user in muteIndex {
        var _ := RemoveRel(Muted, user);
        muteIndex := muteIndex - {user};
        CreateModAction(Removed(Muted), user, NoDetails);
      }
    }
  }
}
