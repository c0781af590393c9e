/**
 * Properties of the user-triggered steps: bookkeeping, create, claim,
 * close, and the participant list.
 */
module Lifecycle {
  import opened Wrappers
  import opened Tables
  import TicketIds

  /** Every ticket row other than `c` is the same, and no row appears or goes. */
  predicate OtherRowsUnchanged(before: map<ChannelId, Ticket>, after: map<ChannelId, Ticket>, c: ChannelId) {
    && after.Keys == before.Keys
    && forall d :: d in before && d != c ==> after[d] == before[d]
  }

  /** The day's counters rose by `delta` and no other day changed. */
  predicate CountedOnce(before: map<Day, DayStats>, after: map<Day, DayStats>, day: Day, delta: DayStats) {
    && Counters(after, day) == DayStats(
         Counters(before, day).openCount + delta.openCount,
         Counters(before, day).closeCount + delta.closeCount,
         Counters(before, day).claimCount + delta.claimCount)
    && after.Keys == before.Keys + {day}
    && forall d :: d in before && d != day ==> after[d] == before[d]
  }

  /** A closed ticket that is still there is still closed. */
  predicate ClosedKept(before: Db, after: Db) {
    forall c :: c in before.tickets && before.tickets[c].closed && c in after.tickets ==> after.tickets[c].closed
  }

  /**
   * The invariant survives a change to one existing row that keeps its
   * ticket id and owner, names a known claimant, and keeps the transcript
   * and archive tables pointing at consistent rows.
   */
  lemma ValidAfterRowChange(db: Db, after: Db, c: ChannelId)
    requires Valid(db)
    requires db.users.Keys <= after.users.Keys
    requires c in db.tickets && OtherRowsUnchanged(db.tickets, after.tickets, c)
    requires after.tickets[c].ticketId == db.tickets[c].ticketId && after.tickets[c].owner == db.tickets[c].owner
    requires after.tickets[c].claimedBy.Some? ==> after.tickets[c].claimedBy.value in after.users
    requires ParticipantsWellFormed(after.tickets[c])
    requires after.transcripts.Keys <= db.transcripts.Keys + {c}
    requires after.archived.Keys <= db.archived.Keys + {c}
    requires forall d :: d in after.archived && d != c ==> after.archived[d] == db.archived[d]
    requires c in after.archived ==> after.tickets[c].closed && after.archived[c].ticketId == db.tickets[c].ticketId
    requires c in db.archived ==> after.tickets[c].closed
    ensures Valid(after)
  {
    forall d | d in after.archived
      ensures d in after.tickets && after.tickets[d].closed && after.tickets[d].ticketId == after.archived[d].ticketId
    {
      if d != c {
        assert d in db.archived;
      }
    }
  }

  // ---------------------------------------------------------------- bookkeeping

  /** `log_ticket_stat` adds one to exactly the named counter of the day; other actions only create the row. */
  lemma LogTicketStatCounts(stats: map<Day, DayStats>, day: Day, action: string)
    ensures CountedOnce(stats, LogTicketStat(stats, day, action), day, StatDelta(action))
    ensures action == "opened" ==> StatDelta(action) == DayStats(1, 0, 0)
    ensures action == "closed" ==> StatDelta(action) == DayStats(0, 1, 0)
    ensures action == "claimed" ==> StatDelta(action) == DayStats(0, 0, 1)
    ensures action !in {"opened", "closed", "claimed"} ==> StatDelta(action) == DayStats(0, 0, 0)
  {
  }

  /** The additive upsert does not depend on the order in which events are logged. */
  lemma LogTicketStatCommutes(stats: map<Day, DayStats>, d1: Day, a1: string, d2: Day, a2: string)
    ensures LogTicketStat(LogTicketStat(stats, d1, a1), d2, a2) == LogTicketStat(LogTicketStat(stats, d2, a2), d1, a1)
  {
    var x := LogTicketStat(LogTicketStat(stats, d1, a1), d2, a2);
    var y := LogTicketStat(LogTicketStat(stats, d2, a2), d1, a1);
    assert x.Keys == y.Keys;
    forall d | d in x ensures x[d] == y[d] {
      if d == d1 && d == d2 {
        assert Counters(x, d) == Counters(y, d);
      }
    }
  }

  /** `k` events of one kind on one day raise that day's counter by `k`. */
  lemma {:induction false} LogTicketStatTimesCounts(stats: map<Day, DayStats>, day: Day, action: string, k: nat)
    ensures var after := LogTicketStatTimes(stats, day, action, k);
      && Counters(after, day) == DayStats(
           Counters(stats, day).openCount + k * StatDelta(action).openCount,
           Counters(stats, day).closeCount + k * StatDelta(action).closeCount,
           Counters(stats, day).claimCount + k * StatDelta(action).claimCount)
      && (k > 0 ==> after.Keys == stats.Keys + {day})
      && (k == 0 ==> after == stats)
      && forall d :: d in stats && d != day ==> after[d] == stats[d]
  {
    if k > 0 {
      LogTicketStatTimesCounts(stats, day, action, k - 1);
      var before := LogTicketStatTimes(stats, day, action, k - 1);
      LogTicketStatCounts(before, day, action);
    }
  }

  /** `track_user` upserts one row: the user's name and last-seen time, nothing else. */
  lemma TrackUserUpserts(db: Db, user: UserId, name: string, now: Timestamp)
    ensures var after := TrackUser(db, user, name, now);
      && after.users.Keys == db.users.Keys + {user}
      && after.users[user] == UserRow(name, now)
      && (forall u :: u in db.users && u != user ==> after.users[u] == db.users[u])
      && after.(users := db.users) == db
  {
  }

  /** `setup` leaves exactly one pointer for the channel, the newest message, and no other pointer changes. */
  lemma SetupPointerUpserts(db: Db, channel: ChannelId, m1: MessageId, m2: MessageId)
    ensures var after := SetupPointer(db, channel, m1);
      && after.setups.Keys == db.setups.Keys + {channel}
      && after.setups[channel] == m1
      && (forall c :: c in db.setups && c != channel ==> after.setups[c] == db.setups[c])
      && after.(setups := db.setups) == db
    ensures SetupPointer(SetupPointer(db, channel, m1), channel, m2) == SetupPointer(db, channel, m2)
  {
  }

  /**
   * A message from a human in a channel with a ticket row (closed or not)
   * moves that row's last activity to now and tracks the author; other
   * messages change nothing.
   */
  lemma OnMessageEffect(db: Db, channel: ChannelId, author: UserId, name: string, isBot: bool, now: Timestamp)
    ensures var after := OnMessage(db, channel, author, name, isBot, now);
      if !isBot && channel in db.tickets then
        && after.tickets[channel] == db.tickets[channel].(lastActivity := now)
        && after.tickets[channel].closed == db.tickets[channel].closed
        && OtherRowsUnchanged(db.tickets, after.tickets, channel)
        && after.users == TrackUser(db, author, name, now).users
        && after.(users := db.users, tickets := db.tickets) == db
      else after == db
  {
  }

  lemma OnMessagePreservesValid(db: Db, channel: ChannelId, author: UserId, name: string, isBot: bool, now: Timestamp)
    requires Valid(db)
    ensures Valid(OnMessage(db, channel, author, name, isBot, now))
    ensures ClosedKept(db, OnMessage(db, channel, author, name, isBot, now))
  {
  }

  lemma TrackUserPreservesValid(db: Db, user: UserId, name: string, now: Timestamp)
    requires Valid(db)
    ensures Valid(TrackUser(db, user, name, now))
  {
  }

  lemma SetupPointerPreservesValid(db: Db, channel: ChannelId, message: MessageId)
    requires Valid(db)
    ensures Valid(SetupPointer(db, channel, message))
  {
  }

  // ---------------------------------------------------------------- create

  /** When the open ticket the lookup found still has its channel, only the user row is written. */
  lemma CreateStopsAtLiveOpenTicket(
    db: Db, user: UserId, name: string, ticketType: string, found: Option<ChannelId>,
    live: set<ChannelId>, draws: seq<nat>, created: Option<ChannelId>, now: Timestamp)
    requires OpenTicketLookup(db, user, found)
    requires TicketIds.ValidDraws(draws)
    requires found.Some? && found.value in live
    ensures CreateTicket(db, user, name, ticketType, found, live, draws, created, now)
         == Step(TrackUser(db, user, name, now), DuplicateOpenTicket(found.value))
  {
  }

  /** If every open ticket of the user still has its channel, whichever one the lookup returns blocks the creation. */
  lemma CreateBlockedWhenOpenTicketsLive(
    db: Db, user: UserId, name: string, ticketType: string, found: Option<ChannelId>,
    live: set<ChannelId>, draws: seq<nat>, created: Option<ChannelId>, now: Timestamp)
    requires OpenTicketLookup(db, user, found)
    requires TicketIds.ValidDraws(draws)
    requires exists c :: c in db.tickets && OpenTicketOf(db, user, c)
    requires forall c :: c in db.tickets && OpenTicketOf(db, user, c) ==> c in live
    ensures CreateTicket(db, user, name, ticketType, found, live, draws, created, now).outcome.DuplicateOpenTicket?
    ensures CreateTicket(db, user, name, ticketType, found, live, draws, created, now).db.tickets == db.tickets
  {
  }

  /**
   * The create step succeeds exactly when the lookup found no open ticket
   * with a live channel, the type is configured, the channel was created and
   * neither its id nor the ticket id is taken. It then inserts one open,
   * unclaimed row with a well-formed ticket id and no participants, and
   * counts one opened ticket for today; every other outcome writes only the
   * user row.
   */
  lemma CreateEffect(
    db: Db, user: UserId, name: string, ticketType: string, found: Option<ChannelId>,
    live: set<ChannelId>, draws: seq<nat>, created: Option<ChannelId>, now: Timestamp)
    requires OpenTicketLookup(db, user, found)
    requires TicketIds.ValidDraws(draws)
    ensures var s := CreateTicket(db, user, name, ticketType, found, live, draws, created, now);
      && s.db.users == TrackUser(db, user, name, now).users
      && s.db.transcripts == db.transcripts && s.db.setups == db.setups && s.db.archived == db.archived
      && (s.outcome == Done <==>
            && !(found.Some? && found.value in live)
            && ticketType in Categories
            && created.Some?
            && created.value !in db.tickets
            && TicketIds.Generate(draws) !in TicketIdsOf(db))
      && (s.outcome == Done ==>
            var c := created.value;
            var t := s.db.tickets[c];
            && s.db.tickets.Keys == db.tickets.Keys + {c}
            && (forall d :: d in db.tickets ==> s.db.tickets[d] == db.tickets[d])
            && TicketIds.IsTicketId(t.ticketId)
            && t.owner == user && t.ticketType == ticketType
            && !t.closed && t.claimedBy == None && t.additionalUsers == []
            && t.createdAt == now && t.lastActivity == now
            && CountedOnce(db.stats, s.db.stats, DayOf(now), DayStats(1, 0, 0)))
      && (s.outcome != Done ==> s.db.tickets == db.tickets && s.db.stats == db.stats)
  {
    LogTicketStatCounts(db.stats, DayOf(now), "opened");
  }

  /**
   * The duplicate guard as written: an open ticket whose channel is gone
   * does not stop a second one, and the user then owns two open tickets.
   */
  lemma CreateAllowsSecondOpenTicket(
    db: Db, user: UserId, name: string, ticketType: string, stale: ChannelId,
    live: set<ChannelId>, draws: seq<nat>, newChannel: ChannelId, now: Timestamp)
    requires OpenTicketOf(db, user, stale) && stale !in live
    requires TicketIds.ValidDraws(draws) && TicketIds.Generate(draws) !in TicketIdsOf(db)
    requires ticketType in Categories && newChannel !in db.tickets
    ensures var s := CreateTicket(db, user, name, ticketType, Some(stale), live, draws, Some(newChannel), now);
      && s.outcome == Done
      && stale != newChannel
      && OpenTicketOf(s.db, user, stale) && OpenTicketOf(s.db, user, newChannel)
  {
  }

  /** The invariant survives inserting a fresh, open row whose id is new and whose owner is known. */
  lemma ValidAfterInsert(db: Db, after: Db, c: ChannelId)
    requires Valid(db)
    requires db.users.Keys <= after.users.Keys
    requires c !in db.tickets && after.tickets.Keys == db.tickets.Keys + {c}
    requires forall d :: d in db.tickets ==> after.tickets[d] == db.tickets[d]
    requires after.tickets[c].owner in after.users && after.tickets[c].claimedBy == None
    requires TicketIds.IsTicketId(after.tickets[c].ticketId) && after.tickets[c].ticketId !in TicketIdsOf(db)
    requires ParticipantsWellFormed(after.tickets[c])
    requires after.transcripts == db.transcripts && after.archived == db.archived
    ensures Valid(after)
  {
    forall d | d in db.tickets ensures db.tickets[d].ticketId != after.tickets[c].ticketId {
      assert db.tickets[d].ticketId in TicketIdsOf(db);
    }
    forall d, e | d in after.tickets && e in after.tickets && d != e
      ensures after.tickets[d].ticketId != after.tickets[e].ticketId
    {
    }
    forall d | d in after.archived
      ensures d in after.tickets && after.tickets[d].closed && after.tickets[d].ticketId == after.archived[d].ticketId
    {
      assert d in db.archived;
    }
  }

  lemma CreatePreservesValid(
    db: Db, user: UserId, name: string, ticketType: string, found: Option<ChannelId>,
    live: set<ChannelId>, draws: seq<nat>, created: Option<ChannelId>, now: Timestamp)
    requires Valid(db)
    requires OpenTicketLookup(db, user, found)
    requires TicketIds.ValidDraws(draws)
    ensures Valid(CreateTicket(db, user, name, ticketType, found, live, draws, created, now).db)
    ensures ClosedKept(db, CreateTicket(db, user, name, ticketType, found, live, draws, created, now).db)
  {
    var s := CreateTicket(db, user, name, ticketType, found, live, draws, created, now);
    CreateEffect(db, user, name, ticketType, found, live, draws, created, now);
    if s.outcome == Done {
      assert s.db.tickets[created.value].ticketId == TicketIds.Generate(draws);
      ValidAfterInsert(db, s.db, created.value);
    } else {
      assert s.db == TrackUser(db, user, name, now);
      TrackUserPreservesValid(db, user, name, now);
    }
  }

  // ---------------------------------------------------------------- claim

  /**
   * Claiming: a non-staff caller, a channel without an open ticket, and a
   * ticket already claimed (by the caller or by someone else) are rejected
   * and only the caller's user row is written; otherwise the row's claimant
   * becomes the caller, no other field or row changes, and today's claimed
   * counter rises by one.
   */
  lemma ClaimEffect(db: Db, channel: ChannelId, caller: UserId, name: string, isStaff: bool, now: Timestamp)
    ensures var s := ClaimTicket(db, channel, caller, name, isStaff, now);
      && s.db.users == TrackUser(db, caller, name, now).users
      && s.db.transcripts == db.transcripts && s.db.setups == db.setups && s.db.archived == db.archived
      && (s.outcome == NoPermission <==> !isStaff)
      && (s.outcome == NotOpenTicket <==> isStaff && !IsOpen(db, channel))
      && (s.outcome == AlreadyClaimedBySelf <==>
            isStaff && IsOpen(db, channel) && IsClaimed(db.tickets[channel]) && db.tickets[channel].claimedBy.value == caller)
      && (s.outcome.AlreadyClaimedByOther? <==>
            isStaff && IsOpen(db, channel) && IsClaimed(db.tickets[channel]) && db.tickets[channel].claimedBy.value != caller)
      && (s.outcome == Done <==> isStaff && IsOpen(db, channel) && !IsClaimed(db.tickets[channel]))
      && (s.outcome != Done ==> s.db.tickets == db.tickets && s.db.stats == db.stats)
      && (s.outcome == Done ==>
            && s.db.tickets[channel] == db.tickets[channel].(claimedBy := Some(caller))
            && OtherRowsUnchanged(db.tickets, s.db.tickets, channel)
            && CountedOnce(db.stats, s.db.stats, DayOf(now), DayStats(0, 0, 1)))
  {
    LogTicketStatCounts(db.stats, DayOf(now), "claimed");
  }

  /**
   * Claim is set once: after a successful claim, the same staff member is
   * told it is theirs and any other is told who holds it, and neither
   * changes the ticket. (A claimant id of 0 would read as unclaimed.)
   */
  lemma ClaimIsSetOnce(
    db: Db, channel: ChannelId, s1: UserId, n1: string, s2: UserId, n2: string, t1: Timestamp, t2: Timestamp)
    requires s1 != 0
    requires ClaimTicket(db, channel, s1, n1, true, t1).outcome == Done
    ensures var after := ClaimTicket(db, channel, s1, n1, true, t1).db;
      && ClaimTicket(after, channel, s1, n2, true, t2).outcome == AlreadyClaimedBySelf
      && ClaimTicket(after, channel, s1, n2, true, t2).db.tickets == after.tickets
      && (s2 != s1 ==>
            && ClaimTicket(after, channel, s2, n2, true, t2).outcome == AlreadyClaimedByOther(s1)
            && ClaimTicket(after, channel, s2, n2, true, t2).db.tickets == after.tickets)
  {
  }

  lemma ClaimPreservesValid(db: Db, channel: ChannelId, caller: UserId, name: string, isStaff: bool, now: Timestamp)
    requires Valid(db)
    ensures Valid(ClaimTicket(db, channel, caller, name, isStaff, now).db)
    ensures ClosedKept(db, ClaimTicket(db, channel, caller, name, isStaff, now).db)
  {
    var s := ClaimTicket(db, channel, caller, name, isStaff, now);
    ClaimEffect(db, channel, caller, name, isStaff, now);
    if s.outcome == Done {
      ValidAfterRowChange(db, s.db, channel);
    } else {
      assert s.db == TrackUser(db, caller, name, now);
      TrackUserPreservesValid(db, caller, name, now);
    }
  }

  // ---------------------------------------------------------------- close

  /**
   * Closing needs an open ticket and a closer who is staff or the owner;
   * otherwise nothing changes. On success the row is closed and nothing
   * else in it changes, a transcript row is written exactly when the upload
   * gave a URL, the ticket is scheduled for deletion ten days on, today's
   * closed counter rises by one, and the setup pointers are pruned.
   */
  lemma CloseEffect(
    db: Db, channel: ChannelId, closer: UserId, isStaff: bool, paste: Option<string>,
    now: Timestamp, live: set<ChannelId>, probe: ChannelId -> Fetch)
    ensures var s := CloseTicket(db, channel, closer, isStaff, paste, now, live, probe);
      && s.db.users == db.users
      && (s.outcome == NotOpenTicket <==> !IsOpen(db, channel))
      && (s.outcome == NoPermission <==> IsOpen(db, channel) && !(isStaff || closer == db.tickets[channel].owner))
      && (s.outcome == NotOpenTicket || s.outcome == NoPermission ==> s.db == db)
      && (s.outcome == Done ==>
            && s.db.tickets[channel] == db.tickets[channel].(closed := true)
            && OtherRowsUnchanged(db.tickets, s.db.tickets, channel)
            && s.db.archived == db.archived[channel := ArchivedRow(db.tickets[channel].ticketId, now + 10 * SecondsPerDay)]
            && (Uploaded(paste) ==> s.db.transcripts == db.transcripts[channel := TranscriptRow(paste.value, now, closer)])
            && (!Uploaded(paste) ==> s.db.transcripts == db.transcripts)
            && CountedOnce(db.stats, s.db.stats, DayOf(now), DayStats(0, 1, 0))
            && s.db.setups == PrunedSetups(db.setups, live, probe))
  {
    var s := CloseTicket(db, channel, closer, isStaff, paste, now, live, probe);
    if !IsOpen(db, channel) {
      assert s == Step(db, NotOpenTicket);
    } else if !(isStaff || closer == db.tickets[channel].owner) {
      assert s == Step(db, NoPermission);
    } else if channel in db.archived {
      assert s.outcome == ArchiveInsertRejected && s.db.users == db.users;
    } else {
      var d := CloseEffects(db, channel, paste, closer, now);
      CloseSequenceWrites(db, channel, paste, closer, now);
      assert s == Step(d.(setups := PrunedSetups(d.setups, live, probe)), Done);
    }
  }

  /** The writes of the shared close sequence, table by table. */
  lemma CloseSequenceWrites(db: Db, channel: ChannelId, paste: Option<string>, closer: UserId, now: Timestamp)
    requires channel in db.tickets
    ensures var d := CloseEffects(db, channel, paste, closer, now);
      && d.users == db.users && d.setups == db.setups
      && d.tickets == db.tickets[channel := db.tickets[channel].(closed := true)]
      && d.archived == db.archived[channel := ArchivedRow(db.tickets[channel].ticketId, now + 10 * SecondsPerDay)]
      && (Uploaded(paste) ==> d.transcripts == db.transcripts[channel := TranscriptRow(paste.value, now, closer)])
      && (!Uploaded(paste) ==> d.transcripts == db.transcripts)
      && CountedOnce(db.stats, d.stats, DayOf(now), DayStats(0, 1, 0))
  {
    LogTicketStatCounts(db.stats, DayOf(now), "closed");
  }

  /** In a valid state the archive insert never meets an existing row, so an allowed close always completes. */
  lemma CloseCompletesWhenValid(
    db: Db, channel: ChannelId, closer: UserId, isStaff: bool, paste: Option<string>,
    now: Timestamp, live: set<ChannelId>, probe: ChannelId -> Fetch)
    requires Valid(db)
    requires IsOpen(db, channel) && (isStaff || closer == db.tickets[channel].owner)
    ensures CloseTicket(db, channel, closer, isStaff, paste, now, live, probe).outcome == Done
  {
  }

  /**
   * Close is one way: once closed, closing again, claiming and changing
   * participants all find no open ticket and change nothing but the
   * claimer's user row.
   */
  lemma CloseIsOneWay(
    db: Db, channel: ChannelId, closer: UserId, isStaff: bool, paste: Option<string>,
    now: Timestamp, live: set<ChannelId>, probe: ChannelId -> Fetch,
    someone: UserId, isStaff2: bool, paste2: Option<string>, later: Timestamp)
    requires CloseTicket(db, channel, closer, isStaff, paste, now, live, probe).outcome == Done
    ensures var after := CloseTicket(db, channel, closer, isStaff, paste, now, live, probe).db;
      && after.tickets[channel].closed
      && CloseTicket(after, channel, someone, isStaff2, paste2, later, live, probe) == Step(after, NotOpenTicket)
      && AddUser(after, channel, someone) == Step(after, NotOpenTicket)
      && RemoveUser(after, channel, someone) == Step(after, NotOpenTicket)
      && ClaimTicket(after, channel, someone, "", true, later).outcome == NotOpenTicket
      && ClaimTicket(after, channel, someone, "", true, later).db.tickets == after.tickets
  {
  }

  lemma ClosePreservesValid(
    db: Db, channel: ChannelId, closer: UserId, isStaff: bool, paste: Option<string>,
    now: Timestamp, live: set<ChannelId>, probe: ChannelId -> Fetch)
    requires Valid(db)
    ensures Valid(CloseTicket(db, channel, closer, isStaff, paste, now, live, probe).db)
    ensures ClosedKept(db, CloseTicket(db, channel, closer, isStaff, paste, now, live, probe).db)
  {
    var s := CloseTicket(db, channel, closer, isStaff, paste, now, live, probe);
    CloseEffect(db, channel, closer, isStaff, paste, now, live, probe);
    if IsOpen(db, channel) && (isStaff || closer == db.tickets[channel].owner) {
      CloseCompletesWhenValid(db, channel, closer, isStaff, paste, now, live, probe);
      ValidAfterRowChange(db, s.db, channel);
    }
  }

  // ---------------------------------------------------------------- participants

  /**
   * Adding: rejected for a channel without an open ticket and for the
   * owner or a current participant, with nothing changed; otherwise the
   * user is appended to the participants and nothing else changes.
   */
  lemma AddUserEffect(db: Db, channel: ChannelId, user: UserId)
    ensures var s := AddUser(db, channel, user);
      && (s.outcome == NotOpenTicket <==> !IsOpen(db, channel))
      && (s.outcome == AlreadyHasAccess <==>
            IsOpen(db, channel) && (user == db.tickets[channel].owner || user in db.tickets[channel].additionalUsers))
      && (s.outcome == Done <==>
            IsOpen(db, channel) && user != db.tickets[channel].owner && user !in db.tickets[channel].additionalUsers)
      && (s.outcome != Done ==> s.db == db)
      && (s.outcome == Done ==>
            && s.db.tickets[channel].additionalUsers == db.tickets[channel].additionalUsers + [user]
            && s.db.tickets[channel].(additionalUsers := db.tickets[channel].additionalUsers) == db.tickets[channel]
            && OtherRowsUnchanged(db.tickets, s.db.tickets, channel)
            && s.db.(tickets := db.tickets) == db)
  {
  }

  /**
   * Removing: rejected for a channel without an open ticket, then for the
   * owner, then for a non-participant, with nothing changed; otherwise the
   * user no longer appears among the participants, every other participant
   * stays, and nothing else changes.
   */
  lemma RemoveUserEffect(db: Db, channel: ChannelId, user: UserId)
    ensures var s := RemoveUser(db, channel, user);
      && (s.outcome == NotOpenTicket <==> !IsOpen(db, channel))
      && (s.outcome == CannotRemoveOwner <==> IsOpen(db, channel) && user == db.tickets[channel].owner)
      && (s.outcome == NotAParticipant <==>
            IsOpen(db, channel) && user != db.tickets[channel].owner && user !in db.tickets[channel].additionalUsers)
      && (s.outcome == Done <==>
            IsOpen(db, channel) && user != db.tickets[channel].owner && user in db.tickets[channel].additionalUsers)
      && (s.outcome != Done ==> s.db == db)
      && (s.outcome == Done ==>
            && user !in s.db.tickets[channel].additionalUsers
            && (forall u :: u in s.db.tickets[channel].additionalUsers <==> u in db.tickets[channel].additionalUsers && u != user)
            && s.db.tickets[channel].(additionalUsers := db.tickets[channel].additionalUsers) == db.tickets[channel]
            && OtherRowsUnchanged(db.tickets, s.db.tickets, channel)
            && s.db.(tickets := db.tickets) == db)
  {
  }

  /** `array_remove` undoes `array_append` of a value not yet present. */
  lemma {:induction false} WithoutAppended(xs: seq<UserId>, x: UserId)
    requires x !in xs
    ensures Without(xs + [x], x) == xs
  {
    assert (xs + [x])[..|xs + [x]| - 1] == xs;
  }

  /** Adding a user and then removing them restores the ticket exactly. */
  lemma AddThenRemoveRestores(db: Db, channel: ChannelId, user: UserId)
    requires AddUser(db, channel, user).outcome == Done
    ensures RemoveUser(AddUser(db, channel, user).db, channel, user) == Step(db, Done)
  {
    var t := db.tickets[channel];
    WithoutAppended(t.additionalUsers, user);
    var after := AddUser(db, channel, user).db;
    assert after.tickets[channel := t] == db.tickets;
  }

  lemma {:induction false} WithoutKeepsNoDuplicates(xs: seq<UserId>, x: UserId)
    requires NoDuplicates(xs)
    ensures NoDuplicates(Without(xs, x))
  {
    if xs != [] {
      var init := xs[..|xs| - 1];
      assert NoDuplicates(init);
      WithoutKeepsNoDuplicates(init, x);
      assert xs[|xs| - 1] !in init;
    }
  }

  lemma AddUserPreservesValid(db: Db, channel: ChannelId, user: UserId)
    requires Valid(db)
    ensures Valid(AddUser(db, channel, user).db)
  {
  }

  lemma RemoveUserPreservesValid(db: Db, channel: ChannelId, user: UserId)
    requires Valid(db)
    ensures Valid(RemoveUser(db, channel, user).db)
  {
    if RemoveUser(db, channel, user).outcome == Done {
      WithoutKeepsNoDuplicates(db.tickets[channel].additionalUsers, user);
    }
  }
}
