/**
 * The bot itself: the six tables as fields that its handlers update in
 * place, statement by statement as the handlers issue their SQL. Each
 * handler is proved to leave exactly the state the matching step function
 * of `Tables` describes, and to keep the table invariant.
 */
module Bot {
  import opened Wrappers
  import opened Tables
  import TicketIds
  import Lifecycle
  import Sweeps

  /** The next channel a sweep visits: any one of those still pending. */
  method PickPending<T>(pending: set<T>) returns (c: T)
    requires pending != {}
    ensures c in pending
  {
    c :| c in pending;
  }

  class TicketBot {
    var users: map<UserId, UserRow>
    var tickets: map<ChannelId, Ticket>
    var transcripts: map<ChannelId, TranscriptRow>
    var stats: map<Day, DayStats>
    var setups: map<ChannelId, MessageId>
    var archived: map<ChannelId, ArchivedRow>

    /** The database as a value. */
    function State(): Db
      reads this
    {
      Db(users, tickets, transcripts, stats, setups, archived)
    }

    ghost predicate Valid()
      reads this
    {
      Tables.Valid(State())
    }

    /** `init_db` on an empty database. */
    constructor ()
      ensures State() == EmptyDb
      ensures Valid()
    {
      users := map[];
      tickets := map[];
      transcripts := map[];
      stats := map[];
      setups := map[];
      archived := map[];
    }

    // -------------------------------------------------------------- bookkeeping

    /** `track_user`. */
    method TrackUser(user: UserId, name: string, now: Timestamp)
      requires Valid()
      modifies this
      ensures Valid()
      ensures State() == Tables.TrackUser(old(State()), user, name, now)
    {
      Lifecycle.TrackUserPreservesValid(State(), user, name, now);
      users := users[user := UserRow(name, now)];
    }

    /** `log_ticket_stat`: insert the day's row, or add to it on conflict. */
    method LogTicketStat(day: Day, action: string)
      modifies this
      ensures State() == old(State()).(stats := Tables.LogTicketStat(old(stats), day, action))
    {
      var delta := StatDelta(action);
      if day in stats {
        var row := stats[day];
        stats := stats[day := DayStats(row.openCount + delta.openCount, row.closeCount + delta.closeCount, row.claimCount + delta.claimCount)];
      } else {
        stats := stats[day := delta];
      }
    }

    /** The database part of `setup`: the pointer upsert after posting the panel. */
    method Setup(channel: ChannelId, message: MessageId)
      requires Valid()
      modifies this
      ensures Valid()
      ensures State() == SetupPointer(old(State()), channel, message)
    {
      setups := setups[channel := message];
    }

    /** `on_message`. */
    method OnMessage(channel: ChannelId, author: UserId, name: string, isBot: bool, now: Timestamp)
      requires Valid()
      modifies this
      ensures Valid()
      ensures State() == Tables.OnMessage(old(State()), channel, author, name, isBot, now)
    {
      if isBot {
        return;
      }
      if channel in tickets {
        TrackUser(author, name, now);
        tickets := tickets[channel := tickets[channel].(lastActivity := now)];
      }
    }

    // -------------------------------------------------------------- create

    /** The `fetchrow` of `create_ticket`: some open ticket of the user, if any. */
    method FindOpenTicket(user: UserId) returns (found: Option<ChannelId>)
      ensures OpenTicketLookup(State(), user, found)
    {
      if c :| c in tickets && OpenTicketOf(State(), user, c) {
        found := Some(c);
      } else {
        found := None;
      }
    }

    /**
     * `create_ticket`. Returns the handler's outcome and the open ticket the
     * lookup happened to return.
     */
    method CreateTicket(
      user: UserId, name: string, ticketType: string, live: set<ChannelId>,
      draws: seq<nat>, created: Option<ChannelId>, now: Timestamp)
      returns (outcome: Outcome, found: Option<ChannelId>)
      requires Valid() && TicketIds.ValidDraws(draws)
      modifies this
      ensures Valid()
      ensures OpenTicketLookup(old(State()), user, found)
      ensures Step(State(), outcome) == Tables.CreateTicket(old(State()), user, name, ticketType, found, live, draws, created, now)
    {
      ghost var db0 := State();
      TrackUser(user, name, now);
      found := FindOpenTicket(user);
      Lifecycle.CreatePreservesValid(db0, user, name, ticketType, found, live, draws, created, now);
      if found.Some? && found.value in live {
        outcome := DuplicateOpenTicket(found.value);
        return;
      }
      var ticketId := TicketIds.Generate(draws);
      if ticketType !in Categories {
        outcome := UnknownCategory;
        return;
      }
      if created.None? {
        outcome := ChannelNotCreated;
        return;
      }
      var channel := created.value;
      if channel in tickets || ticketId in TicketIdsOf(State()) {
        outcome := InsertRejected;
        return;
      }
      tickets := tickets[channel := NewTicket(ticketId, user, ticketType, now)];
      LogTicketStat(DayOf(now), "opened");
      outcome := Done;
    }

    // -------------------------------------------------------------- claim

    /** `handle_claim_ticket`. */
    method HandleClaimTicket(channel: ChannelId, caller: UserId, name: string, callerIsStaff: bool, now: Timestamp)
      returns (outcome: Outcome)
      requires Valid()
      modifies this
      ensures Valid()
      ensures Step(State(), outcome) == ClaimTicket(old(State()), channel, caller, name, callerIsStaff, now)
    {
      ghost var db0 := State();
      Lifecycle.ClaimPreservesValid(db0, channel, caller, name, callerIsStaff, now);
      TrackUser(caller, name, now);
      if !callerIsStaff {
        return NoPermission;
      }
      if !(channel in tickets && !tickets[channel].closed) {
        return NotOpenTicket;
      }
      var claimant := tickets[channel].claimedBy;
      if IsClaimed(tickets[channel]) {
        if claimant.value == caller {
          return AlreadyClaimedBySelf;
        }
        return AlreadyClaimedByOther(claimant.value);
      }
      tickets := tickets[channel := tickets[channel].(claimedBy := Some(caller))];
      LogTicketStat(DayOf(now), "claimed");
      outcome := Done;
    }

    // -------------------------------------------------------------- close

    /** The transcript upsert of `create_transcript`, made only when the upload returned a URL. */
    method RecordTranscript(channel: ChannelId, paste: Option<string>, closer: UserId, now: Timestamp)
      modifies this
      ensures State() == Tables.RecordTranscript(old(State()), channel, paste, closer, now)
    {
      if Uploaded(paste) {
        transcripts := transcripts[channel := TranscriptRow(paste.value, now, closer)];
      }
    }

    /**
     * The database writes both close paths share, for an open ticket: the
     * transcript, `closed`, the deletion schedule and the closed counter.
     */
    method ArchiveTicket(channel: ChannelId, paste: Option<string>, closer: UserId, now: Timestamp)
      requires channel in tickets
      modifies this
      ensures State() == CloseEffects(old(State()), channel, paste, closer, now)
    {
      var t := tickets[channel];
      RecordTranscript(channel, paste, closer, now);
      tickets := tickets[channel := t.(closed := true)];
      archived := archived[channel := ArchiveRowFor(t, now)];
      LogTicketStat(DayOf(now), "closed");
    }

    /**
     * `handle_close_ticket`, ending with `restore_ticket_creation_view`;
     * `reattached` is the set of setup channels whose panel got its view back.
     */
    method HandleCloseTicket(
      channel: ChannelId, closer: UserId, closerIsStaff: bool, paste: Option<string>,
      now: Timestamp, live: set<ChannelId>, probe: ChannelId -> Fetch)
      returns (outcome: Outcome, reattached: set<ChannelId>)
      requires Valid()
      modifies this
      ensures Valid()
      ensures Step(State(), outcome) == CloseTicket(old(State()), channel, closer, closerIsStaff, paste, now, live, probe)
      ensures reattached == if outcome == Done then CreationViewsToRestore(old(setups), live, probe) else {}
    {
      ghost var db0 := State();
      Lifecycle.ClosePreservesValid(db0, channel, closer, closerIsStaff, paste, now, live, probe);
      reattached := {};
      if !(channel in tickets && !tickets[channel].closed) {
        return NotOpenTicket, {};
      }
      if !(closerIsStaff || closer == tickets[channel].owner) {
        return NoPermission, {};
      }
      // The archive INSERT has no ON CONFLICT clause; a valid state has no row for an open ticket.
      assert channel !in archived;
      ArchiveTicket(channel, paste, closer, now);
      reattached := RestoreTicketCreationView(live, probe);
      outcome := Done;
    }

    // -------------------------------------------------------------- participants

    /** `add_user_to_ticket`. */
    method AddUserToTicket(channel: ChannelId, user: UserId) returns (outcome: Outcome)
      requires Valid()
      modifies this
      ensures Valid()
      ensures Step(State(), outcome) == AddUser(old(State()), channel, user)
    {
      Lifecycle.AddUserPreservesValid(State(), channel, user);
      if !(channel in tickets && !tickets[channel].closed) {
        return NotOpenTicket;
      }
      var t := tickets[channel];
      if user == t.owner || user in t.additionalUsers {
        return AlreadyHasAccess;
      }
      tickets := tickets[channel := t.(additionalUsers := t.additionalUsers + [user])];
      outcome := Done;
    }

    /** `remove_user_from_ticket`. */
    method RemoveUserFromTicket(channel: ChannelId, user: UserId) returns (outcome: Outcome)
      requires Valid()
      modifies this
      ensures Valid()
      ensures Step(State(), outcome) == RemoveUser(old(State()), channel, user)
    {
      Lifecycle.RemoveUserPreservesValid(State(), channel, user);
      if !(channel in tickets && !tickets[channel].closed) {
        return NotOpenTicket;
      }
      var t := tickets[channel];
      if user == t.owner {
        return CannotRemoveOwner;
      }
      if user !in t.additionalUsers {
        return NotAParticipant;
      }
      tickets := tickets[channel := t.(additionalUsers := Without(t.additionalUsers, user))];
      outcome := Done;
    }

    /** `AddUserModal.on_submit`: resolve the typed reference among `members`, then add. */
    method AddUserFromModal(channel: ChannelId, input: string, members: set<UserId>) returns (outcome: Outcome)
      requires Valid()
      modifies this
      ensures Valid()
      ensures ResolveMember(input, members).None? ==> outcome == InvalidUser && State() == old(State())
      ensures ResolveMember(input, members).Some? ==>
        Step(State(), outcome) == AddUser(old(State()), channel, ResolveMember(input, members).value)
    {
      var member := ResolveMember(input, members);
      if member.None? {
        return InvalidUser;
      }
      outcome := AddUserToTicket(channel, member.value);
    }

    /**
     * `handle_remove_user_interaction`: `reply` is the user's next message in
     * the channel, None when none came within the time limit.
     */
    method RemoveUserFromPrompt(channel: ChannelId, reply: Option<string>, members: set<UserId>) returns (outcome: Outcome)
      requires Valid()
      modifies this
      ensures Valid()
      ensures reply.None? ==> outcome == TimedOut && State() == old(State())
      ensures reply.Some? && ResolveMember(reply.value, members).None? ==> outcome == InvalidUser && State() == old(State())
      ensures reply.Some? && ResolveMember(reply.value, members).Some? ==>
        Step(State(), outcome) == RemoveUser(old(State()), channel, ResolveMember(reply.value, members).value)
    {
      if reply.None? {
        return TimedOut;
      }
      var member := ResolveMember(reply.value, members);
      if member.None? {
        return InvalidUser;
      }
      outcome := RemoveUserFromTicket(channel, member.value);
    }

    // -------------------------------------------------------------- setup pointers

    /**
     * `restore_ticket_views`, run at start-up: over the pointers read at its
     * start, re-attach the creation view to every message found in an
     * existing channel and delete the pointers whose message is gone.
     */
    method RestoreTicketViews(live: set<ChannelId>, probe: ChannelId -> Fetch) returns (reattached: set<ChannelId>)
      requires Valid()
      modifies this
      ensures Valid()
      ensures State() == old(State()).(setups := PrunedSetups(old(setups), live, probe))
      ensures reattached == ViewsToRestore(old(setups), live, probe)
    {
      var fetched := setups;
      var pending := fetched.Keys;
      reattached := {};
      while pending != {}
        invariant pending <= fetched.Keys && fetched == old(setups)
        invariant State() == old(State()).(setups := setups)
        invariant forall c :: c in setups <==> c in fetched && !(c !in pending && c in live && probe(c) == NotFound)
        invariant forall c :: c in setups ==> setups[c] == fetched[c]
        invariant forall c :: c in reattached <==> c in fetched && c !in pending && c in live && probe(c).Found?
        decreases pending
      {
        var c := PickPending(pending);
        if c in live {
          match probe(c)
          case Found(_) =>
            reattached := reattached + {c};
          case NotFound =>
            setups := setups - {c};
          case FetchFailed =>
        }
        pending := pending - {c};
      }
      Sweeps.PruneVisitedAll(fetched, setups, live, probe);
      Sweeps.ValidWithSetups(old(State()), setups);
      Sweeps.ViewsVisitedAll(fetched, reattached, live, probe);
    }

    /**
     * `restore_ticket_creation_view`, run after a close: the same pruning,
     * re-attaching the view only to messages that lost their components.
     */
    method RestoreTicketCreationView(live: set<ChannelId>, probe: ChannelId -> Fetch) returns (reattached: set<ChannelId>)
      requires Valid()
      modifies this
      ensures Valid()
      ensures State() == old(State()).(setups := PrunedSetups(old(setups), live, probe))
      ensures reattached == CreationViewsToRestore(old(setups), live, probe)
    {
      var fetched := setups;
      var pending := fetched.Keys;
      reattached := {};
      while pending != {}
        invariant pending <= fetched.Keys && fetched == old(setups)
        invariant State() == old(State()).(setups := setups)
        invariant forall c :: c in setups <==> c in fetched && !(c !in pending && c in live && probe(c) == NotFound)
        invariant forall c :: c in setups ==> setups[c] == fetched[c]
        invariant forall c :: c in reattached <==> c in fetched && c !in pending && c in live && probe(c) == Found(false)
        decreases pending
      {
        var c := PickPending(pending);
        if c in live {
          match probe(c)
          case Found(hasComponents) =>
            if !hasComponents {
              reattached := reattached + {c};
            }
          case NotFound =>
            setups := setups - {c};
          case FetchFailed =>
        }
        pending := pending - {c};
      }
      Sweeps.PruneVisitedAll(fetched, setups, live, probe);
      Sweeps.ValidWithSetups(old(State()), setups);
      Sweeps.CreationViewsVisitedAll(fetched, reattached, live, probe);
    }

    // -------------------------------------------------------------- sweeps

    /**
     * One run of `auto_close_tickets`: over the inactive open tickets read at
     * its start, close each whose channel still exists, with the bot as
     * closer; `uploads` gives what each transcript upload returned.
     */
    method AutoCloseTickets(now: Timestamp, live: set<ChannelId>, uploads: ChannelId -> Option<string>, bot: UserId)
      requires Valid()
      modifies this
      ensures Valid()
      ensures State() == AutoClose(old(State()), now, live, uploads, bot)
    {
      var db0 := State();
      var inactive := set c | c in db0.tickets && Inactive(db0, c, now);
      var pending := inactive;
      ghost var closed: set<ChannelId> := {};
      Sweeps.NothingToClose(db0, uploads, bot, now);
      while pending != {}
        invariant pending <= inactive
        invariant closed <= inactive * live && closed !! pending
        invariant forall c :: c in closed <==> c in inactive && c in live && c !in pending
        invariant State() == CloseAll(db0, closed, uploads, bot, now)
        decreases pending
      {
        var c := PickPending(pending);
        if c in live {
          Sweeps.CloseAllKeepsRows(db0, closed, uploads, bot, now);
          Sweeps.CloseAllOneMore(db0, closed, c, uploads, bot, now);
          ArchiveTicket(c, uploads(c), bot, now);
          closed := closed + {c};
        }
        pending := pending - {c};
      }
      Sweeps.SweepVisitedAll(db0, closed, now, live);
      Sweeps.AutoClosePreservesValid(db0, now, live, uploads, bot);
    }

    /**
     * One run of `delete_archived_tickets`: over the due archive rows read at
     * its start, in the order returned, delete the archive row and then the
     * ticket rows with its ticket id. A DELETE that the transcripts foreign
     * key refuses ends the run; `stopped` names that row.
     */
    method DeleteArchivedTickets(now: Timestamp) returns (order: seq<ChannelId>, stopped: Option<ChannelId>)
      requires Valid()
      modifies this
      ensures Valid()
      ensures DueOrder(old(archived), order, now)
      ensures (State(), stopped) == DeleteArchived(old(State()), old(archived), order)
      ensures stopped.None? ==> forall c :: c in old(archived) && old(archived)[c].deleteAt <= now ==> c in order
      ensures stopped.Some? ==> |order| > 0 && stopped.value == order[|order| - 1]
    {
      ghost var db0 := State();
      var due := map c | c in archived && archived[c].deleteAt <= now :: archived[c];
      var pending := due.Keys;
      order := [];
      stopped := None;
      while pending != {} && stopped.None?
        invariant pending <= due.Keys
        invariant forall c :: c in due <==> c in pending || c in order
        invariant forall c :: c in pending ==> c !in order
        invariant DueOrder(db0.archived, order, now)
        invariant (State(), stopped) == DeleteArchived(db0, db0.archived, order)
        invariant stopped.Some? ==> |order| > 0 && stopped.value == order[|order| - 1]
        decreases pending
      {
        var c := PickPending(pending);
        ghost var prefix := order;
        Sweeps.DueOrderSnoc(db0.archived, order, c, now);
        order := order + [c];
        assert order[..|order| - 1] == prefix;
        Sweeps.DeleteArchivedLast(db0, db0.archived, order);
        var ok := DeleteDueRow(c, due[c].ticketId);
        if !ok {
          stopped := Some(c);
        }
        pending := pending - {c};
      }
      Sweeps.DeleteArchivedPreservesValid(db0, order, now);
    }

    /**
     * One pass of the sweep's loop body: delete the archive row, then try
     * the DELETE of the ticket rows with its ticket id, which fails when
     * one of them still has a transcript row.
     */
    method DeleteDueRow(channel: ChannelId, ticketId: string) returns (ok: bool)
      modifies this
      ensures (State(), ok) == DeleteOne(old(State()), channel, ticketId)
    {
      archived := archived - {channel};
      var doomed := set d | d in tickets && tickets[d].ticketId == ticketId;
      ok := doomed * transcripts.Keys == {};
      if ok {
        tickets := tickets - doomed;
      }
    }

    // -------------------------------------------------------------- migration

    /** `migrate_categories`: one UPDATE per entry of the mapping, in order. */
    method MigrateCategories()
      requires Valid()
      modifies this
      ensures Valid()
      ensures State() == old(State()).(tickets := RetypeAll(old(tickets), CategoryMapping))
      ensures tickets.Keys == old(tickets).Keys
      ensures forall c :: c in old(tickets) ==> tickets[c] == old(tickets)[c].(ticketType := MigratedType(old(tickets)[c].ticketType))
    {
      ghost var db0 := State();
      var i := 0;
      while i < |CategoryMapping|
        invariant 0 <= i <= |CategoryMapping|
        invariant State() == db0.(tickets := RetypeAll(db0.tickets, CategoryMapping[..i]))
      {
        var (from, to) := CategoryMapping[i];
        assert CategoryMapping[..i + 1][..i] == CategoryMapping[..i];
        tickets := Retype(tickets, from, to);
        i := i + 1;
      }
      assert CategoryMapping[..i] == CategoryMapping;
      Sweeps.MigrationEffect(db0.tickets);
      Sweeps.MigrationPreservesValid(db0);
    }
  }
}
