/**
 * The six tables of the ticket bot's database and the effect on them of
 * every handler, as pure step functions. Everything the bot asks of the
 * chat platform is a parameter: which channels exist, what fetching a setup
 * message gives, whether the transcript upload returned a URL, whether the
 * caller is staff, the current time and the random draws.
 */
module Tables {
  import opened Wrappers
  import TicketIds
  import Text

  type UserId = int
  type ChannelId = int
  type MessageId = int
  /** A wall-clock instant, in seconds. */
  type Timestamp = int
  /** A calendar date, as a day number. */
  type Day = int

  const SecondsPerDay: int := 86400
  /** Open tickets idle for this many days are closed by the inactivity sweep. */
  const InactiveCloseDays: int := 3
  /** Closed tickets are scheduled for deletion this many days after closing. */
  const ArchiveDeleteDays: int := 10

  /** `datetime.now().date()`. */
  function DayOf(t: Timestamp): Day {
    t / SecondsPerDay
  }

  /** The configured ticket types, the keys of TICKET_CATEGORIES. */
  const Categories: set<string> := {"reportPlayer", "reportBug", "buyBusiness", "buyEDM", "bookAuction", "other"}

  // ---------------------------------------------------------------- rows

  datatype UserRow = UserRow(displayName: string, lastSeen: Timestamp)

  datatype Ticket = Ticket(
    ticketId: string,
    owner: UserId,
    ticketType: string,
    claimedBy: Option<UserId>,
    closed: bool,
    createdAt: Timestamp,
    lastActivity: Timestamp,
    additionalUsers: seq<UserId>)

  datatype TranscriptRow = TranscriptRow(pasteUrl: string, closedAt: Timestamp, closedBy: UserId)

  /** A day's row of ticket_stats: the opened, closed and claimed counters. */
  datatype DayStats = DayStats(openCount: int, closeCount: int, claimCount: int)

  datatype ArchivedRow = ArchivedRow(ticketId: string, deleteAt: Timestamp)

  /** users, tickets, transcripts, ticket_stats, ticket_setups, archived_tickets. */
  datatype Db = Db(
    users: map<UserId, UserRow>,
    tickets: map<ChannelId, Ticket>,
    transcripts: map<ChannelId, TranscriptRow>,
    stats: map<Day, DayStats>,
    setups: map<ChannelId, MessageId>,
    archived: map<ChannelId, ArchivedRow>)

  const EmptyDb: Db := Db(map[], map[], map[], map[], map[], map[])

  /** What a handler reports back to the person who triggered it. */
  datatype Outcome =
    | Done
    | DuplicateOpenTicket(channel: ChannelId)
    | UnknownCategory
    | ChannelNotCreated
    | InsertRejected
    | NotOpenTicket
    | NoPermission
    | AlreadyClaimedBySelf
    | AlreadyClaimedByOther(claimant: UserId)
    | AlreadyHasAccess
    | CannotRemoveOwner
    | NotAParticipant
    | ArchiveInsertRejected
    | InvalidUser
    | TimedOut

  datatype Step = Step(db: Db, outcome: Outcome)

  // ---------------------------------------------------------------- queries

  /** `SELECT ... FROM tickets WHERE channel_id = c AND closed = FALSE` finds a row. */
  predicate IsOpen(db: Db, c: ChannelId) {
    c in db.tickets && !db.tickets[c].closed
  }

  predicate OpenTicketOf(db: Db, user: UserId, c: ChannelId) {
    IsOpen(db, c) && db.tickets[c].owner == user
  }

  /** Python truthiness of `claimed_by`: NULL and the id 0 both read as unclaimed. */
  predicate IsClaimed(t: Ticket) {
    t.claimedBy.Some? && t.claimedBy.value != 0
  }

  /** Python truthiness of the upload result: None and "" both mean no URL. */
  predicate Uploaded(paste: Option<string>) {
    paste.Some? && paste.value != ""
  }

  function TicketIdsOf(db: Db): set<string> {
    set c | c in db.tickets :: db.tickets[c].ticketId
  }

  /** The day's counters, zero when the day has no row. */
  function Counters(stats: map<Day, DayStats>, day: Day): DayStats {
    if day in stats then stats[day] else DayStats(0, 0, 0)
  }

  // ---------------------------------------------------------------- invariant

  predicate NoDuplicates(xs: seq<UserId>) {
    forall i, j :: 0 <= i < j < |xs| ==> xs[i] != xs[j]
  }

  predicate ParticipantsWellFormed(t: Ticket) {
    t.owner !in t.additionalUsers && NoDuplicates(t.additionalUsers)
  }

  /**
   * What every reachable state satisfies: owners and claimants are known
   * users (the foreign keys, kept because `track_user` runs first); ticket
   * ids are well formed and unique; each transcript belongs to a ticket; an
   * archive row exists only for a closed ticket and carries its ticket id;
   * the participant list omits the owner and has no repeats.
   */
  predicate Valid(db: Db) {
    && (forall c :: c in db.tickets ==> db.tickets[c].owner in db.users)
    && (forall c :: c in db.tickets && db.tickets[c].claimedBy.Some? ==> db.tickets[c].claimedBy.value in db.users)
    && (forall c :: c in db.tickets ==> TicketIds.IsTicketId(db.tickets[c].ticketId))
    && (forall c, d :: c in db.tickets && d in db.tickets && c != d ==> db.tickets[c].ticketId != db.tickets[d].ticketId)
    && db.transcripts.Keys <= db.tickets.Keys
    && (forall c :: c in db.archived ==>
          c in db.tickets && db.tickets[c].closed && db.tickets[c].ticketId == db.archived[c].ticketId)
    && (forall c :: c in db.tickets ==> ParticipantsWellFormed(db.tickets[c]))
  }

  // ---------------------------------------------------------------- bookkeeping

  /** `track_user`: upsert of the user's display name and last-seen time. */
  function TrackUser(db: Db, user: UserId, name: string, now: Timestamp): Db {
    db.(users := db.users[user := UserRow(name, now)])
  }

  /** The per-action increments `log_ticket_stat` inserts. */
  function StatDelta(action: string): DayStats {
    DayStats(
      if action == "opened" then 1 else 0,
      if action == "closed" then 1 else 0,
      if action == "claimed" then 1 else 0)
  }

  /** `log_ticket_stat`: the additive upsert of the day's counters. */
  function LogTicketStat(stats: map<Day, DayStats>, day: Day, action: string): map<Day, DayStats> {
    var base := Counters(stats, day);
    var delta := StatDelta(action);
    stats[day := DayStats(base.openCount + delta.openCount, base.closeCount + delta.closeCount, base.claimCount + delta.claimCount)]
  }

  /** `k` successive `log_ticket_stat(action)` calls on the same day. */
  function LogTicketStatTimes(stats: map<Day, DayStats>, day: Day, action: string, k: nat): map<Day, DayStats> {
    if k == 0 then stats else LogTicketStat(LogTicketStatTimes(stats, day, action, k - 1), day, action)
  }

  /** The upsert the `setup` command makes after posting its message. */
  function SetupPointer(db: Db, channel: ChannelId, message: MessageId): Db {
    db.(setups := db.setups[channel := message])
  }

  /**
   * `on_message`: a human's message in any channel that has a ticket row,
   * open or closed, tracks the author and moves `last_activity` to now.
   */
  function OnMessage(db: Db, channel: ChannelId, author: UserId, authorName: string, authorIsBot: bool, now: Timestamp): Db {
    if authorIsBot || channel !in db.tickets then db
    else
      var db1 := TrackUser(db, author, authorName, now);
      db1.(tickets := db1.tickets[channel := db1.tickets[channel].(lastActivity := now)])
  }

  // ---------------------------------------------------------------- create

  /**
   * What `fetchrow` can return for the open-ticket lookup of `create_ticket`:
   * nothing exactly when the user has no open ticket, otherwise one of them.
   */
  predicate OpenTicketLookup(db: Db, user: UserId, found: Option<ChannelId>) {
    match found
    case None => forall c :: c in db.tickets ==> !OpenTicketOf(db, user, c)
    case Some(c) => OpenTicketOf(db, user, c)
  }

  function NewTicket(ticketId: string, owner: UserId, ticketType: string, now: Timestamp): Ticket {
    Ticket(ticketId, owner, ticketType, None, false, now, now, [])
  }

  /**
   * `create_ticket`. `found` is the open ticket the lookup returned, `live`
   * the channels the guild still has, `draws` the random characters of the
   * ticket id and `created` the channel the platform created (None when
   * creating it failed). The guard returns only when the found ticket's
   * channel still exists.
   */
  function CreateTicket(
    db: Db, user: UserId, userName: string, ticketType: string,
    found: Option<ChannelId>, live: set<ChannelId>, draws: seq<nat>,
    created: Option<ChannelId>, now: Timestamp): Step
    requires OpenTicketLookup(db, user, found)
    requires TicketIds.ValidDraws(draws)
  {
    var db1 := TrackUser(db, user, userName, now);
    if found.Some? && found.value in live then Step(db1, DuplicateOpenTicket(found.value))
    else
      var ticketId := TicketIds.Generate(draws);
      if ticketType !in Categories then Step(db1, UnknownCategory)
      else if created.None? then Step(db1, ChannelNotCreated)
      else
        var c := created.value;
        if c in db1.tickets || ticketId in TicketIdsOf(db1) then Step(db1, InsertRejected)
        else
          var db2 := db1.(tickets := db1.tickets[c := NewTicket(ticketId, user, ticketType, now)]);
          Step(db2.(stats := LogTicketStat(db2.stats, DayOf(now), "opened")), Done)
  }

  // ---------------------------------------------------------------- claim

  /** `handle_claim_ticket`; the caller is tracked before any check. */
  function ClaimTicket(db: Db, channel: ChannelId, caller: UserId, callerName: string, callerIsStaff: bool, now: Timestamp): Step {
    var db1 := TrackUser(db, caller, callerName, now);
    if !callerIsStaff then Step(db1, NoPermission)
    else if !IsOpen(db1, channel) then Step(db1, NotOpenTicket)
    else
      var t := db1.tickets[channel];
      if IsClaimed(t) then
        if t.claimedBy.value == caller then Step(db1, AlreadyClaimedBySelf)
        else Step(db1, AlreadyClaimedByOther(t.claimedBy.value))
      else
        var db2 := db1.(tickets := db1.tickets[channel := t.(claimedBy := Some(caller))]);
        Step(db2.(stats := LogTicketStat(db2.stats, DayOf(now), "claimed")), Done)
  }

  // ---------------------------------------------------------------- close

  /** What fetching a setup message gives. */
  datatype Fetch = NotFound | FetchFailed | Found(hasComponents: bool)

  /**
   * The pointer pruning both view-restoring functions do: a pointer goes
   * exactly when its channel exists and its message is not found.
   */
  function PrunedSetups(setups: map<ChannelId, MessageId>, live: set<ChannelId>, probe: ChannelId -> Fetch): map<ChannelId, MessageId> {
    map c | c in setups && !(c in live && probe(c) == NotFound) :: setups[c]
  }

  /** The pointers `restore_ticket_views` re-attaches the creation view to. */
  function ViewsToRestore(setups: map<ChannelId, MessageId>, live: set<ChannelId>, probe: ChannelId -> Fetch): set<ChannelId> {
    set c | c in setups && c in live && probe(c).Found?
  }

  /** The pointers `restore_ticket_creation_view` re-attaches it to: those whose message lost its components. */
  function CreationViewsToRestore(setups: map<ChannelId, MessageId>, live: set<ChannelId>, probe: ChannelId -> Fetch): set<ChannelId> {
    set c | c in setups && c in live && probe(c) == Found(false)
  }

  /** The transcript upsert of `create_transcript`, made only when the upload gave a URL. */
  function RecordTranscript(db: Db, channel: ChannelId, paste: Option<string>, closer: UserId, now: Timestamp): Db {
    if Uploaded(paste) then db.(transcripts := db.transcripts[channel := TranscriptRow(paste.value, now, closer)])
    else db
  }

  function ArchiveRowFor(t: Ticket, now: Timestamp): ArchivedRow {
    ArchivedRow(t.ticketId, now + ArchiveDeleteDays * SecondsPerDay)
  }

  /**
   * The close sequence shared by `handle_close_ticket` and the inactivity
   * sweep, for an open ticket with no archive row: transcript, `closed`,
   * deletion schedule and the day's closed counter.
   */
  function CloseEffects(db: Db, channel: ChannelId, paste: Option<string>, closer: UserId, now: Timestamp): Db
    requires channel in db.tickets
  {
    var t := db.tickets[channel];
    var db1 := RecordTranscript(db, channel, paste, closer, now);
    var db2 := db1.(tickets := db1.tickets[channel := t.(closed := true)]);
    var db3 := db2.(archived := db2.archived[channel := ArchiveRowFor(t, now)]);
    db3.(stats := LogTicketStat(db3.stats, DayOf(now), "closed"))
  }

  /**
   * `handle_close_ticket`, then `restore_ticket_creation_view`. The insert
   * into archived_tickets has no ON CONFLICT clause: an existing row makes
   * it fail after the transcript and the `closed` flag were written.
   */
  function CloseTicket(
    db: Db, channel: ChannelId, closer: UserId, closerIsStaff: bool, paste: Option<string>,
    now: Timestamp, live: set<ChannelId>, probe: ChannelId -> Fetch): Step
  {
    if !IsOpen(db, channel) then Step(db, NotOpenTicket)
    else
      var t := db.tickets[channel];
      if !(closerIsStaff || closer == t.owner) then Step(db, NoPermission)
      else if channel in db.archived then
        var db1 := RecordTranscript(db, channel, paste, closer, now);
        Step(db1.(tickets := db1.tickets[channel := t.(closed := true)]), ArchiveInsertRejected)
      else
        var db4 := CloseEffects(db, channel, paste, closer, now);
        Step(db4.(setups := PrunedSetups(db4.setups, live, probe)), Done)
  }

  // ---------------------------------------------------------------- participants

  /** `array_remove`: every occurrence goes. */
  function Without(xs: seq<UserId>, x: UserId): (r: seq<UserId>)
    ensures x !in r
    ensures forall y :: y in r <==> y in xs && y != x
    ensures x !in xs ==> r == xs
  {
    if xs == [] then []
    else if xs[|xs| - 1] == x then Without(xs[..|xs| - 1], x)
    else Without(xs[..|xs| - 1], x) + [xs[|xs| - 1]]
  }

  /** `add_user_to_ticket`. */
  function AddUser(db: Db, channel: ChannelId, user: UserId): Step {
    if !IsOpen(db, channel) then Step(db, NotOpenTicket)
    else
      var t := db.tickets[channel];
      if user == t.owner || user in t.additionalUsers then Step(db, AlreadyHasAccess)
      else Step(db.(tickets := db.tickets[channel := t.(additionalUsers := t.additionalUsers + [user])]), Done)
  }

  /** `remove_user_from_ticket`. */
  function RemoveUser(db: Db, channel: ChannelId, user: UserId): Step {
    if !IsOpen(db, channel) then Step(db, NotOpenTicket)
    else
      var t := db.tickets[channel];
      if user == t.owner then Step(db, CannotRemoveOwner)
      else if user !in t.additionalUsers then Step(db, NotAParticipant)
      else Step(db.(tickets := db.tickets[channel := t.(additionalUsers := Without(t.additionalUsers, user))]), Done)
  }

  /**
   * The member a typed user reference names: `int(s.strip("<@!>"))`
   * followed by `guild.get_member`; None stands for the ValueError path.
   */
  function ResolveMember(input: string, members: set<UserId>): Option<UserId> {
    match Text.ParseUserRef(input)
    case None => None
    case Some(id) => if id in members then Some(id) else None
  }

  // ---------------------------------------------------------------- sweeps

  function InactivityCutoff(now: Timestamp): Timestamp {
    now - InactiveCloseDays * SecondsPerDay
  }

  /** The rows `auto_close_tickets` fetches. */
  predicate Inactive(db: Db, c: ChannelId, now: Timestamp) {
    IsOpen(db, c) && db.tickets[c].lastActivity < InactivityCutoff(now)
  }

  /**
   * The result of running the close sequence, with the bot as closer, on
   * every ticket of `closing` (a set of open tickets), in any order.
   */
  function CloseAll(db: Db, closing: set<ChannelId>, uploads: ChannelId -> Option<string>, bot: UserId, now: Timestamp): Db
    requires closing <= db.tickets.Keys
  {
    Db(
      db.users,
      map c | c in db.tickets :: if c in closing then db.tickets[c].(closed := true) else db.tickets[c],
      db.transcripts + map c | c in closing && Uploaded(uploads(c)) :: TranscriptRow(uploads(c).value, now, bot),
      LogTicketStatTimes(db.stats, DayOf(now), "closed", |closing|),
      db.setups,
      db.archived + map c | c in closing :: ArchiveRowFor(db.tickets[c], now))
  }

  /** The inactive tickets whose channel the guild still has. */
  function SweptByInactivity(db: Db, now: Timestamp, live: set<ChannelId>): set<ChannelId> {
    set c | c in db.tickets && Inactive(db, c, now) && c in live
  }

  /** `auto_close_tickets`, one run. */
  function AutoClose(db: Db, now: Timestamp, live: set<ChannelId>, uploads: ChannelId -> Option<string>, bot: UserId): Db {
    CloseAll(db, SweptByInactivity(db, now, live), uploads, bot, now)
  }

  /** The rows `delete_archived_tickets` fetches. */
  predicate DueForDeletion(db: Db, c: ChannelId, now: Timestamp) {
    c in db.archived && db.archived[c].deleteAt <= now
  }

  /** The ticket rows `DELETE FROM tickets WHERE ticket_id = id` addresses. */
  function WithTicketId(db: Db, ticketId: string): set<ChannelId> {
    set c | c in db.tickets && db.tickets[c].ticketId == ticketId
  }

  /**
   * One row of the deletion sweep: the archive row is deleted, then the
   * ticket rows with its ticket id. A transcript row still referencing one
   * of those tickets makes the second DELETE fail (the foreign key of
   * transcripts); the result's second part says whether it succeeded.
   */
  function DeleteOne(db: Db, channel: ChannelId, ticketId: string): (Db, bool) {
    var db1 := db.(archived := db.archived - {channel});
    var doomed := WithTicketId(db1, ticketId);
    if doomed * db1.transcripts.Keys != {} then (db1, false)
    else (db1.(tickets := db1.tickets - doomed), true)
  }

  /**
   * `delete_archived_tickets` over the fetched rows in `order`, each with
   * the ticket id fetched from `fetched`. A failed DELETE escapes the loop:
   * the sweep stops there and names that row.
   */
  function DeleteArchived(db: Db, fetched: map<ChannelId, ArchivedRow>, order: seq<ChannelId>): (Db, Option<ChannelId>)
    requires forall i :: 0 <= i < |order| ==> order[i] in fetched
  {
    if order == [] then (db, None)
    else
      var (db1, stopped) := DeleteArchived(db, fetched, order[..|order| - 1]);
      if stopped.Some? then (db1, stopped)
      else
        var c := order[|order| - 1];
        var (db2, ok) := DeleteOne(db1, c, fetched[c].ticketId);
        if ok then (db2, None) else (db2, Some(c))
  }

  /** `order` lists some of the due archive rows, each once. */
  predicate DueOrder(archived: map<ChannelId, ArchivedRow>, order: seq<ChannelId>, now: Timestamp) {
    && (forall i :: 0 <= i < |order| ==> order[i] in archived && archived[order[i]].deleteAt <= now)
    && (forall i, j :: 0 <= i < j < |order| ==> order[i] != order[j])
  }

  // ---------------------------------------------------------------- migration

  /** `category_mapping` of `migrate_categories`, in its iteration order. */
  const CategoryMapping: seq<(string, string)> :=
    [("general", "other"), ("technical", "reportBug"), ("billing", "other"), ("report", "reportPlayer"), ("other", "other")]

  /** One `UPDATE tickets SET ticket_type = new WHERE ticket_type = old`. */
  function Retype(tickets: map<ChannelId, Ticket>, from: string, to: string): map<ChannelId, Ticket> {
    map c | c in tickets :: if tickets[c].ticketType == from then tickets[c].(ticketType := to) else tickets[c]
  }

  /** The UPDATEs of `pairs`, in order. */
  function RetypeAll(tickets: map<ChannelId, Ticket>, pairs: seq<(string, string)>): map<ChannelId, Ticket> {
    if pairs == [] then tickets
    else
      var (from, to) := pairs[|pairs| - 1];
      Retype(RetypeAll(tickets, pairs[..|pairs| - 1]), from, to)
  }

  /** The reference reading of the mapping: one dictionary lookup per type. */
  function MigratedType(t: string): string {
    var m := map["general" := "other", "technical" := "reportBug", "billing" := "other", "report" := "reportPlayer", "other" := "other"];
    if t in m then m[t] else t
  }
}
