# Ticket bot: the table-level state machine

`bot.py` is a Discord support-ticket bot backed by PostgreSQL. Its handlers mix
chat-platform calls with SQL. Underneath them is a small state machine over six
keyed tables: `users`, `tickets`, `transcripts`, `ticket_stats`, `ticket_setups`
and `archived_tickets`. This project models that state machine and proves what
each handler does to the tables.

The model is layered like this:

- **`Tables`** holds the six tables as one `Db` value. It has one step
  function per handler. Each handler's report to the user becomes an
  `Outcome`: `Done`, or one named rejection.
- **`Lifecycle`** proves the effects of the user-triggered steps: create,
  claim, close, add or remove a participant, the activity bump, the stats
  counter and the setup pointer.
- **`Sweeps`** proves the effects of the two periodic sweeps, the setup
  pointer reconciliation and the category migration.
- **`Bot.TicketBot`** is a class. Its six map fields are the tables, and its
  methods update them statement by statement, as the handlers issue their
  SQL. Each method is proved to leave exactly the state the matching step
  function gives. The handler methods are also proved to keep the invariant
  `Valid`. The helper methods `LogTicketStat`, `RecordTranscript`,
  `ArchiveTicket` and `DeleteDueRow` are not; the handlers that call them
  are.
- **`Text`** models the string primitives: `strip`, `int()`, `str()`,
  `replace` and `join`. **`TicketIds`** models the ticket id generator.
  **`Transcript`** builds the transcript text.

What the bot asks of the outside world is passed in as a parameter:

- whether a channel exists: the set `live`;
- what fetching a setup message gives: `probe`, which answers NotFound,
  FetchFailed, or Found with or without components;
- what the transcript upload returned: `paste` or `uploads`;
- whether a member is staff;
- the current time `now`, in seconds;
- the random draws of the ticket id;
- the channel the platform created;
- the guild's members;
- the reply to the removal prompt.

`Valid` is the table invariant every reachable state keeps:

1. owners and claimants are known users;
2. ticket ids are well formed and unique;
3. every transcript belongs to a ticket;
4. an archive row exists only for a closed ticket and carries its ticket id;
5. a participant list omits the owner and has no repeats.

The model follows the code as written, which behaves as follows:

- `create_ticket` and `handle_claim_ticket` call `track_user` before any
  check. A rejected create or claim therefore still writes the caller's user
  row.
- The duplicate-ticket guard returns only when the found ticket's channel
  still exists. A user whose old channel is gone can open a second ticket
  (`Lifecycle.CreateAllowsSecondOpenTicket`).
- `transcripts.channel_id` references `tickets`. The deletion sweep's
  `DELETE FROM tickets` fails for a ticket that has a transcript row. That
  failure escapes the loop, so the sweep stops at that row. The archive row
  is already gone by then, but the ticket row stays
  (`Sweeps.DeleteArchivedStrandsTicketWithTranscript`).
- The activity bump of `on_message` also moves `last_activity` of closed
  tickets.
- The archive insert has no ON CONFLICT clause. `Tables.CloseTicket` models
  the failed insert as `ArchiveInsertRejected`. In a valid state that case
  cannot arise (`Lifecycle.CloseCompletesWhenValid`).

## Model

| member | source | states |
|---|---|---|
| Text.StripLeft | bot.py:111 | the result is a suffix of the input; every dropped character is in the strip set and the result does not start with one, so the longest such prefix went |
| Text.StripRight | bot.py:111 | the result is a prefix of the input; every dropped character is in the strip set and the result does not end with one |
| Text.StripPadded | bot.py:111 | stripping gives back exactly the core, whatever padding of stripped characters surrounds a core that starts and ends with a kept character |
| Text.ParseIntOfDigitGroup | bot.py:111 | `int()` of an unsigned digit group with no surrounding whitespace is the group's value |
| Text.ParseIntOfNegatedGroup | bot.py:111 | `int()` of `-` and a digit group, with no surrounding whitespace, is the group's value negated |
| Text.ParseIntOfIntToString | bot.py:111 | `int(str(n)) == n` for every integer, negative ones included |
| Text.ParseUserRefOfMention | bot.py:1017 | `<@n>`, `<@!n>` and a bare `n` all parse back to the user id `n` |
| Text.NatToStringValue | bot.py:229 | the printed digits of a natural number are a digit group whose value is that number |
| Text.ReplaceNewlines | bot.py:240 | the result has the same length, each newline becomes a space, every other character stays, and no newline remains |
| Text.Join | bot.py:245 | joining no parts gives the empty string, joining one part gives that part, and joining two puts the separator between them |
| Text.JoinAppend | bot.py:245 | appending a part to a non-empty list appends the separator and then that part to the join |
| Text.JoinAvoids | bot.py:245 | a character that is in no part and not in the separator is not in the join |
| TicketIds.Generate | bot.py:42-44 | every possible draw yields eight characters from A-Z and 0-9 |
| TicketIds.EveryTicketIdIsGenerated | bot.py:42-44 | every eight-character A-Z/0-9 string is the result of some draw, so `IsTicketId` is exactly the generator's range |
| Transcript.HeaderLines | bot.py:227-234 | the header block has eight entries: the title, then the ticket id, the creator (member name, else user id), the type, the creation time, the closing time and the closer, each after its label, then the messages separator |
| Transcript.FormatMessage | bot.py:237-247 | a message line is `[ts] author: ` followed by the content with newlines turned into spaces; exactly when the message has attachments, ` [Attachments: a, b]` with the file names joined by `, ` follows |
| Transcript.FormatMessageIsOneLine | bot.py:237-247 | a message line contains no newline when its timestamp, author and file names contain none |
| Transcript.BuildTranscript | bot.py:218-247 | the header lines come first, then exactly one formatted line per message of the history, in history order |
| Lifecycle.LogTicketStatCounts | bot.py:277-291 | the upsert adds one to exactly the counter the action names: opened, closed or claimed; another action only creates the day's row; no other day changes |
| Lifecycle.LogTicketStatCommutes | bot.py:277-291 | two logged events give the same counters in either order |
| Lifecycle.LogTicketStatTimesCounts | bot.py:277-291 | `k` events of one kind on one day raise that day's counter by `k`, and leave the other counters and days unchanged |
| Lifecycle.TrackUserUpserts | bot.py:266-275 | `track_user` leaves one row for the user, with the new name and last-seen time, and changes no other row or table |
| Lifecycle.SetupPointerUpserts | bot.py:496-502 | after `setup` the channel has exactly one pointer, to the newest message; no other pointer changes, and a second setup overrides the first |
| Lifecycle.OnMessageEffect | bot.py:958-981 | a human's message in a channel with a ticket row, open or closed, moves that row's last activity to now and tracks the author; a bot's message, or one in any other channel, changes nothing |
| Lifecycle.OnMessagePreservesValid | bot.py:958-981 | the activity bump keeps the invariant and keeps closed tickets closed |
| Lifecycle.TrackUserPreservesValid | bot.py:266-275 | the user upsert keeps the invariant |
| Lifecycle.SetupPointerPreservesValid | bot.py:496-502 | the pointer upsert keeps the invariant |
| Lifecycle.CreateStopsAtLiveOpenTicket | bot.py:530-542 | when the lookup found an open ticket whose channel still exists, the outcome is DuplicateOpenTicket and only the user row is written |
| Lifecycle.CreateBlockedWhenOpenTicketsLive | bot.py:530-542 | if every open ticket of the user still has its channel, creation is rejected whichever one the lookup returns, and no ticket row changes |
| Lifecycle.CreateEffect | bot.py:522-615 | creation succeeds exactly when no live open ticket was found, the type is configured, the channel was created, and neither the channel id nor the ticket id is taken; it then inserts one open, unclaimed ticket with a well-formed id and no participants, and today's opened counter rises by one; every other outcome writes only the user row |
| Lifecycle.CreateAllowsSecondOpenTicket | bot.py:535-542 | an open ticket whose channel is gone does not block a new one, and the user then owns two open tickets |
| Lifecycle.CreatePreservesValid | bot.py:522-615 | creation keeps the invariant and keeps closed tickets closed |
| Lifecycle.ClaimEffect | bot.py:841-874 | a non-staff caller, a channel without an open ticket, or a ticket already claimed (by the caller or by another, two distinct outcomes) writes only the caller's user row; otherwise only `claimed_by` of that ticket becomes the caller, and today's claimed counter rises by one |
| Lifecycle.ClaimIsSetOnce | bot.py:859-866 | after a successful claim the same staff member is told it is theirs, any other is told who holds it, and neither changes the ticket |
| Lifecycle.ClaimPreservesValid | bot.py:841-874 | claiming keeps the invariant and keeps closed tickets closed |
| Lifecycle.CloseEffect | bot.py:735-831 | closing needs an open ticket and a closer who is staff or the owner, and changes nothing otherwise; on success the ticket is closed with nothing else in it changed, a transcript row is written exactly when the upload gave a URL, the ticket is scheduled for deletion ten days on, today's closed counter rises by one, and the setup pointers are pruned |
| Lifecycle.CloseCompletesWhenValid | bot.py:816-821 | in a valid state the archive insert never meets an existing row, so an allowed close always completes |
| Lifecycle.CloseIsOneWay | bot.py:741-750 | on a closed ticket, a second close, a claim, and a participant change all find no open ticket and change nothing but the claimer's user row |
| Lifecycle.ClosePreservesValid | bot.py:735-831 | closing keeps the invariant and keeps closed tickets closed |
| Lifecycle.AddUserEffect | bot.py:890-912 | adding is rejected with no change for a channel without an open ticket and for the owner or a current participant; it succeeds exactly for an open ticket and a user who is neither the owner nor a participant, and then the user is appended to the participants and nothing else changes |
| Lifecycle.RemoveUserEffect | bot.py:922-948 | removing is rejected with no change for a channel without an open ticket, then for the owner, then for a non-participant; it succeeds exactly for an open ticket and a participant who is not the owner, and then the user no longer appears among the participants, every other participant stays, and nothing else changes |
| Lifecycle.WithoutAppended | bot.py:944-948 | `array_remove` undoes `array_append` of a value not yet present |
| Lifecycle.AddThenRemoveRestores | bot.py:890-948 | adding a user and then removing them gives back the original state exactly |
| Lifecycle.WithoutKeepsNoDuplicates | bot.py:944-948 | removal keeps a participant list free of repeats |
| Lifecycle.AddUserPreservesValid | bot.py:890-912 | adding keeps the invariant |
| Lifecycle.RemoveUserPreservesValid | bot.py:922-948 | removing keeps the invariant |
| Tables.Without | bot.py:944-948 | `array_remove` drops every occurrence of the value and keeps every other element, and leaves a list without the value unchanged |
| Tables.Valid | bot.py:137-179 | the schema's keys, NOT NULL and UNIQUE columns and foreign keys, plus the invariants the handlers keep (ticket ids are well formed; an archive row belongs to a closed ticket with the same id; participants are distinct and exclude the owner); it holds after `Bot.TicketBot.constructor` and every `*PreservesValid` lemma keeps it |
| Tables.TrackUser | bot.py:266-275 | the `track_user` upsert; its effect is stated by `Lifecycle.TrackUserUpserts` |
| Tables.LogTicketStat | bot.py:277-291 | the `log_ticket_stat` upsert; `Lifecycle.LogTicketStatCounts`, `Lifecycle.LogTicketStatCommutes` and `Lifecycle.LogTicketStatTimesCounts` state what it counts |
| Tables.SetupPointer | bot.py:496-502 | the `ticket_setups` upsert of `setup`; stated by `Lifecycle.SetupPointerUpserts` |
| Tables.OnMessage | bot.py:958-981 | the activity bump and user tracking of `on_message`; stated by `Lifecycle.OnMessageEffect` |
| Tables.CreateTicket | bot.py:522-615 | `create_ticket`'s writes and answers; stated by `Lifecycle.CreateEffect`, `Lifecycle.CreateStopsAtLiveOpenTicket` and `Lifecycle.CreateBlockedWhenOpenTicketsLive` |
| Tables.ClaimTicket | bot.py:841-874 | `handle_claim_ticket`'s guards and writes; stated by `Lifecycle.ClaimEffect` and `Lifecycle.ClaimIsSetOnce` |
| Tables.RecordTranscript | bot.py:252-262 | the transcript upsert, made only when the upload gave a URL; stated by `Lifecycle.CloseSequenceWrites` and `Lifecycle.CloseEffect` |
| Tables.CloseTicket | bot.py:735-831 | `handle_close_ticket` followed by `restore_ticket_creation_view`; stated by `Lifecycle.CloseEffect` and `Lifecycle.CloseCompletesWhenValid` |
| Tables.AddUser | bot.py:890-912 | `add_user_to_ticket`'s guards and append; stated by `Lifecycle.AddUserEffect` |
| Tables.RemoveUser | bot.py:922-948 | `remove_user_from_ticket`'s guards and removal; stated by `Lifecycle.RemoveUserEffect` and `Lifecycle.AddThenRemoveRestores` |
| Tables.ResolveMember | bot.py:106-119 | the user lookup of the add-user modal and the remove prompt; the same lookup as in `handle_remove_user_interaction`; stated through `Bot.TicketBot.AddUserFromModal`, `Bot.TicketBot.RemoveUserFromPrompt` and `Text.ParseUserRefOfMention` |
| Tables.PrunedSetups | bot.py:509-520 | the pointers left after the NotFound DELETEs; stated by `Sweeps.PruneEffect` |
| Tables.ViewsToRestore | bot.py:509-514 | the panels `restore_ticket_views` re-attaches; stated by `Sweeps.PruneEffect` and `Bot.TicketBot.RestoreTicketViews` |
| Tables.CreationViewsToRestore | bot.py:721-727 | the component-less panels `restore_ticket_creation_view` re-attaches; stated by `Sweeps.PruneEffect` and `Bot.TicketBot.RestoreTicketCreationView` |
| Tables.CloseAll | bot.py:629-690 | the inactivity sweep's close sequence over a set of tickets; stated by `Sweeps.CloseAllOneMore` and `Sweeps.AutoCloseTickets` |
| Tables.AutoClose | bot.py:617-690 | `auto_close_tickets`; stated by `Sweeps.SweptExactly`, `Sweeps.AutoCloseTickets`, `Sweeps.AutoCloseArchived`, `Sweeps.AutoCloseTranscripts`, `Sweeps.AutoCloseStats` and `Sweeps.AutoCloseIdempotent` |
| Tables.DeleteOne | bot.py:712-714 | one row's two DELETEs, with the transcripts foreign key blocking the second; stated by `Sweeps.DeleteOneEffect` |
| Tables.DeleteArchived | bot.py:692-714 | `delete_archived_tickets` over the fetched rows; stated by `Sweeps.DeleteArchivedEffect` against `Sweeps.FirstBlocked`, and by `Sweeps.DeleteArchivedRerun` |
| Tables.RetypeAll | bot.py:1058-1063 | the sequence of `UPDATE tickets SET ticket_type` statements; stated by `Sweeps.RetypeAllRowwise` and `Sweeps.CategoryMappingIsLookup` |
| Tables.MigratedType | bot.py:1048-1054 | the lookup in `category_mapping`; stated by `Sweeps.MigratedTypeLands` and `Sweeps.CategoryMappingIsLookup` |
| Text.ParseInt | bot.py:111 | Python's `int()` in base 10, None for a ValueError; stated by `Text.ParseIntOfDigitGroup`, `Text.ParseIntOfNegatedGroup` and `Text.ParseIntOfIntToString` |
| Text.ParseUserRef | bot.py:111 | `int(s.strip("<@!>"))`; stated by `Text.ParseUserRefOfMention` |
| Sweeps.SweptExactly | bot.py:620-634 | the sweep closes exactly the open tickets whose last activity is more than three days before now and whose channel still exists |
| Sweeps.AutoCloseTickets | bot.py:676-681 | swept tickets are closed with nothing else in them changed; every other ticket row is unchanged |
| Sweeps.AutoCloseArchived | bot.py:683-688 | each swept ticket gets an archive row with its ticket id, due ten days on; existing archive rows stay |
| Sweeps.AutoCloseTranscripts | bot.py:634-636 | a swept ticket whose upload gave a URL gets a transcript row by the bot; no other transcript changes |
| Sweeps.AutoCloseStats | bot.py:690 | today's closed counter rises by the number of swept tickets; nothing else is counted |
| Sweeps.AutoCloseBoundary | bot.py:619-626 | exactly three days of silence is not yet inactive; three days and one second is |
| Sweeps.AutoClosePreservesValid | bot.py:617-690 | the sweep keeps the invariant and keeps closed tickets closed |
| Sweeps.CloseAllOneMore | bot.py:629-690 | closing one more ticket is the shared close sequence applied to the result so far, which is what each loop iteration does |
| Sweeps.AutoCloseIdempotent | bot.py:617-690 | a second run at the same moment finds nothing more to close and changes nothing |
| Sweeps.FirstBlocked | bot.py:701-714 | the row where a deletion sweep stops: no row before it has a transcript, and the row itself has one unless the order ran out |
| Sweeps.DeleteOneEffect | bot.py:713-714 | in a valid state one row's pass deletes its archive row; the ticket with that id is that channel's own row, and it goes too unless a transcript references it, in which case the DELETE fails |
| Sweeps.DeleteArchivedEffect | bot.py:692-714 | the rows before the first one whose ticket has a transcript lose their archive row and their ticket row; that row loses only its archive row and the sweep stops there; the rows after it are untouched |
| Sweeps.DeleteArchivedPreservesValid | bot.py:692-714 | the deletion sweep keeps the invariant wherever it stops |
| Sweeps.DeleteArchivedWithoutTranscripts | bot.py:692-714 | when no due ticket has a transcript, the sweep completes and removes exactly the listed rows from both tables |
| Sweeps.DeleteArchivedSparesRowsNotDue | bot.py:696-699 | an archive row that is not yet due keeps its row and its ticket; no row is added; only tickets and archive rows change |
| Sweeps.DeleteArchivedStrandsTicketWithTranscript | bot.py:713-714 | a due ticket with a transcript loses its archive row and keeps its ticket row, no archive row is left to schedule it again, and the sweep stops |
| Sweeps.DeleteArchivedRerun | bot.py:692-714 | given every due row, a run that does not stop leaves no archive row due; a run that stops at a row leaves exactly the rows after it due, in the same order, and that row's ticket stays with no archive row |
| Sweeps.DeleteArchivedNeverRevisits | bot.py:692-714 | a later run at any moment, over any order of the rows then due, never visits the stranded ticket and leaves its ticket row |
| Sweeps.PruneEffect | bot.py:509-520 | a pointer is deleted exactly when its channel exists and its message is not found; a pointer to a vanished channel, or whose fetch failed otherwise, is kept with the same message; pruning twice changes nothing more; the re-attached pointers are among those kept, and those re-attached after a close are among those re-attached at start-up |
| Sweeps.RetypeAllRowwise | bot.py:1058-1063 | the UPDATEs keep every row and change only `ticket_type`, each row by itself |
| Sweeps.CategoryMappingIsLookup | bot.py:1048-1063 | running the mapping's UPDATEs in order gives the same type as one lookup in the mapping: no type is renamed into one that a later UPDATE renames again |
| Sweeps.MigrationEffect | bot.py:1046-1063 | the migration moves each ticket to its looked-up type and changes nothing else |
| Sweeps.MigratedTypeLands | bot.py:1048-1054 | each mapped legacy type lands on a configured category, an unknown type stays as it was, and the lookup is idempotent |
| Sweeps.MigrationIdempotent | bot.py:1046-1063 | running the migration twice is the same as running it once |
| Sweeps.MigrationPreservesValid | bot.py:1046-1063 | the migration keeps the invariant |
| Bot.TicketBot.constructor | bot.py:130-184 | a new bot starts with six empty tables, which satisfy the invariant |
| Bot.TicketBot.TrackUser | bot.py:266-275 | the in-place upsert leaves the state `Tables.TrackUser` describes and keeps the invariant |
| Bot.TicketBot.LogTicketStat | bot.py:277-291 | inserting the day's row, or adding to it on conflict, changes only the stats table, as `Tables.LogTicketStat` describes |
| Bot.TicketBot.Setup | bot.py:496-502 | the pointer upsert changes only that channel's pointer and keeps the invariant |
| Bot.TicketBot.OnMessage | bot.py:958-981 | the handler leaves the state `Tables.OnMessage` describes and keeps the invariant |
| Bot.TicketBot.FindOpenTicket | bot.py:530-533 | the lookup returns nothing exactly when the user has no open ticket, otherwise one of the user's open tickets |
| Bot.TicketBot.CreateTicket | bot.py:522-615 | the handler reports the outcome and leaves the state `Tables.CreateTicket` gives for the ticket its lookup returned, and keeps the invariant |
| Bot.TicketBot.HandleClaimTicket | bot.py:841-874 | the handler's outcome and new state are those of `Tables.ClaimTicket`, and it keeps the invariant |
| Bot.TicketBot.RecordTranscript | bot.py:252-262 | the transcript upsert happens exactly when the upload gave a URL |
| Bot.TicketBot.ArchiveTicket | bot.py:676-690 | the transcript, the `closed` flag, the deletion schedule and the closed counter change exactly as the shared close sequence describes |
| Bot.TicketBot.HandleCloseTicket | bot.py:735-831 | the handler's outcome and new state are those of `Tables.CloseTicket`, it keeps the invariant, and, when the close completes, the panels re-attached are exactly the live ones whose message lost its components |
| Bot.TicketBot.AddUserToTicket | bot.py:890-912 | the handler's outcome and new state are those of `Tables.AddUser`, and it keeps the invariant |
| Bot.TicketBot.RemoveUserFromTicket | bot.py:922-948 | the handler's outcome and new state are those of `Tables.RemoveUser`, and it keeps the invariant |
| Bot.TicketBot.AddUserFromModal | bot.py:106-119 | input that does not parse, or that names no member of the guild, reports InvalidUser and changes nothing; otherwise the resolved member is added |
| Bot.TicketBot.RemoveUserFromPrompt | bot.py:1002-1027 | no reply in time reports TimedOut and changes nothing; a reply that names no member reports InvalidUser and changes nothing; otherwise the resolved member is removed |
| Bot.TicketBot.RestoreTicketViews | bot.py:504-520 | the loop over the fetched pointers prunes them to `PrunedSetups` and re-attaches the view to exactly the found messages in live channels, and nothing else changes |
| Bot.TicketBot.RestoreTicketCreationView | bot.py:716-733 | the same pruning, and re-attaching exactly to the found messages without components |
| Bot.TicketBot.AutoCloseTickets | bot.py:617-690 | the loop over the fetched inactive rows leaves the state `Tables.AutoClose` describes and keeps the invariant |
| Bot.TicketBot.DeleteArchivedTickets | bot.py:692-714 | the loop visits due rows only, each once; it leaves the state `Tables.DeleteArchived` gives for that order; when it stops early it names the last row visited, and otherwise it visited every due row; it keeps the invariant |
| Bot.TicketBot.DeleteDueRow | bot.py:713-714 | one pass deletes the archive row, then succeeds or fails on the ticket DELETE, as `Tables.DeleteOne` describes |
| Bot.TicketBot.MigrateCategories | bot.py:1056-1063 | the loop of UPDATEs keeps every row, moves each ticket to its looked-up type, and keeps the invariant |

## Left out

- Every chat-platform effect is left out. This covers channels, categories,
  permissions, embeds, direct messages, pins and control-message edits. Only
  what the handlers read back is modelled (channel exists, message found,
  components present, channel created), as parameters.
- The Pastebin upload is not modelled. Its result is a parameter, `paste` or
  `uploads`. The text given to it is `"\n".join` of the transcript lines,
  and that join is not built.
- `datetime.now()` and `random.choices` are parameters: `now`, in whole
  seconds, and the draws. `Tables.DayOf` divides by 86400, so the server's
  time zone is not modelled.
- One clock reading per handler call or sweep run. Every reading of the
  clock in one run is the same `now`, both Python's `datetime.now()` and
  the database's `NOW()` and `TIMESTAMP DEFAULT NOW()`. That covers the
  inactivity cutoff, each row's `delete_at`, the stats date of every
  `log_ticket_stat` call and the transcript's "Closed at" line. In the
  code, each reading is separate, and a sweep waits on one upload per
  ticket, so its clock moves on between tickets.
- Sweeps.AutoCloseStats: all the closes of one sweep are counted on
  `DayOf(now)`. A sweep that runs past midnight splits its closes over two
  days in the code. For the same reason, every archive row the sweep
  writes gets the same `delete_at` (Sweeps.AutoCloseArchived).
- Text.ParseInt: only ASCII whitespace and ASCII digits are modelled.
  Python's `int()` also accepts other Unicode whitespace and digits.
- Integer widths are not modelled. Ids are BIGINT, and the counters of
  `ticket_stats` are 32-bit INTEGER columns; their overflow is not modelled.
- Bot.TicketBot.CreateTicket: `created = None` stands for any failure
  between the id generation and the INSERT. Examples are category creation,
  channel creation and permission edits.
- Bot.TicketBot.HandleCloseTicket: a platform call that raises between the
  transcript upsert and the UPDATE is not modelled. The embed, the DM and
  the channel edit are examples; such a failure leaves a transcript row on
  a ticket that is still open. A second window is not modelled either:
  after the UPDATE, the archive INSERT and the stats upsert, the
  `channel.history` scan and `message.edit(view=None)` can raise. The
  handler catches that, so `restore_ticket_creation_view` does not run and
  the setup pointers stay as they were, neither pruned nor re-attached;
  the model always prunes them on a completed close. The close reason and
  the modal wait for staff are left out as well.
- Bot.TicketBot.AutoCloseTickets and Tables.CloseAll: both assume that no
  swept ticket already has an archive row. `Valid` guarantees this.
- Bot.TicketBot.AutoCloseTickets: an exception from a platform call that
  ends the whole run is not modelled.
- Bot.TicketBot.DeleteArchivedTickets: only this run is modelled. A failed
  DELETE ends the run; whether the periodic task is scheduled again is up
  to the task scheduler, which is not modelled. A failed `channel.delete()`
  is caught by the code, so it does not affect the tables.
- Lifecycle.ClaimEffect: for the AlreadyClaimedByOther answer, the code
  looks up the claimant with `guild.get_member`. When the claimant has left
  the guild, that call returns None, and reading `.mention` on None raises
  AttributeError. The tables are unchanged either way; the model reports
  the claimant's id.
- Foreign keys are not modelled, except the transcripts one that blocks the
  ticket DELETE. The users foreign keys cannot fail, because `Valid` keeps
  owners and claimants in `users`.
- The remaining SQL engine behaviour is not modelled, and neither is
  concurrency between handlers, sweeps and the event loop.
- `is_staff` is a boolean parameter. The staff role list is not modelled.
- The `stats` and `userstats` commands are presentation with floating
  point, and are left out.
- `init_db` and `resetdb` are DDL and are left out, as are the connection
  pool and `on_ready`.
- Also left out: the `on_interaction` dispatch, the category renaming in
  `migrate_categories`, and the token prompt.
