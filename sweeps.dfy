/**
 * Properties of the periodic sweeps (inactivity close, archive deletion),
 * of the setup-pointer reconciliation run at start-up and after a close,
 * and of the category migration.
 */
module Sweeps {
  import opened Wrappers
  import opened Tables
  import Lifecycle

  // ---------------------------------------------------------------- inactivity close

  /** The tickets one run of the inactivity sweep closes: open, silent for more than three days, channel still there. */
  lemma SweptExactly(db: Db, now: Timestamp, live: set<ChannelId>)
    ensures forall c :: c in SweptByInactivity(db, now, live) <==>
      c in db.tickets && !db.tickets[c].closed && db.tickets[c].lastActivity < now - 3 * 86400 && c in live
  {
  }

  /** The sweep closes the swept tickets and leaves every other row as it was. */
  lemma AutoCloseTickets(db: Db, now: Timestamp, live: set<ChannelId>, uploads: ChannelId -> Option<string>, bot: UserId)
    ensures var after := AutoClose(db, now, live, uploads, bot);
      var swept := SweptByInactivity(db, now, live);
      && after.tickets.Keys == db.tickets.Keys
      && (forall c :: c in swept ==> after.tickets[c] == db.tickets[c].(closed := true))
      && (forall c :: c in db.tickets && c !in swept ==> after.tickets[c] == db.tickets[c])
      && after.users == db.users && after.setups == db.setups
  {
  }

  /** Each swept ticket is scheduled for deletion ten days on; existing schedules stay. */
  lemma AutoCloseArchived(db: Db, now: Timestamp, live: set<ChannelId>, uploads: ChannelId -> Option<string>, bot: UserId)
    requires Valid(db)
    ensures var after := AutoClose(db, now, live, uploads, bot);
      var swept := SweptByInactivity(db, now, live);
      && after.archived.Keys == db.archived.Keys + swept
      && (forall c :: c in swept ==> after.archived[c] == ArchivedRow(db.tickets[c].ticketId, now + 10 * 86400))
      && (forall c :: c in db.archived ==> c !in swept && after.archived[c] == db.archived[c])
  {
    var after := AutoClose(db, now, live, uploads, bot);
    var swept := SweptByInactivity(db, now, live);
    var scheduled := map c | c in swept :: ArchiveRowFor(db.tickets[c], now);
    assert after.archived == db.archived + scheduled;
    forall c | c in db.archived ensures c !in swept {
      assert db.tickets[c].closed;
    }
    assert scheduled.Keys == swept;
  }

  /** A swept ticket whose upload gave a URL gets a transcript by the bot; no other transcript changes. */
  lemma AutoCloseTranscripts(db: Db, now: Timestamp, live: set<ChannelId>, uploads: ChannelId -> Option<string>, bot: UserId)
    ensures var after := AutoClose(db, now, live, uploads, bot);
      var swept := SweptByInactivity(db, now, live);
      && (forall c :: c in swept && Uploaded(uploads(c)) ==>
            c in after.transcripts && after.transcripts[c] == TranscriptRow(uploads(c).value, now, bot))
      && after.transcripts.Keys == db.transcripts.Keys + (set c | c in swept && Uploaded(uploads(c)))
      && (forall c :: c in db.transcripts && !(c in swept && Uploaded(uploads(c))) ==> after.transcripts[c] == db.transcripts[c])
  {
  }

  /** Today's closed counter rises by the number of tickets swept; nothing else is counted. */
  lemma AutoCloseStats(db: Db, now: Timestamp, live: set<ChannelId>, uploads: ChannelId -> Option<string>, bot: UserId)
    ensures var after := AutoClose(db, now, live, uploads, bot);
      var swept := SweptByInactivity(db, now, live);
      && Counters(after.stats, DayOf(now)) == DayStats(
           Counters(db.stats, DayOf(now)).openCount,
           Counters(db.stats, DayOf(now)).closeCount + |swept|,
           Counters(db.stats, DayOf(now)).claimCount)
      && (forall d :: d in db.stats && d != DayOf(now) ==> d in after.stats && after.stats[d] == db.stats[d])
  {
    Lifecycle.LogTicketStatTimesCounts(db.stats, DayOf(now), "closed", |SweptByInactivity(db, now, live)|);
  }

  /** The boundary of the sweep: exactly three days of silence is not yet inactive. */
  lemma AutoCloseBoundary(db: Db, c: ChannelId, now: Timestamp, live: set<ChannelId>)
    requires IsOpen(db, c) && c in live
    ensures db.tickets[c].lastActivity == now - 3 * 86400 ==> c !in SweptByInactivity(db, now, live)
    ensures db.tickets[c].lastActivity == now - 3 * 86400 - 1 ==> c in SweptByInactivity(db, now, live)
  {
  }

  /** The fields the invariant speaks of, other than `closed`. */
  predicate SameIdentity(t: Ticket, u: Ticket) {
    u.ticketId == t.ticketId && u.owner == t.owner && u.claimedBy == t.claimedBy && u.additionalUsers == t.additionalUsers
  }

  /** The invariant survives changes that keep every row's identity and keep transcripts and archive rows consistent. */
  lemma ValidAfterSameIdentities(db: Db, after: Db)
    requires Valid(db)
    requires after.users == db.users && after.tickets.Keys == db.tickets.Keys
    requires forall c :: c in db.tickets ==> SameIdentity(db.tickets[c], after.tickets[c])
    requires after.transcripts.Keys <= after.tickets.Keys
    requires forall c :: c in after.archived ==>
      c in after.tickets && after.tickets[c].closed && after.tickets[c].ticketId == after.archived[c].ticketId
    ensures Valid(after)
  {
    forall c, d | c in after.tickets && d in after.tickets && c != d
      ensures after.tickets[c].ticketId != after.tickets[d].ticketId
    {
      assert SameIdentity(db.tickets[c], after.tickets[c]) && SameIdentity(db.tickets[d], after.tickets[d]);
    }
    forall c | c in after.tickets ensures ParticipantsWellFormed(after.tickets[c]) {
      assert SameIdentity(db.tickets[c], after.tickets[c]);
      assert ParticipantsWellFormed(db.tickets[c]);
    }
  }

  lemma AutoCloseKeepsIdentities(db: Db, now: Timestamp, live: set<ChannelId>, uploads: ChannelId -> Option<string>, bot: UserId)
    ensures var after := AutoClose(db, now, live, uploads, bot);
      && after.users == db.users && after.tickets.Keys == db.tickets.Keys
      && (forall c :: c in db.tickets ==> SameIdentity(db.tickets[c], after.tickets[c]))
      && Lifecycle.ClosedKept(db, after)
  {
    AutoCloseTickets(db, now, live, uploads, bot);
  }

  lemma AutoCloseConsistent(db: Db, now: Timestamp, live: set<ChannelId>, uploads: ChannelId -> Option<string>, bot: UserId)
    requires Valid(db)
    ensures var after := AutoClose(db, now, live, uploads, bot);
      && after.transcripts.Keys <= after.tickets.Keys
      && forall c :: c in after.archived ==>
           c in after.tickets && after.tickets[c].closed && after.tickets[c].ticketId == after.archived[c].ticketId
  {
    var after := AutoClose(db, now, live, uploads, bot);
    var swept := SweptByInactivity(db, now, live);
    AutoCloseTickets(db, now, live, uploads, bot);
    AutoCloseArchived(db, now, live, uploads, bot);
    AutoCloseTranscripts(db, now, live, uploads, bot);
    forall c | c in after.archived
      ensures c in after.tickets && after.tickets[c].closed && after.tickets[c].ticketId == after.archived[c].ticketId
    {
      if c !in swept {
        assert c in db.archived;
      }
    }
  }

  lemma AutoClosePreservesValid(db: Db, now: Timestamp, live: set<ChannelId>, uploads: ChannelId -> Option<string>, bot: UserId)
    requires Valid(db)
    ensures Valid(AutoClose(db, now, live, uploads, bot))
    ensures Lifecycle.ClosedKept(db, AutoClose(db, now, live, uploads, bot))
  {
    AutoCloseKeepsIdentities(db, now, live, uploads, bot);
    AutoCloseConsistent(db, now, live, uploads, bot);
    ValidAfterSameIdentities(db, AutoClose(db, now, live, uploads, bot));
  }

  /** Closing one more ticket is the shared close sequence applied to the result so far. */
  lemma CloseAllOneMore(db: Db, done: set<ChannelId>, c: ChannelId, uploads: ChannelId -> Option<string>, bot: UserId, now: Timestamp)
    requires done <= db.tickets.Keys && c in db.tickets && c !in done
    ensures CloseAll(db, done + {c}, uploads, bot, now) == CloseEffects(CloseAll(db, done, uploads, bot, now), c, uploads(c), bot, now)
  {
    var before := CloseAll(db, done, uploads, bot, now);
    var after := CloseAll(db, done + {c}, uploads, bot, now);
    var stepped := CloseEffects(before, c, uploads(c), bot, now);
    assert before.tickets[c] == db.tickets[c];
    assert |done + {c}| == |done| + 1;
    OneMoreClosed(db.tickets, done, c);
    OneMoreTranscript(db.transcripts, done, c, uploads, bot, now);
    OneMoreScheduled(db.tickets, db.archived, done, c, now);
    assert after.stats == stepped.stats;
    assert after.tickets == stepped.tickets;
    assert after.transcripts == stepped.transcripts;
    assert after.archived == stepped.archived;
  }

  lemma OneMoreClosed(tickets: map<ChannelId, Ticket>, done: set<ChannelId>, c: ChannelId)
    requires c in tickets && c !in done
    ensures (map d | d in tickets :: if d in done + {c} then tickets[d].(closed := true) else tickets[d])
         == (map d | d in tickets :: if d in done then tickets[d].(closed := true) else tickets[d])[c := tickets[c].(closed := true)]
  {
  }

  lemma OneMoreTranscript(
    transcripts: map<ChannelId, TranscriptRow>, done: set<ChannelId>, c: ChannelId,
    uploads: ChannelId -> Option<string>, bot: UserId, now: Timestamp)
    requires c !in done
    ensures var before := transcripts + map d | d in done && Uploaded(uploads(d)) :: TranscriptRow(uploads(d).value, now, bot);
      var after := transcripts + map d | d in done + {c} && Uploaded(uploads(d)) :: TranscriptRow(uploads(d).value, now, bot);
      after == if Uploaded(uploads(c)) then before[c := TranscriptRow(uploads(c).value, now, bot)] else before
  {
  }

  lemma OneMoreScheduled(
    tickets: map<ChannelId, Ticket>, archived: map<ChannelId, ArchivedRow>, done: set<ChannelId>, c: ChannelId, now: Timestamp)
    requires done <= tickets.Keys && c in tickets && c !in done
    ensures (archived + map d | d in done + {c} :: ArchiveRowFor(tickets[d], now))
         == (archived + map d | d in done :: ArchiveRowFor(tickets[d], now))[c := ArchiveRowFor(tickets[c], now)]
  {
  }

  /** Closing keeps every ticket row. */
  lemma CloseAllKeepsRows(db: Db, closing: set<ChannelId>, uploads: ChannelId -> Option<string>, bot: UserId, now: Timestamp)
    requires closing <= db.tickets.Keys
    ensures CloseAll(db, closing, uploads, bot, now).tickets.Keys == db.tickets.Keys
  {
  }

  /** A sweep that visited every inactive row and closed exactly the live ones closed `SweptByInactivity`. */
  lemma SweepVisitedAll(db: Db, closed: set<ChannelId>, now: Timestamp, live: set<ChannelId>)
    requires forall c :: c in closed <==> c in db.tickets && Inactive(db, c, now) && c in live
    ensures closed == SweptByInactivity(db, now, live)
  {
    forall c ensures c in closed <==> c in SweptByInactivity(db, now, live) {}
  }

  lemma NothingToClose(db: Db, uploads: ChannelId -> Option<string>, bot: UserId, now: Timestamp)
    ensures CloseAll(db, {}, uploads, bot, now) == db
  {
    var after := CloseAll(db, {}, uploads, bot, now);
    assert after.tickets == db.tickets;
    assert after.transcripts == db.transcripts;
    assert after.archived == db.archived;
  }

  /** A second run at the same moment finds nothing more to close and changes nothing. */
  lemma AutoCloseIdempotent(db: Db, now: Timestamp, live: set<ChannelId>, uploads: ChannelId -> Option<string>, bot: UserId)
    requires Valid(db)
    ensures var once := AutoClose(db, now, live, uploads, bot);
      AutoClose(once, now, live, uploads, bot) == once
  {
    var once := AutoClose(db, now, live, uploads, bot);
    AutoCloseTickets(db, now, live, uploads, bot);
    var again := SweptByInactivity(once, now, live);
    assert again == {} by {
      forall c | c in again ensures false {
      }
    }
    NothingToClose(once, uploads, bot, now);
  }

  // ---------------------------------------------------------------- archive deletion

  /** The channels an order lists. */
  function Listed(order: seq<ChannelId>): set<ChannelId> {
    set c | c in order
  }

  /** Where a deletion sweep over `order` stops: the first row whose ticket still has a transcript, or the end. */
  function FirstBlocked(transcripts: map<ChannelId, TranscriptRow>, order: seq<ChannelId>): (k: nat)
    ensures k <= |order|
    ensures forall i :: 0 <= i < k ==> order[i] !in transcripts
    ensures k < |order| ==> order[k] in transcripts
  {
    if order == [] then 0
    else if order[0] in transcripts then 0
    else 1 + FirstBlocked(transcripts, order[1..])
  }

  /** A blocked row among the first ones is where the whole order blocks. */
  lemma FirstBlockedOfPrefix(transcripts: map<ChannelId, TranscriptRow>, order: seq<ChannelId>)
    requires |order| > 0
    requires FirstBlocked(transcripts, order[..|order| - 1]) < |order| - 1
    ensures FirstBlocked(transcripts, order) == FirstBlocked(transcripts, order[..|order| - 1])
  {
    var init := order[..|order| - 1];
    var k := FirstBlocked(transcripts, init);
    assert order[k] == init[k];
    forall i | 0 <= i < k ensures order[i] !in transcripts {
      assert order[i] == init[i];
    }
    FirstBlockedIs(transcripts, order, k);
  }

  lemma FirstBlockedIs(transcripts: map<ChannelId, TranscriptRow>, order: seq<ChannelId>, k: nat)
    requires k <= |order|
    requires forall i :: 0 <= i < k ==> order[i] !in transcripts
    requires k < |order| ==> order[k] in transcripts
    ensures FirstBlocked(transcripts, order) == k
  {
  }

  /**
   * One row of the deletion sweep in a valid state: its archive row goes;
   * the ticket with that id is its own channel's row, which goes too unless
   * a transcript still references it, in which case the DELETE fails.
   */
  lemma DeleteOneEffect(db: Db, c: ChannelId)
    requires Valid(db) && c in db.archived
    ensures DeleteOne(db, c, db.archived[c].ticketId) ==
      if c in db.transcripts then (db.(archived := db.archived - {c}), false)
      else (db.(archived := db.archived - {c}, tickets := db.tickets - {c}), true)
    ensures Valid(DeleteOne(db, c, db.archived[c].ticketId).0)
  {
    var db1 := db.(archived := db.archived - {c});
    var doomed := WithTicketId(db1, db.archived[c].ticketId);
    forall d | d in doomed ensures d == c {
    }
    assert c in doomed;
    assert doomed == {c};
    if c in db.transcripts {
      assert c in doomed * db1.transcripts.Keys;
    } else {
      assert doomed * db1.transcripts.Keys == {};
    }
    var after := DeleteOne(db, c, db.archived[c].ticketId).0;
    forall d | d in after.archived
      ensures d in after.tickets && after.tickets[d].closed && after.tickets[d].ticketId == after.archived[d].ticketId
    {
      assert d in db.archived && d != c;
    }
  }

  /** Dropping the ticket and archive rows of channels without transcripts keeps the state valid. */
  lemma ValidWithoutRows(db: Db, unscheduled: set<ChannelId>, gone: set<ChannelId>)
    requires Valid(db)
    requires gone <= unscheduled
    requires forall c :: c in gone ==> c !in db.transcripts
    ensures Valid(db.(archived := db.archived - unscheduled, tickets := db.tickets - gone))
  {
    var after := db.(archived := db.archived - unscheduled, tickets := db.tickets - gone);
    forall d | d in after.transcripts ensures d in after.tickets {
      assert d in db.tickets && d !in gone;
    }
    forall d | d in after.archived
      ensures d in after.tickets && after.tickets[d].closed && after.tickets[d].ticketId == after.archived[d].ticketId
    {
      assert d in db.archived;
    }
  }

  lemma ListedSnoc(order: seq<ChannelId>)
    requires |order| > 0
    ensures Listed(order) == Listed(order[..|order| - 1]) + {order[|order| - 1]}
  {
    var init := order[..|order| - 1];
    forall x | x in order ensures x in init || x == order[|order| - 1] {
      var i :| 0 <= i < |order| && order[i] == x;
      if i < |order| - 1 {
        assert init[i] == x;
      }
    }
  }

  lemma ListedAvoids(order: seq<ChannelId>, transcripts: map<ChannelId, TranscriptRow>)
    requires forall i :: 0 <= i < |order| ==> order[i] !in transcripts
    ensures forall x :: x in Listed(order) ==> x !in transcripts
  {
    forall x | x in Listed(order) ensures x !in transcripts {
      var i :| 0 <= i < |order| && order[i] == x;
    }
  }

  lemma LastNotListedBefore(order: seq<ChannelId>)
    requires |order| > 0
    requires forall i, j :: 0 <= i < j < |order| ==> order[i] != order[j]
    ensures order[|order| - 1] !in Listed(order[..|order| - 1])
  {
    var init := order[..|order| - 1];
    forall i | 0 <= i < |init| ensures init[i] != order[|order| - 1] {
      assert init[i] == order[i];
    }
  }

  lemma MinusTwice<V>(m: map<ChannelId, V>, gone: set<ChannelId>, c: ChannelId)
    ensures (m - gone) - {c} == m - (gone + {c})
  {
  }

  /** A due row not listed yet may be appended to a due order. */
  lemma DueOrderSnoc(archived: map<ChannelId, ArchivedRow>, order: seq<ChannelId>, c: ChannelId, now: Timestamp)
    requires DueOrder(archived, order, now)
    requires c in archived && archived[c].deleteAt <= now && c !in order
    ensures DueOrder(archived, order + [c], now)
  {
  }

  /** The last row of an order is handled once the rows before it are. */
  lemma DeleteArchivedLast(db: Db, fetched: map<ChannelId, ArchivedRow>, order: seq<ChannelId>)
    requires |order| > 0 && forall i :: 0 <= i < |order| ==> order[i] in fetched
    ensures var c := order[|order| - 1];
      var p := DeleteArchived(db, fetched, order[..|order| - 1]);
      var q := DeleteOne(p.0, c, fetched[c].ticketId);
      DeleteArchived(db, fetched, order) == if p.1.Some? then p else if q.1 then (q.0, None) else (q.0, Some(c))
  {
  }

  /** The last row of a sweep whose earlier rows all went through, reached in state `mid`. */
  lemma DeleteArchivedStep(db: Db, order: seq<ChannelId>, mid: Db)
    requires |order| > 0 && forall i :: 0 <= i < |order| ==> order[i] in db.archived
    requires DeleteArchived(db, db.archived, order[..|order| - 1]) == (mid, None)
    requires Valid(mid)
    requires order[|order| - 1] in mid.archived && mid.archived[order[|order| - 1]] == db.archived[order[|order| - 1]]
    ensures var c := order[|order| - 1];
      DeleteArchived(db, db.archived, order) ==
        if c in mid.transcripts then (mid.(archived := mid.archived - {c}), Some(c))
        else (mid.(archived := mid.archived - {c}, tickets := mid.tickets - {c}), None)
    ensures Valid(DeleteArchived(db, db.archived, order).0)
  {
    DeleteOneEffect(mid, order[|order| - 1]);
    DeleteArchivedLast(db, db.archived, order);
  }

  /** A sweep whose first rows all went through handles one more row. */
  lemma DeleteArchivedExtend(db: Db, order: seq<ChannelId>)
    requires Valid(db) && |order| > 0 && forall i :: 0 <= i < |order| ==> order[i] in db.archived
    requires order[|order| - 1] !in Listed(order[..|order| - 1])
    requires forall x :: x in Listed(order[..|order| - 1]) ==> x !in db.transcripts
    requires var init := order[..|order| - 1];
      DeleteArchived(db, db.archived, init) == (db.(archived := db.archived - Listed(init), tickets := db.tickets - Listed(init)), None)
    ensures var c := order[|order| - 1];
      var init := order[..|order| - 1];
      DeleteArchived(db, db.archived, order) ==
        if c in db.transcripts then (db.(archived := db.archived - (Listed(init) + {c}), tickets := db.tickets - Listed(init)), Some(c))
        else (db.(archived := db.archived - Listed(order), tickets := db.tickets - Listed(order)), None)
  {
    var n := |order|;
    var init := order[..n - 1];
    var c := order[n - 1];
    var mid := db.(archived := db.archived - Listed(init), tickets := db.tickets - Listed(init));
    ValidWithoutRows(db, Listed(init), Listed(init));
    assert c in mid.archived && mid.archived[c] == db.archived[c];
    DeleteArchivedStep(db, order, mid);
    ListedSnoc(order);
    MinusTwice(db.archived, Listed(init), c);
    MinusTwice(db.tickets, Listed(init), c);
  }

  /**
   * The claim of `DeleteArchivedEffect`: the rows before the first blocked
   * one are gone from both tables, the blocked one only from the archive.
   */
  predicate StopsAtFirstBlocked(db: Db, order: seq<ChannelId>)
    requires forall i :: 0 <= i < |order| ==> order[i] in db.archived
  {
    var k := FirstBlocked(db.transcripts, order);
    var done := Listed(order[..k]);
    DeleteArchived(db, db.archived, order) ==
      if k == |order| then (db.(archived := db.archived - done, tickets := db.tickets - done), None)
      else (db.(archived := db.archived - (done + {order[k]}), tickets := db.tickets - done), Some(order[k]))
  }

  lemma StopsAtFirstBlockedEarly(db: Db, order: seq<ChannelId>)
    requires |order| > 0 && forall i :: 0 <= i < |order| ==> order[i] in db.archived
    requires FirstBlocked(db.transcripts, order[..|order| - 1]) < |order| - 1
    requires StopsAtFirstBlocked(db, order[..|order| - 1])
    ensures StopsAtFirstBlocked(db, order)
  {
    var init := order[..|order| - 1];
    var k := FirstBlocked(db.transcripts, init);
    FirstBlockedOfPrefix(db.transcripts, order);
    DeleteArchivedLast(db, db.archived, order);
    assert init[..k] == order[..k];
    assert init[k] == order[k];
  }

  lemma StopsAtFirstBlockedLast(db: Db, order: seq<ChannelId>, now: Timestamp)
    requires Valid(db) && DueOrder(db.archived, order, now) && |order| > 0
    requires FirstBlocked(db.transcripts, order[..|order| - 1]) == |order| - 1
    requires StopsAtFirstBlocked(db, order[..|order| - 1])
    ensures StopsAtFirstBlocked(db, order)
  {
    var n := |order|;
    var init := order[..n - 1];
    assert init[..n - 1] == init;
    LastNotListedBefore(order);
    ListedAvoids(init, db.transcripts);
    DeleteArchivedExtend(db, order);
    if order[n - 1] in db.transcripts {
      LastBlocked(db, order);
    } else {
      LastClean(db, order);
    }
  }

  lemma LastBlocked(db: Db, order: seq<ChannelId>)
    requires |order| > 0 && forall i :: 0 <= i < |order| ==> order[i] in db.archived
    requires FirstBlocked(db.transcripts, order[..|order| - 1]) == |order| - 1
    requires order[|order| - 1] in db.transcripts
    requires var c := order[|order| - 1];
      var init := order[..|order| - 1];
      DeleteArchived(db, db.archived, order)
        == (db.(archived := db.archived - (Listed(init) + {c}), tickets := db.tickets - Listed(init)), Some(c))
    ensures StopsAtFirstBlocked(db, order)
  {
    FirstBlockedIs(db.transcripts, order, |order| - 1);
  }

  lemma LastClean(db: Db, order: seq<ChannelId>)
    requires |order| > 0 && forall i :: 0 <= i < |order| ==> order[i] in db.archived
    requires FirstBlocked(db.transcripts, order[..|order| - 1]) == |order| - 1
    requires order[|order| - 1] !in db.transcripts
    requires DeleteArchived(db, db.archived, order)
        == (db.(archived := db.archived - Listed(order), tickets := db.tickets - Listed(order)), None)
    ensures StopsAtFirstBlocked(db, order)
  {
    FirstBlockedIs(db.transcripts, order, |order|);
    assert order[..|order|] == order;
  }

  /**
   * One run of `delete_archived_tickets` over the rows fetched at its start,
   * in the order the query returned them: the rows before the first one
   * whose ticket has a transcript lose both their archive row and their
   * ticket row; at that row the archive row is gone but the ticket row
   * stays, and the sweep stops there; the rows after it stay as they
   * were.
   */
  lemma {:induction false} DeleteArchivedEffect(db: Db, order: seq<ChannelId>, now: Timestamp)
    requires Valid(db) && DueOrder(db.archived, order, now)
    ensures var k := FirstBlocked(db.transcripts, order);
      var done := Listed(order[..k]);
      DeleteArchived(db, db.archived, order) ==
        if k == |order| then (db.(archived := db.archived - done, tickets := db.tickets - done), None)
        else (db.(archived := db.archived - (done + {order[k]}), tickets := db.tickets - done), Some(order[k]))
  {
    if order == [] {
      assert Listed(order[..0]) == {};
      assert db.archived - {} == db.archived && db.tickets - {} == db.tickets;
    } else {
      var init := order[..|order| - 1];
      assert DueOrder(db.archived, init, now);
      DeleteArchivedEffect(db, init, now);
      assert StopsAtFirstBlocked(db, init);
      if FirstBlocked(db.transcripts, init) < |order| - 1 {
        StopsAtFirstBlockedEarly(db, order);
      } else {
        StopsAtFirstBlockedLast(db, order, now);
      }
      assert StopsAtFirstBlocked(db, order);
    }
  }

  /** The sweep keeps the state valid wherever it stops. */
  lemma DeleteArchivedPreservesValid(db: Db, order: seq<ChannelId>, now: Timestamp)
    requires Valid(db) && DueOrder(db.archived, order, now)
    ensures Valid(DeleteArchived(db, db.archived, order).0)
  {
    DeleteArchivedEffect(db, order, now);
    var k := FirstBlocked(db.transcripts, order);
    ListedAvoids(order[..k], db.transcripts);
    if k == |order| {
      ValidWithoutRows(db, Listed(order[..k]), Listed(order[..k]));
    } else {
      ValidWithoutRows(db, Listed(order[..k]) + {order[k]}, Listed(order[..k]));
    }
  }

  /** When no due ticket has a transcript, the sweep removes exactly the listed rows from both tables. */
  lemma DeleteArchivedWithoutTranscripts(db: Db, order: seq<ChannelId>, now: Timestamp)
    requires Valid(db) && DueOrder(db.archived, order, now)
    requires forall i :: 0 <= i < |order| ==> order[i] !in db.transcripts
    ensures DeleteArchived(db, db.archived, order)
         == (db.(archived := db.archived - Listed(order), tickets := db.tickets - Listed(order)), None)
  {
    DeleteArchivedEffect(db, order, now);
    FirstBlockedIs(db.transcripts, order, |order|);
    assert order[..|order|] == order;
  }

  /**
   * Whatever the order and wherever it stops, a row not yet due keeps its
   * archive row and its ticket, no row is added, and only tickets and
   * archive rows change.
   */
  lemma DeleteArchivedSparesRowsNotDue(db: Db, order: seq<ChannelId>, now: Timestamp)
    requires Valid(db) && DueOrder(db.archived, order, now)
    ensures var after := DeleteArchived(db, db.archived, order).0;
      && (forall c :: c in db.archived && db.archived[c].deleteAt > now ==>
            c in after.archived && after.archived[c] == db.archived[c] && c in after.tickets && after.tickets[c] == db.tickets[c])
      && after.archived.Keys <= db.archived.Keys
      && after.tickets.Keys <= db.tickets.Keys
      && (forall c :: c in after.tickets ==> after.tickets[c] == db.tickets[c])
      && after.(archived := db.archived, tickets := db.tickets) == db
  {
    DeleteArchivedEffect(db, order, now);
    var k := FirstBlocked(db.transcripts, order);
    var done := Listed(order[..k]);
    var dropped := if k == |order| then done else done + {order[k]};
    forall c | c in dropped ensures DueForDeletion(db, c, now) {
      if c in done {
        var i :| 0 <= i < k && order[..k][i] == c;
        assert order[i] == c;
      }
    }
    SparedOutsideDropped(db, dropped, done, now);
  }

  /** Dropping only due rows leaves every row that is not due as it was. */
  lemma SparedOutsideDropped(db: Db, dropped: set<ChannelId>, done: set<ChannelId>, now: Timestamp)
    requires done <= dropped
    requires forall c :: c in dropped ==> DueForDeletion(db, c, now)
    ensures var after := db.(archived := db.archived - dropped, tickets := db.tickets - done);
      && (forall c :: c in db.archived && db.archived[c].deleteAt > now ==>
            && c in after.archived && after.archived[c] == db.archived[c]
            && (c in db.tickets ==> c in after.tickets && after.tickets[c] == db.tickets[c]))
  {
  }

  /**
   * The foreign key as written: a due ticket whose close wrote a
   * transcript loses its archive row, keeps its ticket row forever after
   * (no archive row will schedule it again), and stops the sweep.
   */
  lemma DeleteArchivedStrandsTicketWithTranscript(db: Db, order: seq<ChannelId>, now: Timestamp)
    requires Valid(db) && DueOrder(db.archived, order, now)
    requires |order| > 0 && order[0] in db.transcripts
    ensures var (after, stopped) := DeleteArchived(db, db.archived, order);
      && stopped == Some(order[0])
      && order[0] in after.tickets && order[0] !in after.archived
      && (forall i :: 1 <= i < |order| ==> order[i] in after.archived)
  {
    DeleteArchivedEffect(db, order, now);
    FirstBlockedIs(db.transcripts, order, 0);
    assert Listed(order[..0]) == {};
  }

  /** The rows a complete fetch of due archive rows lists, at `now`. */
  predicate ListsEveryDueRow(db: Db, order: seq<ChannelId>, now: Timestamp) {
    forall c :: c in db.archived && db.archived[c].deleteAt <= now ==> c in order
  }

  /** In an order without repeats, a listed row is either among the first `k + 1` or after them, not both. */
  lemma SplitDistinct(order: seq<ChannelId>, k: nat, c: ChannelId)
    requires k < |order| && forall i, j :: 0 <= i < j < |order| ==> order[i] != order[j]
    ensures c in order[k + 1..] <==> c in order && c !in Listed(order[..k]) && c != order[k]
  {
    assert order == order[..k] + [order[k]] + order[k + 1..];
    if c in order[k + 1..] {
      var j :| 0 <= j < |order[k + 1..]| && order[k + 1..][j] == c;
      assert order[k + 1 + j] == c;
      forall i | 0 <= i < k ensures order[..k][i] != c {
        assert order[..k][i] == order[i];
      }
    }
  }

  /** A complete run that does not stop leaves no archive row due. */
  lemma RerunAfterCompleteRun(db: Db, order: seq<ChannelId>, now: Timestamp)
    requires ListsEveryDueRow(db, order, now)
    ensures forall c :: c in db.archived - Listed(order) ==> (db.archived - Listed(order))[c].deleteAt > now
  {
  }

  /** After a run that stops at `order[k]`, the rows still due are exactly those after it. */
  lemma RerunAfterStop(db: Db, order: seq<ChannelId>, now: Timestamp, k: nat)
    requires DueOrder(db.archived, order, now) && ListsEveryDueRow(db, order, now) && k < |order|
    ensures var left := db.archived - (Listed(order[..k]) + {order[k]});
      && (forall c :: c in left && left[c].deleteAt <= now <==> c in order[k + 1..])
      && DueOrder(left, order[k + 1..], now)
      && order[k] !in Listed(order[..k])
  {
    var left := db.archived - (Listed(order[..k]) + {order[k]});
    var rest := order[k + 1..];
    forall c ensures c in left && left[c].deleteAt <= now <==> c in rest {
      SplitDistinct(order, k, c);
    }
    forall i | 0 <= i < |rest| ensures rest[i] in left && left[rest[i]].deleteAt <= now {
      assert rest[i] in rest;
    }
    forall i, j | 0 <= i < j < |rest| ensures rest[i] != rest[j] {
      assert rest[i] == order[k + 1 + i] && rest[j] == order[k + 1 + j];
    }
    forall i | 0 <= i < k ensures order[..k][i] != order[k] {
      assert order[..k][i] == order[i];
    }
  }

  /**
   * Re-running the deletion sweep. When a complete run does not stop, no
   * archive row is due any more. When it stops at `order[k]`, the rows
   * still due are exactly the ones after it, in the same order, and the
   * stranded ticket row stays, with no archive row to schedule it again.
   */
  lemma DeleteArchivedRerun(db: Db, order: seq<ChannelId>, now: Timestamp)
    requires Valid(db) && DueOrder(db.archived, order, now) && ListsEveryDueRow(db, order, now)
    ensures var (after, stopped) := DeleteArchived(db, db.archived, order);
      var k := FirstBlocked(db.transcripts, order);
      && (stopped.None? ==> forall c :: c in after.archived ==> after.archived[c].deleteAt > now)
      && (stopped.Some? ==>
            && k < |order| && stopped == Some(order[k])
            && (forall c :: DueForDeletion(after, c, now) <==> c in order[k + 1..])
            && DueOrder(after.archived, order[k + 1..], now)
            && order[k] in after.tickets && order[k] !in after.archived)
  {
    DeleteArchivedEffect(db, order, now);
    var k := FirstBlocked(db.transcripts, order);
    if k == |order| {
      assert order[..k] == order;
      RerunAfterCompleteRun(db, order, now);
    } else {
      RerunAfterStop(db, order, now, k);
    }
  }

  /**
   * A later run of the sweep, at any moment and over any order of the
   * rows then due, never visits a ticket the first run stranded, and
   * leaves its ticket row in place.
   */
  lemma DeleteArchivedNeverRevisits(db: Db, order: seq<ChannelId>, now: Timestamp, next: seq<ChannelId>, later: Timestamp)
    requires Valid(db) && DueOrder(db.archived, order, now) && ListsEveryDueRow(db, order, now)
    requires DeleteArchived(db, db.archived, order).1.Some?
    requires DueOrder(DeleteArchived(db, db.archived, order).0.archived, next, later)
    ensures var after := DeleteArchived(db, db.archived, order).0;
      var stranded := DeleteArchived(db, db.archived, order).1.value;
      && stranded !in next
      && stranded in DeleteArchived(after, after.archived, next).0.tickets
  {
    DeleteArchivedRerun(db, order, now);
    DeleteArchivedPreservesValid(db, order, now);
    var after := DeleteArchived(db, db.archived, order).0;
    var stranded := DeleteArchived(db, db.archived, order).1.value;
    DeleteArchivedEffect(after, next, later);
    var k2 := FirstBlocked(after.transcripts, next);
    assert stranded !in Listed(next[..k2]);
  }

  // ---------------------------------------------------------------- setup pointers

  /**
   * Reconciliation deletes a pointer only when its channel exists and its
   * message is gone; a pointer to a vanished channel, or whose fetch failed
   * otherwise, stays. Running it again changes nothing, and the pointers
   * whose view is re-attached are among those kept.
   */
  lemma PruneEffect(setups: map<ChannelId, MessageId>, live: set<ChannelId>, probe: ChannelId -> Fetch)
    ensures var kept := PrunedSetups(setups, live, probe);
      && kept.Keys <= setups.Keys
      && (forall c :: c in setups && c !in live ==> c in kept)
      && (forall c :: c in setups && probe(c) != NotFound ==> c in kept)
      && (forall c :: c in setups && c in live && probe(c) == NotFound ==> c !in kept)
      && (forall c :: c in kept ==> kept[c] == setups[c])
      && PrunedSetups(kept, live, probe) == kept
      && CreationViewsToRestore(setups, live, probe) <= ViewsToRestore(setups, live, probe) <= kept.Keys
  {
  }

  /** A pruning pass that visited every pointer, dropping exactly the live channels whose message is gone, computed `PrunedSetups`. */
  lemma PruneVisitedAll(fetched: map<ChannelId, MessageId>, setups: map<ChannelId, MessageId>, live: set<ChannelId>, probe: ChannelId -> Fetch)
    requires forall c :: c in setups <==> c in fetched && !(c in live && probe(c) == NotFound)
    requires forall c :: c in setups ==> setups[c] == fetched[c]
    ensures setups == PrunedSetups(fetched, live, probe)
  {
    var pruned := PrunedSetups(fetched, live, probe);
    forall c ensures c in setups <==> c in pruned {}
    assert setups.Keys == pruned.Keys;
    forall c | c in setups ensures setups[c] == pruned[c] {}
  }

  /** The re-attachments of a pass that visited every pointer are `ViewsToRestore`. */
  lemma ViewsVisitedAll(fetched: map<ChannelId, MessageId>, reattached: set<ChannelId>, live: set<ChannelId>, probe: ChannelId -> Fetch)
    requires forall c :: c in reattached <==> c in fetched && c in live && probe(c).Found?
    ensures reattached == ViewsToRestore(fetched, live, probe)
  {
    forall c ensures c in reattached <==> c in ViewsToRestore(fetched, live, probe) {}
  }

  /** The re-attachments of a post-close pass that visited every pointer are `CreationViewsToRestore`. */
  lemma CreationViewsVisitedAll(fetched: map<ChannelId, MessageId>, reattached: set<ChannelId>, live: set<ChannelId>, probe: ChannelId -> Fetch)
    requires forall c :: c in reattached <==> c in fetched && c in live && probe(c) == Found(false)
    ensures reattached == CreationViewsToRestore(fetched, live, probe)
  {
    forall c ensures c in reattached <==> c in CreationViewsToRestore(fetched, live, probe) {}
  }

  /** The setup pointers take no part in the database invariant. */
  lemma ValidWithSetups(db: Db, setups: map<ChannelId, MessageId>)
    requires Valid(db)
    ensures Valid(db.(setups := setups))
  {
  }

  // ---------------------------------------------------------------- migration

  /** A type after the UPDATEs of `pairs` have run in order. */
  function RetypedName(t: string, pairs: seq<(string, string)>): string {
    if pairs == [] then t
    else
      var before := RetypedName(t, pairs[..|pairs| - 1]);
      if before == pairs[|pairs| - 1].0 then pairs[|pairs| - 1].1 else before
  }

  /** The UPDATEs change only `ticket_type`, each row on its own. */
  lemma {:induction false} RetypeAllRowwise(tickets: map<ChannelId, Ticket>, pairs: seq<(string, string)>)
    ensures var after := RetypeAll(tickets, pairs);
      && after.Keys == tickets.Keys
      && forall c :: c in tickets ==> after[c] == tickets[c].(ticketType := RetypedName(tickets[c].ticketType, pairs))
  {
    if pairs != [] {
      RetypeAllRowwise(tickets, pairs[..|pairs| - 1]);
    }
  }

  /**
   * Running the mapping's UPDATEs in order is the same as looking each type
   * up in the mapping once: no type is renamed into one a later UPDATE
   * renames again.
   */
  lemma CategoryMappingIsLookup(t: string)
    ensures RetypedName(t, CategoryMapping) == MigratedType(t)
  {
    var m := CategoryMapping;
    var g := ("general", "other");
    var tb := ("technical", "reportBug");
    var b := ("billing", "other");
    var rp := ("report", "reportPlayer");
    assert m[..1] == [g] && m[..1][..0] == [];
    assert RetypedName(t, m[..1][..0]) == t;
    var r1 := RetypedName(t, m[..1]);
    assert r1 == if t == "general" then "other" else t;
    assert m[..2] == [g, tb] && m[..2][..1] == m[..1];
    var r2 := RetypedName(t, m[..2]);
    assert r2 == if r1 == "technical" then "reportBug" else r1;
    assert m[..3] == [g, tb, b] && m[..3][..2] == m[..2];
    var r3 := RetypedName(t, m[..3]);
    assert r3 == if r2 == "billing" then "other" else r2;
    assert m[..4] == [g, tb, b, rp] && m[..4][..3] == m[..3];
    var r4 := RetypedName(t, m[..4]);
    assert r4 == if r3 == "report" then "reportPlayer" else r3;
    assert m[..|m| - 1] == m[..4];
    assert RetypedName(t, m) == if r4 == "other" then "other" else r4;
  }

  /** The migration moves each ticket to its new type and nothing else. */
  lemma MigrationEffect(tickets: map<ChannelId, Ticket>)
    ensures var after := RetypeAll(tickets, CategoryMapping);
      && after.Keys == tickets.Keys
      && forall c :: c in tickets ==> after[c] == tickets[c].(ticketType := MigratedType(tickets[c].ticketType))
  {
    RetypeAllRowwise(tickets, CategoryMapping);
    forall c | c in tickets ensures RetypedName(tickets[c].ticketType, CategoryMapping) == MigratedType(tickets[c].ticketType) {
      CategoryMappingIsLookup(tickets[c].ticketType);
    }
  }

  /** Every new type is one `create_ticket` accepts, or a type the mapping does not know. */
  lemma MigratedTypeLands(t: string)
    ensures t in {"general", "technical", "billing", "report", "other"} ==> MigratedType(t) in Categories
    ensures t !in {"general", "technical", "billing", "report", "other"} ==> MigratedType(t) == t
    ensures MigratedType(MigratedType(t)) == MigratedType(t)
  {
  }

  /** Running the migration twice is the same as running it once. */
  lemma MigrationIdempotent(tickets: map<ChannelId, Ticket>)
    ensures RetypeAll(RetypeAll(tickets, CategoryMapping), CategoryMapping) == RetypeAll(tickets, CategoryMapping)
  {
    var once := RetypeAll(tickets, CategoryMapping);
    MigrationEffect(tickets);
    MigrationEffect(once);
    forall c | c in once ensures RetypeAll(once, CategoryMapping)[c] == once[c] {
      MigratedTypeLands(tickets[c].ticketType);
    }
  }

  lemma MigrationPreservesValid(db: Db)
    requires Valid(db)
    ensures Valid(db.(tickets := RetypeAll(db.tickets, CategoryMapping)))
  {
    var after := db.(tickets := RetypeAll(db.tickets, CategoryMapping));
    MigrationEffect(db.tickets);
    forall c, d | c in after.tickets && d in after.tickets && c != d
      ensures after.tickets[c].ticketId != after.tickets[d].ticketId
    {
      assert after.tickets[c].ticketId == db.tickets[c].ticketId;
      assert after.tickets[d].ticketId == db.tickets[d].ticketId;
    }
    forall c | c in after.tickets ensures ParticipantsWellFormed(after.tickets[c]) {
      assert after.tickets[c].additionalUsers == db.tickets[c].additionalUsers;
      assert ParticipantsWellFormed(db.tickets[c]);
    }
  }
}
