/** frontend/src/lib/review-outbox.ts: the offline review queue and its operations. */
module ReviewOutbox {
  import opened Base

  type UserId = Option<int>

  datatype QueuedReview = QueuedReview(
    idempotencyKey: string, cardId: int, rating: int, reviewedAt: string,
    reviewDurationMs: Option<int>, userId: UserId)

  function Filter<T>(s: seq<T>, keep: T -> bool): seq<T> {
    if s == [] then []
    else
      var before := Filter(s[..|s| - 1], keep);
      if keep(s[|s| - 1]) then before + [s[|s| - 1]] else before
  }

  lemma {:induction false} FilterMembers<T>(s: seq<T>, keep: T -> bool)
    ensures |Filter(s, keep)| <= |s|
    ensures forall x :: x in Filter(s, keep) <==> x in s && keep(x)
    ensures |Filter(s, keep)| == |s| <==> Filter(s, keep) == s
  {
    if s != [] {
      var init, last := s[..|s| - 1], s[|s| - 1];
      FilterMembers(init, keep);
      assert s == init + [last];
    }
  }

  /** How the two storage accesses of one purge end. A failed read yields an empty queue, a failed write is dropped. */
  datatype Io = Io(readOk: bool, writeOk: bool)

  function Read(queue: seq<QueuedReview>, ok: bool): seq<QueuedReview> {
    if ok then queue else []
  }

  function Mine(queue: seq<QueuedReview>, active: UserId): seq<QueuedReview> {
    Filter(queue, (r: QueuedReview) => r.userId == active)
  }

  /** The stored queue after purgeForeignEntries. */
  function Purged(queue: seq<QueuedReview>, active: UserId, io: Io): seq<QueuedReview> {
    if io.readOk && io.writeOk then Mine(queue, active) else queue
  }

  /** The stored queue after enqueueReview; its last write has its own outcome. */
  function Enqueued(queue: seq<QueuedReview>, record: QueuedReview, io: Io, writeOk: bool): seq<QueuedReview> {
    if writeOk then Mine(Read(queue, io.readOk), record.userId) + [record] else Purged(queue, record.userId, io)
  }

  function SentKeys(batch: seq<QueuedReview>): set<string> {
    set r | r in batch :: r.idempotencyKey
  }

  function Kept(queue: seq<QueuedReview>, active: UserId, batch: seq<QueuedReview>): seq<QueuedReview> {
    Filter(queue, (r: QueuedReview) => r.userId != active || r.idempotencyKey !in SentKeys(batch))
  }

  /** The stored queue once a drain's reply has been handled. */
  function Drained(queue: seq<QueuedReview>, active: UserId, batch: seq<QueuedReview>, io: Io): seq<QueuedReview> {
    if io.writeOk then Kept(Read(queue, io.readOk), active, batch) else queue
  }

  datatype DrainStatus = Synced | Empty | Deferred

  datatype DrainOutcome = DrainOutcome(status: DrainStatus, synced: int, skipped: int, remaining: nat)

  datatype SyncResult = SyncResult(synced: int, skipped: int)

  class Outbox {
    /** The array under QUEUE_KEY, or the in-memory fallback. */
    var queue: seq<QueuedReview>

    constructor ()
      ensures queue == []
    {
      queue := [];
    }

    method ReadRaw(ok: bool) returns (q: seq<QueuedReview>)
      ensures q == Read(queue, ok)
    {
      q := if ok then queue else [];
    }

    method WriteRaw(q: seq<QueuedReview>, ok: bool)
      modifies this
      ensures queue == if ok then q else old(queue)
    {
      if ok { queue := q; }
    }

    method PurgeForeignEntries(active: UserId, io: Io) returns (mine: seq<QueuedReview>)
      modifies this
      ensures mine == Mine(Read(old(queue), io.readOk), active)
      ensures queue == Purged(old(queue), active, io)
    {
      var raw := ReadRaw(io.readOk);
      mine := Filter(raw, (r: QueuedReview) => r.userId == active);
      FilterMembers(raw, (r: QueuedReview) => r.userId == active);
      if |mine| != |raw| {
        WriteRaw(mine, io.writeOk);
      }
    }

    method EnqueueReview(active: UserId, key: string, now: string, cardId: int, rating: int, duration: Option<int>,
                         io: Io, writeOk: bool)
      returns (record: QueuedReview)
      modifies this
      ensures record == QueuedReview(key, cardId, rating, now, duration, active)
      ensures queue == Enqueued(old(queue), record, io, writeOk)
    {
      var mine := PurgeForeignEntries(active, io);
      record := QueuedReview(key, cardId, rating, now, duration, active);
      WriteRaw(mine + [record], writeOk);
    }

    method GetReviewOutbox(active: UserId, io: Io) returns (mine: seq<QueuedReview>)
      modifies this
      ensures mine == Mine(Read(old(queue), io.readOk), active)
      ensures queue == Purged(old(queue), active, io)
    {
      mine := PurgeForeignEntries(active, io);
    }

    method ClearReviewOutbox(ok: bool)
      modifies this
      ensures queue == if ok then [] else old(queue)
    {
      if ok { queue := []; }
    }

    /**
     * drainReviewOutbox. The transport answers with reply, or fails when it is
     * None; meanwhile maps the queue at the POST to the queue at the reply.
     */
    method DrainReviewOutbox(active: UserId, io: Io, reply: Option<SyncResult>,
                             meanwhile: seq<QueuedReview> -> seq<QueuedReview>, ioAfter: Io)
      returns (outcome: DrainOutcome, posted: Option<seq<QueuedReview>>)
      modifies this
      ensures var mine := Mine(Read(old(queue), io.readOk), active);
        var purged := Purged(old(queue), active, io);
        if mine == [] then
          outcome == DrainOutcome(Empty, 0, 0, 0) && posted == None && queue == purged
        else
          posted == Some(mine) &&
          if reply.None? then outcome == DrainOutcome(Deferred, 0, 0, |mine|) && queue == meanwhile(purged)
          else
            && queue == Drained(meanwhile(purged), active, mine, ioAfter)
            && outcome == DrainOutcome(Synced, reply.value.synced, reply.value.skipped,
                                       |Mine(Kept(Read(meanwhile(purged), ioAfter.readOk), active, mine), active)|)
    {
      var mine := PurgeForeignEntries(active, io);
      if |mine| == 0 {
        return DrainOutcome(Empty, 0, 0, 0), None;
      }
      posted := Some(mine);
      queue := meanwhile(queue);
      if reply.None? {
        return DrainOutcome(Deferred, 0, 0, |mine|), posted;
      }
      var sentKeys := set r | r in mine :: r.idempotencyKey;
      var after := ReadRaw(ioAfter.readOk);
      var kept := Filter(after, (r: QueuedReview) => r.userId != active || r.idempotencyKey !in SentKeys(mine));
      assert sentKeys == SentKeys(mine);
      WriteRaw(kept, ioAfter.writeOk);
      var remaining := |Filter(kept, (r: QueuedReview) => r.userId == active)|;
      outcome := DrainOutcome(Synced, reply.value.synced, reply.value.skipped, remaining);
    }
  }
}
