/**
 * Every run of the review outbox against a deduplicating server: enqueues,
 * overlapping drains, identity switches, lost replies and storage faults
 * interleaved around each in-flight POST. Each read-filter-write section is one step.
 */
module OutboxRuns {
  import opened Base
  import opened ReviewOutbox

  /** One POST: the identity captured when its drain began, and what it carried. */
  datatype Post = Post(active: UserId, batch: seq<QueuedReview>)

  /**
   * queue is the stored queue; log lists every record ever stored; posts lists
   * every POST sent; open holds the drains still waiting; accepted the POSTs the
   * server has taken; applied the keys it applied, in order.
   */
  datatype State = State(
    queue: seq<QueuedReview>, active: UserId,
    log: seq<QueuedReview>,
    posts: seq<Post>, open: set<nat>,
    accepted: set<nat>, applied: seq<string>)

  datatype Event =
    | SwitchUser(user: UserId)
    | Enqueue(record: QueuedReview, io: Io, writeOk: bool)
    | View(io: Io)
    | Clear(ok: bool)
    | Begin(io: Io)
    | Accept(post: nat)
    | Reply(post: nat, io: Io)
    | Fail(post: nat)

  /** A minted key is new to every stored record (UUIDs do not repeat), and the stamp is the active user. */
  ghost predicate Enabled(s: State, e: Event) {
    match e
    case Enqueue(record, _, _) =>
      record.userId == s.active && forall r :: r in s.log ==> r.idempotencyKey != record.idempotencyKey
    case Accept(post) => post < |s.posts|
    case Reply(post, _) => post in s.open && post in s.accepted
    case Fail(post) => post in s.open
    case _ => true
  }

  /** The server applies each key the first time it sees it. */
  function ApplyBatch(applied: seq<string>, batch: seq<QueuedReview>): seq<string> {
    if batch == [] then applied
    else
      var before := ApplyBatch(applied, batch[..|batch| - 1]);
      var key := batch[|batch| - 1].idempotencyKey;
      if key in before then before else before + [key]
  }

  function Next(s: State, e: Event): State
    requires e.Accept? ==> e.post < |s.posts|
    requires e.Reply? ==> e.post < |s.posts|
  {
    match e
    case SwitchUser(user) => s.(active := user)
    case Enqueue(record, io, writeOk) =>
      s.(queue := Enqueued(s.queue, record, io, writeOk), log := if writeOk then s.log + [record] else s.log)
    case View(io) => s.(queue := Purged(s.queue, s.active, io))
    case Clear(ok) => if ok then s.(queue := []) else s
    case Begin(io) =>
      var mine := Mine(Read(s.queue, io.readOk), s.active);
      var purged := s.(queue := Purged(s.queue, s.active, io));
      if mine == [] then purged
      else purged.(posts := s.posts + [Post(s.active, mine)], open := s.open + {|s.posts|})
    case Accept(post) => s.(accepted := s.accepted + {post}, applied := ApplyBatch(s.applied, s.posts[post].batch))
    case Reply(post, io) =>
      s.(queue := Drained(s.queue, s.posts[post].active, s.posts[post].batch, io), open := s.open - {post})
    case Fail(post) => s.(open := s.open - {post})
  }

  // ---- invariant -----------------------------------------------------------------------

  /** a keeps some of b's elements, in b's order. */
  predicate Subsequence<T(==)>(a: seq<T>, b: seq<T>)
    decreases |b|
  {
    if a == [] then true
    else if b == [] then false
    else if a[|a| - 1] == b[|b| - 1] then Subsequence(a[..|a| - 1], b[..|b| - 1])
    else Subsequence(a, b[..|b| - 1])
  }

  lemma {:induction false} SubsequenceWithin<T>(a: seq<T>, b: seq<T>)
    requires Subsequence(a, b)
    ensures forall x :: x in a ==> x in b
    ensures |a| <= |b|
    decreases |b|
  {
    if a != [] {
      var init := b[..|b| - 1];
      assert b == init + [b[|b| - 1]];
      if a[|a| - 1] == b[|b| - 1] {
        assert a == a[..|a| - 1] + [a[|a| - 1]];
        SubsequenceWithin(a[..|a| - 1], init);
      } else {
        SubsequenceWithin(a, init);
      }
    }
  }

  lemma {:induction false} SubsequenceInit<T>(a: seq<T>, b: seq<T>)
    requires a != [] && Subsequence(a, b)
    ensures Subsequence(a[..|a| - 1], b)
    decreases |b|
  {
    var init := a[..|a| - 1];
    if init != [] {
      if a[|a| - 1] == b[|b| - 1] {
        if init[|init| - 1] == b[|b| - 1] { SubsequenceInit(init, b[..|b| - 1]); }
      } else {
        SubsequenceInit(a, b[..|b| - 1]);
        if init[|init| - 1] == b[|b| - 1] { SubsequenceInit(init, b[..|b| - 1]); }
      }
    }
  }

  lemma {:induction false} SubsequenceGrows<T>(a: seq<T>, b: seq<T>, x: T)
    requires Subsequence(a, b)
    ensures Subsequence(a, b + [x]) && Subsequence(a + [x], b + [x])
  {
    assert (a + [x])[..|a|] == a && (b + [x])[..|b|] == b;
    if a != [] && a[|a| - 1] == x { SubsequenceInit(a, b); }
  }

  lemma {:induction false} FilterSubsequence<T>(a: seq<T>, b: seq<T>, keep: T -> bool)
    requires Subsequence(a, b)
    ensures Subsequence(Filter(a, keep), b)
    decreases |b|, |a|
  {
    if a != [] {
      var initA, initB, last := a[..|a| - 1], b[..|b| - 1], a[|a| - 1];
      if last == b[|b| - 1] {
        FilterSubsequence(initA, initB, keep);
        SubsequenceGrows(Filter(initA, keep), initB, last);
        assert b == initB + [last];
      } else {
        FilterSubsequence(a, initB, keep);
        SubsequenceGrows(Filter(a, keep), initB, b[|b| - 1]);
        assert b == initB + [b[|b| - 1]];
      }
    }
  }

  ghost predicate DistinctKeys(log: seq<QueuedReview>) {
    forall i, j :: 0 <= i < j < |log| ==> log[i].idempotencyKey != log[j].idempotencyKey
  }

  ghost predicate PostOk(s: State, p: Post) {
    && p.batch != []
    && (forall r :: r in p.batch ==> r in s.log && r.userId == p.active)
    && Subsequence(p.batch, s.log)
  }

  ghost predicate Inv(s: State) {
    && Subsequence(s.queue, s.log)
    && DistinctKeys(s.log)
    && (forall k :: 0 <= k < |s.posts| ==> PostOk(s, s.posts[k]))
    && (forall k :: k in s.open || k in s.accepted ==> k < |s.posts|)
    && (forall k, r :: k in s.accepted && r in s.posts[k].batch ==> r.idempotencyKey in s.applied)
    && (forall i, j :: 0 <= i < j < |s.applied| ==> s.applied[i] != s.applied[j])
    && (forall key :: key in s.applied ==> exists r :: r in s.log && r.idempotencyKey == key)
  }

  const Start := State([], None, [], [], {}, {}, [])

  lemma {:induction false} ApplyBatchFacts(applied: seq<string>, batch: seq<QueuedReview>)
    requires forall i, j :: 0 <= i < j < |applied| ==> applied[i] != applied[j]
    ensures var after := ApplyBatch(applied, batch);
      && applied <= after
      && (forall i, j :: 0 <= i < j < |after| ==> after[i] != after[j])
      && (forall key :: key in after <==> key in applied || exists r :: r in batch && r.idempotencyKey == key)
  {
    if batch != [] {
      var init, last := batch[..|batch| - 1], batch[|batch| - 1];
      ApplyBatchFacts(applied, init);
      assert batch == init + [last];
    }
  }

  lemma KeysName(log: seq<QueuedReview>, a: QueuedReview, b: QueuedReview)
    requires DistinctKeys(log) && a in log && b in log && a.idempotencyKey == b.idempotencyKey
    ensures a == b
  {
  }

  /** Whatever a step leaves in the queue is still in enqueue order. */
  lemma QueueStaysOrdered(s: State, e: Event)
    requires Inv(s) && Enabled(s, e)
    ensures Subsequence(Next(s, e).queue, Next(s, e).log)
  {
    match e {
      case Enqueue(record, io, writeOk) =>
        var raw := Read(s.queue, io.readOk);
        FilterSubsequence(raw, s.log, (r: QueuedReview) => r.userId == record.userId);
        FilterSubsequence(s.queue, s.log, (r: QueuedReview) => r.userId == record.userId);
        SubsequenceGrows(Mine(raw, record.userId), s.log, record);
      case View(io) => FilterSubsequence(s.queue, s.log, (r: QueuedReview) => r.userId == s.active);
      case Begin(io) => FilterSubsequence(s.queue, s.log, (r: QueuedReview) => r.userId == s.active);
      case Reply(post, io) =>
        var active, batch := s.posts[post].active, s.posts[post].batch;
        FilterSubsequence(Read(s.queue, io.readOk), s.log,
          (r: QueuedReview) => r.userId != active || r.idempotencyKey !in SentKeys(batch));
      case _ =>
    }
  }

  lemma PostsStayOk(s: State, e: Event)
    requires Inv(s) && Enabled(s, e)
    ensures var after := Next(s, e);
      && s.posts <= after.posts && s.log <= after.log && s.accepted <= after.accepted && DistinctKeys(after.log)
      && forall k :: 0 <= k < |after.posts| ==> PostOk(after, after.posts[k])
  {
    var after := Next(s, e);
    match e {
      case Enqueue(record, io, writeOk) =>
        if writeOk {
          forall k | 0 <= k < |s.posts| ensures PostOk(after, s.posts[k]) {
            SubsequenceGrows(s.posts[k].batch, s.log, record);
          }
        }
      case Begin(io) =>
        var raw := Read(s.queue, io.readOk);
        FilterSubsequence(raw, s.log, (r: QueuedReview) => r.userId == s.active);
        FilterMembers(raw, (r: QueuedReview) => r.userId == s.active);
        SubsequenceWithin(Mine(raw, s.active), s.log);
      case _ =>
    }
  }

  lemma StepKeepsInv(s: State, e: Event)
    requires Inv(s) && Enabled(s, e)
    ensures Inv(Next(s, e))
  {
    QueueStaysOrdered(s, e);
    PostsStayOk(s, e);
    if e.Accept? { ApplyBatchFacts(s.applied, s.posts[e.post].batch); }
  }

  ghost predicate StepAt(states: seq<State>, events: seq<Event>, i: nat)
    requires i < |events| && |states| == |events| + 1
  {
    && Enabled(states[i], events[i])
    && ((events[i].Accept? || events[i].Reply?) ==> events[i].post < |states[i].posts|)
    && states[i + 1] == Next(states[i], events[i])
  }

  ghost predicate Trace(states: seq<State>, events: seq<Event>) {
    && |states| == |events| + 1 && states[0] == Start
    && forall i :: 0 <= i < |events| ==> StepAt(states, events, i)
  }

  lemma {:induction false} TraceInv(states: seq<State>, events: seq<Event>, i: nat)
    requires Trace(states, events) && i < |states|
    ensures Inv(states[i])
    decreases i
  {
    if i > 0 {
      assert StepAt(states, events, i - 1);
      TraceInv(states, events, i - 1);
      StepKeepsInv(states[i - 1], events[i - 1]);
    }
  }

  // ---- no review is lost --------------------------------------------------------------------

  /** The step stores what is left after the purge: one of its writes works on what it has read. */
  predicate StoresPurged(e: Event) {
    match e
    case Enqueue(_, io, writeOk) => writeOk || (io.readOk && io.writeOk)
    case View(io) => io.readOk && io.writeOk
    case Begin(io) => io.readOk && io.writeOk
    case _ => false
  }

  /** The step stores what the purge leaves, under an identity other than the record's. */
  predicate PurgedUnderAnother(s: State, e: Event, r: QueuedReview) {
    StoresPurged(e) && s.active != r.userId
  }

  /** The reply to a POST that carried the record is handled, and what is left stored. */
  predicate TakenOut(s: State, e: Event, r: QueuedReview)
    requires e.Reply? ==> e.post < |s.posts|
  {
    e.Reply? && e.io.writeOk && r in s.posts[e.post].batch
  }

  /** A read that failed in front of a write that did not: the write replaces what the read could not see. */
  predicate OverwritesUnread(e: Event) {
    || (e.Enqueue? && !e.io.readOk && e.writeOk)
    || (e.Reply? && !e.io.readOk && e.io.writeOk)
  }

  /** The server has taken a POST carrying the record. */
  ghost predicate Delivered(s: State, r: QueuedReview) {
    exists k :: k in s.accepted && k < |s.posts| && r in s.posts[k].batch
  }

  /**
   * When a record leaves the queue, exactly: by one of four causes, each of which does
   * remove it. The last removes only what the server has taken.
   */
  lemma LeavesOnlyBy(s: State, e: Event, r: QueuedReview)
    requires Inv(s) && Enabled(s, e) && (e.Accept? || e.Reply? ==> e.post < |s.posts|)
    requires r in s.queue
    ensures r !in Next(s, e).queue <==>
      PurgedUnderAnother(s, e, r) || e == Clear(true) || OverwritesUnread(e) || TakenOut(s, e, r)
    ensures TakenOut(s, e, r) ==> Delivered(s, r)
  {
    SubsequenceWithin(s.queue, s.log);
    FilterMembers<QueuedReview>([], (x: QueuedReview) => true);
    match e {
      case Enqueue(record, io, writeOk) =>
        FilterMembers(s.queue, (x: QueuedReview) => x.userId == record.userId);
      case View(io) => FilterMembers(s.queue, (x: QueuedReview) => x.userId == s.active);
      case Begin(io) => FilterMembers(s.queue, (x: QueuedReview) => x.userId == s.active);
      case Reply(post, io) =>
        if io.readOk {
          var p := s.posts[post];
          FilterMembers(s.queue, (x: QueuedReview) => x.userId != p.active || x.idempotencyKey !in SentKeys(p.batch));
          if r.idempotencyKey in SentKeys(p.batch) {
            var sent :| sent in p.batch && sent.idempotencyKey == r.idempotencyKey;
            KeysName(s.log, sent, r);
          }
        }
      case _ =>
    }
  }

  ghost predicate Excused(states: seq<State>, events: seq<Event>, k: nat, r: QueuedReview) {
    && |states| == |events| + 1 && k < |events|
    && (PurgedUnderAnother(states[k], events[k], r) || events[k] == Clear(true) || OverwritesUnread(events[k]))
  }

  lemma {:induction false} PostsGrow(states: seq<State>, events: seq<Event>, i: nat, j: nat)
    requires Trace(states, events) && i <= j < |states|
    ensures states[i].posts <= states[j].posts && states[i].accepted <= states[j].accepted &&
            states[i].log <= states[j].log
    decreases j
  {
    if i < j {
      assert StepAt(states, events, j - 1);
      PostsGrow(states, events, i, j - 1);
      TraceInv(states, events, j - 1);
      PostsStayOk(states[j - 1], events[j - 1]);
    }
  }

  /**
   * A review stored at step i is, ever after, still queued, or in a batch the
   * server took, unless in between a step ran under another identity, the outbox
   * was cleared, or a write overwrote what a failed read had missed.
   */
  lemma {:induction false} NoReviewIsLost(states: seq<State>, events: seq<Event>, i: nat, j: nat)
    requires Trace(states, events) && i < j < |states|
    requires events[i].Enqueue? && events[i].writeOk
    ensures var r := events[i].record;
      || r in states[j].queue
      || Delivered(states[j], r)
      || exists k :: i < k < j && Excused(states, events, k, r)
    decreases j
  {
    var r := events[i].record;
    assert StepAt(states, events, j - 1);
    TraceInv(states, events, j - 1);
    if j == i + 1 {
      StoredByItsStep(states[i], events[i]);
    } else {
      NoReviewIsLost(states, events, i, j - 1);
      StepKeepsTrack(states[j - 1], events[j - 1], r);
      if !(exists k :: i < k < j - 1 && Excused(states, events, k, r)) && r !in states[j].queue &&
         !Delivered(states[j], r) {
        assert Excused(states, events, j - 1, r);
      }
    }
  }

  lemma StoredByItsStep(s: State, e: Event)
    requires e.Enqueue? && e.writeOk
    ensures e.record in Next(s, e).queue
  {
    var queue := Next(s, e).queue;
    assert queue[|queue| - 1] == e.record;
  }

  lemma StepKeepsTrack(s: State, e: Event, r: QueuedReview)
    requires Inv(s) && Enabled(s, e) && (e.Accept? || e.Reply? ==> e.post < |s.posts|)
    ensures Delivered(s, r) ==> Delivered(Next(s, e), r)
    ensures r in s.queue ==> || r in Next(s, e).queue || Delivered(Next(s, e), r)
                             || PurgedUnderAnother(s, e, r) || e == Clear(true) || OverwritesUnread(e)
  {
    PostsStayOk(s, e);
    var after := Next(s, e);
    if Delivered(s, r) {
      var k :| k in s.accepted && k < |s.posts| && r in s.posts[k].batch;
      assert after.posts[k] == s.posts[k];
      assert Delivered(after, r);
    }
    if r in s.queue && r !in after.queue { LeavesOnlyBy(s, e, r); }
  }

  /** Without storage faults, switches of identity and clears, every stored review is queued or with the server. */
  lemma QuietRunsLoseNothing(states: seq<State>, events: seq<Event>, i: nat, j: nat)
    requires Trace(states, events) && i < j < |states|
    requires events[i].Enqueue? && events[i].writeOk
    requires forall k :: i <= k < j ==> !events[k].SwitchUser? && !events[k].Clear? && !OverwritesUnread(events[k])
    ensures events[i].record in states[j].queue || Delivered(states[j], events[i].record)
  {
    NoReviewIsLost(states, events, i, j);
    SameUser(states, events, i, j);
    assert StepAt(states, events, i);
    forall k | i < k < j ensures !Excused(states, events, k, events[i].record) {
      assert states[k].active == states[i].active;
    }
  }

  lemma {:induction false} SameUser(states: seq<State>, events: seq<Event>, i: nat, j: nat)
    requires Trace(states, events) && i <= j < |states|
    requires forall k :: i <= k < j ==> !events[k].SwitchUser?
    ensures forall k :: i <= k <= j ==> states[k].active == states[i].active
    decreases j
  {
    if i < j {
      assert StepAt(states, events, j - 1);
      SameUser(states, events, i, j - 1);
    }
  }

  /**
   * The overwriting steps do lose reviews: whatever was queued and is not the
   * new record is gone after one.
   */
  lemma OverwritingLoses(s: State, e: Event, r: QueuedReview)
    requires Inv(s) && Enabled(s, e) && (e.Accept? || e.Reply? ==> e.post < |s.posts|)
    requires OverwritesUnread(e) && r in s.queue
    ensures r !in Next(s, e).queue
  {
    SubsequenceWithin(s.queue, s.log);
    FilterMembers<QueuedReview>([], (x: QueuedReview) => true);
  }

  /** A record whose own write failed is returned to the caller and stored nowhere. */
  lemma FailedWriteStoresNothing(s: State, e: Event)
    requires Inv(s) && Enabled(s, e) && e.Enqueue? && !e.writeOk
    ensures e.record !in Next(s, e).queue && Next(s, e).log == s.log
  {
    SubsequenceWithin(s.queue, s.log);
    FilterMembers(s.queue, (x: QueuedReview) => x.userId == e.record.userId);
  }

  // ---- at most once ---------------------------------------------------------------------------

  /**
   * The server never applies a key twice, applies only stored reviews, and has
   * applied every review a handled reply removed.
   */
  lemma AppliedOnce(states: seq<State>, events: seq<Event>, i: nat)
    requires Trace(states, events) && i < |states|
    ensures forall a, b :: 0 <= a < b < |states[i].applied| ==> states[i].applied[a] != states[i].applied[b]
    ensures forall key :: key in states[i].applied ==> exists r :: r in states[i].log && r.idempotencyKey == key
    ensures forall r :: Delivered(states[i], r) ==> r.idempotencyKey in states[i].applied
  {
    TraceInv(states, events, i);
  }

  // ---- identities -----------------------------------------------------------------------------

  /** Every POST carries only reviews of the identity its drain captured, each once and in enqueue order. */
  lemma PostsCarryOneIdentity(states: seq<State>, events: seq<Event>, i: nat, k: nat)
    requires Trace(states, events) && i < |states| && k < |states[i].posts|
    ensures var p := states[i].posts[k];
      && (forall r :: r in p.batch ==> r.userId == p.active)
      && Subsequence(p.batch, states[i].log) && DistinctKeys(states[i].log)
  {
    TraceInv(states, events, i);
  }

  /** The identity a drain captures is the one active when its POST is sent. */
  lemma PostSentUnderActive(s: State, io: Io)
    requires Inv(s) && |Next(s, Begin(io)).posts| > |s.posts|
    ensures Next(s, Begin(io)).posts == s.posts + [Post(s.active, Mine(Read(s.queue, io.readOk), s.active))]
    ensures forall r :: r in Next(s, Begin(io)).posts[|s.posts|].batch ==> r.userId == s.active && r in s.queue
  {
    FilterMembers(s.queue, (r: QueuedReview) => r.userId == s.active);
  }

  /**
   * Handling a reply, whoever is active by then: with a working read it removes
   * exactly the posted reviews and keeps every other record, foreign ones included.
   */
  lemma ReplyRemovesExactlyThePosted(s: State, post: nat, io: Io, r: QueuedReview)
    requires Inv(s) && Enabled(s, Reply(post, io)) && post < |s.posts| && io.readOk && io.writeOk
    ensures r in Next(s, Reply(post, io)).queue <==> r in s.queue && r !in s.posts[post].batch
  {
    var p := s.posts[post];
    FilterMembers(s.queue, (x: QueuedReview) => x.userId != p.active || x.idempotencyKey !in SentKeys(p.batch));
    SubsequenceWithin(s.queue, s.log);
    if r in s.queue && r.idempotencyKey in SentKeys(p.batch) {
      var sent :| sent in p.batch && sent.idempotencyKey == r.idempotencyKey;
      KeysName(s.log, sent, r);
    }
  }

  /** In every reachable state the queue holds stored reviews, each at most once, in the order they were stored. */
  lemma QueueKeepsOrder(states: seq<State>, events: seq<Event>, i: nat)
    requires Trace(states, events) && i < |states|
    ensures Subsequence(states[i].queue, states[i].log) && DistinctKeys(states[i].log)
  {
    TraceInv(states, events, i);
  }

  /** After any purging step with working storage, only the active user's reviews remain. */
  lemma PurgeLeavesOnlyActive(s: State, e: Event, r: QueuedReview)
    requires Inv(s) && Enabled(s, e)
    requires (e.View? && e.io.readOk && e.io.writeOk) || (e.Begin? && e.io.readOk && e.io.writeOk) ||
             (e.Enqueue? && e.writeOk)
    requires r in Next(s, e).queue
    ensures r.userId == s.active
  {
    FilterMembers(s.queue, (x: QueuedReview) => x.userId == s.active);
    FilterMembers(Read(s.queue, e.io.readOk), (x: QueuedReview) => x.userId == s.active);
  }
}
