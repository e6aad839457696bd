/**
 * The calls of frontend/src/lib/review-outbox.ts with their storage accesses apart:
 * nothing keeps another call's accesses from falling between a call's read and its
 * write. Storage works. First the enqueues of one user, exactly: the queue holds only
 * that user's reviews, so that each reads once and writes once. Then enqueues, drains
 * and purges of any users.
 */
module OutboxGap {
  import opened Base
  import opened ReviewOutbox

  /** The read or the write of one of the calls. */
  datatype Access = Fetch(call: nat) | Put(call: nat)

  /** The stored queue, what each call has read, and which calls have written. */
  datatype World = World(queue: seq<QueuedReview>, held: map<nat, seq<QueuedReview>>, written: set<nat>)

  /** Call k enqueues records[k]; the keys are fresh. */
  ghost predicate Calls(user: UserId, queue: seq<QueuedReview>, records: seq<QueuedReview>) {
    && (forall r :: r in queue || r in records ==> r.userId == user)
    && (forall k :: 0 <= k < |records| ==> records[k] !in queue)
    && (forall j, k :: 0 <= j < k < |records| ==> records[j].idempotencyKey != records[k].idempotencyKey)
  }

  predicate Enabled(records: seq<QueuedReview>, w: World, a: Access) {
    match a
    case Fetch(k) => k < |records| && k !in w.held
    case Put(k) => k < |records| && k in w.held && k !in w.written
  }

  function Next(user: UserId, records: seq<QueuedReview>, w: World, a: Access): World
    requires Enabled(records, w, a)
  {
    match a
    case Fetch(k) => w.(held := w.held[k := Mine(w.queue, user)])
    case Put(k) => w.(queue := w.held[k] + [records[k]], written := w.written + {k})
  }

  /** The world after a trace of accesses, if each was one its call could make. */
  function Run(user: UserId, queue: seq<QueuedReview>, records: seq<QueuedReview>, trace: seq<Access>): Option<World> {
    if trace == [] then Some(World(queue, map[], {}))
    else
      var before := Run(user, queue, records, trace[..|trace| - 1]);
      var a := trace[|trace| - 1];
      if before.Some? && Enabled(records, before.value, a) then Some(Next(user, records, before.value, a)) else None
  }

  /** Some call has written since call k read. */
  ghost predicate Overtaken(trace: seq<Access>, k: nat) {
    exists i, j :: 0 <= i < j < |trace| && trace[i] == Fetch(k) && trace[j].Put?
  }

  /** Some call wrote although another had written since it read. */
  ghost predicate Interleaved(trace: seq<Access>) {
    exists c :: 0 <= c < |trace| && trace[c].Put? && Overtaken(trace[..c], trace[c].call)
  }

  /** The records written, in the order of the writes. */
  function Written(records: seq<QueuedReview>, trace: seq<Access>): seq<QueuedReview>
  {
    if trace == [] then []
    else
      var a := trace[|trace| - 1];
      Written(records, trace[..|trace| - 1]) + if a.Put? && a.call < |records| then [records[a.call]] else []
  }

  // ---- how the two conditions grow with the trace ------------------------------------------

  lemma OvertakenNext(trace: seq<Access>, a: Access, k: nat)
    ensures Overtaken(trace + [a], k) <==> Overtaken(trace, k) || (a.Put? && Fetch(k) in trace)
  {
    var longer := trace + [a];
    if Overtaken(trace, k) {
      var i, j :| 0 <= i < j < |trace| && trace[i] == Fetch(k) && trace[j].Put?;
      assert longer[i] == Fetch(k) && longer[j].Put?;
    }
    if a.Put? && Fetch(k) in trace {
      var i :| 0 <= i < |trace| && trace[i] == Fetch(k);
      assert longer[i] == Fetch(k) && longer[|trace|].Put?;
    }
    if Overtaken(longer, k) {
      var i, j :| 0 <= i < j < |longer| && longer[i] == Fetch(k) && longer[j].Put?;
      assert trace[i] == Fetch(k);
      if j < |trace| { assert trace[j].Put?; }
    }
  }

  lemma InterleavedNext(trace: seq<Access>, a: Access)
    ensures Interleaved(trace + [a]) <==> Interleaved(trace) || (a.Put? && Overtaken(trace, a.call))
  {
    var longer := trace + [a];
    assert longer[..|trace|] == trace;
    assert forall c :: 0 <= c < |trace| ==> longer[..c] == trace[..c] && longer[c] == trace[c];
    if a.Put? && Overtaken(trace, a.call) { assert longer[|trace|].Put?; }
  }

  // ---- what every trace keeps ----------------------------------------------------------------

  /** Of the two records no copy of the queue that can still be written holds both. */
  ghost predicate Apart(records: seq<QueuedReview>, w: World, j: nat, k: nat) {
    && j < |records| && k < |records| && j in w.written && k in w.written
    && !(records[j] in w.queue && records[k] in w.queue)
    && forall m :: m in w.held && m !in w.written ==> !(records[j] in w.held[m] && records[k] in w.held[m])
  }

  ghost predicate SomeApart(records: seq<QueuedReview>, w: World) {
    exists j, k :: Apart(records, w, j, k)
  }

  /** Only earlier reviews and written records are in a copy of the queue. */
  ghost predicate Sourced(queue: seq<QueuedReview>, records: seq<QueuedReview>, w: World, copy: seq<QueuedReview>) {
    forall r :: r in copy ==> r in queue || exists j :: j in w.written && j < |records| && records[j] == r
  }

  ghost predicate AllSourced(queue: seq<QueuedReview>, records: seq<QueuedReview>, w: World) {
    && Sourced(queue, records, w, w.queue)
    && forall m :: m in w.held ==> Sourced(queue, records, w, w.held[m])
  }

  /** What call k has read is still the queue, or the queue has a record it has not read. */
  ghost predicate Behind(records: seq<QueuedReview>, w: World, k: nat)
    requires k in w.held
  {
    exists j :: j in w.written && j < |records| && records[j] in w.queue && records[j] !in w.held[k]
  }

  ghost predicate Tracked(records: seq<QueuedReview>, trace: seq<Access>, w: World) {
    && (forall k :: k in w.held <==> Fetch(k) in trace)
    && (forall k :: k in w.held && k !in w.written ==>
                      if Overtaken(trace, k) then Behind(records, w, k) else w.held[k] == w.queue)
  }

  lemma {:induction false} MineAll(queue: seq<QueuedReview>, user: UserId)
    requires forall r :: r in queue ==> r.userId == user
    ensures Mine(queue, user) == queue
  {
    FilterMembers(queue, (r: QueuedReview) => r.userId == user);
    FilterAll(queue, (r: QueuedReview) => r.userId == user);
  }

  lemma {:induction false} FilterAll<T>(s: seq<T>, keep: T -> bool)
    requires forall x :: x in s ==> keep(x)
    ensures Filter(s, keep) == s
  {
    if s != [] { FilterAll(s[..|s| - 1], keep); }
  }

  // ---- one access -------------------------------------------------------------------------------

  lemma FetchReadsAll(user: UserId, queue: seq<QueuedReview>, records: seq<QueuedReview>, w: World, k: nat)
    requires Calls(user, queue, records) && AllSourced(queue, records, w) && Enabled(records, w, Fetch(k))
    ensures Next(user, records, w, Fetch(k)) == w.(held := w.held[k := w.queue])
  {
    forall r | r in w.queue ensures r.userId == user {
      if r !in queue {
        var j :| j in w.written && j < |records| && records[j] == r;
        assert r in records;
      }
    }
    MineAll(w.queue, user);
  }

  /** What a call has not written is in no copy of the queue. */
  lemma Unwritten(user: UserId, queue: seq<QueuedReview>, records: seq<QueuedReview>, w: World, k: nat,
                  copy: seq<QueuedReview>)
    requires Calls(user, queue, records) && k < |records| && k !in w.written && Sourced(queue, records, w, copy)
    ensures records[k] !in copy
  {
  }

  lemma SourcedNext(user: UserId, queue: seq<QueuedReview>, records: seq<QueuedReview>, w: World, a: Access)
    requires Calls(user, queue, records) && AllSourced(queue, records, w) && Enabled(records, w, a)
    ensures AllSourced(queue, records, Next(user, records, w, a))
  {
    var next := Next(user, records, w, a);
    if a.Fetch? { FetchReadsAll(user, queue, records, w, a.call); }
    forall r | r in next.queue ensures r in queue || exists j :: j in next.written && j < |records| && records[j] == r {
      if a.Put? && r == records[a.call] { assert a.call in next.written; }
    }
  }

  lemma TrackedNext(user: UserId, queue: seq<QueuedReview>, records: seq<QueuedReview>, trace: seq<Access>, w: World,
                    a: Access)
    requires Calls(user, queue, records) && AllSourced(queue, records, w) && Tracked(records, trace, w)
    requires Enabled(records, w, a)
    ensures Tracked(records, trace + [a], Next(user, records, w, a))
  {
    var next := Next(user, records, w, a);
    if a.Fetch? { FetchReadsAll(user, queue, records, w, a.call); }
    forall m | m in next.held && m !in next.written
      ensures if Overtaken(trace + [a], m) then Behind(records, next, m) else next.held[m] == next.queue
    {
      OvertakenNext(trace, a, m);
      if a.Put? {
        Unwritten(user, queue, records, w, a.call, w.held[m]);
        assert records[a.call] in next.queue && a.call in next.written;
      }
    }
  }

  /** Once apart, two records stay apart. */
  lemma ApartNext(user: UserId, queue: seq<QueuedReview>, records: seq<QueuedReview>, w: World, a: Access, j: nat,
                  k: nat)
    requires Calls(user, queue, records) && AllSourced(queue, records, w) && Enabled(records, w, a)
    requires Apart(records, w, j, k)
    ensures Apart(records, Next(user, records, w, a), j, k)
  {
    if a.Fetch? { FetchReadsAll(user, queue, records, w, a.call); }
  }

  /** A write over a queue that has grown since parts its record from what it had not read. */
  lemma OvertakenParts(user: UserId, queue: seq<QueuedReview>, records: seq<QueuedReview>, w: World, k: nat)
    requires Calls(user, queue, records) && AllSourced(queue, records, w) && Enabled(records, w, Put(k))
    requires Behind(records, w, k)
    ensures SomeApart(records, Next(user, records, w, Put(k)))
  {
    var next := Next(user, records, w, Put(k));
    var j :| j in w.written && j < |records| && records[j] in w.queue && records[j] !in w.held[k];
    forall m | m in next.held && m !in next.written ensures records[k] !in next.held[m] {
      Unwritten(user, queue, records, w, k, w.held[m]);
    }
    assert Apart(records, next, j, k);
  }

  // ---- every trace --------------------------------------------------------------------------------

  ghost predicate Inv(queue: seq<QueuedReview>, records: seq<QueuedReview>, trace: seq<Access>, w: World) {
    && AllSourced(queue, records, w) && Tracked(records, trace, w)
    && if Interleaved(trace) then SomeApart(records, w) else w.queue == queue + Written(records, trace)
  }

  lemma InvNext(user: UserId, queue: seq<QueuedReview>, records: seq<QueuedReview>, trace: seq<Access>, w: World,
                a: Access)
    requires Calls(user, queue, records) && Inv(queue, records, trace, w) && Enabled(records, w, a)
    ensures Inv(queue, records, trace + [a], Next(user, records, w, a))
  {
    SourcedNext(user, queue, records, w, a);
    TrackedNext(user, queue, records, trace, w, a);
    InterleavedNext(trace, a);
    assert (trace + [a])[..|trace|] == trace;
    if Interleaved(trace) {
      var j, k :| Apart(records, w, j, k);
      ApartNext(user, queue, records, w, a, j, k);
    } else if a.Put? && Overtaken(trace, a.call) {
      OvertakenParts(user, queue, records, w, a.call);
    } else if a.Put? {
      assert queue + Written(records, trace) + [records[a.call]] ==
             queue + (Written(records, trace) + [records[a.call]]);
    }
  }

  lemma {:induction false} InvAlways(user: UserId, queue: seq<QueuedReview>, records: seq<QueuedReview>,
                                     trace: seq<Access>)
    requires Calls(user, queue, records) && Run(user, queue, records, trace).Some?
    ensures Inv(queue, records, trace, Run(user, queue, records, trace).value)
  {
    if trace == [] {
      assert queue + [] == queue;
    } else {
      var init := trace[..|trace| - 1];
      InvAlways(user, queue, records, init);
      InvNext(user, queue, records, init, Run(user, queue, records, init).value, trace[|trace| - 1]);
      assert trace == init + [trace[|trace| - 1]];
    }
  }

  lemma {:induction false} WrittenAre(user: UserId, queue: seq<QueuedReview>, records: seq<QueuedReview>,
                                      trace: seq<Access>)
    requires Run(user, queue, records, trace).Some?
    ensures var w := Run(user, queue, records, trace).value;
      && (forall k :: k in w.written ==> k < |records| && records[k] in Written(records, trace))
      && |Written(records, trace)| == |w.written|
  {
    if trace != [] { WrittenAre(user, queue, records, trace[..|trace| - 1]); }
  }

  /**
   * However the accesses of any number of calls fall, every review written is still queued
   * at the end if and only if no call wrote after another had written since it read. If so,
   * the queue has grown by the reviews in the order of their writes.
   */
  lemma KeptIffNotInterleaved(user: UserId, queue: seq<QueuedReview>, records: seq<QueuedReview>, trace: seq<Access>)
    requires Calls(user, queue, records) && Run(user, queue, records, trace).Some?
    ensures var w := Run(user, queue, records, trace).value;
      && ((forall k :: k in w.written ==> k < |records| && records[k] in w.queue) <==> !Interleaved(trace))
      && (!Interleaved(trace) ==> w.queue == queue + Written(records, trace))
  {
    InvAlways(user, queue, records, trace);
    WrittenAre(user, queue, records, trace);
    var w := Run(user, queue, records, trace).value;
    if Interleaved(trace) {
      var j, k :| Apart(records, w, j, k);
    }
  }

  lemma RunNext(user: UserId, queue: seq<QueuedReview>, records: seq<QueuedReview>, trace: seq<Access>, w: World,
                a: Access)
    requires Run(user, queue, records, trace) == Some(w) && Enabled(records, w, a)
    ensures Run(user, queue, records, trace + [a]) == Some(Next(user, records, w, a))
  {
    assert (trace + [a])[..|trace|] == trace;
  }

  /** Two enqueues that both read before either writes: the later write drops the other's review. */
  lemma UnprotectedGapLosesAReview(user: UserId, queue: seq<QueuedReview>, first: QueuedReview, second: QueuedReview)
    requires Calls(user, queue, [first, second])
    ensures var end := Run(user, queue, [first, second], [Fetch(0), Fetch(1)] + [Put(0)] + [Put(1)]);
      end.Some? && end.value.written == {0, 1} && first !in end.value.queue && second in end.value.queue
  {
    var records := [first, second];
    MineAll(queue, user);
    assert [] + [Fetch(0)] == [Fetch(0)] && [Fetch(0)] + [Fetch(1)] == [Fetch(0), Fetch(1)];
    RunNext(user, queue, records, [], World(queue, map[], {}), Fetch(0));
    RunNext(user, queue, records, [Fetch(0)], World(queue, map[0 := queue], {}), Fetch(1));
    var held: map<nat, seq<QueuedReview>> := map[0 := queue, 1 := queue];
    var w := World(queue, held, {});
    RunNext(user, queue, records, [Fetch(0), Fetch(1)], w, Put(0));
    assert Next(user, records, w, Put(0)) == World(queue + [first], held, {0});
    RunNext(user, queue, records, [Fetch(0), Fetch(1)] + [Put(0)], World(queue + [first], held, {0}), Put(1));
    assert first !in queue + [second] by { assert records[0] == first && records[1] == second; }
  }

  // ---- drains and purges beside the enqueues --------------------------------------------------------

  /**
   * What a call makes of the queue between its read and its last write: an enqueue, the
   * end of a drain, or a purge on its own.
   */
  datatype Section =
    | Enqueueing(record: QueuedReview)
    | Settling(active: UserId, batch: seq<QueuedReview>)
    | Purging(active: UserId)

  function Result(c: Section, read: seq<QueuedReview>): seq<QueuedReview> {
    match c
    case Enqueueing(record) => Mine(read, record.userId) + [record]
    case Settling(active, batch) => Kept(read, active, batch)
    case Purging(active) => Mine(read, active)
  }

  /** A section reads, an enqueue that finds foreign entries stores the purged queue first, and it writes. */
  datatype Turn = Reads(call: nat) | Trims(call: nat) | Writes(call: nat)

  predicate CanTake(sections: seq<Section>, w: World, t: Turn) {
    t.call < |sections| &&
    match t
    case Reads(k) => k !in w.held
    case Trims(k) =>
      k in w.held && k !in w.written && sections[k].Enqueueing? && HoldsForeign(w.held[k], sections[k].record.userId)
    case Writes(k) =>
      k in w.held && k !in w.written && (sections[k].Purging? ==> HoldsForeign(w.held[k], sections[k].active))
  }

  predicate HoldsForeign(read: seq<QueuedReview>, active: UserId) {
    Mine(read, active) != read
  }

  /** What the turn stores, if it is given this queue for the one its call has read. */
  function Stored(sections: seq<Section>, t: Turn, read: seq<QueuedReview>): seq<QueuedReview>
    requires t.call < |sections| && (t.Trims? ==> sections[t.call].Enqueueing?)
  {
    match t
    case Reads(_) => read
    case Trims(k) => Mine(read, sections[k].record.userId)
    case Writes(k) => Result(sections[k], read)
  }

  function Take(sections: seq<Section>, w: World, t: Turn): World
    requires CanTake(sections, w, t)
  {
    match t
    case Reads(k) => w.(held := w.held[k := w.queue])
    case Trims(k) => w.(queue := Stored(sections, t, w.held[k]))
    case Writes(k) => w.(queue := Stored(sections, t, w.held[k]), written := w.written + {k})
  }

  function Play(sections: seq<Section>, queue: seq<QueuedReview>, turns: seq<Turn>): Option<World> {
    if turns == [] then Some(World(queue, map[], {}))
    else
      var before, t := Play(sections, queue, turns[..|turns| - 1]), turns[|turns| - 1];
      if before.Some? && CanTake(sections, before.value, t) then Some(Take(sections, before.value, t)) else None
  }

  /** Another call has stored something since call k read. */
  ghost predicate Crossed(turns: seq<Turn>, k: nat) {
    exists i, j :: 0 <= i < j < |turns| && turns[i] == Reads(k) && !turns[j].Reads? && turns[j].call != k
  }

  /** No call stores anything after another has stored something since it read. */
  ghost predicate Uncrossed(turns: seq<Turn>) {
    forall c :: 0 <= c < |turns| && !turns[c].Reads? ==> !Crossed(turns[..c], turns[c].call)
  }

  /** The sections one after the other, each on what the one before has left. */
  function InTurn(sections: seq<Section>, queue: seq<QueuedReview>, turns: seq<Turn>): seq<QueuedReview>
    requires forall i :: 0 <= i < |turns| ==>
               turns[i].call < |sections| && (turns[i].Trims? ==> sections[turns[i].call].Enqueueing?)
  {
    if turns == [] then queue
    else Stored(sections, turns[|turns| - 1], InTurn(sections, queue, turns[..|turns| - 1]))
  }

  lemma CrossedNext(turns: seq<Turn>, t: Turn, k: nat)
    ensures Crossed(turns, k) ==> Crossed(turns + [t], k)
    ensures !t.Reads? && t.call != k && Reads(k) in turns ==> Crossed(turns + [t], k)
  {
    var longer := turns + [t];
    if Crossed(turns, k) {
      var i, j :| 0 <= i < j < |turns| && turns[i] == Reads(k) && !turns[j].Reads? && turns[j].call != k;
      assert longer[i] == Reads(k) && longer[j] == turns[j];
    }
    if !t.Reads? && t.call != k && Reads(k) in turns {
      var i :| 0 <= i < |turns| && turns[i] == Reads(k);
      assert longer[i] == Reads(k) && longer[|turns|] == t;
    }
  }

  /** The queue is what the call has read, or what its own trimming has left of it. */
  ghost predicate Current(sections: seq<Section>, turns: seq<Turn>, w: World, k: nat)
    requires k in w.held
  {
    if Trims(k) in turns
    then k < |sections| && sections[k].Enqueueing? && w.queue == Mine(w.held[k], sections[k].record.userId)
    else w.queue == w.held[k]
  }

  ghost predicate Following(sections: seq<Section>, turns: seq<Turn>, w: World) {
    && (forall k :: k in w.held <==> Reads(k) in turns)
    && (forall k :: Trims(k) in turns ==> k in w.held)
    && (forall k :: k in w.held && k !in w.written ==> Crossed(turns, k) || Current(sections, turns, w, k))
  }

  lemma FollowingNext(sections: seq<Section>, turns: seq<Turn>, w: World, t: Turn)
    requires Following(sections, turns, w) && CanTake(sections, w, t)
    requires !t.Reads? ==> !Crossed(turns, t.call)
    ensures Following(sections, turns + [t], Take(sections, w, t))
  {
    var next := Take(sections, w, t);
    forall k | k in next.held && k !in next.written
      ensures Crossed(turns + [t], k) || Current(sections, turns + [t], next, k)
    {
      CrossedNext(turns, t, k);
    }
  }

  lemma MineTwice(queue: seq<QueuedReview>, user: UserId)
    ensures Mine(Mine(queue, user), user) == Mine(queue, user)
  {
    FilterMembers(queue, (r: QueuedReview) => r.userId == user);
    MineAll(Mine(queue, user), user);
  }

  /** A call that has not been crossed stores what it would from the present queue. */
  lemma StoresFromPresent(sections: seq<Section>, turns: seq<Turn>, w: World, t: Turn)
    requires Following(sections, turns, w) && CanTake(sections, w, t) && (!t.Reads? ==> !Crossed(turns, t.call))
    ensures Take(sections, w, t).queue == Stored(sections, t, w.queue)
  {
    if !t.Reads? { assert Current(sections, turns, w, t.call); }
    if !t.Reads? && sections[t.call].Enqueueing? { MineTwice(w.held[t.call], sections[t.call].record.userId); }
  }

  /**
   * Enqueues, drains and purges in any interleaving in which no call stores anything after
   * another has since its read: the queue is as if they had come one after the other.
   */
  lemma {:induction false} UncrossedIsSerial(sections: seq<Section>, queue: seq<QueuedReview>, turns: seq<Turn>)
    requires Play(sections, queue, turns).Some? && Uncrossed(turns)
    ensures forall i :: 0 <= i < |turns| ==>
              turns[i].call < |sections| && (turns[i].Trims? ==> sections[turns[i].call].Enqueueing?)
    ensures var w := Play(sections, queue, turns).value;
      Following(sections, turns, w) && w.queue == InTurn(sections, queue, turns)
  {
    if turns != [] {
      var init, t := turns[..|turns| - 1], turns[|turns| - 1];
      ApartBefore(turns);
      UncrossedIsSerial(sections, queue, init);
      var w := Play(sections, queue, init).value;
      assert turns == init + [t];
      FollowingNext(sections, init, w, t);
      StoresFromPresent(sections, init, w, t);
    }
  }

  lemma ApartBefore(turns: seq<Turn>)
    requires turns != [] && Uncrossed(turns)
    ensures Uncrossed(turns[..|turns| - 1])
    ensures !turns[|turns| - 1].Reads? ==> !Crossed(turns[..|turns| - 1], turns[|turns| - 1].call)
  {
    var init := turns[..|turns| - 1];
    forall c | 0 <= c < |init| && !init[c].Reads? ensures !Crossed(init[..c], init[c].call) {
      assert init[..c] == turns[..c] && init[c] == turns[c];
    }
  }

  /** One after the other, a section takes out only other users' entries and what its drain has posted. */
  lemma ResultKeeps(c: Section, queue: seq<QueuedReview>, r: QueuedReview)
    requires r in queue
    ensures r !in Result(c, queue) ==>
      match c
      case Enqueueing(record) => r.userId != record.userId
      case Settling(active, batch) => r.userId == active && r.idempotencyKey in SentKeys(batch)
      case Purging(active) => r.userId != active
  {
    match c {
      case Enqueueing(record) => FilterMembers(queue, (x: QueuedReview) => x.userId == record.userId);
      case Settling(active, batch) =>
        FilterMembers(queue, (x: QueuedReview) => x.userId != active || x.idempotencyKey !in SentKeys(batch));
      case Purging(active) => FilterMembers(queue, (x: QueuedReview) => x.userId == active);
    }
  }

  lemma PlayNext(sections: seq<Section>, queue: seq<QueuedReview>, turns: seq<Turn>, w: World, t: Turn)
    requires Play(sections, queue, turns) == Some(w) && CanTake(sections, w, t)
    ensures Play(sections, queue, turns + [t]) == Some(Take(sections, w, t))
  {
    assert (turns + [t])[..|turns|] == turns;
  }

  /** A review enqueued between the last read of a drain and its write is gone. */
  lemma DrainGapLosesAReview(queue: seq<QueuedReview>, record: QueuedReview, batch: seq<QueuedReview>)
    requires record !in queue
    ensures var sections := [Settling(record.userId, batch), Enqueueing(record)];
      var end := Play(sections, queue, [Reads(0), Reads(1)] + [Writes(1)] + [Writes(0)]);
      end.Some? && end.value.written == {0, 1} && record !in end.value.queue
  {
    var sections := [Settling(record.userId, batch), Enqueueing(record)];
    assert [] + [Reads(0)] == [Reads(0)] && [Reads(0)] + [Reads(1)] == [Reads(0), Reads(1)];
    PlayNext(sections, queue, [], World(queue, map[], {}), Reads(0));
    PlayNext(sections, queue, [Reads(0)], World(queue, map[0 := queue], {}), Reads(1));
    var held: map<nat, seq<QueuedReview>> := map[0 := queue, 1 := queue];
    var w := World(queue, held, {});
    PlayNext(sections, queue, [Reads(0), Reads(1)], w, Writes(1));
    var w1 := Take(sections, w, Writes(1));
    PlayNext(sections, queue, [Reads(0), Reads(1)] + [Writes(1)], w1, Writes(0));
    var kept := (x: QueuedReview) => x.userId != record.userId || x.idempotencyKey !in SentKeys(batch);
    FilterMembers(queue, kept);
    assert Take(sections, w1, Writes(0)).queue == Kept(queue, record.userId, batch);
  }
}
