/** scripts/reembed.py: embedding a paper's chunks and publishing them to both stores. */
module ReembedPublish {
  import opened Base
  import opened ReembedModel

  // ---- embed_texts_in_batches --------------------------------------------------------

  datatype EmbedError = BackendRaised | CountWrong | DimensionWrong | BatchSizeZero

  /** The answer to one batch call; None is an exception from the backend. */
  type Reply = Option<seq<Vector>>

  function ReplyFault(reply: Reply, count: nat, dimension: nat): Option<EmbedError> {
    if reply.None? then Some(BackendRaised)
    else if |reply.value| != count then Some(CountWrong)
    else if exists k :: 0 <= k < |reply.value| && |reply.value[k]| != dimension then Some(DimensionWrong)
    else None
  }

  function ReplyTo(replies: seq<Reply>, batch: nat): Reply {
    if batch < |replies| then replies[batch] else None
  }

  /** How many texts batch number b carries. */
  function BatchCount(total: nat, size: nat, b: nat): nat {
    if (b + 1) * size <= total then size else if b * size <= total then total - b * size else 0
  }

  /** The vector the backend gave for text k. */
  function Answer(replies: seq<Reply>, size: int, k: nat): Vector {
    if size <= 0 then []
    else
      var reply := ReplyTo(replies, k / size);
      if reply.Some? && k % size < |reply.value| then reply.value[k % size] else []
  }

  function Answers(replies: seq<Reply>, size: int, n: nat): (r: seq<Vector>)
    ensures |r| == n
  {
    seq(n, k requires 0 <= k < n => Answer(replies, size, k))
  }

  /** The fault of the first bad batch from number b on. */
  function FirstError(replies: seq<Reply>, total: nat, size: nat, dimension: nat, b: nat): Option<EmbedError>
    requires size > 0
    decreases total - b * size
  {
    if b * size >= total then None
    else
      NextMultiple(b, size);
      var fault := ReplyFault(ReplyTo(replies, b), BatchCount(total, size, b), dimension);
      if fault.Some? then fault else FirstError(replies, total, size, dimension, b + 1)
  }

  /** embed_texts_in_batches for this many texts: batches are sent in order, the first bad reply is the error. */
  function EmbedAll(replies: seq<Reply>, total: nat, size: int, dimension: nat): Result<seq<Vector>, EmbedError> {
    if size == 0 then Err(BatchSizeZero)
    else if size < 0 then if total == 0 then Ok([]) else Err(CountWrong)
    else match FirstError(replies, total, size, dimension, 0)
      case Some(error) => Err(error)
      case None => Ok(Answers(replies, size, total))
  }

  method EmbedTextsInBatches(texts: seq<string>, replies: seq<Reply>, size: int, dimension: nat)
    returns (r: Result<seq<Vector>, EmbedError>)
    ensures r == EmbedAll(replies, |texts|, size, dimension)
  {
    if size == 0 { return Err(BatchSizeZero); }
    if size < 0 { return if texts == [] then Ok([]) else Err(CountWrong); }
    var all: seq<Vector> := [];
    var b: nat := 0;
    while b * size < |texts|
      invariant |all| == if b * size <= |texts| then b * size else |texts|
      invariant all == Answers(replies, size, |all|)
      invariant FirstError(replies, |texts|, size, dimension, 0) == FirstError(replies, |texts|, size, dimension, b)
      decreases |texts| - b * size
    {
      NextMultiple(b, size);
      var count := BatchCount(|texts|, size, b);
      var reply := ReplyTo(replies, b);
      var fault := ReplyFault(reply, count, dimension);
      if fault.Some? { return Err(fault.value); }
      forall k | |all| <= k < |all| + count
        ensures Answer(replies, size, k) == reply.value[k - |all|]
      {
        Quotient(k, size, b);
      }
      all := all + reply.value;
      b := b + 1;
    }
    return Ok(all);
  }

  /** Accepted vectors: one per text, of the right dimension, each at its text's place in its batch's reply. */
  lemma {:induction false} EmbeddedInOrder(replies: seq<Reply>, total: nat, size: nat, dimension: nat, k: nat)
    requires size > 0 && EmbedAll(replies, total, size, dimension).Ok? && k < total
    ensures var reply := ReplyTo(replies, k / size);
      && reply.Some? && k % size < |reply.value|
      && EmbedAll(replies, total, size, dimension).value[k] == reply.value[k % size]
      && |reply.value[k % size]| == dimension
  {
    var b := k / size;
    Decompose(k, size);
    Scaled(b, size);
    NoErrorAt(replies, total, size, dimension, 0, b);
    NextMultiple(b, size);
  }

  /** The batch was answered with one vector of the right dimension for each of its texts. */
  predicate GoodBatch(replies: seq<Reply>, total: nat, size: nat, dimension: nat, b: nat) {
    && b < |replies| && replies[b].Some?
    && |replies[b].value| == (if total - b * size < size then total - b * size else size)
    && forall k :: 0 <= k < |replies[b].value| ==> |replies[b].value[k]| == dimension
  }

  /** What is wrong with a batch that is not good. */
  predicate FaultOf(replies: seq<Reply>, total: nat, size: nat, b: nat, error: EmbedError) {
    if b >= |replies| || replies[b].None? then error == BackendRaised
    else if |replies[b].value| != (if total - b * size < size then total - b * size else size) then error == CountWrong
    else error == DimensionWrong
  }

  lemma FaultIs(replies: seq<Reply>, total: nat, size: nat, dimension: nat, b: nat)
    requires size > 0 && b * size < total
    ensures var fault := ReplyFault(ReplyTo(replies, b), BatchCount(total, size, b), dimension);
      && (fault.None? <==> GoodBatch(replies, total, size, dimension, b))
      && (fault.Some? ==> FaultOf(replies, total, size, b, fault.value))
  {
    NextMultiple(b, size);
  }

  ghost predicate FirstBad(replies: seq<Reply>, total: nat, size: nat, dimension: nat, from: nat, b: nat,
                           error: EmbedError) {
    && from <= b && b * size < total && !GoodBatch(replies, total, size, dimension, b)
    && (forall n: nat :: from <= n < b ==> GoodBatch(replies, total, size, dimension, n))
    && FaultOf(replies, total, size, b, error)
  }

  lemma {:induction false} FirstErrorIs(replies: seq<Reply>, total: nat, size: nat, dimension: nat, from: nat)
    returns (b: nat)
    requires size > 0
    ensures var error := FirstError(replies, total, size, dimension, from);
      && (error.Some? ==> FirstBad(replies, total, size, dimension, from, b, error.value))
      && (error.None? ==> total <= b * size && forall n: nat :: from <= n < b ==>
                                                                GoodBatch(replies, total, size, dimension, n))
    decreases total - from * size
  {
    if from * size >= total {
      b := from;
    } else {
      FaultIs(replies, total, size, dimension, from);
      NextMultiple(from, size);
      b := from;
      if GoodBatch(replies, total, size, dimension, from) {
        b := FirstErrorIs(replies, total, size, dimension, from + 1);
      }
    }
  }

  /**
   * Embedding succeeds if and only if every batch up to the last text is good; otherwise its
   * error is that of the first batch that is not.
   */
  lemma EmbeddedExactly(replies: seq<Reply>, total: nat, size: nat, dimension: nat) returns (b: nat)
    requires size > 0
    ensures match EmbedAll(replies, total, size, dimension)
            case Ok(_) => total <= b * size && forall n: nat :: n < b ==> GoodBatch(replies, total, size, dimension, n)
            case Err(error) => FirstBad(replies, total, size, dimension, 0, b, error)
  {
    b := FirstErrorIs(replies, total, size, dimension, 0);
  }

  lemma Decompose(k: nat, size: nat)
    requires size > 0
    ensures k == (k / size) * size + k % size && 0 <= k % size < size && 0 <= k / size
  {
  }

  lemma {:induction false} NoErrorAt(replies: seq<Reply>, total: nat, size: nat, dimension: nat, from: nat, b: nat)
    requires size > 0 && from <= b && b * size < total && FirstError(replies, total, size, dimension, from) == None
    ensures ReplyFault(ReplyTo(replies, b), BatchCount(total, size, b), dimension) == None
    decreases b - from
  {
    Distribute(from, b - from, size, b);
    Scaled(b - from, size);
    if from < b { NoErrorAt(replies, total, size, dimension, from + 1, b); }
  }

  lemma NextMultiple(b: int, size: int)
    ensures (b + 1) * size == b * size + size
  {
  }

  lemma Quotient(k: int, size: int, q: int)
    requires size > 0 && q * size <= k < q * size + size
    ensures k / size == q && k % size == k - q * size
  {
    var d := k / size - q;
    assert k == (k / size) * size + k % size;
    assert (k / size) * size == q * size + d * size by { Distribute(q, d, size, k / size); }
    if d >= 1 { Scaled(d - 1, size); Distribute(1, d - 1, size, d); }
    if d <= -1 { Scaled(-1 - d, size); Distribute(-1, d + 1, size, d); Distribute(d + 1, -1 - d, size, 0); }
  }

  lemma Distribute(a: int, b: int, x: int, sum: int)
    requires sum == a + b
    ensures sum * x == a * x + b * x
  {
  }

  lemma Scaled(n: int, size: int)
    requires n >= 0 && size > 0
    ensures n * size >= 0
  {
  }

  // ---- the two stores behind their clients ------------------------------------------------

  datatype PublishError = Embedding(cause: EmbedError) | InvalidVisibility | ChunksChanged | CallRaised(stage: Stage)

  /** _reembedded_points: points and metadata updates, one per row, in row order. */
  method ReembeddedPoints(c: Settings, rows: seq<Row>, vectors: seq<Vector>)
    returns (r: Result<(seq<PointStruct>, seq<Update>), PublishError>)
    requires |rows| == |vectors|
    ensures r == if AllVisible(c, rows) then Ok((Points(c, rows, vectors), Updates(c, rows)))
                 else Err(InvalidVisibility)
  {
    var points: seq<PointStruct> := [];
    var updates: seq<Update> := [];
    for i := 0 to |rows|
      invariant points == Points(c, rows[..i], vectors[..i])
      invariant updates == Updates(c, rows[..i])
      invariant AllVisible(c, rows[..i])
    {
      updates := updates + [Update(Canonical(c, rows[i]), rows[i].id)];
      if !VisibilityOk(c, rows[i].sourceType, rows[i].visibilityScope) {
        assert rows[i] in rows;
        return Err(InvalidVisibility);
      }
      points := points + [PointFor(c, rows[i], vectors[i])];
      assert rows[..i + 1] == rows[..i] + [rows[i]];
    }
    assert rows[..|rows|] == rows && vectors[..|rows|] == vectors;
    return Ok((points, updates));
  }

  /** _stale_reembedded_point_ids, reading each row's new id back from the updates. */
  method StaleReembeddedPointIds(c: Settings, rows: seq<Row>, updates: seq<Update>) returns (stale: seq<PointId>)
    requires updates == Updates(c, rows)
    requires forall i, j :: 0 <= i < j < |rows| ==> rows[i].id != rows[j].id
    ensures stale == Stale(c, rows)
  {
    var newIds: map<int, PointId> := map[];
    for i := 0 to |updates|
      invariant forall k :: 0 <= k < i ==> rows[k].id in newIds && newIds[rows[k].id] == Canonical(c, rows[k])
    {
      newIds := newIds[updates[i].rowId := updates[i].pointId];
    }
    var ids: seq<PointId> := [];
    for i := 0 to |rows|
      invariant ids == StaleOfAll(c, rows[..i])
    {
      var row := rows[i];
      var newId := newIds[row.id];
      if row.embeddingId.Some? && row.embeddingId.value != "" && row.embeddingId.value != newId {
        ids := ids + [row.embeddingId.value];
      }
      var legacy := c.legacyId(row.paperId, row.chunkIndex);
      if legacy != newId {
        ids := ids + [legacy];
      }
      assert rows[..i + 1][..i] == rows[..i];
      assert ids == StaleOfAll(c, rows[..i]) + StaleOf(c, row);
    }
    assert rows[..|rows|] == rows;
    stale := FirstOccurrences(ids);
  }

  lemma RowIdsDistinct(db: Database, paperId: int)
    requires ValidDb(db)
    ensures var rows := PaperRows(db, paperId);
      forall i, j :: 0 <= i < j < |rows| ==> rows[i].id != rows[j].id
  {
    PaperRowsAre(db, paperId);
    var rows := PaperRows(db, paperId);
    forall i, j | 0 <= i < j < |rows| ensures rows[i].id != rows[j].id {
      assert rows[i] in rows && rows[j] in rows;
    }
  }

  function Texts(rows: seq<Row>): (r: seq<string>)
    ensures |r| == |rows|
  {
    seq(|rows|, i requires 0 <= i < |rows| => rows[i].content)
  }

  /** The stores, the fault schedule and the answer after a call. */
  datatype Reembedded = Reembedded(stores: Stores, faults: seq<Fault>, result: Result<nat, PublishError>)

  /** _store_reembedded_paper, run while the paper's advisory lock is held. */
  function StoreUnderLock(c: Settings, continueOnError: bool, s: Stores, faults: seq<Fault>, paperId: int,
                          rows: seq<Row>, vectors: seq<Vector>): Reembedded
    requires ValidDb(s.db) && |rows| == |vectors|
  {
    if !AllVisible(c, rows) then Reembedded(s, faults, Err(InvalidVisibility))
    else if ChunkSnapshot(PaperRows(s.db, paperId)) != ChunkSnapshot(rows)
            then Reembedded(s, faults, Err(ChunksChanged))
    else
      var outcome := Execute(c, s, PublishWrites(c, rows, vectors), faults, continueOnError);
      Reembedded(outcome.stores, outcome.faults,
                 if outcome.raised.Some? then Err(CallRaised(outcome.raised.value)) else Ok(|rows|))
  }

  /**
   * reembed_paper: an unlocked read of s, the embedding calls, then the locked
   * publication into whatever the stores hold when the lock is granted.
   */
  function Reembed(c: Settings, continueOnError: bool, s: Stores, granted: Stores, faults: seq<Fault>, paperId: int,
                   replies: seq<Reply>, batchSize: int, dimension: nat): Reembedded
    requires ValidDb(s.db) && ValidDb(granted.db)
  {
    var rows := PaperRows(s.db, paperId);
    if rows == [] then Reembedded(s, faults, Ok(0))
    else match EmbedAll(replies, |rows|, batchSize, dimension)
      case Err(error) => Reembedded(s, faults, Err(Embedding(error)))
      case Ok(vectors) => StoreUnderLock(c, continueOnError, granted, faults, paperId, rows, vectors)
  }

  class Backends {
    const settings: Settings
    const continueOnError: bool
    var stores: Stores
    /** How the next calls will end; calls beyond the schedule return normally. */
    var faults: seq<Fault>

    constructor (settings: Settings, continueOnError: bool, stores: Stores, faults: seq<Fault>)
      ensures this.settings == settings && this.continueOnError == continueOnError
      ensures this.stores == stores && this.faults == faults
    {
      this.settings, this.continueOnError, this.stores, this.faults := settings, continueOnError, stores, faults;
    }

    /** One awaited call on Qdrant or on the metadata transaction. */
    method Send(w: Write) returns (raised: bool)
      modifies this
      ensures faults == LaterFaults(old(faults))
      ensures raised <==> NextFault(old(faults)).Raises?
      ensures stores == Apply(settings, old(stores), Effective(w, NextFault(old(faults))))
    {
      var fault := NextFault(faults);
      raised := fault.Raises?;
      stores := Apply(settings, stores, Effective(w, fault));
      faults := LaterFaults(faults);
    }

    /** The end of a publication: the cleanup delete, whose failure may be tolerated, then the metadata transaction. */
    method FinishPublication(stale: seq<PointId>, updates: seq<Update>) returns (raised: Option<Stage>)
      modifies this
      ensures Outcome(stores, faults, raised) ==
        Execute(settings, old(stores), Cleanup(stale) + [Commit(updates)], old(faults), continueOnError)
    {
      if stale != [] {
        assert Cleanup(stale) + [Commit(updates)] == [Delete(stale)] + [Commit(updates)];
        ExecuteStep(settings, stores, Delete(stale), [Commit(updates)], faults, continueOnError);
        var failed := Send(Delete(stale));
        if failed && !continueOnError { return Some(Cleaning); }
      } else {
        assert Cleanup(stale) + [Commit(updates)] == [Commit(updates)];
      }
      assert [Commit(updates)] == [Commit(updates)] + [];
      ExecuteStep(settings, stores, Commit(updates), [], faults, continueOnError);
      var failed := Send(Commit(updates));
      raised := if failed then Some(Recording) else None;
    }

    /** The publication itself: batched upserts, the cleanup delete, the metadata transaction. */
    method PublishPoints(points: seq<PointStruct>, stale: seq<PointId>, updates: seq<Update>)
      returns (raised: Option<Stage>)
      modifies this
      ensures Outcome(stores, faults, raised) ==
        Execute(settings, old(stores), UpsertBatches(points) + Cleanup(stale) + [Commit(updates)], old(faults),
                continueOnError)
    {
      ghost var tail := Cleanup(stale) + [Commit(updates)];
      ghost var outcome := Execute(settings, stores, UpsertBatches(points) + tail, faults, continueOnError);
      assert UpsertBatches(points) + Cleanup(stale) + [Commit(updates)] == UpsertBatches(points) + tail;
      var offset := 0;
      assert points[0..] == points;
      while offset < |points|
        invariant 0 <= offset <= |points|
        invariant Execute(settings, stores, UpsertBatches(points[offset..]) + tail, faults, continueOnError) == outcome
      {
        var next := if offset + UPSERT_BATCH_SIZE < |points| then offset + UPSERT_BATCH_SIZE else |points|;
        FirstBatch(points, offset, next, tail);
        ExecuteStep(settings, stores, Upsert(points[offset..next]), UpsertBatches(points[next..]) + tail, faults,
                    continueOnError);
        var failed := Send(Upsert(points[offset..next]));
        if failed { return Some(Upserting); }
        offset := next;
      }
      assert UpsertBatches(points[offset..]) + tail == tail;
      raised := FinishPublication(stale, updates);
    }

    method StoreReembeddedPaper(paperId: int, rows: seq<Row>, vectors: seq<Vector>)
      returns (r: Result<nat, PublishError>)
      requires ValidDb(stores.db) && |rows| == |vectors|
      requires forall i, j :: 0 <= i < j < |rows| ==> rows[i].id != rows[j].id
      modifies this
      ensures Reembedded(stores, faults, r) ==
        StoreUnderLock(settings, continueOnError, old(stores), old(faults), paperId, rows, vectors)
    {
      var built := ReembeddedPoints(settings, rows, vectors);
      if built.Err? { return Err(built.error); }
      var (points, updates) := built.value;
      var stale := StaleReembeddedPointIds(settings, rows, updates);
      var current := PaperRows(stores.db, paperId);
      if ChunkSnapshot(current) != ChunkSnapshot(rows) {
        return Err(ChunksChanged);
      }
      var raised := PublishPoints(points, stale, updates);
      r := if raised.Some? then Err(CallRaised(raised.value)) else Ok(|rows|);
    }

    /** granted is what the stores hold when the paper's lock is granted. */
    method ReembedPaper(paperId: int, replies: seq<Reply>, batchSize: int, dimension: nat, granted: Stores)
      returns (r: Result<nat, PublishError>)
      requires ValidDb(stores.db) && ValidDb(granted.db)
      modifies this
      ensures Reembedded(stores, faults, r) ==
        Reembed(settings, continueOnError, old(stores), granted, old(faults), paperId, replies, batchSize, dimension)
    {
      var rows := PaperRows(stores.db, paperId);
      if rows == [] { return Ok(0); }
      RowIdsDistinct(stores.db, paperId);
      var texts := Texts(rows);
      var embedded := EmbedTextsInBatches(texts, replies, batchSize, dimension);
      if embedded.Err? { return Err(Embedding(embedded.error)); }
      stores := granted;
      r := StoreReembeddedPaper(paperId, rows, embedded.value);
    }
  }

  /** What of a call takes effect. */
  function Effective(w: Write, fault: Fault): Write {
    if fault.Fine? then w else Partial(w, fault.applied)
  }

  lemma ExecuteStep(c: Settings, s: Stores, w: Write, rest: seq<Write>, faults: seq<Fault>, continueOnError: bool)
    ensures var after := Apply(c, s, Effective(w, NextFault(faults)));
      Execute(c, s, [w] + rest, faults, continueOnError) ==
        if NextFault(faults).Fine? || (w.Delete? && continueOnError)
        then Execute(c, after, rest, LaterFaults(faults), continueOnError)
        else Outcome(after, LaterFaults(faults), Some(StageOf(w)))
    ensures rest == [] && NextFault(faults).Fine? ==>
      Execute(c, s, [w] + rest, faults, continueOnError) == Outcome(Apply(c, s, w), LaterFaults(faults), None)
  {
    assert ([w] + rest)[1..] == rest;
  }

  /** The run gets as far as publishing: its rows embed, are visible, and are still the paper's rows under the lock. */
  predicate Publishes(c: Settings, s: Stores, granted: Stores, paperId: int, replies: seq<Reply>, batchSize: int,
                      dimension: nat)
    requires ValidDb(s.db) && ValidDb(granted.db)
  {
    var rows := PaperRows(s.db, paperId);
    rows != [] && EmbedAll(replies, |rows|, batchSize, dimension).Ok? && AllVisible(c, rows)
    && rows == PaperRows(granted.db, paperId)
  }

  /** Whatever the faults in store for its calls, the run changes nothing and uses none of them up: it makes no call. */
  ghost predicate SendsNothing(c: Settings, continueOnError: bool, s: Stores, granted: Stores, paperId: int,
                               replies: seq<Reply>, batchSize: int, dimension: nat)
    requires ValidDb(s.db) && ValidDb(granted.db)
  {
    forall faults: seq<Fault> {:trigger Reembed(c, continueOnError, s, granted, faults, paperId, replies, batchSize,
                                                dimension)} ::
      var run := Reembed(c, continueOnError, s, granted, faults, paperId, replies, batchSize, dimension);
      (run.stores == s || run.stores == granted) && run.faults == faults
  }

  /**
   * A run executes exactly the writes computed from the rows the paper has under the lock,
   * provided they embedded, are visible and did not change since the unlocked read;
   * otherwise it sends nothing to either store.
   */
  lemma PublishesHeldRowsOrNothing(c: Settings, continueOnError: bool, s: Stores, granted: Stores, faults: seq<Fault>,
                                   paperId: int,
                                   replies: seq<Reply>, batchSize: int, dimension: nat)
    requires ValidDb(s.db) && ValidDb(granted.db)
    ensures var held := PaperRows(granted.db, paperId);
      if Publishes(c, s, granted, paperId, replies, batchSize, dimension) then
        var outcome := Execute(c, granted, PublishWrites(c, held, Answers(replies, batchSize, |held|)), faults,
                               continueOnError);
        Reembed(c, continueOnError, s, granted, faults, paperId, replies, batchSize, dimension)
        == Reembedded(outcome.stores, outcome.faults,
                      if outcome.raised.Some? then Err(CallRaised(outcome.raised.value)) else Ok(|held|))
      else SendsNothing(c, continueOnError, s, granted, paperId, replies, batchSize, dimension)
  {
    OwnRows(s.db, paperId);
    if Publishes(c, s, granted, paperId, replies, batchSize, dimension) {
      PublishesRowsStillThere(c, continueOnError, granted, faults, paperId, PaperRows(s.db, paperId),
                              Answers(replies, batchSize, |PaperRows(s.db, paperId)|));
    } else {
      SendsNothingUnlessPublishing(c, continueOnError, s, granted, paperId, replies, batchSize, dimension);
    }
  }

  lemma OwnRows(db: Database, paperId: int)
    requires ValidDb(db)
    ensures forall k :: 0 <= k < |PaperRows(db, paperId)| ==> PaperRows(db, paperId)[k].paperId == paperId
  {
    PaperRowsAre(db, paperId);
    var rows := PaperRows(db, paperId);
    assert forall k :: 0 <= k < |rows| ==> rows[k] in rows;
  }

  lemma SendsNothingUnlessPublishing(c: Settings, continueOnError: bool, s: Stores, granted: Stores, paperId: int,
                                     replies: seq<Reply>, batchSize: int, dimension: nat)
    requires ValidDb(s.db) && ValidDb(granted.db)
    requires !Publishes(c, s, granted, paperId, replies, batchSize, dimension)
    ensures SendsNothing(c, continueOnError, s, granted, paperId, replies, batchSize, dimension)
  {
    var rows := PaperRows(s.db, paperId);
    OwnRows(s.db, paperId);
    forall faults: seq<Fault>
      ensures var run := Reembed(c, continueOnError, s, granted, faults, paperId, replies, batchSize, dimension);
        (run.stores == s || run.stores == granted) && run.faults == faults
    {
      if rows != [] && EmbedAll(replies, |rows|, batchSize, dimension).Ok? {
        PublishesRowsStillThere(c, continueOnError, granted, faults, paperId, rows,
                                Answers(replies, batchSize, |rows|));
      }
    }
  }

  /** Under the lock: the embedded rows are published if they are still the paper's rows, otherwise nothing is sent. */
  lemma PublishesRowsStillThere(c: Settings, continueOnError: bool, granted: Stores, faults: seq<Fault>, paperId: int,
                                rows: seq<Row>, vectors: seq<Vector>)
    requires ValidDb(granted.db) && |rows| == |vectors| && forall k :: 0 <= k < |rows| ==> rows[k].paperId == paperId
    ensures var run := StoreUnderLock(c, continueOnError, granted, faults, paperId, rows, vectors);
      if AllVisible(c, rows) && rows == PaperRows(granted.db, paperId) then
        var outcome := Execute(c, granted, PublishWrites(c, rows, vectors), faults, continueOnError);
        run ==
        Reembedded(outcome.stores, outcome.faults,
                   if outcome.raised.Some? then Err(CallRaised(outcome.raised.value)) else Ok(|rows|))
      else run.stores == granted && run.faults == faults
  {
    var held := PaperRows(granted.db, paperId);
    PaperRowsAre(granted.db, paperId);
    if ChunkSnapshot(held) == ChunkSnapshot(rows) { SnapshotDeterminesRows(held, rows, paperId); }
  }

  /** The snapshot covers every row field: equal snapshots of one paper's rows are equal rows, hence equal points. */
  lemma SnapshotDeterminesRows(a: seq<Row>, b: seq<Row>, paperId: int)
    requires forall r :: r in a ==> r.paperId == paperId
    requires forall k :: 0 <= k < |b| ==> b[k].paperId == paperId
    requires ChunkSnapshot(a) == ChunkSnapshot(b)
    ensures a == b
  {
    assert |a| == |ChunkSnapshot(a)| == |b|;
    forall i | 0 <= i < |a| ensures a[i] == b[i] {
      assert ChunkSnapshot(a)[i] == ChunkSnapshot(b)[i];
      assert a[i] in a;
    }
  }
}
