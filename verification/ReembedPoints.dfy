/** scripts/reembed.py: what a published point and its chunk row hold, column by column. */
module ReembedPoints {
  import opened Base
  import opened ReembedModel
  import opened ReembedScan
  import opened ReembedPublish
  import opened ReembedRecovery
  import opened ReembedVerdict
  import opened ReembedCommand

  /** The chunk is one of the paper's. */
  predicate ChunkOf(db: Database, paperId: int, id: int) {
    id in db.chunks && db.chunks[id].paperId == Some(paperId) && paperId in db.papers
  }

  /** How many chunks of the paper come before this index: the chunk's place among the embedded texts. */
  ghost function Place(db: Database, paperId: int, index: int): nat {
    |Earlier(db, paperId, index)|
  }

  ghost function Earlier(db: Database, paperId: int, index: int): set<int> {
    set id | id in db.chunks && ChunkOf(db, paperId, id) && db.chunks[id].chunkIndex < index
  }

  /** No other chunk of the paper still carries the id as its old one. */
  ghost predicate Unremembered(db: Database, paperId: int, pid: PointId, id: int) {
    forall other :: ChunkOf(db, paperId, other) && db.chunks[other].embeddingId == Some(pid) ==> other == id
  }

  /** The stored point says of the chunk what its columns and its paper's columns say, with this vector. */
  ghost predicate Describes(c: Settings, point: Point, chunk: ChunkRow, paper: PaperRow, paperId: int, vector: Vector) {
    && point.vector == vector
    && point.payload.paperId == Some(paperId)
    && point.payload.chunkIndex == Some(chunk.chunkIndex)
    && point.payload.pageNumber == chunk.pageNumber
    && point.payload.content == Some(chunk.content)
    && point.payload.embeddingModel == Some(c.model)
    && point.payload.userId == paper.discoveredBy
    && point.payload.sourceType == Some(paper.sourceType)
    && point.payload.visibilityScope == Some(paper.visibilityScope)
    && point.payload.visibilityGeneration == Some(c.generation)
    && point.payload.embeddingFingerprint == Some(c.fingerprint(chunk.content))
  }

  // ---- a row's place ---------------------------------------------------------------------------

  lemma {:induction false} PrefixIds(rows: seq<Row>, k: nat)
    requires k <= |rows| && forall i, j :: 0 <= i < j < |rows| ==> rows[i].id != rows[j].id
    ensures |set i: nat | i < k :: rows[i].id| == k
  {
    if k > 0 {
      PrefixIds(rows, k - 1);
      var front := set i: nat | i < k - 1 :: rows[i].id;
      assert (set i: nat | i < k :: rows[i].id) == front + {rows[k - 1].id};
    }
  }

  lemma EarlierIs(db: Database, paperId: int, k: nat, id: int)
    requires ValidDb(db) && k < |PaperRows(db, paperId)|
    ensures id in Earlier(db, paperId, PaperRows(db, paperId)[k].chunkIndex)
       <==> exists i: nat :: i < k && PaperRows(db, paperId)[i].id == id
  {
    var rows := PaperRows(db, paperId);
    PaperRowsAre(db, paperId);
    if id in Earlier(db, paperId, rows[k].chunkIndex) {
      assert RowOf(db, id) in rows;
      var i :| 0 <= i < |rows| && rows[i] == RowOf(db, id);
    }
    if i: nat :| i < k && rows[i].id == id { assert rows[i] in rows; }
  }

  lemma PlaceIs(db: Database, paperId: int, k: nat)
    requires ValidDb(db) && k < |PaperRows(db, paperId)|
    ensures Place(db, paperId, PaperRows(db, paperId)[k].chunkIndex) == k
  {
    var rows := PaperRows(db, paperId);
    var ids := set i: nat | i < k :: rows[i].id;
    RowIdsDistinct(db, paperId);
    PrefixIds(rows, k);
    forall id ensures id in Earlier(db, paperId, rows[k].chunkIndex) <==> id in ids { EarlierIs(db, paperId, k, id); }
    assert Earlier(db, paperId, rows[k].chunkIndex) == ids;
  }

  /** A chunk's row among the paper's rows. */
  lemma RowAt(db: Database, paperId: int, id: int) returns (k: nat)
    requires ValidDb(db) && ChunkOf(db, paperId, id)
    ensures Joined(db, id) && k < |PaperRows(db, paperId)| && PaperRows(db, paperId)[k] == RowOf(db, id)
    ensures k == Place(db, paperId, db.chunks[id].chunkIndex)
  {
    PaperRowsAre(db, paperId);
    assert RowOf(db, id) in PaperRows(db, paperId);
    k :| 0 <= k < |PaperRows(db, paperId)| && PaperRows(db, paperId)[k] == RowOf(db, id);
    PlaceIs(db, paperId, k);
  }

  // ---- the points ---------------------------------------------------------------------------------

  /** Whatever the index held, the upserts leave this row's point for its id, with its vector. */
  lemma UpsertedPoint(c: Settings, db: Database, index: Index, paperId: int, vectors: seq<Vector>, id: int, k: nat)
    requires Lawful(c) && ValidDb(db) && |vectors| == |PaperRows(db, paperId)|
    requires ChunkOf(db, paperId, id) && k < |vectors| && PaperRows(db, paperId)[k] == RowOf(db, id)
    ensures var after, pid := UpsertAll(index, Points(c, PaperRows(db, paperId), vectors)),
                              c.pointId(paperId, db.chunks[id].chunkIndex);
      pid in after && Describes(c, after[pid], db.chunks[id], db.papers[paperId], paperId, vectors[k])
  {
    var rows := PaperRows(db, paperId);
    var points := Points(c, rows, vectors);
    var pid := c.pointId(paperId, db.chunks[id].chunkIndex);
    UpsertLookups(index, points);
    RowIdsDistinct(db, paperId);
    assert points[k].id == pid;
    forall j | 0 <= j < |points| && points[j].id == pid ensures j == k { OwnRow(c, db, paperId, j, id); }
  }

  /** The chunk leaves this id behind: it remembers it, or it is the chunk's id of the superseded scheme. */
  predicate LeavesBehind(c: Settings, chunk: ChunkRow, paperId: int, pid: PointId) {
    || (pid != "" && chunk.embeddingId == Some(pid) && pid != c.pointId(paperId, chunk.chunkIndex))
    || pid == c.legacyId(paperId, chunk.chunkIndex)
  }

  lemma StaleOfChunk(c: Settings, db: Database, paperId: int, id: int, pid: PointId)
    requires Lawful(c) && ChunkOf(db, paperId, id)
    ensures pid in StaleOf(c, RowOf(db, id)) <==> LeavesBehind(c, db.chunks[id], paperId, pid)
  {
  }

  /** The points a publication deletes: what the paper's chunks leave behind. */
  lemma StaleExactly(c: Settings, db: Database, paperId: int, pid: PointId)
    requires Lawful(c) && ValidDb(db)
    ensures pid in Stale(c, PaperRows(db, paperId)) <==>
      exists id :: ChunkOf(db, paperId, id) && LeavesBehind(c, db.chunks[id], paperId, pid)
  {
    var rows := PaperRows(db, paperId);
    StaleMembers(c, rows);
    PaperRowsAre(db, paperId);
    if r :| r in rows && pid in StaleOf(c, r) {
      assert ChunkOf(db, paperId, r.id);
      StaleOfChunk(c, db, paperId, r.id, pid);
    }
    if id :| ChunkOf(db, paperId, id) && LeavesBehind(c, db.chunks[id], paperId, pid) {
      StaleOfChunk(c, db, paperId, id, pid);
      assert RowOf(db, id) in rows;
    }
  }

  lemma NotStale(c: Settings, db: Database, paperId: int, id: int)
    requires Lawful(c) && ValidDb(db) && ChunkOf(db, paperId, id)
    requires Unremembered(db, paperId, c.pointId(paperId, db.chunks[id].chunkIndex), id)
    ensures c.pointId(paperId, db.chunks[id].chunkIndex) !in Stale(c, PaperRows(db, paperId))
  {
    StaleExactly(c, db, paperId, c.pointId(paperId, db.chunks[id].chunkIndex));
  }

  /** What an execution that raises nothing leaves of a chunk, its row and its point, cleanup cut short or not. */
  lemma ExecutedPoint(c: Settings, db: Database, t: Stores, paperId: int, vectors: seq<Vector>, faults: seq<Fault>,
                      continueOnError: bool, id: int, k: nat)
    requires Lawful(c) && ValidDb(db) && |vectors| == |PaperRows(db, paperId)|
    requires ChunkOf(db, paperId, id) && k < |vectors| && PaperRows(db, paperId)[k] == RowOf(db, id)
    requires id in t.db.chunks
    requires Execute(c, t, PublishWrites(c, PaperRows(db, paperId), vectors), faults, continueOnError).raised.None?
    ensures var after := Execute(c, t, PublishWrites(c, PaperRows(db, paperId), vectors), faults,
                                 continueOnError).stores;
      var pid := c.pointId(paperId, db.chunks[id].chunkIndex);
      && (Unremembered(db, paperId, pid, id) ==>
            pid in after.index &&
            Describes(c, after.index[pid], db.chunks[id], db.papers[paperId], paperId, vectors[k]))
      && id in after.db.chunks
      && after.db.chunks[id] == t.db.chunks[id].(embeddingId := Some(pid), embeddingModel := Some(c.model))
  {
    var rows := PaperRows(db, paperId);
    var points, stale, updates := Points(c, rows, vectors), Stale(c, rows), Updates(c, rows);
    assert PublishWrites(c, rows, vectors) == UpsertBatches(points) + (Cleanup(stale) + [Commit(updates)]);
    var later := UpsertsDone(c, t, points, Cleanup(stale) + [Commit(updates)], faults, continueOnError);
    var gone := EndDone(c, t.(index := UpsertAll(t.index, points)), stale, updates, later, continueOnError);
    UpsertedPoint(c, db, t.index, paperId, vectors, id, k);
    RecordedElsewhere(c, db, t.db.chunks, paperId, id);
    if Unremembered(db, paperId, c.pointId(paperId, db.chunks[id].chunkIndex), id) { NotStale(c, db, paperId, id); }
  }

  /** Equal rows are equal columns. */
  lemma SameChunk(a: Database, b: Database, paperId: int, id: int)
    requires ValidDb(a) && ValidDb(b) && PaperRows(a, paperId) == PaperRows(b, paperId) && ChunkOf(a, paperId, id)
    ensures ChunkOf(b, paperId, id) && b.chunks[id] == a.chunks[id] && b.papers[paperId] == a.papers[paperId]
  {
    PaperRowsAre(a, paperId);
    PaperRowsAre(b, paperId);
    assert RowOf(a, id) in PaperRows(b, paperId);
  }

  lemma SameUnremembered(a: Database, b: Database, paperId: int, pid: PointId, id: int)
    requires ValidDb(a) && ValidDb(b) && PaperRows(a, paperId) == PaperRows(b, paperId)
    requires Unremembered(a, paperId, pid, id)
    ensures Unremembered(b, paperId, pid, id)
  {
    forall other | ChunkOf(b, paperId, other) && b.chunks[other].embeddingId == Some(pid) ensures other == id {
      SameChunk(b, a, paperId, other);
    }
  }

  lemma RowsWithin(a: Database, b: Database, paperId: int)
    requires forall id :: ChunkOf(a, paperId, id) ==>
               ChunkOf(b, paperId, id) && a.chunks[id] == b.chunks[id] && a.papers[paperId] == b.papers[paperId]
    ensures RowsOfPaper(a, paperId) <= RowsOfPaper(b, paperId)
  {
    forall r | r in RowsOfPaper(a, paperId) ensures r in RowsOfPaper(b, paperId) {
      assert ChunkOf(a, paperId, r.id);
      assert Joined(b, r.id) && RowOf(b, r.id) == r;
    }
  }

  /** The same chunks of the paper with the same columns, and the same columns of the paper if it has any. */
  ghost predicate ChunksAgree(a: Database, b: Database, paperId: int) {
    && (forall id :: ChunkOf(a, paperId, id) <==> ChunkOf(b, paperId, id))
    && (forall id :: ChunkOf(a, paperId, id) ==>
                       a.chunks[id] == b.chunks[id] && a.papers[paperId] == b.papers[paperId])
  }

  lemma AgreeingRows(a: Database, b: Database, paperId: int)
    requires ValidDb(a) && ValidDb(b) && ChunksAgree(a, b, paperId)
    ensures PaperRows(a, paperId) == PaperRows(b, paperId)
  {
    RowsWithin(a, b, paperId);
    RowsWithin(b, a, paperId);
    assert RowsOfPaper(a, paperId) == RowsOfPaper(b, paperId);
  }

  /** The paper's chunks, and the paper's own columns, are as they were: the snapshots of the two reads agree. */
  lemma SnapshotsAgree(a: Database, b: Database, paperId: int)
    requires ValidDb(a) && ValidDb(b)
    ensures ChunkSnapshot(PaperRows(a, paperId)) == ChunkSnapshot(PaperRows(b, paperId)) <==> ChunksAgree(a, b, paperId)
  {
    OwnRows(b, paperId);
    PaperRowsAre(a, paperId);
    PaperRowsAre(b, paperId);
    if ChunkSnapshot(PaperRows(a, paperId)) == ChunkSnapshot(PaperRows(b, paperId)) {
      SnapshotDeterminesRows(PaperRows(a, paperId), PaperRows(b, paperId), paperId);
      forall id ensures ChunkOf(a, paperId, id) <==> ChunkOf(b, paperId, id) {
        if ChunkOf(a, paperId, id) { SameChunk(a, b, paperId, id); }
        if ChunkOf(b, paperId, id) { SameChunk(b, a, paperId, id); }
      }
      forall id | ChunkOf(a, paperId, id)
        ensures a.chunks[id] == b.chunks[id] && a.papers[paperId] == b.papers[paperId]
      {
        SameChunk(a, b, paperId, id);
      }
    }
    if ChunksAgree(a, b, paperId) { AgreeingRows(a, b, paperId); }
  }

  /** The reply to the batch that carries text number k holds the text's vector at its place in the batch. */
  ghost predicate Answers(replies: seq<Reply>, size: int, k: nat, vector: Vector) {
    && size > 0 && k / size < |replies| && replies[k / size].Some? && k % size < |replies[k / size].value|
    && vector == replies[k / size].value[k % size]
  }

  /**
   * A run of reembed_paper that ends well, other writers and tolerated failures or not: each
   * chunk of the paper is what it was at the first read, now records its own id and the target
   * model, and, unless another chunk of the paper still carries that id as its old one, has a
   * point with exactly the chunk's columns and the vector the backend gave for its text.
   */
  lemma ReembeddedPoint(c: Settings, continueOnError: bool, s: Stores, granted: Stores, faults: seq<Fault>,
                        paperId: int,
                        replies: seq<Reply>, size: int, dimension: nat, id: int) returns (vector: Vector)
    requires Lawful(c) && ValidDb(s.db) && ValidDb(granted.db) && ChunkOf(s.db, paperId, id)
    requires Reembed(c, continueOnError, s, granted, faults, paperId, replies, size, dimension).result.Ok?
    ensures ChunkOf(granted.db, paperId, id) && granted.db.chunks[id] == s.db.chunks[id]
    ensures Answers(replies, size, Place(s.db, paperId, s.db.chunks[id].chunkIndex), vector) && |vector| == dimension
    ensures var after := Reembed(c, continueOnError, s, granted, faults, paperId, replies, size, dimension).stores;
      var chunk, pid := s.db.chunks[id], c.pointId(paperId, s.db.chunks[id].chunkIndex);
      && (Unremembered(s.db, paperId, pid, id) ==>
            pid in after.index && Describes(c, after.index[pid], chunk, s.db.papers[paperId], paperId, vector))
      && id in after.db.chunks
      && after.db.chunks[id] == chunk.(embeddingId := Some(pid), embeddingModel := Some(c.model))
  {
    var rows, held := PaperRows(s.db, paperId), PaperRows(granted.db, paperId);
    var k := RowAt(s.db, paperId, id);
    var vectors := EmbedAll(replies, |rows|, size, dimension).value;
    EmbeddedInOrder(replies, |rows|, size, dimension, k);
    vector := vectors[k];
    OwnRows(s.db, paperId);
    PublishesRowsStillThere(c, continueOnError, granted, faults, paperId, rows, vectors);
    PaperRowsAre(granted.db, paperId);
    SnapshotDeterminesRows(held, rows, paperId);
    SameChunk(s.db, granted.db, paperId, id);
    ExecutedPoint(c, granted.db, granted, paperId, vectors, faults, continueOnError, id, k);
    if Unremembered(s.db, paperId, c.pointId(paperId, s.db.chunks[id].chunkIndex), id) {
      SameUnremembered(s.db, granted.db, paperId, c.pointId(paperId, s.db.chunks[id].chunkIndex), id);
    }
  }

  // ---- everything else, and the backend -----------------------------------------------------------

  /** What a run that ends well does to every other point: those left behind may go, the others stay. */
  lemma OtherPointsStay(c: Settings, continueOnError: bool, s: Stores, granted: Stores, faults: seq<Fault>,
                        paperId: int,
                        replies: seq<Reply>, size: int, dimension: nat, pid: PointId)
    requires Lawful(c) && ValidDb(s.db) && ValidDb(granted.db)
    requires Reembed(c, continueOnError, s, granted, faults, paperId, replies, size, dimension).result.Ok?
    requires forall id :: ChunkOf(s.db, paperId, id) ==>
               pid != c.pointId(paperId, s.db.chunks[id].chunkIndex) && !LeavesBehind(c, s.db.chunks[id], paperId, pid)
    ensures var after := Reembed(c, continueOnError, s, granted, faults, paperId, replies, size,
                                 dimension).stores.index;
      var before := if PaperRows(s.db, paperId) == [] then s.index else granted.index;
      Lookup(after, pid) == Lookup(before, pid)
  {
    var rows := PaperRows(s.db, paperId);
    if rows != [] {
      var vectors := EmbedAll(replies, |rows|, size, dimension).value;
      OwnRows(s.db, paperId);
      PublishesRowsStillThere(c, continueOnError, granted, faults, paperId, rows, vectors);
      PaperRowsAre(granted.db, paperId);
      SnapshotDeterminesRows(PaperRows(granted.db, paperId), rows, paperId);
      OtherPointsThrough(c, s.db, granted, paperId, vectors, faults, continueOnError, pid);
    }
  }

  lemma OtherPointsThrough(c: Settings, db: Database, t: Stores, paperId: int, vectors: seq<Vector>, faults: seq<Fault>,
                           continueOnError: bool, pid: PointId)
    requires Lawful(c) && ValidDb(db) && |vectors| == |PaperRows(db, paperId)|
    requires Execute(c, t, PublishWrites(c, PaperRows(db, paperId), vectors), faults, continueOnError).raised.None?
    requires forall id :: ChunkOf(db, paperId, id) ==>
               pid != c.pointId(paperId, db.chunks[id].chunkIndex) && !LeavesBehind(c, db.chunks[id], paperId, pid)
    ensures Lookup(Execute(c, t, PublishWrites(c, PaperRows(db, paperId), vectors), faults,
                           continueOnError).stores.index, pid)
         == Lookup(t.index, pid)
  {
    var rows := PaperRows(db, paperId);
    var points, stale, updates := Points(c, rows, vectors), Stale(c, rows), Updates(c, rows);
    assert PublishWrites(c, rows, vectors) == UpsertBatches(points) + (Cleanup(stale) + [Commit(updates)]);
    var later := UpsertsDone(c, t, points, Cleanup(stale) + [Commit(updates)], faults, continueOnError);
    var gone := EndDone(c, t.(index := UpsertAll(t.index, points)), stale, updates, later, continueOnError);
    StaleExactly(c, db, paperId, pid);
    UpsertLookups(t.index, points);
    PaperRowsAre(db, paperId);
    forall k | 0 <= k < |points| ensures points[k].id != pid {
      assert rows[k] in rows;
      assert ChunkOf(db, paperId, rows[k].id);
    }
  }

  /** Repairing a paper with a backend that embeds each text: the point of a chunk has the vector of its content. */
  lemma HonestPoint(c: Settings, s: Stores, paperId: int, embed: string -> Vector, id: int)
    requires Lawful(c) && ValidDb(s.db) && ChunkOf(s.db, paperId, id)
    requires VisibilityOk(c, s.db.papers[paperId].sourceType, s.db.papers[paperId].visibilityScope)
    requires Unremembered(s.db, paperId, c.pointId(paperId, s.db.chunks[id].chunkIndex), id)
    ensures var after, pid := Repaired(c, s, paperId, embed), c.pointId(paperId, s.db.chunks[id].chunkIndex);
      && pid in after.index
      && Describes(c, after.index[pid], s.db.chunks[id], s.db.papers[paperId], paperId, embed(s.db.chunks[id].content))
  {
    var rows := PaperRows(s.db, paperId);
    var k := RowAt(s.db, paperId, id);
    PaperRowsAre(s.db, paperId);
    forall r | r in rows ensures VisibilityOk(c, r.sourceType, r.visibilityScope) { assert Joined(s.db, r.id); }
    UpsertedPoint(c, s.db, s.index, paperId, Embedded(embed, rows), id, k);
    NotStale(c, s.db, paperId, id);
  }

  // ---- the calls ------------------------------------------------------------------------------------

  /** All the points, in order. */
  function Sent(writes: seq<Write>): seq<PointStruct> {
    if writes == [] then [] else (if writes[0].Upsert? then writes[0].points else []) + Sent(writes[1..])
  }

  /** The upserts carry every point once, in order, a hundred to a call and the rest in the last. */
  lemma {:induction false} BatchesOfHundred(points: seq<PointStruct>)
    ensures var batches := UpsertBatches(points);
      && Sent(batches) == points
      && (forall k :: 0 <= k < |batches| ==> batches[k].Upsert? && 0 < |batches[k].points| <= 100)
      && (forall k :: 0 <= k < |batches| - 1 ==> |batches[k].points| == 100)
    decreases |points|
  {
    if points != [] && |points| <= UPSERT_BATCH_SIZE {
      assert UpsertBatches(points)[1..] == [];
    } else if points != [] {
      var rest := points[UPSERT_BATCH_SIZE..];
      BatchesOfHundred(rest);
      assert UpsertBatches(points)[1..] == UpsertBatches(rest);
      assert points[..UPSERT_BATCH_SIZE] + rest == points;
    }
  }

  /** A source type of nothing but white space, another scope, or a generation that is not 32 hex digits. */
  predicate Misfit(c: Settings, sourceType: string, scope: string) {
    || (forall i :: 0 <= i < |sourceType| ==> IsPythonSpace(sourceType[i]))
    || (scope != "public" && scope != "private")
    || |c.generation| != 32
    || exists i :: 0 <= i < |c.generation| && c.generation[i] !in "0123456789abcdef"
  }

  /** Building the points is refused exactly for such a row. */
  lemma RefusedRows(c: Settings, rows: seq<Row>)
    ensures !AllVisible(c, rows) <==> exists r :: r in rows && Misfit(c, r.sourceType, r.visibilityScope)
  {
    HexDigits(c.generation);
    forall r | r in rows
      ensures VisibilityOk(c, r.sourceType, r.visibilityScope) <==> !Misfit(c, r.sourceType, r.visibilityScope)
    {
    }
  }

  lemma HexDigits(s: string)
    ensures forall i :: 0 <= i < |s| ==> (s[i] in "0123456789abcdef" <==> '0' <= s[i] <= '9' || 'a' <= s[i] <= 'f')
  {
    forall i | 0 <= i < |s| ensures s[i] in "0123456789abcdef" <==> '0' <= s[i] <= '9' || 'a' <= s[i] <= 'f' {
      HexDigit(s[i]);
    }
  }

  lemma HexDigit(c: char)
    ensures c in "0123456789abcdef" <==> '0' <= c <= '9' || 'a' <= c <= 'f'
  {
    var all := "0123456789abcdef";
    if '0' <= c <= '9' { assert all[c as int - '0' as int] == c; }
    if 'a' <= c <= 'f' { assert all[10 + (c as int - 'a' as int)] == c; }
  }
}
