/** scripts/reembed.py: the two stores, the point built for a chunk row, and the writes of one publication. */
module ReembedModel {
  import opened Base

  type PointId = string
  type Vector = seq<real>

  datatype ChunkRow = ChunkRow(
    paperId: Option<int>, chunkIndex: int, content: string,
    pageNumber: Option<int>, startChar: Option<int>, endChar: Option<int>,
    embeddingId: Option<PointId>, embeddingModel: Option<string>)

  datatype PaperRow = PaperRow(sourceType: string, visibilityScope: string, discoveredBy: Option<int>)

  datatype Database = Database(chunks: map<int, ChunkRow>, papers: map<int, PaperRow>)

  /** One stored payload; a key the payload does not carry is None. */
  datatype Payload = Payload(
    paperId: Option<int>, chunkIndex: Option<int>, pageNumber: Option<int>, content: Option<string>,
    embeddingModel: Option<string>, userId: Option<int>,
    sourceType: Option<string>, visibilityScope: Option<string>, visibilityGeneration: Option<string>,
    embeddingFingerprint: Option<string>)

  datatype Point = Point(vector: Vector, payload: Payload)

  datatype PointStruct = PointStruct(id: PointId, point: Point)

  type Index = map<PointId, Point>

  datatype Stores = Stores(db: Database, index: Index)

  /** The imported identity functions and the configured target. */
  datatype Settings = Settings(
    pointId: (int, int) -> PointId, legacyId: (int, int) -> PointId, fingerprint: string -> string,
    model: string, generation: string)

  /**
   * What the imported functions promise: one canonical id per (paper, chunk
   * index), never empty, and never equal to an id of the superseded scheme.
   */
  ghost predicate Lawful(c: Settings) {
    && (forall p, i, q, j :: c.pointId(p, i) == c.pointId(q, j) ==> p == q && i == j)
    && (forall p, i :: c.pointId(p, i) != "")
    && (forall p, i, q, j :: c.legacyId(p, i) != c.pointId(q, j))
  }

  /** A row of the chunk/paper join, as both queries return it. */
  datatype Row = Row(
    id: int, paperId: int, chunkIndex: int, content: string,
    pageNumber: Option<int>, startChar: Option<int>, endChar: Option<int>,
    embeddingId: Option<PointId>, embeddingModel: Option<string>,
    sourceType: string, visibilityScope: string, discoveredBy: Option<int>)

  /** The table constraint UNIQUE (paper_id, chunk_index); NULLs are distinct. */
  ghost predicate ValidDb(db: Database) {
    forall a, b :: a in db.chunks && b in db.chunks
      && db.chunks[a].paperId.Some? && db.chunks[a].paperId == db.chunks[b].paperId
      && db.chunks[a].chunkIndex == db.chunks[b].chunkIndex
      ==> a == b
  }

  /** The chunk survives the inner join with papers. */
  predicate Joined(db: Database, id: int) {
    id in db.chunks && db.chunks[id].paperId.Some? && db.chunks[id].paperId.value in db.papers
  }

  function RowOf(db: Database, id: int): Row
    requires Joined(db, id)
  {
    var chunk := db.chunks[id];
    var paper := db.papers[chunk.paperId.value];
    Row(id, chunk.paperId.value, chunk.chunkIndex, chunk.content,
        chunk.pageNumber, chunk.startChar, chunk.endChar, chunk.embeddingId, chunk.embeddingModel,
        paper.sourceType, paper.visibilityScope, paper.discoveredBy)
  }

  function RowsOfPaper(db: Database, paperId: int): set<Row> {
    set id | id in db.chunks && Joined(db, id) && RowOf(db, id).paperId == paperId :: RowOf(db, id)
  }

  /** _PAPER_CHUNKS_SQL: a paper's joined rows ordered by chunk_index. */
  function PaperRows(db: Database, paperId: int): seq<Row>
    requires ValidDb(db)
  {
    SortedBy(RowsOfPaper(db, paperId), (r: Row) => r.chunkIndex)
  }

  lemma PaperRowsAre(db: Database, paperId: int)
    requires ValidDb(db)
    ensures forall r :: r in PaperRows(db, paperId) <==>
              Joined(db, r.id) && r == RowOf(db, r.id) && r.paperId == paperId
    ensures Ascending(PaperRows(db, paperId), (r: Row) => r.chunkIndex)
  {
    SortedByMembers(RowsOfPaper(db, paperId), (r: Row) => r.chunkIndex);
    SortedByAscends(RowsOfPaper(db, paperId), (r: Row) => r.chunkIndex);
  }

  /** Every column _chunk_snapshot compares. */
  datatype RowSnapshot = RowSnapshot(
    id: int, chunkIndex: int, content: string,
    pageNumber: Option<int>, startChar: Option<int>, endChar: Option<int>,
    embeddingId: Option<PointId>, embeddingModel: Option<string>,
    sourceType: string, visibilityScope: string, discoveredBy: Option<int>)

  function ChunkSnapshot(rows: seq<Row>): (r: seq<RowSnapshot>)
    ensures |r| == |rows|
  {
    seq(|rows|, i requires 0 <= i < |rows| =>
      RowSnapshot(rows[i].id, rows[i].chunkIndex, rows[i].content,
                  rows[i].pageNumber, rows[i].startChar, rows[i].endChar,
                  rows[i].embeddingId, rows[i].embeddingModel,
                  rows[i].sourceType, rows[i].visibilityScope, rows[i].discoveredBy))
  }

  // ---- the point of a row ---------------------------------------------------

  function Canonical(c: Settings, row: Row): PointId {
    c.pointId(row.paperId, row.chunkIndex)
  }

  function PayloadFor(c: Settings, row: Row): Payload {
    Payload(
      Some(row.paperId), Some(row.chunkIndex), row.pageNumber, Some(row.content),
      Some(c.model), row.discoveredBy,
      Some(row.sourceType), Some(row.visibilityScope), Some(c.generation),
      Some(c.fingerprint(row.content)))
  }

  function PointFor(c: Settings, row: Row, vector: Vector): PointStruct {
    PointStruct(Canonical(c, row), Point(vector, PayloadFor(c, row)))
  }

  /** _record_matches_chunk on the record found under the row's canonical id. */
  predicate RecordMatchesChunk(c: Settings, record: Option<PointStruct>, row: Row) {
    record.Some? &&
    var payload := record.value.point.payload;
    && record.value.id == Canonical(c, row)
    && row.embeddingModel == Some(c.model)
    && row.embeddingId == Some(Canonical(c, row))
    && payload.paperId == Some(row.paperId)
    && payload.chunkIndex == Some(row.chunkIndex)
    && payload.embeddingModel == Some(c.model)
    && payload.sourceType == Some(row.sourceType)
    && payload.visibilityScope == Some(row.visibilityScope)
    && payload.visibilityGeneration == Some(c.generation)
    && payload.embeddingFingerprint == Some(c.fingerprint(row.content))
  }

  function Lookup(index: Index, id: PointId): Option<PointStruct> {
    if id in index then Some(PointStruct(id, index[id])) else None
  }

  predicate Matches(c: Settings, index: Index, row: Row) {
    RecordMatchesChunk(c, Lookup(index, Canonical(c, row)), row)
  }

  /** The joined row with this id is served by its canonical point. */
  predicate Matched(c: Settings, s: Stores, id: int) {
    Joined(s.db, id) && Matches(c, s.index, RowOf(s.db, id))
  }

  /** VectorVisibility.__post_init__ accepts the paper's columns. */
  predicate VisibilityOk(c: Settings, sourceType: string, scope: string) {
    && (exists i :: 0 <= i < |sourceType| && !IsPythonSpace(sourceType[i]))
    && scope in {"public", "private"}
    && |c.generation| == 32
    && (forall i :: 0 <= i < 32 ==> '0' <= c.generation[i] <= '9' || 'a' <= c.generation[i] <= 'f')
  }

  predicate IsPythonSpace(ch: char) {
    || '\t' <= ch <= '\r' || '\U{1c}' <= ch <= ' ' || ch == '\U{85}' || ch == '\U{a0}' || ch == '\U{1680}'
    || '\U{2000}' <= ch <= '\U{200a}' || ch in {'\U{2028}', '\U{2029}', '\U{202f}', '\U{205f}', '\U{3000}'}
  }

  predicate AllVisible(c: Settings, rows: seq<Row>) {
    forall r :: r in rows ==> VisibilityOk(c, r.sourceType, r.visibilityScope)
  }

  // ---- the writes of one publication ---------------------------------------------

  datatype Update = Update(pointId: PointId, rowId: int)

  datatype Write =
    | Upsert(points: seq<PointStruct>)
    | Delete(ids: seq<PointId>)
    | Commit(updates: seq<Update>)

  function Points(c: Settings, rows: seq<Row>, vectors: seq<Vector>): (r: seq<PointStruct>)
    requires |rows| == |vectors|
  {
    seq(|rows|, i requires 0 <= i < |rows| => PointFor(c, rows[i], vectors[i]))
  }

  function Updates(c: Settings, rows: seq<Row>): seq<Update> {
    seq(|rows|, i requires 0 <= i < |rows| => Update(Canonical(c, rows[i]), rows[i].id))
  }

  /** The old ids one row leaves behind, before duplicates are dropped. */
  function StaleOf(c: Settings, row: Row): seq<PointId> {
    (if row.embeddingId.Some? && row.embeddingId.value != "" && row.embeddingId.value != Canonical(c, row)
     then [row.embeddingId.value] else [])
    + (if c.legacyId(row.paperId, row.chunkIndex) != Canonical(c, row)
       then [c.legacyId(row.paperId, row.chunkIndex)] else [])
  }

  function StaleOfAll(c: Settings, rows: seq<Row>): seq<PointId> {
    if rows == [] then [] else StaleOfAll(c, rows[..|rows| - 1]) + StaleOf(c, rows[|rows| - 1])
  }

  /** list(dict.fromkeys(ids)): first occurrences, in order. */
  function FirstOccurrences(ids: seq<PointId>): seq<PointId> {
    if ids == [] then []
    else
      var kept := FirstOccurrences(ids[..|ids| - 1]);
      if ids[|ids| - 1] in kept then kept else kept + [ids[|ids| - 1]]
  }

  function Stale(c: Settings, rows: seq<Row>): seq<PointId> {
    FirstOccurrences(StaleOfAll(c, rows))
  }

  const UPSERT_BATCH_SIZE := 100

  function UpsertBatches(points: seq<PointStruct>): seq<Write>
    decreases |points|
  {
    if points == [] then []
    else if |points| <= UPSERT_BATCH_SIZE then [Upsert(points)]
    else [Upsert(points[..UPSERT_BATCH_SIZE])] + UpsertBatches(points[UPSERT_BATCH_SIZE..])
  }

  function Cleanup(ids: seq<PointId>): seq<Write> {
    if ids == [] then [] else [Delete(ids)]
  }

  /** What _store_reembedded_paper sends, in order, once the snapshot agrees. */
  function PublishWrites(c: Settings, rows: seq<Row>, vectors: seq<Vector>): seq<Write>
    requires |rows| == |vectors|
  {
    UpsertBatches(Points(c, rows, vectors)) + Cleanup(Stale(c, rows)) + [Commit(Updates(c, rows))]
  }

  lemma FirstBatch(points: seq<PointStruct>, offset: nat, next: nat, tail: seq<Write>)
    requires offset < |points|
    requires next == if offset + UPSERT_BATCH_SIZE < |points| then offset + UPSERT_BATCH_SIZE else |points|
    ensures UpsertBatches(points[offset..]) + tail ==
            [Upsert(points[offset..next])] + (UpsertBatches(points[next..]) + tail)
  {
    var rest := points[offset..];
    if |rest| <= UPSERT_BATCH_SIZE {
      assert points[offset..next] == rest;
    } else {
      assert rest[..UPSERT_BATCH_SIZE] == points[offset..next];
      assert rest[UPSERT_BATCH_SIZE..] == points[next..];
    }
  }

  // ---- what a write does -----------------------------------------------------------

  function UpsertAll(index: Index, points: seq<PointStruct>): Index {
    if points == [] then index
    else UpsertAll(index, points[..|points| - 1])[points[|points| - 1].id := points[|points| - 1].point]
  }

  function DeleteAll(index: Index, ids: seq<PointId>): Index {
    map id | id in index && id !in ids :: index[id]
  }

  function CommitAll(c: Settings, chunks: map<int, ChunkRow>, updates: seq<Update>): map<int, ChunkRow> {
    if updates == [] then chunks
    else
      var before := CommitAll(c, chunks, updates[..|updates| - 1]);
      var u := updates[|updates| - 1];
      if u.rowId in before
      then before[u.rowId := before[u.rowId].(embeddingId := Some(u.pointId), embeddingModel := Some(c.model))]
      else before
  }

  function Apply(c: Settings, s: Stores, w: Write): Stores {
    match w
    case Upsert(points) => s.(index := UpsertAll(s.index, points))
    case Delete(ids) => s.(index := DeleteAll(s.index, ids))
    case Commit(updates) => s.(db := s.db.(chunks := CommitAll(c, s.db.chunks, updates)))
  }

  /** How one awaited call ends: it returns, or raises after n of its items took effect. */
  datatype Fault = Fine | Raises(applied: nat)

  /** The part of a raising call that took effect; the metadata transaction is all or nothing. */
  function Partial(w: Write, n: nat): Write {
    match w
    case Upsert(points) => if n < |points| then Upsert(points[..n]) else w
    case Delete(ids) => if n < |ids| then Delete(ids[..n]) else w
    case Commit(updates) => if n < |updates| then Commit([]) else w
  }

  /** Which call raised. */
  datatype Stage = Upserting | Cleaning | Recording

  function StageOf(w: Write): Stage {
    match w
    case Upsert(_) => Upserting
    case Delete(_) => Cleaning
    case Commit(_) => Recording
  }

  function NextFault(faults: seq<Fault>): Fault {
    if faults == [] then Fine else faults[0]
  }

  function LaterFaults(faults: seq<Fault>): seq<Fault> {
    if faults == [] then [] else faults[1..]
  }

  datatype Outcome = Outcome(stores: Stores, faults: seq<Fault>, raised: Option<Stage>)

  /**
   * The writes in order under a fault schedule. A raising call ends the run,
   * except a cleanup delete when REEMBED_CONTINUE_ON_ERROR is set. A schedule
   * that raises at call k shows the state a crash at call k leaves behind.
   */
  function Execute(c: Settings, s: Stores, writes: seq<Write>, faults: seq<Fault>, continueOnError: bool): Outcome
    decreases |writes|
  {
    if writes == [] then Outcome(s, faults, None)
    else match NextFault(faults)
      case Fine => Execute(c, Apply(c, s, writes[0]), writes[1..], LaterFaults(faults), continueOnError)
      case Raises(n) =>
        var after := Apply(c, s, Partial(writes[0], n));
        if writes[0].Delete? && continueOnError
        then Execute(c, after, writes[1..], LaterFaults(faults), continueOnError)
        else Outcome(after, LaterFaults(faults), Some(StageOf(writes[0])))
  }

  // ---- facts about the store operations ----------------------------------------

  lemma {:induction false} UpsertLookups(index: Index, points: seq<PointStruct>)
    ensures var after := UpsertAll(index, points);
      && (forall id :: id in after <==> id in index || exists k :: 0 <= k < |points| && points[k].id == id)
      && (forall id :: id in after ==>
            || (exists k :: 0 <= k < |points| && points[k].id == id && points[k].point == after[id])
            || (id in index && after[id] == index[id] && forall k :: 0 <= k < |points| ==> points[k].id != id))
  {
    if points != [] {
      var init, last := points[..|points| - 1], points[|points| - 1];
      UpsertLookups(index, init);
      assert forall k :: 0 <= k < |init| ==> init[k] == points[k];
    }
  }

  /** Batching does not change what is upserted. */
  lemma {:induction false} UpsertConcat(index: Index, a: seq<PointStruct>, b: seq<PointStruct>)
    ensures UpsertAll(index, a + b) == UpsertAll(UpsertAll(index, a), b)
  {
    if b == [] {
      assert a + b == a;
    } else {
      assert (a + b)[..|a + b| - 1] == a + b[..|b| - 1];
      UpsertConcat(index, a, b[..|b| - 1]);
    }
  }

  lemma {:induction false} CommitLookups(c: Settings, chunks: map<int, ChunkRow>, updates: seq<Update>)
    ensures var after := CommitAll(c, chunks, updates);
      && after.Keys == chunks.Keys
      && (forall id :: id in chunks ==>
            || (exists k :: 0 <= k < |updates| && updates[k].rowId == id &&
                  after[id] == chunks[id].(embeddingId := Some(updates[k].pointId), embeddingModel := Some(c.model)))
            || (after[id] == chunks[id] && forall k :: 0 <= k < |updates| ==> updates[k].rowId != id))
  {
    if updates != [] {
      var init := updates[..|updates| - 1];
      CommitLookups(c, chunks, init);
      assert forall k :: 0 <= k < |init| ==> init[k] == updates[k];
    }
  }

  lemma {:induction false} FirstOccurrencesAre(ids: seq<PointId>)
    ensures forall id :: id in FirstOccurrences(ids) <==> id in ids
    ensures forall i, j :: 0 <= i < j < |FirstOccurrences(ids)| ==> FirstOccurrences(ids)[i] != FirstOccurrences(ids)[j]
  {
    if ids != [] {
      var init := ids[..|ids| - 1];
      FirstOccurrencesAre(init);
      assert ids == init + [ids[|ids| - 1]];
    }
  }

  lemma {:induction false} StaleMembers(c: Settings, rows: seq<Row>)
    ensures forall id :: id in Stale(c, rows) <==> exists r :: r in rows && id in StaleOf(c, r)
  {
    FirstOccurrencesAre(StaleOfAll(c, rows));
    StaleOfAllMembers(c, rows);
  }

  lemma {:induction false} StaleOfAllMembers(c: Settings, rows: seq<Row>)
    ensures forall id :: id in StaleOfAll(c, rows) <==> exists r :: r in rows && id in StaleOf(c, r)
  {
    if rows != [] {
      var init, last := rows[..|rows| - 1], rows[|rows| - 1];
      StaleOfAllMembers(c, init);
      assert rows == init + [last];
    }
  }

  /** With the superseded scheme apart, a canonical id is only ever deleted as some row's old embedding_id. */
  lemma {:induction false} StaleCanonical(c: Settings, rows: seq<Row>, p: int, i: int)
    requires Lawful(c)
    ensures c.pointId(p, i) in Stale(c, rows) <==>
              exists r :: r in rows && r.embeddingId == Some(c.pointId(p, i)) && Canonical(c, r) != c.pointId(p, i)
  {
    StaleMembers(c, rows);
    if c.pointId(p, i) in Stale(c, rows) {
      var r :| r in rows && c.pointId(p, i) in StaleOf(c, r);
      assert c.legacyId(r.paperId, r.chunkIndex) != c.pointId(p, i);
    }
    if r :| r in rows && r.embeddingId == Some(c.pointId(p, i)) && Canonical(c, r) != c.pointId(p, i) {
      assert StaleOf(c, r)[0] == c.pointId(p, i);
    }
  }
}
