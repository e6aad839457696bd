/** scripts/reembed.py: the paged scan for mismatched papers and the final verification. */
module ReembedScan {
  import opened Base
  import opened ReembedModel

  const DB_SCAN_PAGE_SIZE := 1000
  const QDRANT_PROBE_BATCH_SIZE := 256

  /** The scan starts at last_row_id = 0 and joins papers, so it reads exactly these rows. */
  predicate Scanned(db: Database, id: int) {
    id > 0 && Joined(db, id)
  }

  function RowsAfter(db: Database, last: int): set<Row> {
    set id | id in db.chunks && Joined(db, id) && id > last :: RowOf(db, id)
  }

  /** WHERE c.id > last ORDER BY c.id LIMIT limit */
  function Page(db: Database, last: int, limit: nat): seq<Row> {
    var rows := SortedBy(RowsAfter(db, last), (r: Row) => r.id);
    if |rows| <= limit then rows else rows[..limit]
  }

  lemma PageMembers(db: Database, last: int, limit: nat)
    requires limit > 0
    ensures forall r :: r in Page(db, last, limit) ==> Joined(db, r.id) && r == RowOf(db, r.id) && r.id > last
    ensures Page(db, last, limit) == [] ==> forall id :: Joined(db, id) ==> id <= last
  {
    var all := RowsAfter(db, last);
    var rows := SortedBy(all, (r: Row) => r.id);
    SortedByMembers(all, (r: Row) => r.id);
    assert forall r :: r in Page(db, last, limit) ==> r in rows;
    forall id | Joined(db, id) && id > last ensures rows != [] {
      assert RowOf(db, id) in rows;
    }
  }

  /** A page holds every later row up to its own last id. */
  lemma PageHolds(db: Database, last: int, limit: nat, id: int)
    requires limit > 0 && Joined(db, id) && last < id
    ensures Page(db, last, limit) != []
    ensures id <= Page(db, last, limit)[|Page(db, last, limit)| - 1].id ==> RowOf(db, id) in Page(db, last, limit)
  {
    var all := RowsAfter(db, last);
    var rows := SortedBy(all, (r: Row) => r.id);
    SortedByMembers(all, (r: Row) => r.id);
    SortedByAscends(all, (r: Row) => r.id);
    assert RowOf(db, id) in all;
    FirstRowsHold(rows, if |rows| <= limit then |rows| else limit, RowOf(db, id));
  }

  /** The first n of ascending rows hold every row not beyond the n-th. */
  lemma FirstRowsHold(rows: seq<Row>, n: nat, row: Row)
    requires 0 < n <= |rows| && row in rows && Ascending(rows, (r: Row) => r.id)
    ensures row.id <= rows[n - 1].id ==> row in rows[..n]
  {
    var k :| 0 <= k < |rows| && rows[k] == row;
    if k < n { assert rows[..n][k] == row; }
  }

  lemma PageLastInside(db: Database, last: int, limit: nat)
    requires limit > 0 && Page(db, last, limit) != []
    ensures forall r :: r in Page(db, last, limit) ==> r.id <= Page(db, last, limit)[|Page(db, last, limit)| - 1].id
  {
    var all := RowsAfter(db, last);
    var rows := SortedBy(all, (r: Row) => r.id);
    SortedByAscends(all, (r: Row) => r.id);
    var page := Page(db, last, limit);
    assert forall k :: 0 <= k < |page| ==> page[k] == rows[k];
  }

  /** Papers owning a scanned row that its canonical point does not prove. */
  function MismatchedUpTo(c: Settings, s: Stores, last: int): set<int> {
    set id | id in s.db.chunks && Scanned(s.db, id) && id <= last && !Matched(c, s, id) :: RowOf(s.db, id).paperId
  }

  function Mismatched(c: Settings, s: Stores): set<int> {
    set id | id in s.db.chunks && Scanned(s.db, id) && !Matched(c, s, id) :: RowOf(s.db, id).paperId
  }

  function ScanResult(c: Settings, s: Stores): seq<int> {
    SortedBy(Mismatched(c, s), (p: int) => p)
  }

  lemma ScanResultIs(c: Settings, s: Stores)
    ensures forall p :: p in ScanResult(c, s) <==>
                        exists id :: Scanned(s.db, id) && !Matched(c, s, id) && RowOf(s.db, id).paperId == p
    ensures forall i, j :: 0 <= i < j < |ScanResult(c, s)| ==> ScanResult(c, s)[i] < ScanResult(c, s)[j]
    ensures ScanResult(c, s) == [] <==> forall id :: Scanned(s.db, id) ==> Matched(c, s, id)
  {
    SortedByMembers(Mismatched(c, s), (p: int) => p);
    SortedByAscends(Mismatched(c, s), (p: int) => p);
    if id :| Scanned(s.db, id) && !Matched(c, s, id) {
      assert RowOf(s.db, id).paperId in Mismatched(c, s);
    } else {
      assert Mismatched(c, s) == {};
    }
  }

  /** qdrant.retrieve, keyed by id: the requested points that exist. */
  function Retrieve(index: Index, ids: seq<PointId>): map<PointId, PointStruct> {
    map id | id in index && id in ids :: PointStruct(id, index[id])
  }

  /** The papers of the rows their canonical points do not prove. */
  function Unproved(c: Settings, index: Index, rows: seq<Row>): set<int> {
    set r | r in rows && !Matches(c, index, r) :: r.paperId
  }

  lemma UnprovedConcat(c: Settings, index: Index, a: seq<Row>, b: seq<Row>)
    ensures Unproved(c, index, a + b) == Unproved(c, index, a) + Unproved(c, index, b)
  {
  }

  /** One probe batch: adds the papers of its unmatched rows. */
  method ProbeBatch(c: Settings, index: Index, batch: seq<Row>, before: set<int>) returns (affected: set<int>)
    ensures affected == before + Unproved(c, index, batch)
  {
    var pointIds := seq(|batch|, i requires 0 <= i < |batch| => Canonical(c, batch[i]));
    var records := Retrieve(index, pointIds);
    affected := before;
    for i := 0 to |batch|
      invariant affected == before + Unproved(c, index, batch[..i])
    {
      var row := batch[i];
      assert pointIds[i] == Canonical(c, row);
      var record := if pointIds[i] in records then Some(records[pointIds[i]]) else None;
      assert record == Lookup(index, Canonical(c, row));
      assert batch[..i + 1] == batch[..i] + [row];
      UnprovedConcat(c, index, batch[..i], [row]);
      assert Unproved(c, index, [row]) == if Matches(c, index, row) then {} else {row.paperId};
      if !RecordMatchesChunk(c, record, row) {
        affected := affected + {row.paperId};
      }
    }
    assert batch[..|batch|] == batch;
  }

  /** One database page, probed in batches. */
  method ProbePage(c: Settings, index: Index, rows: seq<Row>, before: set<int>) returns (affected: set<int>)
    ensures affected == before + Unproved(c, index, rows)
  {
    affected := before;
    var offset := 0;
    while offset < |rows|
      invariant 0 <= offset <= |rows|
      invariant affected == before + Unproved(c, index, rows[..offset])
    {
      var next := if offset + QDRANT_PROBE_BATCH_SIZE < |rows| then offset + QDRANT_PROBE_BATCH_SIZE else |rows|;
      affected := ProbeBatch(c, index, rows[offset..next], affected);
      assert rows[..next] == rows[..offset] + rows[offset..next];
      UnprovedConcat(c, index, rows[..offset], rows[offset..next]);
      offset := next;
    }
    assert rows[..|rows|] == rows;
  }

  lemma MismatchedGrows(c: Settings, s: Stores, last: int, limit: nat)
    requires limit > 0 && last >= 0 && Page(s.db, last, limit) != []
    ensures var page := Page(s.db, last, limit);
      && page[|page| - 1].id > last
      && MismatchedUpTo(c, s, page[|page| - 1].id) ==
           MismatchedUpTo(c, s, last) + Unproved(c, s.index, page)
  {
    PageMembers(s.db, last, limit);
    PageLastInside(s.db, last, limit);
    var page := Page(s.db, last, limit);
    assert page[|page| - 1] in page;
    var added := Unproved(c, s.index, page);
    forall p | p in MismatchedUpTo(c, s, page[|page| - 1].id)
      ensures p in MismatchedUpTo(c, s, last) + added
    {
      var id :| id in s.db.chunks && Scanned(s.db, id) && id <= page[|page| - 1].id
        && !Matched(c, s, id) && RowOf(s.db, id).paperId == p;
      if id > last { PageHolds(s.db, last, limit, id); }
    }
    forall p | p in added
      ensures p in MismatchedUpTo(c, s, page[|page| - 1].id)
    {
      var r :| r in page && !Matches(c, s.index, r) && r.paperId == p;
      assert Scanned(s.db, r.id) && !Matched(c, s, r.id);
    }
  }

  lemma FewerRowsLeft(db: Database, last: int, limit: nat)
    requires limit > 0 && Page(db, last, limit) != []
    ensures var page := Page(db, last, limit);
      |RowsAfter(db, page[|page| - 1].id)| < |RowsAfter(db, last)|
  {
    PageMembers(db, last, limit);
    var page := Page(db, last, limit);
    var r := page[|page| - 1];
    assert r in page;
    assert r in RowsAfter(db, last);
    SubsetSmaller(RowsAfter(db, r.id), RowsAfter(db, last), r);
  }

  /** Paged scan over a store nobody else is changing. */
  method FindPapersNeedingReembed(c: Settings, s: Stores) returns (affected: seq<int>)
    ensures affected == ScanResult(c, s)
  {
    var found: set<int> := {};
    var last := 0;
    var rows := Page(s.db, last, DB_SCAN_PAGE_SIZE);
    while rows != []
      invariant last >= 0
      invariant rows == Page(s.db, last, DB_SCAN_PAGE_SIZE)
      invariant found == MismatchedUpTo(c, s, last)
      decreases |RowsAfter(s.db, last)|
    {
      PageDone(c, s, last);
      found := ProbePage(c, s.index, rows, found);
      last := rows[|rows| - 1].id;
      rows := Page(s.db, last, DB_SCAN_PAGE_SIZE);
    }
    ScanDone(c, s, last);
    affected := SortedBy(found, (p: int) => p);
  }

  /** What one page adds, and that fewer rows are left after it. */
  lemma PageDone(c: Settings, s: Stores, last: int)
    requires last >= 0 && Page(s.db, last, DB_SCAN_PAGE_SIZE) != []
    ensures var page := Page(s.db, last, DB_SCAN_PAGE_SIZE);
      var next := page[|page| - 1].id;
      && next > last && |RowsAfter(s.db, next)| < |RowsAfter(s.db, last)|
      && MismatchedUpTo(c, s, next) == MismatchedUpTo(c, s, last) + Unproved(c, s.index, page)
  {
    MismatchedGrows(c, s, last, DB_SCAN_PAGE_SIZE);
    FewerRowsLeft(s.db, last, DB_SCAN_PAGE_SIZE);
  }

  lemma ScanDone(c: Settings, s: Stores, last: int)
    requires last >= 0 && Page(s.db, last, DB_SCAN_PAGE_SIZE) == []
    ensures MismatchedUpTo(c, s, last) == Mismatched(c, s)
  {
    PageMembers(s.db, last, DB_SCAN_PAGE_SIZE);
  }

  // ---- verification -----------------------------------------------------------------

  function TargetRows(c: Settings, db: Database): set<int> {
    set id | id in db.chunks && db.chunks[id].embeddingModel == Some(c.model)
  }

  function TargetPoints(c: Settings, index: Index): set<PointId> {
    set id | id in index && index[id].payload.embeddingModel == Some(c.model)
  }

  datatype VerificationError = CountMismatch(rows: nat, points: nat) | PaperMismatch(papers: seq<int>)

  method VerifyPostconditions(c: Settings, s: Stores) returns (r: Result<(), VerificationError>)
    ensures r == Verification(c, s)
  {
    var dbTargetChunks := |TargetRows(c, s.db)|;
    var qdrantVectors := |TargetPoints(c, s.index)|;
    if dbTargetChunks != qdrantVectors {
      return Err(CountMismatch(dbTargetChunks, qdrantVectors));
    }
    var mismatched := FindPapersNeedingReembed(c, s);
    if mismatched != [] {
      return Err(PaperMismatch(mismatched));
    }
    return Ok(());
  }

  function Verification(c: Settings, s: Stores): Result<(), VerificationError> {
    if |TargetRows(c, s.db)| != |TargetPoints(c, s.index)|
    then Err(CountMismatch(|TargetRows(c, s.db)|, |TargetPoints(c, s.index)|))
    else if ScanResult(c, s) != [] then Err(PaperMismatch(ScanResult(c, s)))
    else Ok(())
  }

  /** The canonical ids of the scanned rows. */
  ghost function CanonicalIds(c: Settings, db: Database): set<PointId> {
    set id | id in ScannedIds(db) :: CanonicalOf(c, db, id)
  }

  function ScannedIds(db: Database): set<int> {
    set id | id in db.chunks && Scanned(db, id)
  }

  function CanonicalOf(c: Settings, db: Database, id: int): PointId {
    if Joined(db, id) then Canonical(c, RowOf(db, id)) else ""
  }

  /**
   * Target-model points and scanned rows correspond one to one: every scanned
   * row is proved by its canonical point (none missing), distinct rows by
   * distinct points (none duplicate), and every target-model point is some
   * scanned row's canonical point (none stale, none orphan).
   */
  ghost predicate ExactBijection(c: Settings, s: Stores) {
    && (forall id :: Scanned(s.db, id) ==> Matched(c, s, id))
    && (forall a, b ::
          Scanned(s.db, a) && Scanned(s.db, b) && Canonical(c, RowOf(s.db, a)) == Canonical(c, RowOf(s.db, b)) ==>
          a == b)
    && TargetPoints(c, s.index) == CanonicalIds(c, s.db)
  }

  /** Target-model rows the count query sees and the scan does not: no paper, or an id below 1. */
  function UnscannedTargets(c: Settings, db: Database): set<int> {
    set id | id in TargetRows(c, db) && !Scanned(db, id)
  }

  lemma CanonicalInjective(c: Settings, db: Database, a: int, b: int)
    requires Lawful(c) && ValidDb(db) && Joined(db, a) && Joined(db, b)
    requires Canonical(c, RowOf(db, a)) == Canonical(c, RowOf(db, b))
    ensures a == b
  {
  }

  lemma CanonicalCount(c: Settings, db: Database)
    requires Lawful(c) && ValidDb(db)
    ensures |CanonicalIds(c, db)| == |ScannedIds(db)|
  {
    forall a, b | a in ScannedIds(db) && b in ScannedIds(db) && CanonicalOf(c, db, a) == CanonicalOf(c, db, b)
      ensures a == b
    {
      CanonicalInjective(c, db, a, b);
    }
    var f := id => CanonicalOf(c, db, id);
    assert CanonicalIds(c, db) == set id | id in ScannedIds(db) :: f(id);
    ImageSize(ScannedIds(db), f, CanonicalIds(c, db));
  }

  lemma MatchedIsTarget(c: Settings, s: Stores, id: int)
    requires Matched(c, s, id)
    ensures id in TargetRows(c, s.db) && CanonicalOf(c, s.db, id) in TargetPoints(c, s.index)
  {
  }

  /** If every scanned row matches, the other points number |points| - |rows| plus the unscanned rows. */
  lemma ExtraPoints(c: Settings, s: Stores)
    requires Lawful(c) && ValidDb(s.db)
    requires forall id :: Scanned(s.db, id) ==> Matched(c, s, id)
    ensures CanonicalIds(c, s.db) <= TargetPoints(c, s.index)
    ensures |TargetPoints(c, s.index) - CanonicalIds(c, s.db)| ==
              |TargetPoints(c, s.index)| - |TargetRows(c, s.db)| + |UnscannedTargets(c, s.db)|
  {
    var points, canonical := TargetPoints(c, s.index), CanonicalIds(c, s.db);
    var rows, scanned, unscanned := TargetRows(c, s.db), ScannedIds(s.db), UnscannedTargets(c, s.db);
    assert canonical <= points && scanned <= rows by {
      forall id | id in scanned ensures id in rows && CanonicalOf(c, s.db, id) in points {
        assert Scanned(s.db, id);
        MatchedIsTarget(c, s, id);
      }
    }
    assert unscanned == rows - scanned;
    CanonicalCount(c, s.db);
    PartSize(points, canonical);
    PartSize(rows, scanned);
  }

  lemma PartSize<T>(all: set<T>, part: set<T>)
    requires part <= all
    ensures |all - part| == |all| - |part|
  {
    assert all == part + (all - part);
  }

  /**
   * A passing verification leaves exactly as many unowned target-model points
   * as there are target-model rows outside the scan, so it establishes the
   * bijection if and only if no such row exists.
   */
  lemma {:induction false} VerificationSound(c: Settings, s: Stores)
    requires Lawful(c) && ValidDb(s.db)
    requires Verification(c, s).Ok?
    ensures forall id :: Scanned(s.db, id) ==> Matched(c, s, id)
    ensures |TargetPoints(c, s.index) - CanonicalIds(c, s.db)| == |UnscannedTargets(c, s.db)|
    ensures ExactBijection(c, s) <==> UnscannedTargets(c, s.db) == {}
  {
    ScanResultIs(c, s);
    ExtraPoints(c, s);
    forall a, b | Scanned(s.db, a) && Scanned(s.db, b) && Canonical(c, RowOf(s.db, a)) == Canonical(c, RowOf(s.db, b))
      ensures a == b
    {
      CanonicalInjective(c, s.db, a, b);
    }
    var extra := TargetPoints(c, s.index) - CanonicalIds(c, s.db);
    if UnscannedTargets(c, s.db) == {} {
      assert extra == {};
    } else {
      assert |UnscannedTargets(c, s.db)| > 0;
      assert extra != {};
    }
  }

  /** Conversely a store in exact bijection passes, unless an unscanned target-model row upsets the count. */
  lemma {:induction false} VerificationComplete(c: Settings, s: Stores)
    requires Lawful(c) && ValidDb(s.db)
    requires ExactBijection(c, s)
    ensures Verification(c, s).Ok? <==> UnscannedTargets(c, s.db) == {}
  {
    ScanResultIs(c, s);
    ExtraPoints(c, s);
    assert TargetPoints(c, s.index) - CanonicalIds(c, s.db) == {};
    if UnscannedTargets(c, s.db) != {} {
      assert |UnscannedTargets(c, s.db)| > 0;
    }
  }

  /** The payload fields that decide a match. */
  predicate SameChecked(a: Payload, b: Payload) {
    && a.paperId == b.paperId && a.chunkIndex == b.chunkIndex && a.embeddingModel == b.embeddingModel
    && a.sourceType == b.sourceType && a.visibilityScope == b.visibilityScope
    && a.visibilityGeneration == b.visibilityGeneration && a.embeddingFingerprint == b.embeddingFingerprint
  }

  /**
   * Exactly what a match says about a point: replacing a matched row's point by another keeps
   * every match if and only if the new payload agrees on those fields. The owner (user_id),
   * the page number, the stored content and the vector are free.
   */
  lemma MatchReadsOnlyChecked(c: Settings, s: Stores, id: int, point: Point)
    requires Lawful(c) && ValidDb(s.db) && Matched(c, s, id)
    ensures var pid := CanonicalOf(c, s.db, id);
      (forall other :: Matched(c, s, other) ==> Matched(c, s.(index := s.index[pid := point]), other))
      <==> SameChecked(point.payload, s.index[pid].payload)
  {
    var pid := CanonicalOf(c, s.db, id);
    var changed := s.(index := s.index[pid := point]);
    assert Matched(c, changed, id) <==> SameChecked(point.payload, s.index[pid].payload);
    forall other | Matched(c, s, other) && other != id ensures Matched(c, changed, other) {
      if CanonicalOf(c, s.db, other) == pid { CanonicalInjective(c, s.db, id, other); }
    }
  }

  /** A verified store still passes when a matched point is given any other owner, page or content. */
  lemma VerificationIgnoresOwner(c: Settings, s: Stores, id: int, userId: Option<int>, page: Option<int>,
                                 content: Option<string>)
    requires Lawful(c) && ValidDb(s.db) && Verification(c, s).Ok? && Scanned(s.db, id)
    ensures var pid := CanonicalOf(c, s.db, id);
      pid in s.index
      && var point := s.index[pid].(payload := s.index[pid].payload.(userId := userId, pageNumber := page,
                                                                     content := content));
         Verification(c, s.(index := s.index[pid := point])).Ok?
  {
    ScanResultIs(c, s);
    assert Matched(c, s, id);
    var pid := CanonicalOf(c, s.db, id);
    var point := s.index[pid].(payload := s.index[pid].payload.(userId := userId, pageNumber := page,
                                                                content := content));
    var changed := s.(index := s.index[pid := point]);
    MatchReadsOnlyChecked(c, s, id, point);
    ScanResultIs(c, changed);
    assert TargetPoints(c, changed.index) == TargetPoints(c, s.index);
  }

  /** A matched row matches no longer once it records another id or another model. */
  lemma MatchNeedsRecord(c: Settings, s: Stores, id: int, recorded: Option<PointId>, model: Option<string>)
    requires Matched(c, s, id)
    ensures var chunk := s.db.chunks[id].(embeddingId := recorded, embeddingModel := model);
      Matched(c, s.(db := s.db.(chunks := s.db.chunks[id := chunk])), id)
      <==> recorded == Some(CanonicalOf(c, s.db, id)) && model == Some(c.model)
  {
  }

  /** One more point in a verified store: it still passes unless the point is of the target model. */
  lemma ExtraPointCounts(c: Settings, s: Stores, pid: PointId, point: Point)
    requires Verification(c, s).Ok? && pid !in s.index
    ensures Verification(c, s.(index := s.index[pid := point])).Ok? <==> point.payload.embeddingModel != Some(c.model)
  {
    var changed := s.(index := s.index[pid := point]);
    ScanResultIs(c, s);
    ScanResultIs(c, changed);
    forall id | Scanned(s.db, id) ensures Matched(c, changed, id) { assert Matched(c, s, id); }
    assert TargetPoints(c, changed.index) == TargetPoints(c, s.index)
      + if point.payload.embeddingModel == Some(c.model) then {pid} else {};
  }

  lemma OrphanUnscanned(db: Database, id: int, chunk: ChunkRow)
    requires id !in db.chunks && chunk.paperId.None?
    ensures var changed := db.(chunks := db.chunks[id := chunk]);
      forall other :: (Joined(changed, other) <==> Joined(db, other))
                      && (Joined(db, other) ==> RowOf(changed, other) == RowOf(db, other))
  {
  }

  /** One more chunk row without a paper: it still passes unless the row is of the target model. */
  lemma ExtraOrphanCounts(c: Settings, s: Stores, id: int, chunk: ChunkRow)
    requires Verification(c, s).Ok? && id !in s.db.chunks && chunk.paperId.None?
    ensures Verification(c, s.(db := s.db.(chunks := s.db.chunks[id := chunk]))).Ok?
       <==> chunk.embeddingModel != Some(c.model)
  {
    var changed := s.(db := s.db.(chunks := s.db.chunks[id := chunk]));
    OrphanUnscanned(s.db, id, chunk);
    SameScan(c, s, changed);
    OneMoreRow(c, s.db, id, chunk);
  }

  lemma OneMoreRow(c: Settings, db: Database, id: int, chunk: ChunkRow)
    requires id !in db.chunks
    ensures |TargetRows(c, db.(chunks := db.chunks[id := chunk]))|
         == |TargetRows(c, db)| + if chunk.embeddingModel == Some(c.model) then 1 else 0
  {
    var rows := TargetRows(c, db);
    var more: set<int> := if chunk.embeddingModel == Some(c.model) then {id} else {};
    assert TargetRows(c, db.(chunks := db.chunks[id := chunk])) == rows + more;
  }

  lemma SameScan(c: Settings, s: Stores, t: Stores)
    requires s.index == t.index && forall id :: Joined(s.db, id) <==> Joined(t.db, id)
    requires forall id :: Joined(s.db, id) ==> RowOf(t.db, id) == RowOf(s.db, id)
    ensures ScanResult(c, s) == [] <==> ScanResult(c, t) == []
  {
    ScanResultIs(c, s);
    ScanResultIs(c, t);
  }

  /**
   * The gap, concretely: one chunk whose paper_id is NULL but whose model is the
   * target, plus one target-model point that no row owns, pass verification.
   */
  lemma StalePointPassesBesideOrphanRow(c: Settings, chunk: ChunkRow, point: Point, pid: PointId)
    requires chunk.paperId.None? && chunk.embeddingModel == Some(c.model)
    requires point.payload.embeddingModel == Some(c.model)
    ensures var s := Stores(Database(map[1 := chunk], map[]), map[pid := point]);
      ValidDb(s.db) && Verification(c, s).Ok? && !ExactBijection(c, s)
  {
    var s := Stores(Database(map[1 := chunk], map[]), map[pid := point]);
    ScanResultIs(c, s);
    assert TargetRows(c, s.db) == {1};
    assert TargetPoints(c, s.index) == {pid};
    assert CanonicalIds(c, s.db) == {};
  }
}
