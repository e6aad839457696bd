/**
 * scripts/reembed.py under interleaving: any number of re-embedding runs and
 * other chunk writers, each step of each run between two awaits, crashes anywhere.
 */
module ReembedLocks {
  import opened Base
  import opened ReembedModel
  import opened ReembedScan
  import opened ReembedRecovery
  import ReembedPublish

  datatype Phase =
    | Embedded(rows: seq<Row>, vectors: seq<Vector>)
    | Locked(rows: seq<Row>, vectors: seq<Vector>)
    | Publishing(rows: seq<Row>, vectors: seq<Vector>, sent: seq<Write>, todo: seq<Write>)
    | Ended(sent: seq<Write>)

  datatype Run = Run(paperId: int, phase: Phase)

  /** holder maps a paper to the run holding its advisory lock. */
  datatype World = World(stores: Stores, holder: map<int, int>, runs: map<int, Run>)

  /**
   * Stop ends a run at any point, part of its next call having taken effect; Tolerate is a
   * cleanup delete that raised and is passed over (REEMBED_CONTINUE_ON_ERROR).
   */
  datatype Event =
    | Read(run: int, paperId: int, vectors: seq<Vector>)
    | Lock(run: int)
    | Recheck(run: int)
    | Send(run: int)
    | Stop(run: int, applied: nat)
    | Tolerate(run: int, applied: nat)
    | Finish(run: int)
    | Process(paperId: int, after: Stores)

  /** Rows and points a holder of one paper's lock may touch: its own. */
  ghost predicate OnlyPaper(c: Settings, s: Stores, after: Stores, paperId: int) {
    && (forall id :: id in s.db.chunks && s.db.chunks[id].paperId != Some(paperId) ==>
          id in after.db.chunks && after.db.chunks[id] == s.db.chunks[id])
    && (forall id :: id in after.db.chunks && after.db.chunks[id].paperId != Some(paperId) ==>
          id in s.db.chunks && after.db.chunks[id] == s.db.chunks[id])
    && (forall p :: p != paperId ==> (p in s.db.papers <==> p in after.db.papers))
    && (forall p :: p != paperId && p in s.db.papers ==> after.db.papers[p] == s.db.papers[p])
    && (forall p, i :: p != paperId ==> Lookup(after.index, c.pointId(p, i)) == Lookup(s.index, c.pointId(p, i)))
  }

  /** No row remembers another joined row's canonical id. */
  ghost predicate CleanIds(c: Settings, db: Database) {
    forall p, victim :: !Endangers(c, db, p, victim)
  }

  ghost predicate Enabled(c: Settings, w: World, e: Event) {
    match e
    case Read(a, p, vectors) => a !in w.runs && ValidDb(w.stores.db) && |vectors| == |PaperRows(w.stores.db, p)|
    case Lock(a) => a in w.runs && w.runs[a].phase.Embedded? && w.runs[a].paperId !in w.holder
    case Recheck(a) => a in w.runs && w.runs[a].phase.Locked? && ValidDb(w.stores.db)
      && |w.runs[a].phase.rows| == |w.runs[a].phase.vectors|
    case Send(a) => a in w.runs && w.runs[a].phase.Publishing? && w.runs[a].phase.todo != []
    case Stop(a, n) => a in w.runs && !w.runs[a].phase.Ended?
    case Tolerate(a, n) => a in w.runs && w.runs[a].phase.Publishing? && w.runs[a].phase.todo != []
      && w.runs[a].phase.todo[0].Delete?
    case Finish(a) => a in w.runs && w.runs[a].phase.Publishing? && w.runs[a].phase.todo == []
    case Process(p, after) => p !in w.holder && ValidDb(after.db) && CleanIds(c, after.db) &&
                              OnlyPaper(c, w.stores, after, p)
  }

  function Released(w: World, a: int): map<int, int> {
    map p | p in w.holder && w.holder[p] != a :: w.holder[p]
  }

  function EndRun(w: World, a: int, sent: seq<Write>): World
    requires a in w.runs
  {
    w.(holder := Released(w, a), runs := w.runs[a := w.runs[a].(phase := Ended(sent))])
  }

  ghost function Next(c: Settings, w: World, e: Event): World
    requires Enabled(c, w, e)
  {
    match e
    case Read(a, p, vectors) => w.(runs := w.runs[a := Run(p, Embedded(PaperRows(w.stores.db, p), vectors))])
    case Lock(a) =>
      var run := w.runs[a];
      w.(holder := w.holder[run.paperId := a],
         runs := w.runs[a := run.(phase := Locked(run.phase.rows, run.phase.vectors))])
    case Recheck(a) =>
      var run := w.runs[a];
      var rows, vectors := run.phase.rows, run.phase.vectors;
      if AllVisible(c, rows) && ChunkSnapshot(PaperRows(w.stores.db, run.paperId)) == ChunkSnapshot(rows)
      then w.(runs := w.runs[a := run.(phase := Publishing(rows, vectors, [], PublishWrites(c, rows, vectors)))])
      else EndRun(w, a, [])
    case Send(a) =>
      var run := w.runs[a];
      var write := run.phase.todo[0];
      w.(stores := Apply(c, w.stores, write),
         runs := w.runs[a := run.(phase := run.phase.(sent := run.phase.sent + [write], todo := run.phase.todo[1..]))])
    case Stop(a, n) =>
      var phase := w.runs[a].phase;
      if phase.Publishing? && phase.todo != []
      then EndRun(w.(stores := Apply(c, w.stores, Partial(phase.todo[0], n))), a,
                  phase.sent + [Partial(phase.todo[0], n)])
      else EndRun(w, a, if phase.Publishing? then phase.sent else [])
    case Tolerate(a, n) =>
      var run := w.runs[a];
      var part := Partial(run.phase.todo[0], n);
      w.(stores := Apply(c, w.stores, part),
         runs := w.runs[a := run.(phase := run.phase.(sent := run.phase.sent + [part], todo := run.phase.todo[1..]))])
    case Finish(a) => EndRun(w, a, w.runs[a].phase.sent)
    case Process(p, after) => w.(stores := after)
  }

  // ---- the invariant ---------------------------------------------------------------

  ghost predicate Holds(w: World, a: int) {
    a in w.runs && (w.runs[a].phase.Locked? || w.runs[a].phase.Publishing?)
  }

  ghost predicate LockDiscipline(w: World) {
    && (forall a :: Holds(w, a) ==> w.runs[a].paperId in w.holder && w.holder[w.runs[a].paperId] == a)
    && (forall p :: p in w.holder ==> Holds(w, w.holder[p]) && w.runs[w.holder[p]].paperId == p)
  }

  /** Rows are one paper's rows, with one vector each. */
  ghost predicate RowsShaped(p: int, rows: seq<Row>, vectors: seq<Vector>) {
    |rows| == |vectors| && forall k :: 0 <= k < |rows| ==> rows[k].paperId == p
  }

  ghost predicate Serves(index: Index, p: PointStruct) {
    p.id in index && index[p.id].payload == p.point.payload
  }

  ghost predicate SentServed(index: Index, sent: seq<Write>) {
    forall j, k :: 0 <= j < |sent| && sent[j].Upsert? && 0 <= k < |sent[j].points| ==> Serves(index, sent[j].points[k])
  }

  ghost predicate AllMatched(c: Settings, s: Stores, p: int) {
    forall id :: Joined(s.db, id) && RowOf(s.db, id).paperId == p ==> Matched(c, s, id)
  }

  ghost predicate CutShort(part: Write, whole: Write) {
    exists n: nat :: part == Partial(whole, n)
  }

  /** What took effect of a call the run got past: all of it, or part of a tolerated cleanup delete. */
  ghost predicate Passed(part: Write, whole: Write) {
    part == whole || (whole.Delete? && CutShort(part, whole))
  }

  /** The calls made, each as far as it took effect, and those to come are the writes, in order. */
  ghost predicate Underway(sent: seq<Write>, todo: seq<Write>, all: seq<Write>) {
    && |sent| <= |all| && todo == all[|sent|..]
    && forall k :: 0 <= k < |sent| ==> Passed(sent[k], all[k])
  }

  lemma UnderwayNext(sent: seq<Write>, todo: seq<Write>, all: seq<Write>, part: Write)
    requires Underway(sent, todo, all) && todo != [] && Passed(part, todo[0])
    ensures Underway(sent + [part], todo[1..], all) && todo[0] == all[|sent|]
  {
    assert todo[1..] == all[|sent| + 1..];
  }

  /** What a publishing run may rely on while it holds the lock. */
  ghost predicate PublishingOk(c: Settings, s: Stores, run: Run)
    requires run.phase.Publishing? && ValidDb(s.db)
  {
    var phase := run.phase;
    && RowsShaped(run.paperId, phase.rows, phase.vectors)
    && Underway(phase.sent, phase.todo, PublishWrites(c, phase.rows, phase.vectors))
    && (phase.todo != [] ==> PaperRows(s.db, run.paperId) == phase.rows && SentServed(s.index, phase.sent))
    && (phase.todo == [] ==> AllMatched(c, s, run.paperId))
  }

  ghost predicate Inv(c: Settings, w: World) {
    && ValidDb(w.stores.db) && CleanIds(c, w.stores.db) && LockDiscipline(w)
    && (forall a :: a in w.runs && (w.runs[a].phase.Embedded? || w.runs[a].phase.Locked?) ==>
          RowsShaped(w.runs[a].paperId, w.runs[a].phase.rows, w.runs[a].phase.vectors))
    && (forall a :: a in w.runs && w.runs[a].phase.Publishing? ==> PublishingOk(c, w.stores, w.runs[a]))
  }

  ghost predicate Initial(c: Settings, w: World) {
    ValidDb(w.stores.db) && CleanIds(c, w.stores.db) && w.holder == map[] && w.runs == map[]
  }

  // ---- writes of one run do not disturb another ------------------------------------------

  lemma LastWriteCommits(c: Settings, rows: seq<Row>, vectors: seq<Vector>, k: nat)
    requires |rows| == |vectors| && k < |PublishWrites(c, rows, vectors)|
    ensures PublishWrites(c, rows, vectors)[k].Commit? <==> k == |PublishWrites(c, rows, vectors)| - 1
  {
    BatchesAreUpserts(Points(c, rows, vectors));
  }

  lemma {:induction false} BatchesAreUpserts(points: seq<PointStruct>)
    ensures forall k :: 0 <= k < |UpsertBatches(points)| ==> UpsertBatches(points)[k].Upsert?
    decreases |points|
  {
    if |points| > UPSERT_BATCH_SIZE { BatchesAreUpserts(points[UPSERT_BATCH_SIZE..]); }
  }

  ghost predicate Carries(w: Write, p: PointStruct) {
    w.Upsert? && p in w.points
  }

  /** Every point is in some batch. */
  lemma {:induction false} BatchesCover(points: seq<PointStruct>, k: nat)
    requires k < |points|
    ensures exists j :: 0 <= j < |UpsertBatches(points)| && Carries(UpsertBatches(points)[j], points[k])
    decreases |points|
  {
    var batches := UpsertBatches(points);
    if |points| <= UPSERT_BATCH_SIZE {
      assert Carries(batches[0], points[k]);
    } else if k < UPSERT_BATCH_SIZE {
      assert points[k] == points[..UPSERT_BATCH_SIZE][k];
      assert Carries(batches[0], points[k]);
    } else {
      var rest := points[UPSERT_BATCH_SIZE..];
      BatchesCover(rest, k - UPSERT_BATCH_SIZE);
      var j :| 0 <= j < |UpsertBatches(rest)| && Carries(UpsertBatches(rest)[j], rest[k - UPSERT_BATCH_SIZE]);
      assert batches[j + 1] == UpsertBatches(rest)[j];
    }
  }

  /** A batch only carries listed points. */
  lemma {:induction false} BatchesWithin(points: seq<PointStruct>, j: nat, k: nat)
    requires j < |UpsertBatches(points)| && UpsertBatches(points)[j].Upsert? && k < |UpsertBatches(points)[j].points|
    ensures UpsertBatches(points)[j].points[k] in points
    decreases |points|
  {
    if |points| > UPSERT_BATCH_SIZE {
      if j > 0 {
        BatchesWithin(points[UPSERT_BATCH_SIZE..], j - 1, k);
      }
    }
  }

  /** A point a run has to send belongs to one of its rows. */
  lemma SentPointsOwn(c: Settings, db: Database, p: int, vectors: seq<Vector>, j: nat, k: nat)
    requires ValidDb(db) && |vectors| == |PaperRows(db, p)|
    requires j < |PublishWrites(c, PaperRows(db, p), vectors)|
    requires PublishWrites(c, PaperRows(db, p), vectors)[j].Upsert? &&
             k < |PublishWrites(c, PaperRows(db, p), vectors)[j].points|
    ensures var point := PublishWrites(c, PaperRows(db, p), vectors)[j].points[k];
      exists id :: Joined(db, id) && RowOf(db, id).paperId == p && point.id == CanonicalOf(c, db, id)
        && point.point.payload == PayloadFor(c, RowOf(db, id))
  {
    PaperRowsAre(db, p);
    var rows := PaperRows(db, p);
    var points := Points(c, rows, vectors);
    assert PublishWrites(c, rows, vectors)[j] == UpsertBatches(points)[j];
    BatchesWithin(points, j, k);
    var m :| 0 <= m < |points| && points[m] == UpsertBatches(points)[j].points[k];
    assert rows[m] in rows;
    assert Joined(db, rows[m].id);
  }

  /** A benign write keeps an already served own point served. */
  lemma BenignKeepsServed(c: Settings, s: Stores, w: Write, p: PointStruct)
    requires Lawful(c) && ValidDb(s.db) && Benign(c, s.db, w) && OwnPoint(c, s.db, p) && Serves(s.index, p)
    ensures Serves(Apply(c, s, w).index, p)
  {
    var id :| Joined(s.db, id) && p.id == CanonicalOf(c, s.db, id) && p.point.payload == PayloadFor(c, RowOf(s.db, id));
    match w {
      case Upsert(points) =>
        UpsertLookups(s.index, points);
        forall k | 0 <= k < |points| && points[k].id == p.id ensures points[k].point.payload == p.point.payload {
          assert OwnPoint(c, s.db, points[k]);
          var other :| Joined(s.db, other) && points[k].id == CanonicalOf(c, s.db, other)
            && points[k].point.payload == PayloadFor(c, RowOf(s.db, other));
          CanonicalInjective(c, s.db, id, other);
        }
      case Delete(ids) => assert CanonicalOf(c, s.db, id) !in ids;
      case Commit(updates) =>
    }
  }

  /** A benign write of another paper leaves this paper's rows as they are. */
  ghost predicate SparesRows(s: Stores, after: Stores, p: int) {
    RowsOfPaper(s.db, p) == RowsOfPaper(after.db, p)
  }

  lemma CommitSparesOthers(c: Settings, s: Stores, updates: seq<Update>, p: int)
    requires forall k :: 0 <= k < |updates| ==>
                         Joined(s.db, updates[k].rowId) && RowOf(s.db, updates[k].rowId).paperId != p
    ensures SparesRows(s, Apply(c, s, Commit(updates)), p)
  {
    CommitLookups(c, s.db.chunks, updates);
    var after := Apply(c, s, Commit(updates));
    forall id ensures Joined(s.db, id) <==> Joined(after.db, id) {
      ApplySameContent(c, s, Commit(updates));
    }
    forall id | Joined(s.db, id) ensures RowOf(s.db, id).paperId == RowOf(after.db, id).paperId
      && (RowOf(s.db, id).paperId == p ==> RowOf(s.db, id) == RowOf(after.db, id))
    {
    }
  }

  lemma CleanAfterWrite(c: Settings, s: Stores, w: Write)
    requires CleanIds(c, s.db) && Benign(c, s.db, w)
    ensures CleanIds(c, Apply(c, s, w).db)
  {
    ApplySameContent(c, s, w);
    var after := Apply(c, s, w);
    if w.Commit? {
      CommitLookups(c, s.db.chunks, w.updates);
      forall p, victim ensures !Endangers(c, after.db, p, victim) {
        forall r | Joined(after.db, r) && Joined(after.db, victim) && RowOf(after.db, r).paperId == p
          && RowOf(after.db, r).embeddingId == Some(CanonicalOf(c, after.db, victim))
          ensures CanonicalOf(c, after.db, r) == CanonicalOf(c, after.db, victim)
        {
          SameRows(c, s.db, after.db, r);
          SameRows(c, s.db, after.db, victim);
          forall k | 0 <= k < |w.updates| && w.updates[k].rowId == r
            ensures w.updates[k].pointId == CanonicalOf(c, s.db, r) {
            assert OwnUpdate(c, s.db, w.updates[k]);
          }
          assert !Endangers(c, s.db, p, victim);
        }
      }
    }
  }

  /** An upsert of own points leaves each of them served. */
  lemma UpsertServesOwn(c: Settings, s: Stores, points: seq<PointStruct>, k: nat)
    requires Lawful(c) && ValidDb(s.db) && Benign(c, s.db, Upsert(points)) && k < |points|
    ensures Serves(UpsertAll(s.index, points), points[k])
  {
    UpsertLookups(s.index, points);
    forall m | 0 <= m < |points| && points[m].id == points[k].id
      ensures points[m].point.payload == points[k].point.payload {
      assert OwnPoint(c, s.db, points[k]) && OwnPoint(c, s.db, points[m]);
      var a :| Joined(s.db, a) && points[k].id == CanonicalOf(c, s.db, a) &&
               points[k].point.payload == PayloadFor(c, RowOf(s.db, a));
      var b :| Joined(s.db, b) && points[m].id == CanonicalOf(c, s.db, b) &&
               points[m].point.payload == PayloadFor(c, RowOf(s.db, b));
      CanonicalInjective(c, s.db, a, b);
    }
  }

  /** The next write of an uncommitted publication is benign, and touches no other paper's rows. */
  lemma NextWriteBenign(c: Settings, s: Stores, run: Run)
    requires Lawful(c) && ValidDb(s.db) && CleanIds(c, s.db)
    requires run.phase.Publishing? && run.phase.todo != [] && PublishingOk(c, s, run)
    ensures Benign(c, s.db, run.phase.todo[0])
    ensures run.phase.todo[0].Commit? ==> forall k :: 0 <= k < |run.phase.todo[0].updates| ==>
      Joined(s.db, run.phase.todo[0].updates[k].rowId) &&
      RowOf(s.db, run.phase.todo[0].updates[k].rowId).paperId == run.paperId
  {
    var phase := run.phase;
    var writes := PublishWrites(c, phase.rows, phase.vectors);
    PublishBenign(c, s.db, run.paperId, phase.vectors);
    assert phase.todo[0] == writes[|phase.sent|];
    LastWriteCommits(c, phase.rows, phase.vectors, |phase.sent|);
    PaperRowsAre(s.db, run.paperId);
    if phase.todo[0].Commit? {
      forall k | 0 <= k < |phase.todo[0].updates|
        ensures Joined(s.db, phase.todo[0].updates[k].rowId) &&
                RowOf(s.db, phase.todo[0].updates[k].rowId).paperId == run.paperId
      {
        assert phase.rows[k] in phase.rows;
      }
    }
  }

  /** A benign write confined to another paper's rows keeps what a publishing run relies on. */
  lemma WriteKeepsOther(c: Settings, s: Stores, w: Write, run: Run)
    requires Lawful(c) && ValidDb(s.db) && Benign(c, s.db, w)
    requires w.Commit? ==> forall k :: 0 <= k < |w.updates| ==>
      Joined(s.db, w.updates[k].rowId) && RowOf(s.db, w.updates[k].rowId).paperId != run.paperId
    requires run.phase.Publishing? && PublishingOk(c, s, run)
    ensures ValidDb(Apply(c, s, w).db) && PublishingOk(c, Apply(c, s, w), run)
  {
    var after := Apply(c, s, w);
    ApplySameContent(c, s, w);
    SameValid(s.db, after.db);
    if run.phase.todo != [] {
      if w.Commit? { CommitSparesOthers(c, s, w.updates, run.paperId); }
      assert RowsOfPaper(after.db, run.paperId) == RowsOfPaper(s.db, run.paperId);
      WriteKeepsSent(c, s, w, run);
    } else {
      forall id | Joined(after.db, id) && RowOf(after.db, id).paperId == run.paperId ensures Matched(c, after, id) {
        SameRows(c, s.db, after.db, id);
        BenignKeepsMatch(c, s, w, id);
      }
    }
  }

  lemma WriteKeepsSent(c: Settings, s: Stores, w: Write, run: Run)
    requires Lawful(c) && ValidDb(s.db) && Benign(c, s.db, w)
    requires run.phase.Publishing? && run.phase.todo != [] && PublishingOk(c, s, run)
    ensures SentServed(Apply(c, s, w).index, run.phase.sent)
  {
    var sent := run.phase.sent;
    forall j, k | 0 <= j < |sent| && sent[j].Upsert? && 0 <= k < |sent[j].points|
      ensures Serves(Apply(c, s, w).index, sent[j].points[k])
    {
      assert sent[j] == PublishWrites(c, run.phase.rows, run.phase.vectors)[j];
      SentPointsOwn(c, s.db, run.paperId, run.phase.vectors, j, k);
      assert OwnPoint(c, s.db, sent[j].points[k]);
      BenignKeepsServed(c, s, w, sent[j].points[k]);
    }
  }

  /** Every row's own point was sent before the commit. */
  lemma AllSentBeforeCommit(c: Settings, s: Stores, run: Run, k: nat)
    requires ValidDb(s.db) && run.phase.Publishing? && PublishingOk(c, s, run) && |run.phase.todo| == 1
    requires k < |run.phase.rows|
    ensures Serves(s.index, PointFor(c, run.phase.rows[k], run.phase.vectors[k]))
  {
    var phase := run.phase;
    var points := Points(c, phase.rows, phase.vectors);
    BatchesCover(points, k);
    var j :| 0 <= j < |UpsertBatches(points)| && Carries(UpsertBatches(points)[j], points[k]);
    assert phase.sent[j] == PublishWrites(c, phase.rows, phase.vectors)[j] == UpsertBatches(points)[j];
    var m :| 0 <= m < |phase.sent[j].points| && phase.sent[j].points[m] == points[k];
    assert Serves(s.index, phase.sent[j].points[m]);
  }

  /** Once its metadata is committed, every row of the paper matches. */
  lemma CommitCompletes(c: Settings, s: Stores, run: Run)
    requires Lawful(c) && ValidDb(s.db) && CleanIds(c, s.db)
    requires run.phase.Publishing? && PublishingOk(c, s, run) && |run.phase.todo| == 1
    ensures AllMatched(c, Apply(c, s, run.phase.todo[0]), run.paperId)
  {
    var phase := run.phase;
    var w := phase.todo[0];
    LastWriteCommits(c, phase.rows, phase.vectors, |phase.sent|);
    assert w == Commit(Updates(c, phase.rows)) by {
      assert w == PublishWrites(c, phase.rows, phase.vectors)[|phase.sent|];
    }
    var after := Apply(c, s, w);
    ApplySameContent(c, s, w);
    PaperRowsAre(s.db, run.paperId);
    forall id | Joined(after.db, id) && RowOf(after.db, id).paperId == run.paperId ensures Matched(c, after, id) {
      SameRows(c, s.db, after.db, id);
      assert RowOf(s.db, id) in phase.rows;
      var k :| 0 <= k < |phase.rows| && phase.rows[k] == RowOf(s.db, id);
      AllSentBeforeCommit(c, s, run, k);
      RowRecorded(c, s.db, run.paperId, id);
    }
  }

  /** A run's own write advances it. */
  lemma WriteAdvances(c: Settings, s: Stores, run: Run)
    requires Lawful(c) && ValidDb(s.db) && CleanIds(c, s.db)
    requires run.phase.Publishing? && run.phase.todo != [] && PublishingOk(c, s, run)
    ensures var after := Apply(c, s, run.phase.todo[0]);
      ValidDb(after.db) &&
      PublishingOk(c, after,
                   run.(phase := run.phase.(sent := run.phase.sent + [run.phase.todo[0]], todo := run.phase.todo[1..])))
  {
    var phase := run.phase;
    var w, sent := phase.todo[0], phase.sent + [phase.todo[0]];
    var after := Apply(c, s, w);
    NextWriteBenign(c, s, run);
    ApplySameContent(c, s, w);
    SameValid(s.db, after.db);
    UnderwayNext(phase.sent, phase.todo, PublishWrites(c, phase.rows, phase.vectors), w);
    LastWriteCommits(c, phase.rows, phase.vectors, |phase.sent|);
    assert w == PublishWrites(c, phase.rows, phase.vectors)[|phase.sent|];
    if phase.todo[1..] == [] {
      CommitCompletes(c, s, run);
    } else {
      WriteKeepsSent(c, s, w, run);
      if w.Upsert? {
        forall k | 0 <= k < |w.points| ensures Serves(after.index, w.points[k]) { UpsertServesOwn(c, s, w.points, k); }
      }
    }
  }

  /** So does the part of a cleanup delete that took effect. */
  lemma PartAdvances(c: Settings, s: Stores, run: Run, n: nat)
    requires Lawful(c) && ValidDb(s.db) && CleanIds(c, s.db)
    requires run.phase.Publishing? && run.phase.todo != [] && run.phase.todo[0].Delete? && PublishingOk(c, s, run)
    ensures var part := Partial(run.phase.todo[0], n);
      var after := Apply(c, s, part);
      ValidDb(after.db) &&
      PublishingOk(c, after, run.(phase := run.phase.(sent := run.phase.sent + [part], todo := run.phase.todo[1..])))
  {
    var phase := run.phase;
    var part := Partial(phase.todo[0], n);
    NextWriteBenign(c, s, run);
    BenignPart(c, s.db, phase.todo[0], n);
    ApplySameContent(c, s, part);
    assert CutShort(part, phase.todo[0]);
    UnderwayNext(phase.sent, phase.todo, PublishWrites(c, phase.rows, phase.vectors), part);
    LastWriteCommits(c, phase.rows, phase.vectors, |phase.sent|);
    WriteKeepsSent(c, s, part, run);
  }

  /** Another chunk writer confined to its own paper keeps what a publishing run relies on. */
  lemma ProcessKeepsOther(c: Settings, s: Stores, after: Stores, p: int, run: Run)
    requires Lawful(c) && ValidDb(s.db) && ValidDb(after.db) && OnlyPaper(c, s, after, p) && run.paperId != p
    requires run.phase.Publishing? && PublishingOk(c, s, run)
    ensures PublishingOk(c, after, run)
  {
    forall id ensures Joined(s.db, id) && RowOf(s.db, id).paperId == run.paperId
      <==> Joined(after.db, id) && RowOf(after.db, id).paperId == run.paperId {}
    forall id | Joined(s.db, id) && RowOf(s.db, id).paperId == run.paperId
      ensures RowOf(after.db, id) == RowOf(s.db, id)
      ensures Lookup(after.index, CanonicalOf(c, s.db, id)) == Lookup(s.index, CanonicalOf(c, s.db, id)) {}
    assert RowsOfPaper(after.db, run.paperId) == RowsOfPaper(s.db, run.paperId);
    if run.phase.todo != [] {
      var sent := run.phase.sent;
      forall j, k | 0 <= j < |sent| && sent[j].Upsert? && 0 <= k < |sent[j].points|
        ensures Serves(after.index, sent[j].points[k])
      {
        assert sent[j] == PublishWrites(c, run.phase.rows, run.phase.vectors)[j];
        SentPointsOwn(c, s.db, run.paperId, run.phase.vectors, j, k);
      }
    }
  }

  // ---- every step keeps the invariant ------------------------------------------------------

  lemma ReleaseKeepsLocks(w: World, a: int, sent: seq<Write>)
    requires LockDiscipline(w) && a in w.runs
    ensures LockDiscipline(EndRun(w, a, sent))
  {
    var after := EndRun(w, a, sent);
    forall b | Holds(after, b)
      ensures after.runs[b].paperId in after.holder && after.holder[after.runs[b].paperId] == b {
      assert Holds(w, b) && b != a;
    }
    forall p | p in after.holder ensures Holds(after, after.holder[p]) && after.runs[after.holder[p]].paperId == p {
      assert Holds(w, w.holder[p]);
    }
  }

  /** Ending a run changes no store, so only the lock table and that run matter. */
  lemma EndKeepsInv(c: Settings, w: World, a: int, sent: seq<Write>)
    requires Inv(c, w) && a in w.runs
    ensures Inv(c, EndRun(w, a, sent))
  {
    ReleaseKeepsLocks(w, a, sent);
  }

  lemma RecheckKeepsInv(c: Settings, w: World, a: int)
    requires Lawful(c) && Inv(c, w) && Enabled(c, w, Recheck(a))
    ensures Inv(c, Next(c, w, Recheck(a)))
  {
    var run := w.runs[a];
    var rows, vectors := run.phase.rows, run.phase.vectors;
    if AllVisible(c, rows) && ChunkSnapshot(PaperRows(w.stores.db, run.paperId)) == ChunkSnapshot(rows) {
      PaperRowsAre(w.stores.db, run.paperId);
      ReembedPublish.SnapshotDeterminesRows(PaperRows(w.stores.db, run.paperId), rows, run.paperId);
      var after := Next(c, w, Recheck(a));
      assert PublishWrites(c, rows, vectors)[0..] == PublishWrites(c, rows, vectors);
      forall b | Holds(after, b)
        ensures after.runs[b].paperId in after.holder && after.holder[after.runs[b].paperId] == b {
        assert Holds(w, b);
      }
      forall p | p in after.holder ensures Holds(after, after.holder[p]) && after.runs[after.holder[p]].paperId == p {
        assert Holds(w, w.holder[p]);
      }
    } else {
      EndKeepsInv(c, w, a, []);
    }
  }

  /** Two runs never hold one paper's lock, so another run's paper differs. */
  lemma OtherHolder(w: World, a: int, b: int)
    requires LockDiscipline(w) && Holds(w, a) && Holds(w, b) && a != b
    ensures w.runs[a].paperId != w.runs[b].paperId
  {
  }

  /** The stores after one (possibly partial) write of run a; every other run keeps its footing. */
  lemma WriteKeepsAll(c: Settings, w: World, a: int, n: nat, whole: bool)
    requires Lawful(c) && Inv(c, w) && Enabled(c, w, Send(a))
    ensures var write := if whole then w.runs[a].phase.todo[0] else Partial(w.runs[a].phase.todo[0], n);
      var after := Apply(c, w.stores, write);
      && ValidDb(after.db) && CleanIds(c, after.db)
      && forall b :: b in w.runs && b != a && w.runs[b].phase.Publishing? ==> PublishingOk(c, after, w.runs[b])
  {
    var run := w.runs[a];
    var write := if whole then run.phase.todo[0] else Partial(run.phase.todo[0], n);
    NextWriteBenign(c, w.stores, run);
    BenignPart(c, w.stores.db, run.phase.todo[0], n);
    CleanAfterWrite(c, w.stores, write);
    ApplySameContent(c, w.stores, write);
    SameValid(w.stores.db, Apply(c, w.stores, write).db);
    forall b | b in w.runs && b != a && w.runs[b].phase.Publishing?
      ensures PublishingOk(c, Apply(c, w.stores, write), w.runs[b])
    {
      assert Holds(w, a) && Holds(w, b);
      OtherHolder(w, a, b);
      WriteKeepsOther(c, w.stores, write, w.runs[b]);
    }
  }

  lemma SendKeepsInv(c: Settings, w: World, a: int)
    requires Lawful(c) && Inv(c, w) && Enabled(c, w, Send(a))
    ensures Inv(c, Next(c, w, Send(a)))
  {
    var after := Next(c, w, Send(a));
    WriteKeepsAll(c, w, a, 0, true);
    WriteAdvances(c, w.stores, w.runs[a]);
    forall b | Holds(after, b)
      ensures after.runs[b].paperId in after.holder && after.holder[after.runs[b].paperId] == b {
      assert Holds(w, b);
    }
    forall p | p in after.holder ensures Holds(after, after.holder[p]) && after.runs[after.holder[p]].paperId == p {
      assert Holds(w, w.holder[p]);
    }
  }

  lemma StopKeepsInv(c: Settings, w: World, a: int, n: nat)
    requires Lawful(c) && Inv(c, w) && Enabled(c, w, Stop(a, n))
    ensures Inv(c, Next(c, w, Stop(a, n)))
  {
    var phase := w.runs[a].phase;
    if phase.Publishing? && phase.todo != [] {
      WriteKeepsAll(c, w, a, n, false);
      var after := Next(c, w, Stop(a, n));
      ReleaseKeepsLocks(w, a, phase.sent + [Partial(phase.todo[0], n)]);
      assert after.runs == EndRun(w, a, phase.sent + [Partial(phase.todo[0], n)]).runs;
      assert after.holder == EndRun(w, a, phase.sent + [Partial(phase.todo[0], n)]).holder;
      assert forall b :: Holds(after, b) <==> Holds(EndRun(w, a, phase.sent + [Partial(phase.todo[0], n)]), b);
    } else {
      EndKeepsInv(c, w, a, if phase.Publishing? then phase.sent else []);
    }
  }

  /** A tolerated cleanup delete advances its run like a whole one, and disturbs no other. */
  lemma TolerateKeepsInv(c: Settings, w: World, a: int, n: nat)
    requires Lawful(c) && Inv(c, w) && Enabled(c, w, Tolerate(a, n))
    ensures Inv(c, Next(c, w, Tolerate(a, n)))
  {
    var after := Next(c, w, Tolerate(a, n));
    WriteKeepsAll(c, w, a, n, false);
    PartAdvances(c, w.stores, w.runs[a], n);
    forall b | Holds(after, b)
      ensures after.runs[b].paperId in after.holder && after.holder[after.runs[b].paperId] == b {
      assert Holds(w, b);
    }
    forall p | p in after.holder ensures Holds(after, after.holder[p]) && after.runs[after.holder[p]].paperId == p {
      assert Holds(w, w.holder[p]);
    }
  }

  lemma LockKeepsInv(c: Settings, w: World, a: int)
    requires Inv(c, w) && Enabled(c, w, Lock(a))
    ensures Inv(c, Next(c, w, Lock(a)))
  {
    var after := Next(c, w, Lock(a));
    forall b | Holds(after, b)
      ensures after.runs[b].paperId in after.holder && after.holder[after.runs[b].paperId] == b {
      if b != a { assert Holds(w, b); }
    }
    forall p | p in after.holder ensures Holds(after, after.holder[p]) && after.runs[after.holder[p]].paperId == p {
      if p != w.runs[a].paperId { assert Holds(w, w.holder[p]); }
    }
  }

  lemma ReadKeepsInv(c: Settings, w: World, a: int, p: int, vectors: seq<Vector>)
    requires Inv(c, w) && Enabled(c, w, Read(a, p, vectors))
    ensures Inv(c, Next(c, w, Read(a, p, vectors)))
  {
    var after := Next(c, w, Read(a, p, vectors));
    PaperRowsAre(w.stores.db, p);
    var rows := PaperRows(w.stores.db, p);
    assert forall k :: 0 <= k < |rows| ==> rows[k] in rows;
    forall b | Holds(after, b)
      ensures after.runs[b].paperId in after.holder && after.holder[after.runs[b].paperId] == b {
      assert Holds(w, b);
    }
    forall q | q in after.holder ensures Holds(after, after.holder[q]) && after.runs[after.holder[q]].paperId == q {
      assert Holds(w, w.holder[q]);
    }
  }

  lemma ProcessKeepsInv(c: Settings, w: World, p: int, stores: Stores)
    requires Lawful(c) && Inv(c, w) && Enabled(c, w, Process(p, stores))
    ensures Inv(c, Next(c, w, Process(p, stores)))
  {
    var after := Next(c, w, Process(p, stores));
    forall b | b in w.runs && w.runs[b].phase.Publishing? ensures PublishingOk(c, stores, w.runs[b]) {
      assert Holds(w, b);
      ProcessKeepsOther(c, w.stores, stores, p, w.runs[b]);
    }
    assert forall b :: Holds(after, b) <==> Holds(w, b);
  }

  lemma StepKeepsInv(c: Settings, w: World, e: Event)
    requires Lawful(c) && Inv(c, w) && Enabled(c, w, e)
    ensures Inv(c, Next(c, w, e))
  {
    match e
    case Read(a, p, vectors) => ReadKeepsInv(c, w, a, p, vectors);
    case Lock(a) => LockKeepsInv(c, w, a);
    case Recheck(a) => RecheckKeepsInv(c, w, a);
    case Send(a) => SendKeepsInv(c, w, a);
    case Stop(a, n) => StopKeepsInv(c, w, a, n);
    case Tolerate(a, n) => TolerateKeepsInv(c, w, a, n);
    case Finish(a) => EndKeepsInv(c, w, a, w.runs[a].phase.sent);
    case Process(p, after) => ProcessKeepsInv(c, w, p, after);
  }

  // ---- results over every run of the machine -----------------------------------------------

  ghost predicate Trace(c: Settings, worlds: seq<World>, events: seq<Event>) {
    && |worlds| == |events| + 1 && Initial(c, worlds[0])
    && forall i :: 0 <= i < |events| ==>
                   Enabled(c, worlds[i], events[i]) && worlds[i + 1] == Next(c, worlds[i], events[i])
  }

  lemma {:induction false} TraceInv(c: Settings, worlds: seq<World>, events: seq<Event>, i: nat)
    requires Lawful(c) && Trace(c, worlds, events) && i < |worlds|
    ensures Inv(c, worlds[i])
    decreases i
  {
    if i > 0 {
      TraceInv(c, worlds, events, i - 1);
      StepKeepsInv(c, worlds[i - 1], events[i - 1]);
    }
  }

  /**
   * In every reachable world a publishing run holds its paper's lock, and the calls
   * it has made, a tolerated cleanup delete perhaps in part, and those to come are
   * the writes computed from the rows the paper has now, in order; once everything
   * is sent, every row of the paper matches.
   */
  lemma PublishesTheLockedRows(c: Settings, worlds: seq<World>, events: seq<Event>, i: nat, a: int)
    requires Lawful(c) && Trace(c, worlds, events) && i < |worlds|
    requires a in worlds[i].runs && worlds[i].runs[a].phase.Publishing?
    ensures var w, run := worlds[i], worlds[i].runs[a];
      && ValidDb(w.stores.db)
      && run.paperId in w.holder && w.holder[run.paperId] == a
      && (run.phase.todo != [] ==>
            && |run.phase.vectors| == |PaperRows(w.stores.db, run.paperId)|
            && Underway(run.phase.sent, run.phase.todo,
                        PublishWrites(c, PaperRows(w.stores.db, run.paperId), run.phase.vectors)))
      && (run.phase.todo == [] ==> AllMatched(c, w.stores, run.paperId))
  {
    TraceInv(c, worlds, events, i);
    assert Holds(worlds[i], a);
  }

  /** No two runs publish one paper at once. */
  lemma OnePublisherPerPaper(c: Settings, worlds: seq<World>, events: seq<Event>, i: nat, a: int, b: int)
    requires Lawful(c) && Trace(c, worlds, events) && i < |worlds| && a != b
    requires a in worlds[i].runs && worlds[i].runs[a].phase.Publishing?
    requires b in worlds[i].runs && worlds[i].runs[b].phase.Publishing?
    ensures worlds[i].runs[a].paperId != worlds[i].runs[b].paperId
  {
    TraceInv(c, worlds, events, i);
    assert Holds(worlds[i], a) && Holds(worlds[i], b);
  }

  /**
   * No step of any re-embedding run, crash included, loses any row's match. Only
   * another chunk writer can, and then only for rows of the paper it holds.
   */
  lemma NoStepLosesAMatch(c: Settings, worlds: seq<World>, events: seq<Event>, i: nat, id: int)
    requires Lawful(c) && Trace(c, worlds, events) && i < |events|
    requires Matched(c, worlds[i].stores, id)
    requires events[i].Process? ==> RowOf(worlds[i].stores.db, id).paperId != events[i].paperId
    ensures Matched(c, worlds[i + 1].stores, id)
  {
    TraceInv(c, worlds, events, i);
    var w, e := worlds[i], events[i];
    match e {
      case Send(a) =>
        NextWriteBenign(c, w.stores, w.runs[a]);
        BenignKeepsMatch(c, w.stores, w.runs[a].phase.todo[0], id);
      case Tolerate(a, n) =>
        NextWriteBenign(c, w.stores, w.runs[a]);
        BenignPart(c, w.stores.db, w.runs[a].phase.todo[0], n);
        BenignKeepsMatch(c, w.stores, Partial(w.runs[a].phase.todo[0], n), id);
      case Stop(a, n) =>
        if w.runs[a].phase.Publishing? && w.runs[a].phase.todo != [] {
          NextWriteBenign(c, w.stores, w.runs[a]);
          BenignPart(c, w.stores.db, w.runs[a].phase.todo[0], n);
          BenignKeepsMatch(c, w.stores, Partial(w.runs[a].phase.todo[0], n), id);
        }
      case _ =>
    }
  }

  /** sent is an initial part of all, a tolerated cleanup delete and the last write possibly cut short. */
  ghost predicate InitialPart(sent: seq<Write>, all: seq<Write>) {
    && |sent| <= |all|
    && forall k :: 0 <= k < |sent| ==> Passed(sent[k], all[k]) || (k == |sent| - 1 && CutShort(sent[k], all[k]))
  }

  /** At event j run a rechecked under the lock, found its rows unchanged, and set out to send their writes. */
  ghost predicate RecheckedAt(c: Settings, worlds: seq<World>, events: seq<Event>, j: nat, a: int) {
    && j < |events| && |worlds| == |events| + 1 && events[j] == Recheck(a)
    && a in worlds[j].runs && a in worlds[j + 1].runs && worlds[j + 1].runs[a].phase.Publishing?
    && ValidDb(worlds[j].stores.db)
    && var held, vectors := PaperRows(worlds[j].stores.db, worlds[j].runs[a].paperId),
                            worlds[j + 1].runs[a].phase.vectors;
       |held| == |vectors| && worlds[j + 1].runs[a].phase.todo == PublishWrites(c, held, vectors)
  }

  /** How far a run has come through the writes it set out to send. */
  ghost predicate Progress(phase: Phase, all: seq<Write>) {
    match phase
    case Publishing(_, _, sent, todo) => Underway(sent, todo, all)
    case Ended(sent) => InitialPart(sent, all)
    case _ => false
  }

  lemma ProgressAdvances(c: Settings, w: World, e: Event, a: int, all: seq<Write>)
    requires Enabled(c, w, e) && a in w.runs && Progress(w.runs[a].phase, all)
    ensures var after := Next(c, w, e); a in after.runs && Progress(after.runs[a].phase, all)
  {
    var phase := w.runs[a].phase;
    match e {
      case Send(b) =>
        if a == b { UnderwayNext(phase.sent, phase.todo, all, phase.todo[0]); }
      case Tolerate(b, n) =>
        if a == b {
          assert CutShort(Partial(phase.todo[0], n), phase.todo[0]);
          UnderwayNext(phase.sent, phase.todo, all, Partial(phase.todo[0], n));
        }
      case Stop(b, n) =>
        if a == b && phase.Publishing? && phase.todo != [] {
          assert all[|phase.sent|] == phase.todo[0];
          assert CutShort(Partial(phase.todo[0], n), phase.todo[0]);
        }
      case _ =>
    }
  }

  /** A run that is publishing or has written got there by a recheck, or was there already. */
  lemma ProgressBegins(c: Settings, w: World, e: Event, a: int)
    requires Enabled(c, w, e) && e != Recheck(a)
    requires a in Next(c, w, e).runs
    requires var phase := Next(c, w, e).runs[a].phase; phase.Publishing? || (phase.Ended? && phase.sent != [])
    ensures a in w.runs && (w.runs[a].phase.Publishing? || (w.runs[a].phase.Ended? && w.runs[a].phase.sent != []))
  {
  }

  lemma RecheckBegins(c: Settings, worlds: seq<World>, events: seq<Event>, j: nat, a: int)
    requires Lawful(c) && Trace(c, worlds, events) && j < |events| && events[j] == Recheck(a)
    ensures a in worlds[j + 1].runs
    ensures worlds[j + 1].runs[a].phase.Publishing? ==>
      RecheckedAt(c, worlds, events, j, a) && Progress(worlds[j + 1].runs[a].phase, worlds[j + 1].runs[a].phase.todo)
    ensures !worlds[j + 1].runs[a].phase.Publishing? ==> worlds[j + 1].runs[a].phase == Ended([])
  {
    TraceInv(c, worlds, events, j);
    var w := worlds[j];
    var run := w.runs[a];
    if worlds[j + 1].runs[a].phase.Publishing? {
      PaperRowsAre(w.stores.db, run.paperId);
      ReembedPublish.SnapshotDeterminesRows(PaperRows(w.stores.db, run.paperId), run.phase.rows, run.paperId);
    }
  }

  /**
   * Every run either has written nothing, or has written an initial part of the
   * writes computed from the rows it read back under the lock.
   */
  lemma {:induction false} WritesOnlyWhatItHeld(c: Settings, worlds: seq<World>, events: seq<Event>, i: nat, a: int)
    returns (j: nat)
    requires Lawful(c) && Trace(c, worlds, events) && i < |worlds|
    requires a in worlds[i].runs
    requires var phase := worlds[i].runs[a].phase; phase.Publishing? || (phase.Ended? && phase.sent != [])
    ensures j < i && RecheckedAt(c, worlds, events, j, a)
    ensures Progress(worlds[i].runs[a].phase, worlds[j + 1].runs[a].phase.todo)
    decreases i
  {
    assert i > 0;
    if events[i - 1] == Recheck(a) {
      j := i - 1;
      RecheckBegins(c, worlds, events, j, a);
    } else {
      ProgressBegins(c, worlds[i - 1], events[i - 1], a);
      j := WritesOnlyWhatItHeld(c, worlds, events, i - 1, a);
      ProgressAdvances(c, worlds[i - 1], events[i - 1], a, worlds[j + 1].runs[a].phase.todo);
    }
  }
}
