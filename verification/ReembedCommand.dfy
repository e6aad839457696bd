/** scripts/reembed.py, main: the loop over papers and the verdict, whatever fails on the way. */
module ReembedCommand {
  import opened Base
  import opened ReembedModel
  import opened ReembedScan
  import opened ReembedPublish
  import opened ReembedRecovery

  /** What a paper's run meets: the backend's replies, and whether an error the backend raises is the command's own. */
  datatype Weather = Weather(replies: seq<Reply>, own: bool)

  /**
   * The errors that end the command at once: those it raises itself, a failed cleanup
   * delete among them. The loop records any other and goes on.
   */
  predicate Ends(error: PublishError, own: bool) {
    match error
    case Embedding(CountWrong) => true
    case Embedding(DimensionWrong) => true
    case Embedding(BatchSizeZero) => false
    case InvalidVisibility => false
    case ChunksChanged => true
    case CallRaised(stage) => stage == Cleaning
    case Embedding(BackendRaised) => own
  }

  /** Where the loop leaves things: the papers it recorded as failed, and the error that ended it early. */
  datatype Repairs = Repairs(stores: Stores, faults: seq<Fault>, failed: seq<int>, ended: Option<(int, PublishError)>)

  datatype CommandError =
    | WarmupFailed
    | BatchStepZero
    | Ended(paperId: int, error: PublishError)
    | PapersFailed(papers: seq<int>)
    | NotVerified(mismatch: VerificationError)

  /** How the command is configured. */
  datatype Config = Config(settings: Settings, continueOnError: bool, embedBatch: int, dimension: nat)

  function PaperRun(g: Config, s: Stores, faults: seq<Fault>, paperId: int, w: Weather): Reembedded
    requires ValidDb(s.db)
  {
    Reembed(g.settings, g.continueOnError, s, s, faults, paperId, w.replies, g.embedBatch, g.dimension)
  }

  /** The loop over the papers. */
  function RepairPapers(g: Config, s: Stores, faults: seq<Fault>, papers: seq<int>, weather: int -> Weather): Repairs
    requires ValidDb(s.db)
    decreases |papers|
  {
    if papers == [] then Repairs(s, faults, [], None)
    else
      var run := PaperRun(g, s, faults, papers[0], weather(papers[0]));
      PaperRunValid(g, s, faults, papers[0], weather(papers[0]));
      AfterRun(run, papers[0], weather(papers[0]).own, RepairPapers(g, run.stores, run.faults, papers[1..], weather))
  }

  /** The first paper's run ends the loop, or is recorded if it failed, with the others after it. */
  function AfterRun(run: Reembedded, paperId: int, own: bool, later: Repairs): Repairs {
    if run.result.Err? && Ends(run.result.error, own)
    then Repairs(run.stores, run.faults, [], Some((paperId, run.result.error)))
    else later.(failed := (if run.result.Err? then [paperId] else []) + later.failed)
  }

  lemma {:induction false} ExecuteContent(c: Settings, s: Stores, writes: seq<Write>, faults: seq<Fault>,
                                          continueOnError: bool)
    requires ValidDb(s.db)
    ensures var after := Execute(c, s, writes, faults, continueOnError).stores;
      SameContent(s.db, after.db) && ValidDb(after.db)
    decreases |writes|
  {
    if writes != [] {
      var w := Effective(writes[0], NextFault(faults));
      ApplySameContent(c, s, w);
      SameValid(s.db, Apply(c, s, w).db);
      ExecuteContent(c, Apply(c, s, w), writes[1..], LaterFaults(faults), continueOnError);
    }
  }

  /** A run changes no row but in embedding_id and embedding_model. */
  lemma PaperRunValid(g: Config, s: Stores, faults: seq<Fault>, paperId: int, w: Weather)
    requires ValidDb(s.db)
    ensures var after := PaperRun(g, s, faults, paperId, w).stores;
      SameContent(s.db, after.db) && ValidDb(after.db)
  {
    var rows := PaperRows(s.db, paperId);
    var embedded := EmbedAll(w.replies, |rows|, g.embedBatch, g.dimension);
    if embedded.Ok? {
      ExecuteContent(g.settings, s, PublishWrites(g.settings, rows, embedded.value), faults, g.continueOnError);
    }
  }

  /** A tolerated cleanup delete does not raise. */
  lemma {:induction false} ToleratedCleanup(c: Settings, s: Stores, writes: seq<Write>, faults: seq<Fault>)
    ensures Execute(c, s, writes, faults, true).raised != Some(Cleaning)
    decreases |writes|
  {
    if writes != [] {
      ToleratedCleanup(c, Apply(c, s, Effective(writes[0], NextFault(faults))), writes[1..], LaterFaults(faults));
    }
  }

  lemma PaperRunTolerates(g: Config, s: Stores, faults: seq<Fault>, paperId: int, w: Weather)
    requires ValidDb(s.db) && g.continueOnError
    ensures PaperRun(g, s, faults, paperId, w).result != Err(CallRaised(Cleaning))
  {
    var rows := PaperRows(s.db, paperId);
    var embedded := EmbedAll(w.replies, |rows|, g.embedBatch, g.dimension);
    if embedded.Ok? { ToleratedCleanup(g.settings, s, PublishWrites(g.settings, rows, embedded.value), faults); }
  }

  /**
   * What ends the loop: a wrong count or dimension, rows changed under the lock, a failed
   * cleanup delete that is not tolerated, or a backend error that is the command's own.
   */
  lemma {:induction false} EndedOnlyBy(g: Config, s: Stores, faults: seq<Fault>, papers: seq<int>,
                                       weather: int -> Weather)
    requires ValidDb(s.db)
    ensures var ended := RepairPapers(g, s, faults, papers, weather).ended;
      ended.Some? ==>
        match ended.value.1
        case Embedding(cause) =>
          cause in {CountWrong, DimensionWrong} || (cause == BackendRaised && weather(ended.value.0).own)
        case InvalidVisibility => false
        case ChunksChanged => true
        case CallRaised(stage) => stage == Cleaning && !g.continueOnError
    decreases |papers|
  {
    if papers != [] {
      var run := PaperRun(g, s, faults, papers[0], weather(papers[0]));
      if g.continueOnError { PaperRunTolerates(g, s, faults, papers[0], weather(papers[0])); }
      PaperRunValid(g, s, faults, papers[0], weather(papers[0]));
      EndedOnlyBy(g, run.stores, run.faults, papers[1..], weather);
    }
  }

  /** What of a single paper's failure ends the loop, and what is recorded, exactly. */
  lemma OnePaperEnds(g: Config, s: Stores, faults: seq<Fault>, paperId: int, weather: int -> Weather)
    requires ValidDb(s.db)
    ensures var result, r := PaperRun(g, s, faults, paperId, weather(paperId)).result,
                             RepairPapers(g, s, faults, [paperId], weather);
      match result
      case Ok(_) => r.failed == [] && r.ended.None?
      case Err(error) =>
        var ends := error in {Embedding(CountWrong), Embedding(DimensionWrong), ChunksChanged, CallRaised(Cleaning)}
                    || (error == Embedding(BackendRaised) && weather(paperId).own);
        if ends then r.failed == [] && r.ended == Some((paperId, error)) else r.failed == [paperId] && r.ended.None?
  {
    PaperRunValid(g, s, faults, paperId, weather(paperId));
    assert [paperId][1..] == [];
  }

  // ---- what a run for one paper keeps and achieves ------------------------------------------------

  /** From a to b rows changed only in embedding_model, and in embedding_id to their own canonical id. */
  ghost predicate Refreshed(c: Settings, a: Database, b: Database) {
    && SameContent(a, b)
    && forall id :: Joined(a, id) ==> OwnOrKept(c, a, b, id)
  }

  ghost predicate OwnOrKept(c: Settings, a: Database, b: Database, id: int)
    requires SameContent(a, b) && Joined(a, id)
  {
    b.chunks[id].embeddingId in {a.chunks[id].embeddingId, Some(CanonicalOf(c, a, id))}
  }

  lemma RefreshedThen(c: Settings, x: Database, y: Database, z: Database)
    requires Refreshed(c, x, y) && Refreshed(c, y, z)
    ensures Refreshed(c, x, z)
  {
    forall id | Joined(x, id) ensures OwnOrKept(c, x, z, id) {
      SameRows(c, x, y, id);
      assert OwnOrKept(c, x, y, id) && OwnOrKept(c, y, z, id);
    }
  }

  lemma RefreshedByWrite(c: Settings, s: Stores, w: Write)
    requires Benign(c, s.db, w)
    ensures Refreshed(c, s.db, Apply(c, s, w).db)
  {
    ApplySameContent(c, s, w);
    if w.Commit? {
      CommitLookups(c, s.db.chunks, w.updates);
      forall id | Joined(s.db, id) ensures OwnOrKept(c, s.db, Apply(c, s, w).db, id) {
        forall k | 0 <= k < |w.updates| && w.updates[k].rowId == id
          ensures w.updates[k].pointId == CanonicalOf(c, s.db, id) {
          assert OwnUpdate(c, s.db, w.updates[k]);
        }
      }
    }
  }

  lemma {:induction false} RefreshedByRun(c: Settings, s: Stores, writes: seq<Write>, faults: seq<Fault>,
                                          continueOnError: bool)
    requires ValidDb(s.db) && forall k :: 0 <= k < |writes| ==> Benign(c, s.db, writes[k])
    ensures Refreshed(c, s.db, Execute(c, s, writes, faults, continueOnError).stores.db)
    decreases |writes|
  {
    if writes != [] {
      var w := Effective(writes[0], NextFault(faults));
      if NextFault(faults).Raises? { BenignPart(c, s.db, writes[0], NextFault(faults).applied); }
      var next := Apply(c, s, w);
      RefreshedByWrite(c, s, w);
      SameValid(s.db, next.db);
      forall k | 0 <= k < |writes[1..]| ensures Benign(c, next.db, writes[1..][k]) {
        BenignInSame(c, s.db, next.db, writes[k + 1]);
      }
      RefreshedByRun(c, next, writes[1..], LaterFaults(faults), continueOnError);
      RefreshedThen(c, s.db, next.db, Execute(c, next, writes[1..], LaterFaults(faults), continueOnError).stores.db);
    }
  }

  /** Refreshing rows endangers nobody new. */
  lemma RefreshedEndangers(c: Settings, a: Database, b: Database, paperId: int, victim: int)
    requires Refreshed(c, a, b) && Endangers(c, b, paperId, victim)
    ensures Endangers(c, a, paperId, victim)
  {
    var r :| Joined(b, r) && Joined(b, victim) && RowOf(b, r).paperId == paperId
      && RowOf(b, r).embeddingId == Some(CanonicalOf(c, b, victim))
      && CanonicalOf(c, b, r) != CanonicalOf(c, b, victim);
    SameRows(c, a, b, r);
    SameRows(c, a, b, victim);
    assert OwnOrKept(c, a, b, r);
  }

  /** If no upsert raises, all of them have been carried out. */
  lemma {:induction false} UpsertsDone(c: Settings, s: Stores, points: seq<PointStruct>, tail: seq<Write>,
                                       faults: seq<Fault>, continueOnError: bool)
    returns (later: seq<Fault>)
    requires Execute(c, s, UpsertBatches(points) + tail, faults, continueOnError).raised.None?
    ensures Execute(c, s, UpsertBatches(points) + tail, faults, continueOnError)
      == Execute(c, s.(index := UpsertAll(s.index, points)), tail, later, continueOnError)
    decreases |points|
  {
    if points == [] {
      assert UpsertBatches(points) + tail == tail;
      later := faults;
    } else {
      var next := if UPSERT_BATCH_SIZE < |points| then UPSERT_BATCH_SIZE else |points|;
      assert points[0..] == points && points[0..next] == points[..next];
      FirstBatch(points, 0, next, tail);
      ExecuteStep(c, s, Upsert(points[..next]), UpsertBatches(points[next..]) + tail, faults, continueOnError);
      var s1 := s.(index := UpsertAll(s.index, points[..next]));
      later := UpsertsDone(c, s1, points[next..], tail, LaterFaults(faults), continueOnError);
      assert points[..next] + points[next..] == points;
      UpsertConcat(s.index, points[..next], points[next..]);
    }
  }

  /** If the end of a publication raises nothing, at most stale points are gone and the metadata is committed. */
  lemma EndDone(c: Settings, s: Stores, stale: seq<PointId>, updates: seq<Update>, faults: seq<Fault>,
                continueOnError: bool)
    returns (gone: seq<PointId>)
    requires Execute(c, s, Cleanup(stale) + [Commit(updates)], faults, continueOnError).raised.None?
    ensures forall pid :: pid in gone ==> pid in stale
    ensures Execute(c, s, Cleanup(stale) + [Commit(updates)], faults, continueOnError).stores
      == Stores(s.db.(chunks := CommitAll(c, s.db.chunks, updates)), DeleteAll(s.index, gone))
  {
    if stale == [] {
      gone := [];
      assert Cleanup(stale) + [Commit(updates)] == [Commit(updates)] + [];
      ExecuteStep(c, s, Commit(updates), [], faults, continueOnError);
    } else {
      var w := Effective(Delete(stale), NextFault(faults));
      gone := w.ids;
      ExecuteStep(c, s, Delete(stale), [Commit(updates)], faults, continueOnError);
      assert [Commit(updates)] == [Commit(updates)] + [];
      ExecuteStep(c, Apply(c, s, w), Commit(updates), [], LaterFaults(faults), continueOnError);
    }
  }

  /** A publication that raises nothing matches all the paper's rows, even if the cleanup it tolerated fell short. */
  lemma PublicationServes(c: Settings, s: Stores, paperId: int, vectors: seq<Vector>, faults: seq<Fault>,
                          continueOnError: bool, id: int)
    requires Lawful(c) && ValidDb(s.db) && |vectors| == |PaperRows(s.db, paperId)|
    requires !Endangers(c, s.db, paperId, id)
    requires Joined(s.db, id) && RowOf(s.db, id).paperId == paperId
    requires Execute(c, s, PublishWrites(c, PaperRows(s.db, paperId), vectors), faults, continueOnError).raised.None?
    ensures Matched(c,
                    Execute(c, s, PublishWrites(c, PaperRows(s.db, paperId), vectors), faults,
                            continueOnError).stores, id)
  {
    var rows := PaperRows(s.db, paperId);
    var points, stale, updates := Points(c, rows, vectors), Stale(c, rows), Updates(c, rows);
    assert PublishWrites(c, rows, vectors) == UpsertBatches(points) + (Cleanup(stale) + [Commit(updates)]);
    var later := UpsertsDone(c, s, points, Cleanup(stale) + [Commit(updates)], faults, continueOnError);
    var s1 := s.(index := UpsertAll(s.index, points));
    var gone := EndDone(c, s1, stale, updates, later, continueOnError);
    ServedThrough(c, s, paperId, vectors, gone, id);
  }

  /** A row of a published paper matches when at most stale points are gone. */
  lemma ServedThrough(c: Settings, s: Stores, paperId: int, vectors: seq<Vector>, gone: seq<PointId>, id: int)
    requires Lawful(c) && ValidDb(s.db) && |vectors| == |PaperRows(s.db, paperId)|
    requires !Endangers(c, s.db, paperId, id)
    requires Joined(s.db, id) && RowOf(s.db, id).paperId == paperId
    requires forall pid :: pid in gone ==> pid in Stale(c, PaperRows(s.db, paperId))
    ensures var rows := PaperRows(s.db, paperId);
      Matched(c, Stores(s.db.(chunks := CommitAll(c, s.db.chunks, Updates(c, rows))),
                        DeleteAll(UpsertAll(s.index, Points(c, rows, vectors)), gone)), id)
  {
    StaleEndangers(c, s.db, paperId, id);
    UpsertedServes(c, s, paperId, vectors, id);
    RowRecorded(c, s.db, paperId, id);
  }

  /** A run for a paper that endangers nobody: what it keeps, and what its success means. */
  lemma PaperRunKeeps(g: Config, s: Stores, faults: seq<Fault>, paperId: int, w: Weather)
    requires Lawful(g.settings) && ValidDb(s.db) && forall victim :: !Endangers(g.settings, s.db, paperId, victim)
    ensures var run := PaperRun(g, s, faults, paperId, w);
      && Refreshed(g.settings, s.db, run.stores.db) && ValidDb(run.stores.db)
      && (forall id :: Matched(g.settings, s, id) ==> Matched(g.settings, run.stores, id))
      && (run.result.Ok? ==>
            forall id :: Joined(s.db, id) && RowOf(s.db, id).paperId == paperId ==> Matched(g.settings, run.stores, id))
  {
    var c, rows := g.settings, PaperRows(s.db, paperId);
    var run := PaperRun(g, s, faults, paperId, w);
    PaperRunValid(g, s, faults, paperId, w);
    PaperRowsAre(s.db, paperId);
    var embedded := EmbedAll(w.replies, |rows|, g.embedBatch, g.dimension);
    if rows != [] && embedded.Ok? && AllVisible(c, rows) {
      var writes := PublishWrites(c, rows, embedded.value);
      PublishBenign(c, s.db, paperId, embedded.value);
      RefreshedByRun(c, s, writes, faults, g.continueOnError);
      forall id | Matched(c, s, id) ensures Matched(c, run.stores, id) {
        BenignRunKeepsMatch(c, s, writes, faults, g.continueOnError, id);
      }
      forall id | run.result.Ok? && Joined(s.db, id) && RowOf(s.db, id).paperId == paperId
        ensures Matched(c, run.stores, id)
      {
        PublicationServes(c, s, paperId, embedded.value, faults, g.continueOnError, id);
      }
    }
    forall id | Joined(s.db, id) && RowOf(s.db, id).paperId == paperId ensures RowOf(s.db, id) in rows {}
  }

  // ---- the loop ---------------------------------------------------------------------------------------

  /** No listed paper remembers another row's canonical id. */
  ghost predicate Calm(c: Settings, db: Database, papers: seq<int>) {
    forall q, victim :: q in papers ==> !Endangers(c, db, q, victim)
  }

  /** The loop came to the paper and neither recorded it as failed nor ended there. */
  ghost predicate Done(r: Repairs, papers: seq<int>, paperId: int) {
    paperId in papers && paperId !in r.failed && (r.ended.Some? ==> paperId < r.ended.value.0)
  }

  /** Every row that matched still does, and every row of a paper that is done matches. */
  ghost predicate Keeps(c: Settings, s: Stores, papers: seq<int>, r: Repairs) {
    && Refreshed(c, s.db, r.stores.db) && ValidDb(r.stores.db)
    && (forall q :: q in r.failed ==> q in papers)
    && (r.ended.Some? ==> r.ended.value.0 in papers)
    && (forall id :: Matched(c, s, id) ==> Matched(c, r.stores, id))
    && (forall id :: Joined(s.db, id) && Done(r, papers, RowOf(s.db, id).paperId) ==> Matched(c, r.stores, id))
  }

  lemma CalmNext(c: Settings, a: Database, b: Database, papers: seq<int>)
    requires papers != [] && Calm(c, a, papers) && Refreshed(c, a, b)
    ensures Calm(c, b, papers[1..])
  {
    forall q, victim | q in papers[1..] ensures !Endangers(c, b, q, victim) {
      if Endangers(c, b, q, victim) { RefreshedEndangers(c, a, b, q, victim); }
    }
  }

  /** One paper, then the rest of the loop. */
  lemma KeepsNext(c: Settings, s: Stores, papers: seq<int>, run: Reembedded, later: Repairs)
    requires papers != [] && forall q :: q in papers[1..] ==> papers[0] < q
    requires Refreshed(c, s.db, run.stores.db) && Keeps(c, run.stores, papers[1..], later)
    requires forall id :: Matched(c, s, id) ==> Matched(c, run.stores, id)
    requires run.result.Ok? ==>
      forall id :: Joined(s.db, id) && RowOf(s.db, id).paperId == papers[0] ==> Matched(c, run.stores, id)
    ensures Keeps(c, s, papers, later.(failed := (if run.result.Err? then [papers[0]] else []) + later.failed))
  {
    var r := later.(failed := (if run.result.Err? then [papers[0]] else []) + later.failed);
    assert papers == [papers[0]] + papers[1..];
    RefreshedThen(c, s.db, run.stores.db, later.stores.db);
    forall id | Joined(s.db, id) && Done(r, papers, RowOf(s.db, id).paperId) ensures Matched(c, r.stores, id) {
      SameRows(c, s.db, run.stores.db, id);
      if RowOf(s.db, id).paperId != papers[0] {
        assert Done(later, papers[1..], RowOf(run.stores.db, id).paperId);
      } else {
        assert papers[0] in r.failed <==> run.result.Err?;
      }
    }
  }

  /**
   * Whatever replies come back and whichever calls fail, and even if the loop ends early:
   * every row that matched still does, and every row of a paper that is done matches.
   */
  lemma {:induction false} RepairPapersKeep(g: Config, s: Stores, faults: seq<Fault>, papers: seq<int>,
                                            weather: int -> Weather)
    requires Lawful(g.settings) && ValidDb(s.db) && Calm(g.settings, s.db, papers)
    requires forall i, j :: 0 <= i < j < |papers| ==> papers[i] < papers[j]
    ensures Keeps(g.settings, s, papers, RepairPapers(g, s, faults, papers, weather))
    decreases |papers|
  {
    if papers != [] {
      var first, rest := papers[0], papers[1..];
      var run := PaperRun(g, s, faults, first, weather(first));
      PaperRunKeeps(g, s, faults, first, weather(first));
      if run.result.Ok? || !Ends(run.result.error, weather(first).own) {
        CalmNext(g.settings, s.db, run.stores.db, papers);
        RepairPapersKeep(g, run.stores, run.faults, rest, weather);
        KeepsNext(g.settings, s, papers, run, RepairPapers(g, run.stores, run.faults, rest, weather));
      } else {
        EndedKeeps(g.settings, s, papers, run, RepairPapers(g, s, faults, papers, weather));
      }
    }
  }

  lemma EndedKeeps(c: Settings, s: Stores, papers: seq<int>, run: Reembedded, r: Repairs)
    requires papers != [] && forall i, j :: 0 <= i < j < |papers| ==> papers[i] < papers[j]
    requires r.stores == run.stores && r.failed == [] && r.ended.Some? && r.ended.value.0 == papers[0]
    requires Refreshed(c, s.db, run.stores.db) && ValidDb(run.stores.db)
    requires forall id :: Matched(c, s, id) ==> Matched(c, run.stores, id)
    ensures Keeps(c, s, papers, r)
  {
    forall q | q in papers ensures papers[0] <= q {}
  }

  // ---- the command --------------------------------------------------------------------------------

  /** The end of main once the loop is over. */
  function Conclusion(g: Config, r: Repairs): Result<(), CommandError> {
    if r.ended.Some? then Err(Ended(r.ended.value.0, r.ended.value.1))
    else if r.failed != [] && !g.continueOnError then Err(PapersFailed(r.failed))
    else
      match Verification(g.settings, r.stores)
      case Ok(_) => Ok(())
      case Err(mismatch) => Err(NotVerified(mismatch))
  }

  /** The papers the loop visits: `range` with a negative step is empty. */
  function Visited(papers: seq<int>, step: int): seq<int> {
    if step > 0 then papers else []
  }

  /** The recorded failures so far, and what the loop has still to do, make up the whole loop. */
  ghost predicate Continues(whole: Repairs, failed: seq<int>, rest: Repairs) {
    whole == rest.(failed := failed + rest.failed)
  }

  /** The loop is at papers[k]: what it has recorded and what it will still do make up the whole. */
  ghost predicate At(g: Config, s: Stores, faults: seq<Fault>, papers: seq<int>, k: nat, weather: int -> Weather,
                     whole: Repairs, failed: seq<int>)
    requires ValidDb(s.db)
  {
    k <= |papers| && Continues(whole, failed, RepairPapers(g, s, faults, papers[k..], weather))
  }

  /** The loop from papers[k] on: that paper, then the others. */
  lemma LoopFrom(g: Config, s: Stores, faults: seq<Fault>, papers: seq<int>, k: nat, weather: int -> Weather,
                 run: Reembedded)
    requires ValidDb(s.db) && k < |papers|
    requires run == PaperRun(g, s, faults, papers[k], weather(papers[k]))
    ensures ValidDb(run.stores.db)
    ensures RepairPapers(g, s, faults, papers[k..], weather)
      == AfterRun(run, papers[k], weather(papers[k]).own,
                  RepairPapers(g, run.stores, run.faults, papers[k + 1..], weather))
  {
    PaperRunValid(g, s, faults, papers[k], weather(papers[k]));
    assert papers[k..][0] == papers[k] && papers[k..][1..] == papers[k + 1..];
  }

  lemma ContinuesNext(whole: Repairs, failed: seq<int>, run: Reembedded, paperId: int, own: bool, later: Repairs)
    requires Continues(whole, failed, AfterRun(run, paperId, own, later))
    ensures if run.result.Err? && Ends(run.result.error, own)
      then whole == Repairs(run.stores, run.faults, failed, Some((paperId, run.result.error)))
      else Continues(whole, WithFailure(failed, paperId, run.result), later)
  {
    assert failed + [] == failed;
    assert failed + ([paperId] + later.failed) == (failed + [paperId]) + later.failed;
    assert [] + later.failed == later.failed;
  }

  /** The loop has come to papers[k], or ended before it. */
  ghost predicate Reached(g: Config, s: Stores, faults: seq<Fault>, papers: seq<int>, k: nat, weather: int -> Weather,
                          whole: Repairs, failed: seq<int>, ended: Option<(int, PublishError)>)
    requires ValidDb(s.db)
  {
    if ended.Some? then whole == Repairs(s, faults, failed, ended)
       else At(g, s, faults, papers, k, weather, whole, failed)
  }

  /** One more paper of the loop. */
  lemma LoopNext(g: Config, s: Stores, faults: seq<Fault>, papers: seq<int>, k: nat, weather: int -> Weather,
                 whole: Repairs, failed: seq<int>, run: Reembedded)
    requires ValidDb(s.db) && k < |papers| && At(g, s, faults, papers, k, weather, whole, failed)
    requires run == PaperRun(g, s, faults, papers[k], weather(papers[k]))
    ensures ValidDb(run.stores.db)
    ensures if run.result.Err? && Ends(run.result.error, weather(papers[k]).own)
      then whole == Repairs(run.stores, run.faults, failed, Some((papers[k], run.result.error)))
      else At(g, run.stores, run.faults, papers, k + 1, weather, whole, WithFailure(failed, papers[k], run.result))
  {
    LoopFrom(g, s, faults, papers, k, weather, run);
    ContinuesNext(whole, failed, run, papers[k], weather(papers[k]).own,
                  RepairPapers(g, run.stores, run.faults, papers[k + 1..], weather));
  }

  function WithFailure(failed: seq<int>, paperId: int, result: Result<nat, PublishError>): seq<int> {
    if result.Err? then failed + [paperId] else failed
  }

  /** The body of the loop: a failure is recorded unless it ends the loop. */
  method RepairNext(g: Config, b: Backends, papers: seq<int>, k: nat, weather: int -> Weather, before: seq<int>,
                    ghost whole: Repairs)
    returns (failed: seq<int>, ended: Option<(int, PublishError)>)
    requires ValidDb(b.stores.db) && k < |papers|
    requires g.settings == b.settings && g.continueOnError == b.continueOnError
    requires At(g, b.stores, b.faults, papers, k, weather, whole, before)
    modifies b
    ensures ValidDb(b.stores.db)
    ensures Reached(g, b.stores, b.faults, papers, k + 1, weather, whole, failed, ended)
  {
    ghost var run := PaperRun(g, b.stores, b.faults, papers[k], weather(papers[k]));
    LoopNext(g, b.stores, b.faults, papers, k, weather, whole, before, run);
    var w := weather(papers[k]);
    var result := b.ReembedPaper(papers[k], w.replies, g.embedBatch, g.dimension, b.stores);
    assert run == Reembedded(b.stores, b.faults, result);
    ended := if result.Err? && Ends(result.error, w.own) then Some((papers[k], result.error)) else None;
    failed := if ended.Some? then before else WithFailure(before, papers[k], result);
  }

  /** The papers of one batch. */
  method RepairBatch(g: Config, b: Backends, papers: seq<int>, from: nat, to: nat, weather: int -> Weather,
                     before: seq<int>, ghost whole: Repairs)
    returns (failed: seq<int>, ended: Option<(int, PublishError)>)
    requires ValidDb(b.stores.db) && from <= to <= |papers|
    requires g.settings == b.settings && g.continueOnError == b.continueOnError
    requires Reached(g, b.stores, b.faults, papers, from, weather, whole, before, None)
    modifies b
    ensures ValidDb(b.stores.db)
    ensures Reached(g, b.stores, b.faults, papers, to, weather, whole, failed, ended)
  {
    failed, ended := before, None;
    var k := from;
    while k < to && ended.None?
      invariant from <= k <= to && ValidDb(b.stores.db)
      invariant Reached(g, b.stores, b.faults, papers, k, weather, whole, failed, ended)
    {
      failed, ended := RepairNext(g, b, papers, k, weather, failed, whole);
      k := k + 1;
    }
  }

  /** The loop over batches of papers. */
  method RepairInBatches(g: Config, b: Backends, papers: seq<int>, step: int, weather: int -> Weather)
    returns (failed: seq<int>, ended: Option<(int, PublishError)>)
    requires ValidDb(b.stores.db) && step > 0
    requires g.settings == b.settings && g.continueOnError == b.continueOnError
    modifies b
    ensures Repairs(b.stores, b.faults, failed, ended) == RepairPapers(g, old(b.stores), old(b.faults), papers, weather)
    ensures ValidDb(b.stores.db)
  {
    ghost var whole := RepairPapers(g, b.stores, b.faults, papers, weather);
    failed, ended := [], None;
    var i := 0;
    assert papers[0..] == papers && [] + whole.failed == whole.failed;
    while i < |papers| && ended.None?
      invariant 0 <= i <= |papers| && ValidDb(b.stores.db)
      invariant Reached(g, b.stores, b.faults, papers, i, weather, whole, failed, ended)
    {
      var next := if i + step < |papers| then i + step else |papers|;
      failed, ended := RepairBatch(g, b, papers, i, next, weather, failed, whole);
      i := next;
    }
  }

  /** Every scanned row has its point, and the points beside them are as many as the target rows the scan cannot see. */
  ghost predicate AllServed(c: Settings, s: Stores) {
    && (forall id :: Scanned(s.db, id) ==> Matched(c, s, id))
    && |TargetPoints(c, s.index) - CanonicalIds(c, s.db)| == |UnscannedTargets(c, s.db)|
  }

  lemma SuccessMeansServed(g: Config, r: Repairs)
    requires Lawful(g.settings) && ValidDb(r.stores.db) && Conclusion(g, r).Ok?
    ensures AllServed(g.settings, r.stores) && r.ended.None? && (r.failed == [] || g.continueOnError)
  {
    VerificationSound(g.settings, r.stores);
  }

  /** The command from the scan on. Whatever failed on the way, it ends well only if all is served. */
  method Command(g: Config, b: Backends, warmupOk: bool, step: int, weather: int -> Weather)
    returns (r: Result<(), CommandError>)
    requires ValidDb(b.stores.db)
    requires g.settings == b.settings && g.continueOnError == b.continueOnError
    modifies b
    ensures var papers := ScanResult(g.settings, old(b.stores));
      if papers == [] then
        b.stores == old(b.stores) && r == Conclusion(g, Repairs(b.stores, b.faults, [], None))
      else if !warmupOk || step == 0 then
        b.stores == old(b.stores) && r == Err(if warmupOk then BatchStepZero else WarmupFailed)
      else
        var loop := RepairPapers(g, old(b.stores), old(b.faults), Visited(papers, step), weather);
        b.stores == loop.stores && r == Conclusion(g, loop)
    ensures r.Ok? && Lawful(g.settings) ==> AllServed(g.settings, b.stores)
  {
    var papers := FindPapersNeedingReembed(b.settings, b.stores);
    var failed, ended := [], None;
    if papers != [] {
      if !warmupOk { return Err(WarmupFailed); }
      if step == 0 { return Err(BatchStepZero); }
      if step > 0 {
        failed, ended := RepairInBatches(g, b, papers, step, weather);
        if ended.Some? { return Err(Ended(ended.value.0, ended.value.1)); }
      }
    }
    if failed != [] && !g.continueOnError { return Err(PapersFailed(failed)); }
    var verdict := VerifyPostconditions(b.settings, b.stores);
    if Lawful(g.settings) && verdict.Ok? { VerificationSound(g.settings, b.stores); }
    r := match verdict case Ok(_) => Ok(()) case Err(mismatch) => Err(NotVerified(mismatch));
  }

  /**
   * When no row of a scanned paper remembers another row's canonical id, the command ends well
   * if and only if the loop was not ended early, failed papers are none or tolerated and their
   * rows match all the same, and the points beside the rows' own are as many as the target rows
   * the scan cannot see.
   */
  lemma CommandVerdict(g: Config, s: Stores, faults: seq<Fault>, weather: int -> Weather)
    requires Lawful(g.settings) && ValidDb(s.db) && Calm(g.settings, s.db, ScanResult(g.settings, s))
    ensures var r := RepairPapers(g, s, faults, ScanResult(g.settings, s), weather);
      Conclusion(g, r).Ok? <==>
        && r.ended.None? && (r.failed == [] || g.continueOnError)
        && FailedMatch(g.settings, s.db, r)
        && |TargetPoints(g.settings, r.stores.index) - CanonicalIds(g.settings, r.stores.db)|
           == |UnscannedTargets(g.settings, r.stores.db)|
  {
    ScanResultIs(g.settings, s);
    RepairPapersKeep(g, s, faults, ScanResult(g.settings, s), weather);
    var r := RepairPapers(g, s, faults, ScanResult(g.settings, s), weather);
    VerdictOf(g.settings, r.stores);
    if r.ended.None? { MatchedUnlessFailed(g.settings, s, r); }
  }

  /** The verification, as what the stores hold. */
  lemma VerdictOf(c: Settings, t: Stores)
    requires Lawful(c) && ValidDb(t.db)
    ensures Verification(c, t).Ok? <==> AllServed(c, t)
  {
    ScanResultIs(c, t);
    if forall id :: Scanned(t.db, id) ==> Matched(c, t, id) { ExtraPoints(c, t); }
  }

  lemma MatchedUnlessFailed(c: Settings, s: Stores, r: Repairs)
    requires Keeps(c, s, ScanResult(c, s), r) && r.ended.None?
    ensures (forall id :: Scanned(r.stores.db, id) ==> Matched(c, r.stores, id)) <==> FailedMatch(c, s.db, r)
  {
    ScanResultIs(c, s);
    forall id ensures Scanned(r.stores.db, id) <==> Scanned(s.db, id)
      ensures Scanned(s.db, id) && RowOf(s.db, id).paperId !in r.failed ==> Matched(c, r.stores, id)
    {
      SameRows(c, s.db, r.stores.db, id);
    }
  }

  /** The scanned rows of the papers recorded as failed are served all the same. */
  ghost predicate FailedMatch(c: Settings, db: Database, r: Repairs) {
    forall id :: Scanned(db, id) && RowOf(db, id).paperId in r.failed ==> Matched(c, r.stores, id)
  }
}
