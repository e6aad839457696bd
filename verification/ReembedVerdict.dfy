/**
 * scripts/reembed.py: when one undisturbed run of the command ends with a passing verification,
 * and what a writer without the paper's lock does to a publication.
 */
module ReembedVerdict {
  import opened Base
  import opened ReembedModel
  import opened ReembedScan
  import opened ReembedPublish
  import opened ReembedRecovery

  /** Some row of a repaired paper remembers the point as an old one, so the pass deletes it. */
  ghost predicate Remembered(c: Settings, db: Database, papers: seq<int>, pid: PointId)
    requires ValidDb(db)
  {
    exists q :: q in papers && pid in Stale(c, PaperRows(db, q))
  }

  /** The point belongs to no joined row. */
  ghost predicate Unowned(c: Settings, db: Database, pid: PointId) {
    forall id :: Joined(db, id) ==> CanonicalOf(c, db, id) != pid
  }

  /** Repairing one paper leaves the rows of every other paper as they were. */
  lemma RepairSparesRows(c: Settings, s: Stores, paperId: int, embed: string -> Vector, q: int)
    requires ValidDb(s.db) && q != paperId
    ensures ValidDb(Repaired(c, s, paperId, embed).db)
    ensures PaperRows(Repaired(c, s, paperId, embed).db, q) == PaperRows(s.db, q)
  {
    var after := Repaired(c, s, paperId, embed).db;
    RepairedValid(c, s, paperId, embed);
    PublishedContent(c, s, paperId, Embedded(embed, PaperRows(s.db, paperId)));
    forall id ensures Joined(s.db, id) <==> Joined(after, id) { SameRows(c, s.db, after, id); }
    assert RowsOfPaper(after, q) == RowsOfPaper(s.db, q);
  }

  /** A point no row owns outlives the repair of a paper unless one of its rows remembers it. */
  lemma RepairedUnowned(c: Settings, s: Stores, paperId: int, embed: string -> Vector, pid: PointId)
    requires Lawful(c) && ValidDb(s.db) && PapersVisible(c, s.db) && Unowned(c, s.db, pid)
    ensures Lookup(Repaired(c, s, paperId, embed).index, pid)
         == if pid in Stale(c, PaperRows(s.db, paperId)) then None else Lookup(s.index, pid)
  {
    var rows := PaperRows(s.db, paperId);
    PaperRowsAre(s.db, paperId);
    if rows == [] {
      StaleMembers(c, rows);
    } else {
      forall r | r in rows ensures VisibilityOk(c, r.sourceType, r.visibilityScope) { assert Joined(s.db, r.id); }
      var points := Points(c, rows, Embedded(embed, rows));
      UpsertLookups(s.index, points);
      forall k | 0 <= k < |points| ensures points[k].id != pid {
        assert rows[k] in rows;
        assert CanonicalOf(c, s.db, rows[k].id) == points[k].id;
      }
    }
  }

  /** The same over a pass. */
  lemma {:induction false} PassUnowned(c: Settings, s: Stores, papers: seq<int>, embed: string -> Vector, pid: PointId)
    requires Lawful(c) && ValidDb(s.db) && PapersVisible(c, s.db) && Unowned(c, s.db, pid)
    requires forall i, j :: 0 <= i < j < |papers| ==> papers[i] < papers[j]
    ensures Lookup(Pass(c, s, papers, embed).index, pid)
         == if Remembered(c, s.db, papers, pid) then None else Lookup(s.index, pid)
    decreases |papers|
  {
    if papers != [] {
      var first, rest := papers[0], papers[1..];
      var after := Repaired(c, s, first, embed);
      RepairedValid(c, s, first, embed);
      RepairKeepsShape(c, s, first, embed, pid);
      RepairedUnowned(c, s, first, embed, pid);
      PassUnowned(c, after, rest, embed, pid);
      assert papers == [first] + rest;
      forall q | q in rest ensures PaperRows(after.db, q) == PaperRows(s.db, q) {
        RepairSparesRows(c, s, first, embed, q);
      }
      assert Remembered(c, s.db, papers, pid) <==>
        pid in Stale(c, PaperRows(s.db, first)) || Remembered(c, after.db, rest, pid);
    }
  }

  lemma RepairKeepsShape(c: Settings, s: Stores, paperId: int, embed: string -> Vector, pid: PointId)
    requires ValidDb(s.db) && PapersVisible(c, s.db) && Unowned(c, s.db, pid)
    ensures var after := Repaired(c, s, paperId, embed).db; PapersVisible(c, after) && Unowned(c, after, pid)
  {
    var after := Repaired(c, s, paperId, embed).db;
    RepairedValid(c, s, paperId, embed);
    forall id | Joined(after, id)
      ensures CanonicalOf(c, after, id) != pid &&
              VisibilityOk(c, RowOf(after, id).sourceType, RowOf(after, id).visibilityScope)
    {
      SameRows(c, s.db, after, id);
    }
  }

  /** A row the scan cannot see is not touched. */
  lemma {:induction false} PassSparesOrphans(c: Settings, s: Stores, papers: seq<int>, embed: string -> Vector, id: int)
    requires ValidDb(s.db) && id in s.db.chunks && !Joined(s.db, id)
    ensures var after := Pass(c, s, papers, embed).db;
      id in after.chunks && after.chunks[id] == s.db.chunks[id] && !Joined(after, id)
    decreases |papers|
  {
    if papers != [] {
      var rows := PaperRows(s.db, papers[0]);
      var after := Repaired(c, s, papers[0], embed);
      RepairedValid(c, s, papers[0], embed);
      SameRows(c, s.db, after.db, id);
      PaperRowsAre(s.db, papers[0]);
      CommitLookups(c, s.db.chunks, Updates(c, rows));
      forall k | 0 <= k < |rows| ensures Updates(c, rows)[k].rowId != id { assert rows[k] in rows; }
      PassSparesOrphans(c, after, papers[1..], embed, id);
    }
  }

  /** Target-model points that no joined row owns and the pass does not delete. */
  ghost function Leftovers(c: Settings, s: Stores, papers: seq<int>): set<PointId>
    requires ValidDb(s.db)
  {
    set pid | pid in TargetPoints(c, s.index) && Unowned(c, s.db, pid) && !Remembered(c, s.db, papers, pid)
  }

  lemma PassLeaves(c: Settings, s: Stores, papers: seq<int>, embed: string -> Vector)
    requires Lawful(c) && ValidDb(s.db) && PapersVisible(c, s.db) && forall id :: Joined(s.db, id) ==> id > 0
    requires forall i, j :: 0 <= i < j < |papers| ==> papers[i] < papers[j]
    ensures var after := Pass(c, s, papers, embed);
      && ValidDb(after.db)
      && TargetPoints(c, after.index) - CanonicalIds(c, after.db) == Leftovers(c, s, papers)
      && UnscannedTargets(c, after.db) == UnscannedTargets(c, s.db)
  {
    var after := Pass(c, s, papers, embed);
    PassContent(c, s, papers, embed);
    forall id ensures Joined(after.db, id) <==> Joined(s.db, id)
      ensures CanonicalOf(c, after.db, id) == CanonicalOf(c, s.db, id)
    {
      SameRows(c, s.db, after.db, id);
    }
    forall pid
      ensures pid in TargetPoints(c, after.index) - CanonicalIds(c, after.db) <==> pid in Leftovers(c, s, papers)
    {
      OwnedIsCanonical(c, after.db, pid);
      if Unowned(c, s.db, pid) { PassUnowned(c, s, papers, embed, pid); }
    }
    forall id ensures id in UnscannedTargets(c, after.db) <==> id in UnscannedTargets(c, s.db) {
      if id in s.db.chunks && !Joined(s.db, id) { PassSparesOrphans(c, s, papers, embed, id); }
    }
  }

  lemma OwnedIsCanonical(c: Settings, db: Database, pid: PointId)
    requires forall id :: Joined(db, id) ==> id > 0
    ensures pid in CanonicalIds(c, db) <==> !Unowned(c, db, pid)
  {
    if !Unowned(c, db, pid) {
      var id :| Joined(db, id) && CanonicalOf(c, db, id) == pid;
      assert id in ScannedIds(db);
    }
  }

  /**
   * An undisturbed pass over the scanned papers passes the verification if and only if the
   * rows held no hazard and the points that neither belong to a row nor are remembered by a
   * repaired one are as many as the target-model rows the scan cannot see.
   */
  lemma PassVerdict(c: Settings, s: Stores, embed: string -> Vector)
    requires Lawful(c) && ValidDb(s.db) && PapersVisible(c, s.db)
    requires forall id :: Joined(s.db, id) ==> id > 0
    ensures var papers := ScanResult(c, s);
      Verification(c, Pass(c, s, papers, embed)).Ok? <==>
        !Hazard(c, s.db, papers) && |Leftovers(c, s, papers)| == |UnscannedTargets(c, s.db)|
  {
    var papers := ScanResult(c, s);
    var after := Pass(c, s, papers, embed);
    ScanResultIs(c, s);
    ScanResultIs(c, after);
    OnePassHeals(c, s, embed);
    PassLeaves(c, s, papers, embed);
    if ScanResult(c, after) == [] { ExtraPoints(c, after); }
  }

  /** One undisturbed run of the command: scan, repair, verify. */
  method RunCommand(b: Backends, embed: string -> Vector, dimension: nat) returns (r: Result<(), VerificationError>)
    requires ValidDb(b.stores.db) && b.faults == [] && forall t :: |embed(t)| == dimension
    modifies b
    ensures b.stores == Pass(b.settings, old(b.stores), ScanResult(b.settings, old(b.stores)), embed)
    ensures r == Verification(b.settings, b.stores)
    ensures Lawful(b.settings) && PapersVisible(b.settings, old(b.stores.db)) &&
            (forall id :: Joined(old(b.stores.db), id) ==> id > 0)
      ==> (r.Ok? <==>
            !Hazard(b.settings, old(b.stores.db), ScanResult(b.settings, old(b.stores)))
            && |Leftovers(b.settings, old(b.stores), ScanResult(b.settings, old(b.stores)))|
               == |UnscannedTargets(b.settings, old(b.stores.db))|)
  {
    ghost var before := b.stores;
    var papers := FindPapersNeedingReembed(b.settings, b.stores);
    RepairAll(b, papers, embed, dimension);
    r := VerifyPostconditions(b.settings, b.stores);
    if Lawful(b.settings) && PapersVisible(b.settings, before.db) && forall id :: Joined(before.db, id) ==> id > 0 {
      PassVerdict(b.settings, before, embed);
    }
  }

  // ---- a writer without the lock ----------------------------------------------------------------

  /** In whatever index the points are put, a row's point carries the payload of the row as it was read. */
  lemma UpsertedElsewhere(c: Settings, db: Database, index: Index, paperId: int, vectors: seq<Vector>, id: int)
    requires Lawful(c) && ValidDb(db) && |vectors| == |PaperRows(db, paperId)|
    requires Joined(db, id) && RowOf(db, id).paperId == paperId
    ensures var after, pid := UpsertAll(index, Points(c, PaperRows(db, paperId), vectors)), CanonicalOf(c, db, id);
      pid in after && after[pid].payload == PayloadFor(c, RowOf(db, id))
  {
    var rows := PaperRows(db, paperId);
    var points := Points(c, rows, vectors);
    PaperRowsAre(db, paperId);
    UpsertLookups(index, points);
    assert RowOf(db, id) in rows;
    var k :| 0 <= k < |rows| && rows[k] == RowOf(db, id);
    assert points[k].id == CanonicalOf(c, db, id);
    forall j | 0 <= j < |points| && points[j].id == CanonicalOf(c, db, id) ensures rows[j] == RowOf(db, id) {
      OwnRow(c, db, paperId, j, id);
    }
  }

  /** In whatever rows the metadata is recorded, one that is still there gets its canonical id. */
  lemma RecordedElsewhere(c: Settings, db: Database, chunks: map<int, ChunkRow>, paperId: int, id: int)
    requires ValidDb(db) && Joined(db, id) && RowOf(db, id).paperId == paperId && id in chunks
    ensures var after, pid := CommitAll(c, chunks, Updates(c, PaperRows(db, paperId))), CanonicalOf(c, db, id);
      id in after && after[id] == chunks[id].(embeddingId := Some(pid), embeddingModel := Some(c.model))
  {
    CommitLookups(c, chunks, Updates(c, PaperRows(db, paperId)));
    UpdatesOfRow(c, db, paperId, id);
  }

  /** The point a published row ends with, in whatever stores t the writes meet. */
  lemma PublishedElsewhere(c: Settings, s: Stores, t: Stores, paperId: int, vectors: seq<Vector>, id: int)
    requires Lawful(c) && ValidDb(s.db) && |vectors| == |PaperRows(s.db, paperId)|
    requires Joined(s.db, id) && RowOf(s.db, id).paperId == paperId
    requires CanonicalOf(c, s.db, id) !in Stale(c, PaperRows(s.db, paperId))
    ensures var after, pid := Published(c, t, PaperRows(s.db, paperId), vectors), CanonicalOf(c, s.db, id);
      pid in after.index && after.index[pid].payload == PayloadFor(c, RowOf(s.db, id))
  {
    UpsertedElsewhere(c, s.db, t.index, paperId, vectors, id);
  }

  /**
   * If something changes a paper's rows without its lock between the re-check and the
   * publication: the run writes what it holds, and a row it still finds matches in the end if
   * and only if the change touched none of the compared fields.
   */
  lemma ChangedUnderneath(c: Settings, s: Stores, t: Stores, paperId: int, vectors: seq<Vector>, id: int,
                          continueOnError: bool)
    requires Lawful(c) && ValidDb(s.db) && |vectors| == |PaperRows(s.db, paperId)|
    requires Joined(s.db, id) && Joined(t.db, id)
    requires RowOf(s.db, id).paperId == paperId == RowOf(t.db, id).paperId
    requires RowOf(s.db, id).chunkIndex == RowOf(t.db, id).chunkIndex
    requires CanonicalOf(c, s.db, id) !in Stale(c, PaperRows(s.db, paperId))
    ensures var rows := PaperRows(s.db, paperId);
      Matched(c, Execute(c, t, PublishWrites(c, rows, vectors), [], continueOnError).stores, id)
      <==> SameChecked(PayloadFor(c, RowOf(s.db, id)), PayloadFor(c, RowOf(t.db, id)))
  {
    var rows := PaperRows(s.db, paperId);
    UndisturbedRun(c, t, rows, vectors, continueOnError);
    PublishedElsewhere(c, s, t, paperId, vectors, id);
    RecordedElsewhere(c, s.db, t.db.chunks, paperId, id);
  }

  /** If it deletes the row, as a promotion to a public paper does, the run leaves a target-model point no row owns. */
  lemma DeletedUnderneath(c: Settings, s: Stores, t: Stores, paperId: int, vectors: seq<Vector>, id: int,
                          continueOnError: bool)
    requires Lawful(c) && ValidDb(s.db) && |vectors| == |PaperRows(s.db, paperId)|
    requires Joined(s.db, id) && RowOf(s.db, id).paperId == paperId
    requires Unowned(c, t.db, CanonicalOf(c, s.db, id))
    requires CanonicalOf(c, s.db, id) !in Stale(c, PaperRows(s.db, paperId))
    ensures var after := Execute(c, t, PublishWrites(c, PaperRows(s.db, paperId), vectors), [], continueOnError).stores;
      CanonicalOf(c, s.db, id) in TargetPoints(c, after.index) && Unowned(c, after.db, CanonicalOf(c, s.db, id))
  {
    var rows := PaperRows(s.db, paperId);
    UndisturbedRun(c, t, rows, vectors, continueOnError);
    PublishedElsewhere(c, s, t, paperId, vectors, id);
    var after := Published(c, t, rows, vectors);
    CommitLookups(c, t.db.chunks, Updates(c, rows));
    forall other | Joined(after.db, other) ensures CanonicalOf(c, after.db, other) == CanonicalOf(c, t.db, other) {
    }
  }
}
