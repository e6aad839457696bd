/** scripts/reembed.py: what publication keeps at every step, and what whole passes repair. */
module ReembedRecovery {
  import opened Base
  import opened ReembedModel
  import opened ReembedScan
  import opened ReembedPublish

  /** The two databases agree on everything but embedding_id and embedding_model. */
  ghost predicate SameContent(a: Database, b: Database) {
    && a.papers == b.papers && a.chunks.Keys == b.chunks.Keys
    && forall id :: id in a.chunks ==>
         b.chunks[id].(embeddingId := a.chunks[id].embeddingId, embeddingModel := a.chunks[id].embeddingModel) ==
         a.chunks[id]
  }

  lemma SameRows(c: Settings, a: Database, b: Database, id: int)
    requires SameContent(a, b)
    ensures Joined(a, id) <==> Joined(b, id)
    ensures Joined(a, id) ==> CanonicalOf(c, a, id) == CanonicalOf(c, b, id)
    ensures Joined(a, id) ==> PayloadFor(c, RowOf(a, id)) == PayloadFor(c, RowOf(b, id))
    ensures Joined(a, id) ==> RowOf(a, id).paperId == RowOf(b, id).paperId
  {
  }

  lemma SameValid(a: Database, b: Database)
    requires SameContent(a, b) && ValidDb(a)
    ensures ValidDb(b)
  {
    forall x, y | x in b.chunks && y in b.chunks && b.chunks[x].paperId.Some?
      && b.chunks[x].paperId == b.chunks[y].paperId && b.chunks[x].chunkIndex == b.chunks[y].chunkIndex
      ensures x == y
    {
      assert x in a.chunks && y in a.chunks;
      assert a.chunks[x].paperId == b.chunks[x].paperId && a.chunks[y].paperId == b.chunks[y].paperId;
    }
  }

  /**
   * A write that only puts rows' own points, removes no joined row's canonical
   * point, and records only canonical ids.
   */
  ghost predicate Benign(c: Settings, db: Database, w: Write) {
    match w
    case Upsert(points) => forall k :: 0 <= k < |points| ==> OwnPoint(c, db, points[k])
    case Delete(ids) => forall id :: Joined(db, id) ==> CanonicalOf(c, db, id) !in ids
    case Commit(updates) => forall k :: 0 <= k < |updates| ==> OwnUpdate(c, db, updates[k])
  }

  ghost predicate OwnPoint(c: Settings, db: Database, p: PointStruct) {
    exists id :: Joined(db, id) && p.id == CanonicalOf(c, db, id) && p.point.payload == PayloadFor(c, RowOf(db, id))
  }

  ghost predicate OwnUpdate(c: Settings, db: Database, u: Update) {
    Joined(db, u.rowId) && u.pointId == CanonicalOf(c, db, u.rowId)
  }

  lemma BenignInSame(c: Settings, a: Database, b: Database, w: Write)
    requires SameContent(a, b) && Benign(c, a, w)
    ensures Benign(c, b, w)
  {
    match w {
      case Upsert(points) =>
        forall k | 0 <= k < |points| ensures OwnPoint(c, b, points[k]) {
          var id :| Joined(a, id) && points[k].id == CanonicalOf(c, a, id) &&
                    points[k].point.payload == PayloadFor(c, RowOf(a, id));
          SameRows(c, a, b, id);
        }
      case Delete(ids) =>
        forall id | Joined(b, id) ensures CanonicalOf(c, b, id) !in ids { SameRows(c, a, b, id); }
      case Commit(updates) =>
        forall k | 0 <= k < |updates| ensures OwnUpdate(c, b, updates[k]) { SameRows(c, a, b, updates[k].rowId); }
    }
  }

  lemma BenignPart(c: Settings, db: Database, w: Write, n: nat)
    requires Benign(c, db, w)
    ensures Benign(c, db, Partial(w, n))
  {
  }

  lemma ApplySameContent(c: Settings, s: Stores, w: Write)
    ensures SameContent(s.db, Apply(c, s, w).db)
  {
    if w.Commit? { CommitLookups(c, s.db.chunks, w.updates); }
  }

  lemma UpsertKeepsMatch(c: Settings, s: Stores, points: seq<PointStruct>, id: int)
    requires Lawful(c) && ValidDb(s.db) && Benign(c, s.db, Upsert(points)) && Matched(c, s, id)
    ensures Matched(c, Apply(c, s, Upsert(points)), id)
  {
    UpsertLookups(s.index, points);
    var pid := CanonicalOf(c, s.db, id);
    var after := UpsertAll(s.index, points);
    if k :| 0 <= k < |points| && points[k].id == pid && points[k].point == after[pid] {
      assert OwnPoint(c, s.db, points[k]);
      var other :| Joined(s.db, other) && points[k].id == CanonicalOf(c, s.db, other)
        && points[k].point.payload == PayloadFor(c, RowOf(s.db, other));
      CanonicalInjective(c, s.db, id, other);
    }
  }

  lemma CommitKeepsMatch(c: Settings, s: Stores, updates: seq<Update>, id: int)
    requires Benign(c, s.db, Commit(updates)) && Matched(c, s, id)
    ensures Matched(c, Apply(c, s, Commit(updates)), id)
  {
    CommitLookups(c, s.db.chunks, updates);
    forall k | 0 <= k < |updates| && updates[k].rowId == id
      ensures updates[k].pointId == CanonicalOf(c, s.db, id)
    {
      assert OwnUpdate(c, s.db, updates[k]);
    }
  }

  lemma BenignKeepsMatch(c: Settings, s: Stores, w: Write, id: int)
    requires Lawful(c) && ValidDb(s.db) && Benign(c, s.db, w) && Matched(c, s, id)
    ensures Matched(c, Apply(c, s, w), id)
  {
    match w {
      case Upsert(points) => UpsertKeepsMatch(c, s, points, id);
      case Delete(ids) => assert CanonicalOf(c, s.db, id) !in ids;
      case Commit(updates) => CommitKeepsMatch(c, s, updates, id);
    }
  }

  /** Whatever call raises, and however much of it took effect, no matched row is lost. */
  lemma {:induction false} BenignRunKeepsMatch(c: Settings, s: Stores, writes: seq<Write>, faults: seq<Fault>,
                                               continueOnError: bool, id: int)
    requires Lawful(c) && ValidDb(s.db) && Matched(c, s, id)
    requires forall k :: 0 <= k < |writes| ==> Benign(c, s.db, writes[k])
    ensures Matched(c, Execute(c, s, writes, faults, continueOnError).stores, id)
    decreases |writes|
  {
    if writes != [] {
      var w := if NextFault(faults).Fine? then writes[0] else Partial(writes[0], NextFault(faults).applied);
      if NextFault(faults).Raises? { BenignPart(c, s.db, writes[0], NextFault(faults).applied); }
      var next := Apply(c, s, w);
      BenignKeepsMatch(c, s, w, id);
      ApplySameContent(c, s, w);
      SameValid(s.db, next.db);
      forall k | 0 <= k < |writes[1..]| ensures Benign(c, next.db, writes[1..][k]) {
        BenignInSame(c, s.db, next.db, writes[k + 1]);
      }
      BenignRunKeepsMatch(c, next, writes[1..], LaterFaults(faults), continueOnError, id);
    }
  }

  /** Some row of the paper remembers, as its old embedding_id, the canonical id of the joined row `victim`. */
  ghost predicate Endangers(c: Settings, db: Database, paperId: int, victim: int) {
    exists r :: Joined(db, r) && Joined(db, victim) && RowOf(db, r).paperId == paperId
      && RowOf(db, r).embeddingId == Some(CanonicalOf(c, db, victim)) &&
         CanonicalOf(c, db, r) != CanonicalOf(c, db, victim)
  }

  lemma StaleEndangers(c: Settings, db: Database, paperId: int, victim: int)
    requires Lawful(c) && ValidDb(db) && Joined(db, victim)
    ensures CanonicalOf(c, db, victim) in Stale(c, PaperRows(db, paperId)) <==> Endangers(c, db, paperId, victim)
  {
    PaperRowsAre(db, paperId);
    var rows, v := PaperRows(db, paperId), RowOf(db, victim);
    StaleCanonical(c, rows, v.paperId, v.chunkIndex);
    if r :| r in rows && r.embeddingId == Some(Canonical(c, v)) && Canonical(c, r) != Canonical(c, v) {
      assert Joined(db, r.id) && RowOf(db, r.id) == r;
      assert CanonicalOf(c, db, r.id) == Canonical(c, r);
    }
    forall id | Joined(db, id) && RowOf(db, id).paperId == paperId ensures RowOf(db, id) in rows {}
  }

  /** Each member of a concatenation of batches is an upsert of listed points. */
  lemma {:induction false} BatchesBenign(c: Settings, db: Database, points: seq<PointStruct>)
    requires Benign(c, db, Upsert(points))
    ensures forall k :: 0 <= k < |UpsertBatches(points)| ==> Benign(c, db, UpsertBatches(points)[k])
    decreases |points|
  {
    if |points| > UPSERT_BATCH_SIZE {
      var rest := points[UPSERT_BATCH_SIZE..];
      assert Benign(c, db, Upsert(points[..UPSERT_BATCH_SIZE]));
      assert forall k :: 0 <= k < |rest| ==> rest[k] == points[k + UPSERT_BATCH_SIZE];
      assert Benign(c, db, Upsert(rest));
      BatchesBenign(c, db, rest);
    }
  }

  lemma PublishBenign(c: Settings, db: Database, paperId: int, vectors: seq<Vector>)
    requires Lawful(c) && ValidDb(db) && |vectors| == |PaperRows(db, paperId)|
    requires forall victim :: !Endangers(c, db, paperId, victim)
    ensures var writes := PublishWrites(c, PaperRows(db, paperId), vectors);
      forall k :: 0 <= k < |writes| ==> Benign(c, db, writes[k])
  {
    PaperRowsAre(db, paperId);
    var rows := PaperRows(db, paperId);
    var points := Points(c, rows, vectors);
    forall k | 0 <= k < |points| ensures OwnPoint(c, db, points[k]) {
      assert rows[k] in rows;
      assert Joined(db, rows[k].id);
    }
    BatchesBenign(c, db, points);
    forall id | Joined(db, id) ensures CanonicalOf(c, db, id) !in Stale(c, rows) {
      StaleEndangers(c, db, paperId, id);
    }
    var updates := Updates(c, rows);
    forall k | 0 <= k < |updates| ensures OwnUpdate(c, db, updates[k]) {
      assert rows[k] in rows;
    }
  }

  /**
   * Publishing a paper whose rows remember no other row's canonical id loses no
   * match, at whichever call it raises or crashes and however far that call got.
   */
  lemma PublishingKeepsMatches(c: Settings, s: Stores, paperId: int, vectors: seq<Vector>, faults: seq<Fault>,
                               continueOnError: bool, id: int)
    requires Lawful(c) && ValidDb(s.db) && |vectors| == |PaperRows(s.db, paperId)|
    requires forall victim :: !Endangers(c, s.db, paperId, victim)
    requires Matched(c, s, id)
    ensures Matched(c,
                    Execute(c, s, PublishWrites(c, PaperRows(s.db, paperId), vectors), faults,
                            continueOnError).stores, id)
  {
    PublishBenign(c, s.db, paperId, vectors);
    BenignRunKeepsMatch(c, s, PublishWrites(c, PaperRows(s.db, paperId), vectors), faults, continueOnError, id);
  }

  // ---- one publication, exactly ---------------------------------------------------------

  /** The stores after an undisturbed publication. */
  function Published(c: Settings, s: Stores, rows: seq<Row>, vectors: seq<Vector>): Stores
    requires |rows| == |vectors|
  {
    Stores(s.db.(chunks := CommitAll(c, s.db.chunks, Updates(c, rows))),
           DeleteAll(UpsertAll(s.index, Points(c, rows, vectors)), Stale(c, rows)))
  }

  lemma {:induction false} BatchesUpsertAll(c: Settings, s: Stores, points: seq<PointStruct>, tail: seq<Write>,
                                            continueOnError: bool)
    ensures Execute(c, s, UpsertBatches(points) + tail, [], continueOnError)
      == Execute(c, s.(index := UpsertAll(s.index, points)), tail, [], continueOnError)
    decreases |points|
  {
    if points == [] {
      assert UpsertBatches(points) + tail == tail;
    } else {
      var next := if UPSERT_BATCH_SIZE < |points| then UPSERT_BATCH_SIZE else |points|;
      var s1 := s.(index := UpsertAll(s.index, points[..next]));
      assert points[0..] == points && points[0..next] == points[..next];
      FirstBatch(points, 0, next, tail);
      ExecuteFirst(c, s, Upsert(points[..next]), UpsertBatches(points[next..]) + tail, continueOnError);
      BatchesUpsertAll(c, s1, points[next..], tail, continueOnError);
      assert points[..next] + points[next..] == points;
      UpsertConcat(s.index, points[..next], points[next..]);
    }
  }

  lemma ExecuteFirst(c: Settings, s: Stores, w: Write, rest: seq<Write>, continueOnError: bool)
    ensures Execute(c, s, [w] + rest, [], continueOnError) == Execute(c, Apply(c, s, w), rest, [], continueOnError)
  {
    assert ([w] + rest)[1..] == rest;
  }

  lemma UndisturbedRun(c: Settings, s: Stores, rows: seq<Row>, vectors: seq<Vector>, continueOnError: bool)
    requires |rows| == |vectors|
    ensures Execute(c, s, PublishWrites(c, rows, vectors), [], continueOnError) ==
            Outcome(Published(c, s, rows, vectors), [], None)
  {
    var points, stale := Points(c, rows, vectors), Stale(c, rows);
    var commit: seq<Write> := [Commit(Updates(c, rows))];
    var tail := Cleanup(stale) + commit;
    assert PublishWrites(c, rows, vectors) == UpsertBatches(points) + tail;
    BatchesUpsertAll(c, s, points, tail, continueOnError);
    var s1 := s.(index := UpsertAll(s.index, points));
    var s2 := s1.(index := DeleteAll(s1.index, stale));
    if stale == [] {
      assert tail == commit && s2 == s1;
    } else {
      assert tail[0] == Delete(stale) && tail[1..] == commit;
    }
    assert commit[1..] == [];
    var s3 := Apply(c, s2, commit[0]);
    assert Execute(c, s3, [], [], continueOnError) == Outcome(s3, [], None);
  }

  /** The row as it reads once the paper's metadata is committed. */
  function Recorded(c: Settings, db: Database, paperId: int, id: int): Row
    requires Joined(db, id)
  {
    if RowOf(db, id).paperId == paperId
    then RowOf(db, id).(embeddingId := Some(CanonicalOf(c, db, id)), embeddingModel := Some(c.model))
    else RowOf(db, id)
  }

  lemma PublishedContent(c: Settings, s: Stores, paperId: int, vectors: seq<Vector>)
    requires ValidDb(s.db) && |vectors| == |PaperRows(s.db, paperId)|
    ensures var after := Published(c, s, PaperRows(s.db, paperId), vectors);
      && SameContent(s.db, after.db) && ValidDb(after.db)
      && forall id :: Joined(s.db, id) ==> Joined(after.db, id) && RowOf(after.db, id) == Recorded(c, s.db, paperId, id)
  {
    var after := Published(c, s, PaperRows(s.db, paperId), vectors);
    CommitLookups(c, s.db.chunks, Updates(c, PaperRows(s.db, paperId)));
    SameValid(s.db, after.db);
    forall id | Joined(s.db, id)
      ensures Joined(after.db, id) && RowOf(after.db, id) == Recorded(c, s.db, paperId, id)
    {
      RowRecorded(c, s.db, paperId, id);
    }
  }

  lemma RowRecorded(c: Settings, db: Database, paperId: int, id: int)
    requires ValidDb(db) && Joined(db, id)
    ensures var after := db.(chunks := CommitAll(c, db.chunks, Updates(c, PaperRows(db, paperId))));
      Joined(after, id) && RowOf(after, id) == Recorded(c, db, paperId, id)
  {
    CommitLookups(c, db.chunks, Updates(c, PaperRows(db, paperId)));
    UpdatesOfRow(c, db, paperId, id);
  }

  /** The updates of a paper record a row's canonical id exactly if the row is the paper's. */
  lemma UpdatesOfRow(c: Settings, db: Database, paperId: int, id: int)
    requires ValidDb(db) && Joined(db, id)
    ensures var updates := Updates(c, PaperRows(db, paperId));
      && (forall k :: 0 <= k < |updates| && updates[k].rowId == id ==> updates[k].pointId == CanonicalOf(c, db, id))
      && ((exists k :: 0 <= k < |updates| && updates[k].rowId == id) <==> RowOf(db, id).paperId == paperId)
  {
    PaperRowsAre(db, paperId);
    var rows := PaperRows(db, paperId);
    var updates := Updates(c, rows);
    forall k | 0 <= k < |updates| && updates[k].rowId == id ensures rows[k] == RowOf(db, id) {
      assert rows[k] in rows;
    }
    if RowOf(db, id).paperId == paperId {
      assert RowOf(db, id) in rows;
      var k :| 0 <= k < |rows| && rows[k] == RowOf(db, id);
      assert updates[k].rowId == id;
    }
  }

  /** After the upserts a row's canonical point is its own new point, or untouched for another paper's row. */
  lemma UpsertedServes(c: Settings, s: Stores, paperId: int, vectors: seq<Vector>, id: int)
    requires Lawful(c) && ValidDb(s.db) && |vectors| == |PaperRows(s.db, paperId)| && Joined(s.db, id)
    ensures var index := UpsertAll(s.index, Points(c, PaperRows(s.db, paperId), vectors));
      var pid := CanonicalOf(c, s.db, id);
      if RowOf(s.db, id).paperId == paperId
      then pid in index && index[pid].payload == PayloadFor(c, RowOf(s.db, id))
      else Lookup(index, pid) == Lookup(s.index, pid)
  {
    PaperRowsAre(s.db, paperId);
    var rows := PaperRows(s.db, paperId);
    var points := Points(c, rows, vectors);
    UpsertLookups(s.index, points);
    forall k | 0 <= k < |points| && points[k].id == CanonicalOf(c, s.db, id) ensures rows[k] == RowOf(s.db, id) {
      OwnRow(c, s.db, paperId, k, id);
    }
    if RowOf(s.db, id).paperId == paperId {
      assert RowOf(s.db, id) in rows;
      var k :| 0 <= k < |rows| && rows[k] == RowOf(s.db, id);
      assert points[k].id == CanonicalOf(c, s.db, id);
    } else {
      forall k | 0 <= k < |points| ensures points[k].id != CanonicalOf(c, s.db, id) { assert rows[k] in rows; }
    }
  }

  /** A listed row whose canonical id is this row's is this row. */
  lemma OwnRow(c: Settings, db: Database, paperId: int, k: nat, id: int)
    requires Lawful(c) && ValidDb(db) && Joined(db, id)
    requires k < |PaperRows(db, paperId)| && Canonical(c, PaperRows(db, paperId)[k]) == CanonicalOf(c, db, id)
    ensures PaperRows(db, paperId)[k] == RowOf(db, id)
  {
    PaperRowsAre(db, paperId);
    var row := PaperRows(db, paperId)[k];
    assert row in PaperRows(db, paperId);
    CanonicalInjective(c, db, row.id, id);
  }

  /** Exactly which rows match after a publication: those that did or were published, minus those it endangers. */
  lemma PublishedMatches(c: Settings, s: Stores, paperId: int, vectors: seq<Vector>, id: int)
    requires Lawful(c) && ValidDb(s.db) && |vectors| == |PaperRows(s.db, paperId)| && Joined(s.db, id)
    ensures Matched(c, Published(c, s, PaperRows(s.db, paperId), vectors), id) <==>
      (RowOf(s.db, id).paperId == paperId || Matched(c, s, id)) && !Endangers(c, s.db, paperId, id)
  {
    PublishedContent(c, s, paperId, vectors);
    UpsertedServes(c, s, paperId, vectors, id);
    StaleEndangers(c, s.db, paperId, id);
  }

  // ---- a whole pass -----------------------------------------------------------------------

  /** The vectors an order-preserving backend returns. */
  function Embedded(embed: string -> Vector, rows: seq<Row>): (r: seq<Vector>)
    ensures |r| == |rows|
  {
    seq(|rows|, i requires 0 <= i < |rows| => embed(rows[i].content))
  }

  /** reembed_paper with nothing going wrong; a paper whose columns VectorVisibility rejects is left alone. */
  function Repaired(c: Settings, s: Stores, paperId: int, embed: string -> Vector): Stores
    requires ValidDb(s.db)
  {
    var rows := PaperRows(s.db, paperId);
    if rows == [] || !AllVisible(c, rows) then s else Published(c, s, rows, Embedded(embed, rows))
  }

  lemma RepairedValid(c: Settings, s: Stores, paperId: int, embed: string -> Vector)
    requires ValidDb(s.db)
    ensures SameContent(s.db, Repaired(c, s, paperId, embed).db) && ValidDb(Repaired(c, s, paperId, embed).db)
  {
    PublishedContent(c, s, paperId, Embedded(embed, PaperRows(s.db, paperId)));
  }

  /** The main loop over the scanned papers, uninterrupted. */
  function Pass(c: Settings, s: Stores, papers: seq<int>, embed: string -> Vector): Stores
    requires ValidDb(s.db)
    decreases |papers|
  {
    if papers == [] then s
    else
      RepairedValid(c, s, papers[0], embed);
      Pass(c, Repaired(c, s, papers[0], embed), papers[1..], embed)
  }

  /** Every paper with chunks carries columns VectorVisibility accepts. */
  ghost predicate PapersVisible(c: Settings, db: Database) {
    forall id :: Joined(db, id) ==> VisibilityOk(c, RowOf(db, id).sourceType, RowOf(db, id).visibilityScope)
  }

  lemma RepairedMatches(c: Settings, s: Stores, paperId: int, embed: string -> Vector, id: int)
    requires Lawful(c) && ValidDb(s.db) && PapersVisible(c, s.db) && Joined(s.db, id)
    ensures var after := Repaired(c, s, paperId, embed);
      && Joined(after.db, id) && PapersVisible(c, after.db)
      && (Matched(c, after, id) <==>
            (RowOf(s.db, id).paperId == paperId || Matched(c, s, id)) && !Endangers(c, s.db, paperId, id))
      && forall q :: q != paperId ==> (Endangers(c, after.db, q, id) <==> Endangers(c, s.db, q, id))
  {
    var rows := PaperRows(s.db, paperId);
    PaperRowsAre(s.db, paperId);
    PublishedContent(c, s, paperId, Embedded(embed, rows));
    PublishedMatches(c, s, paperId, Embedded(embed, rows), id);
    forall r | Joined(s.db, r) && RowOf(s.db, r).paperId == paperId ensures RowOf(s.db, r) in rows {}
    if rows != [] {
      assert AllVisible(c, rows) by {
        forall r | r in rows ensures VisibilityOk(c, r.sourceType, r.visibilityScope) { assert Joined(s.db, r.id); }
      }
      RepairedOthers(c, s, paperId, embed, id);
    }
  }

  lemma RepairedOthers(c: Settings, s: Stores, paperId: int, embed: string -> Vector, id: int)
    requires ValidDb(s.db) && Joined(s.db, id) && PapersVisible(c, s.db)
    ensures var after := Repaired(c, s, paperId, embed);
      PapersVisible(c, after.db) &&
      forall q :: q != paperId ==> (Endangers(c, after.db, q, id) <==> Endangers(c, s.db, q, id))
  {
    var after := Repaired(c, s, paperId, embed);
    PublishedContent(c, s, paperId, Embedded(embed, PaperRows(s.db, paperId)));
    RepairedValid(c, s, paperId, embed);
    forall r ensures Joined(s.db, r) <==> Joined(after.db, r) { SameRows(c, s.db, after.db, r); }
  }

  /** Paper q is handled at or after the last time this row's own paper is published. */
  ghost predicate Late(papers: seq<int>, q: int, own: int) {
    q in papers && (own in papers ==> own <= q)
  }

  lemma LateSplit(papers: seq<int>, own: int)
    requires papers != [] && forall i, j :: 0 <= i < j < |papers| ==> papers[i] < papers[j]
    ensures forall q :: Late(papers, q, own) <==> Late(papers[1..], q, own) || (q == papers[0] && own !in papers[1..])
    ensures papers[0] !in papers[1..]
  {
    var first, rest := papers[0], papers[1..];
    assert papers == [first] + rest;
    assert forall q :: q in rest ==> first < q;
  }

  /** Exactly which rows match after a pass over papers in ascending order. */
  lemma {:induction false} PassMatches(c: Settings, s: Stores, papers: seq<int>, embed: string -> Vector, id: int)
    requires Lawful(c) && ValidDb(s.db) && PapersVisible(c, s.db) && Joined(s.db, id)
    requires forall i, j :: 0 <= i < j < |papers| ==> papers[i] < papers[j]
    ensures var own := RowOf(s.db, id).paperId;
      Matched(c, Pass(c, s, papers, embed), id) <==>
        (own in papers || Matched(c, s, id)) && forall q :: Late(papers, q, own) ==> !Endangers(c, s.db, q, id)
    decreases |papers|
  {
    if papers != [] {
      var own, first, rest := RowOf(s.db, id).paperId, papers[0], papers[1..];
      RepairedValid(c, s, first, embed);
      RepairedMatches(c, s, first, embed, id);
      var after := Repaired(c, s, first, embed);
      SameRows(c, s.db, after.db, id);
      PassMatches(c, after, rest, embed, id);
      LateSplit(papers, own);
      assert own in papers <==> own == first || own in rest;
    }
  }

  lemma {:induction false} PassContent(c: Settings, s: Stores, papers: seq<int>, embed: string -> Vector)
    requires ValidDb(s.db)
    ensures SameContent(s.db, Pass(c, s, papers, embed).db) && ValidDb(Pass(c, s, papers, embed).db)
    decreases |papers|
  {
    if papers != [] {
      RepairedValid(c, s, papers[0], embed);
      PassContent(c, Repaired(c, s, papers[0], embed), papers[1..], embed);
    }
  }

  /**
   * What the rows must not hold before the pass: a paper about to be repaired
   * with a row remembering a scanned row's canonical id, unless that row's own
   * paper is repaired later in the same pass.
   */
  ghost predicate Hazard(c: Settings, db: Database, papers: seq<int>) {
    exists victim, q :: Scanned(db, victim) && Late(papers, q, RowOf(db, victim).paperId) && Endangers(c, db, q, victim)
  }

  /**
   * From any pair of stores, however earlier runs crashed: one uninterrupted
   * pass over the scanned papers leaves nothing to scan exactly when the rows
   * hold no hazard.
   */
  lemma OnePassHeals(c: Settings, s: Stores, embed: string -> Vector)
    requires Lawful(c) && ValidDb(s.db) && PapersVisible(c, s.db)
    ensures ScanResult(c, Pass(c, s, ScanResult(c, s), embed)) == [] <==> !Hazard(c, s.db, ScanResult(c, s))
  {
    var papers := ScanResult(c, s);
    var after := Pass(c, s, papers, embed);
    ScanResultIs(c, s);
    ScanResultIs(c, after);
    PassContent(c, s, papers, embed);
    forall id
      ensures Scanned(s.db, id) <==> Scanned(after.db, id)
      ensures Scanned(s.db, id) ==> (Matched(c, after, id) <==>
        forall q :: Late(papers, q, RowOf(s.db, id).paperId) ==> !Endangers(c, s.db, q, id))
    {
      SameRows(c, s.db, after.db, id);
      if Scanned(s.db, id) {
        PassMatches(c, s, papers, embed, id);
        if !Matched(c, s, id) { assert RowOf(s.db, id).paperId in papers; }
      }
    }
  }

  /** Every scanned row records its own canonical id once a pass has handled the scanned papers. */
  lemma {:induction false} PassRecordsIds(c: Settings, s: Stores, papers: seq<int>, embed: string -> Vector, id: int)
    requires ValidDb(s.db) && PapersVisible(c, s.db) && Joined(s.db, id)
    requires RowOf(s.db, id).paperId in papers || RowOf(s.db, id).embeddingId == Some(CanonicalOf(c, s.db, id))
    ensures var after := Pass(c, s, papers, embed);
      Joined(after.db, id) && RowOf(after.db, id).embeddingId == Some(CanonicalOf(c, after.db, id))
    decreases |papers|
  {
    if papers != [] {
      var rows := PaperRows(s.db, papers[0]);
      var after := Repaired(c, s, papers[0], embed);
      PublishedContent(c, s, papers[0], Embedded(embed, rows));
      RepairedValid(c, s, papers[0], embed);
      RepairedOthers(c, s, papers[0], embed, id);
      SameRows(c, s.db, after.db, id);
      PaperRowsAre(s.db, papers[0]);
      if RowOf(s.db, id).paperId == papers[0] {
        assert RowOf(s.db, id) in rows;
        assert AllVisible(c, rows) by {
          forall r | r in rows ensures VisibilityOk(c, r.sourceType, r.visibilityScope) { assert Joined(s.db, r.id); }
        }
      }
      PassRecordsIds(c, after, papers[1..], embed, id);
    }
  }

  /**
   * Two uninterrupted passes leave nothing to scan, hazard or not: the first
   * makes every scanned row record its own id, so the second endangers nobody.
   * Rows the scan cannot see (ids below 1) must not be the ones remembering.
   */
  lemma TwoPassesHeal(c: Settings, s: Stores, embed: string -> Vector)
    requires Lawful(c) && ValidDb(s.db) && PapersVisible(c, s.db)
    requires forall id :: Joined(s.db, id) ==> id > 0
    ensures var once := Pass(c, s, ScanResult(c, s), embed);
      ValidDb(once.db) && ScanResult(c, Pass(c, once, ScanResult(c, once), embed)) == []
  {
    var papers := ScanResult(c, s);
    var once := Pass(c, s, papers, embed);
    ScanResultIs(c, s);
    PassContent(c, s, papers, embed);
    forall id | Joined(once.db, id)
      ensures RowOf(once.db, id).embeddingId == Some(CanonicalOf(c, once.db, id))
      ensures VisibilityOk(c, RowOf(once.db, id).sourceType, RowOf(once.db, id).visibilityScope)
    {
      SameRows(c, s.db, once.db, id);
      assert Scanned(s.db, id);
      PassRecordsIds(c, s, papers, embed, id);
    }
    assert !Hazard(c, once.db, ScanResult(c, once));
    OnePassHeals(c, once, embed);
  }

  /**
   * The hazard, concretely: a database in which row 2 of paper p (chunk 1) carries
   * chunk 0's canonical id. Publishing upserts chunk 0's point and then deletes it
   * as row 2's stale point.
   */
  lemma ShiftedIdsNeedASecondPass(c: Settings, p: int, paper: PaperRow, content: string, embed: string -> Vector)
    requires Lawful(c) && VisibilityOk(c, paper.sourceType, paper.visibilityScope)
    ensures var first := ChunkRow(Some(p), 0, content, None, None, None, None, None);
      var second := ChunkRow(Some(p), 1, content, None, None, None, Some(c.pointId(p, 0)), None);
      var s := Stores(Database(map[1 := first, 2 := second], map[p := paper]), map[]);
      ValidDb(s.db) && ScanResult(c, Pass(c, s, ScanResult(c, s), embed)) != []
  {
    var first := ChunkRow(Some(p), 0, content, None, None, None, None, None);
    var second := ChunkRow(Some(p), 1, content, None, None, None, Some(c.pointId(p, 0)), None);
    var s := Stores(Database(map[1 := first, 2 := second], map[p := paper]), map[]);
    ScanResultIs(c, s);
    assert Scanned(s.db, 1) && !Matched(c, s, 1);
    assert p in ScanResult(c, s);
    assert Joined(s.db, 2) && CanonicalOf(c, s.db, 2) != CanonicalOf(c, s.db, 1);
    assert Endangers(c, s.db, p, 1);
    assert Late(ScanResult(c, s), p, p);
    OnePassHeals(c, s, embed);
  }

  // ---- the command ------------------------------------------------------------------------

  const EMBED_BATCH_SIZE := 32

  /** The replies of a backend that embeds every text and keeps the order. */
  function HonestReplies(texts: seq<string>, embed: string -> Vector, size: nat): seq<Reply>
    requires size > 0
    decreases |texts|
  {
    if texts == [] then []
    else
      var n := if size < |texts| then size else |texts|;
      [Some(seq(n, k requires 0 <= k < n => embed(texts[k])))] + HonestReplies(texts[n..], embed, size)
  }

  lemma {:induction false} HonestReply(texts: seq<string>, embed: string -> Vector, size: nat, b: nat)
    requires size > 0 && b * size < |texts|
    ensures b < |HonestReplies(texts, embed, size)|
    ensures HonestReplies(texts, embed, size)[b].Some?
    ensures b * size + BatchCount(|texts|, size, b) <= |texts|
    ensures var batch := HonestReplies(texts, embed, size)[b].value;
      |batch| == BatchCount(|texts|, size, b) && forall k :: 0 <= k < |batch| ==> batch[k] == embed(texts[b * size + k])
    decreases b
  {
    NextMultiple(b, size);
    var n := if size < |texts| then size else |texts|;
    if b > 0 {
      NextMultiple(b - 1, size);
      Scaled(b - 1, size);
      var rest := texts[n..];
      HonestReply(rest, embed, size, b - 1);
      assert HonestReplies(texts, embed, size)[b] == HonestReplies(rest, embed, size)[b - 1];
      assert BatchCount(|texts|, size, b) == BatchCount(|rest|, size, b - 1);
    }
  }

  lemma HonestAnswers(rows: seq<Row>, embed: string -> Vector, size: nat, replies: seq<Reply>)
    requires size > 0 && replies == HonestReplies(Texts(rows), embed, size)
    ensures Answers(replies, size, |rows|) == Embedded(embed, rows)
  {
    forall k | 0 <= k < |rows| ensures Answer(replies, size, k) == embed(rows[k].content) {
      var b := k / size;
      Decompose(k, size);
      Scaled(b, size);
      HonestReply(Texts(rows), embed, size, b);
      NextMultiple(b, size);
    }
  }

  /** An order-preserving backend with the right dimension never trips the batch checks. */
  lemma {:induction false} HonestNeverFaults(texts: seq<string>, embed: string -> Vector, size: nat, dimension: nat,
                                             b: nat)
    requires size > 0 && forall t :: |embed(t)| == dimension
    ensures FirstError(HonestReplies(texts, embed, size), |texts|, size, dimension, b) == None
    decreases |texts| - b * size
  {
    if b * size < |texts| {
      HonestReply(texts, embed, size, b);
      NextMultiple(b, size);
      HonestNeverFaults(texts, embed, size, dimension, b + 1);
    }
  }

  /** With an honest backend, no fault and no other writer, reembed_paper is exactly a repair. */
  lemma HonestRunRepairs(c: Settings, continueOnError: bool, s: Stores, paperId: int, embed: string -> Vector,
                         dimension: nat)
    requires ValidDb(s.db) && forall t :: |embed(t)| == dimension
    ensures var replies := HonestReplies(Texts(PaperRows(s.db, paperId)), embed, EMBED_BATCH_SIZE);
      var after := Reembed(c, continueOnError, s, s, [], paperId, replies, EMBED_BATCH_SIZE, dimension);
      after.stores == Repaired(c, s, paperId, embed) && after.faults == []
  {
    var rows := PaperRows(s.db, paperId);
    HonestNeverFaults(Texts(rows), embed, EMBED_BATCH_SIZE, dimension, 0);
    HonestAnswers(rows, embed, EMBED_BATCH_SIZE, HonestReplies(Texts(rows), embed, EMBED_BATCH_SIZE));
    UndisturbedRun(c, s, rows, Embedded(embed, rows), continueOnError);
  }

  /** One paper of the main loop, nothing raising and nobody else writing. */
  method RepairOne(b: Backends, paperId: int, embed: string -> Vector, dimension: nat)
    requires ValidDb(b.stores.db) && b.faults == [] && forall t :: |embed(t)| == dimension
    modifies b
    ensures b.stores == Repaired(b.settings, old(b.stores), paperId, embed) && b.faults == [] && ValidDb(b.stores.db)
  {
    var replies := HonestReplies(Texts(PaperRows(b.stores.db, paperId)), embed, EMBED_BATCH_SIZE);
    HonestRunRepairs(b.settings, b.continueOnError, b.stores, paperId, embed, dimension);
    RepairedValid(b.settings, b.stores, paperId, embed);
    var _ := b.ReembedPaper(paperId, replies, EMBED_BATCH_SIZE, dimension, b.stores);
  }

  /** The main loop over the scanned papers. */
  method RepairAll(b: Backends, papers: seq<int>, embed: string -> Vector, dimension: nat)
    requires ValidDb(b.stores.db) && b.faults == [] && forall t :: |embed(t)| == dimension
    modifies b
    ensures b.stores == Pass(b.settings, old(b.stores), papers, embed) && b.faults == [] && ValidDb(b.stores.db)
  {
    for i := 0 to |papers|
      invariant ValidDb(b.stores.db) && b.faults == []
      invariant Pass(b.settings, b.stores, papers[i..], embed) == Pass(b.settings, old(b.stores), papers, embed)
    {
      assert papers[i..][1..] == papers[i + 1..];
      RepairOne(b, papers[i], embed, dimension);
    }
  }
}
