/** scripts/perf/litellm_route_alias.py: when an alias being routed or restored never goes dark. */
module RouteSafety {
  import opened Base
  import opened RouteAlias

  ghost predicate Alive(live: Live, alias: string) {
    exists id :: OfAlias(live, alias, id)
  }

  /** Every state added to the history since `from`. */
  ghost predicate AliveSince(r: Remote, from: nat, alias: string) {
    forall i :: from <= i < |r.past| ==> Alive(r.past[i], alias)
  }

  function FaultAt(faults: seq<Fault>, k: nat): Fault {
    if k < |faults| then faults[k] else Fine(true)
  }

  function Drop(faults: seq<Fault>, k: nat): seq<Fault> {
    if k <= |faults| then faults[k..] else []
  }

  /** No call raises after taking effect. */
  ghost predicate NoLate(faults: seq<Fault>) {
    forall k :: 0 <= k < |faults| ==> !faults[k].FailsLate?
  }

  function Minus(live: Live, ids: seq<nat>): Live {
    map id | id in live && id !in ids :: live[id]
  }

  // ---- loops of deletes --------------------------------------------------------------

  /** A loop of deletes only ever takes away: what is there at its end was there throughout. */
  lemma {:induction false} DeleteEachShrinks(r: Remote, ids: seq<nat>)
    ensures var after := DeleteEach(r, ids).0;
      && |r.past| <= |after.past|
      && (forall i :: 0 <= i < |r.past| ==> after.past[i] == r.past[i])
      && (forall id :: id in after.live ==> id in r.live && r.live[id] == after.live[id])
      && (forall i, id :: |r.past| <= i < |after.past| && id in after.live ==>
                            id in after.past[i] && after.past[i][id] == after.live[id])
    decreases |ids|
  {
    if ids != [] {
      var (next, raised) := Delete(r, ids[0]);
      if !raised { DeleteEachShrinks(next, ids[1..]); }
    }
  }

  /** The history ends in the present state. */
  ghost predicate Recorded(r: Remote) {
    r.past != [] && r.past[|r.past| - 1] == r.live
  }

  lemma {:induction false} DeleteEachRecorded(r: Remote, ids: seq<nat>)
    requires Recorded(r)
    ensures Recorded(DeleteEach(r, ids).0)
    decreases |ids|
  {
    if ids != [] {
      var (next, raised) := Delete(r, ids[0]);
      if !raised { DeleteEachRecorded(next, ids[1..]); }
    }
  }

  lemma FaultsShift(r: Remote)
    ensures forall j: nat :: FaultAt(LaterFaults(r), j) == FaultAt(r.faults, j + 1)
    ensures forall j: nat :: Drop(LaterFaults(r), j) == Drop(r.faults, j + 1)
    ensures NextFault(r) == FaultAt(r.faults, 0) && LaterFaults(r) == Drop(r.faults, 1)
  {
  }

  lemma MinusFirst(live: Live, ids: seq<nat>, m: nat)
    requires ids != [] && m <= |ids[1..]|
    ensures Minus(live - {ids[0]}, ids[1..][..m]) == Minus(live, ids[..m + 1])
  {
    assert ids[..m + 1] == [ids[0]] + ids[1..][..m];
  }

  /** What a stopped loop of deletes has taken away. */
  function Taken(faults: seq<Fault>, ids: seq<nat>, k: nat): seq<nat>
    requires k <= |ids|
  {
    if k < |ids| && FaultAt(faults, k).FailsLate? then ids[..k + 1] else ids[..k]
  }

  /** What is left when delete k raises, and when none does. */
  function AfterDeletes(r: Remote, ids: seq<nat>, k: nat): Live
    requires k <= |ids|
  {
    Minus(r.live, Taken(r.faults, ids, k))
  }

  /** Where a loop of deletes stops and what is gone by then. */
  lemma {:induction false} DeleteEachStops(r: Remote, ids: seq<nat>) returns (k: nat)
    ensures k <= |ids|
    ensures var (after, raised) := DeleteEach(r, ids);
      && after.nextId == r.nextId && (raised <==> k < |ids|)
      && after.faults == Drop(r.faults, if raised then k + 1 else k)
      && after.live == AfterDeletes(r, ids, k)
    ensures forall j: nat :: j < k ==> FaultAt(r.faults, j).Fine?
    ensures k < |ids| ==> !FaultAt(r.faults, k).Fine?
    decreases |ids|
  {
    FaultsShift(r);
    if ids == [] {
      k := 0;
    } else {
      var (next, raised) := Delete(r, ids[0]);
      if raised {
        k := 0;
        assert ids[..1] == [ids[0]] && ids[..0] == [];
      } else {
        var m := DeleteEachStops(next, ids[1..]);
        k := m + 1;
        forall j: nat | j < k ensures FaultAt(r.faults, j).Fine? {
          if j > 0 { assert FaultAt(next.faults, j - 1).Fine?; }
        }
        assert FaultAt(r.faults, k) == FaultAt(next.faults, m);
        AfterDeletesShift(r, next, ids, m);
      }
    }
  }

  lemma AfterDeletesShift(r: Remote, next: Remote, ids: seq<nat>, m: nat)
    requires ids != [] && m <= |ids[1..]| && next.live == r.live - {ids[0]}
    requires m < |ids[1..]| ==> FaultAt(next.faults, m) == FaultAt(r.faults, m + 1)
    ensures AfterDeletes(next, ids[1..], m) == AfterDeletes(r, ids, m + 1)
  {
    MinusFirst(r.live, ids, m);
    if m < |ids[1..]| { MinusFirst(r.live, ids, m + 1); }
  }

  lemma {:induction false} WithoutAbsent(ids: seq<nat>, drop: set<nat>)
    requires forall id :: id in ids ==> id !in drop
    ensures Without(ids, drop) == ids
  {
    if ids != [] {
      assert ids == ids[..|ids| - 1] + [ids[|ids| - 1]];
      WithoutAbsent(ids[..|ids| - 1], drop);
    }
  }

  /** The deletes of a route or restore are exactly the stale ids: created ids are new. */
  lemma StaleDeletes(r: Remote, alias: string, drop: set<nat>)
    requires Sound(r) && forall id :: id in drop ==> id >= r.nextId
    ensures Without(StaleIds(r.live, alias), drop) == StaleIds(r.live, alias)
    ensures forall id :: id in StaleIds(r.live, alias) ==> id < r.nextId
  {
    StaleIdsAre(r.live, alias);
    WithoutAbsent(StaleIds(r.live, alias), drop);
  }

  // ---- creating the new deployments -----------------------------------------------------------

  /** Creating only adds: everything from before is there in every state. */
  lemma {:induction false} CreateEachGrows(r: Remote, alias: string, records: seq<Deployment>)
    requires Sound(r)
    ensures var after := CreateEach(r, alias, records).0;
      && |r.past| + (if records == [] then 0 else 1) <= |after.past|
      && (forall i :: 0 <= i < |r.past| ==> after.past[i] == r.past[i])
      && (forall id :: id in r.live ==> id in after.live && after.live[id] == r.live[id])
      && (forall i, id :: |r.past| <= i < |after.past| && id in r.live ==>
                            id in after.past[i] && after.past[i][id] == r.live[id])
      && (records != [] ==> Recorded(after))
    decreases |records|
  {
    if records != [] {
      var (next, reply) := Create(r, alias, records[0].params);
      if reply.Created? { CreateEachGrows(next, alias, records[1..]); }
    }
  }

  /** A create that raises ends the loop; only ids from nextId on are remembered. */
  lemma {:induction false} CreateEachRaises(r: Remote, alias: string, records: seq<Deployment>) returns (j: nat)
    requires Sound(r) && CreateEach(r, alias, records).2
    ensures j < |records| && !FaultAt(r.faults, j).Fine?
    ensures forall id :: id in CreateEach(r, alias, records).1 ==> r.nextId <= id
    decreases |records|
  {
    FaultsShift(r);
    var (next, reply) := Create(r, alias, records[0].params);
    if reply.Raised? {
      j := 0;
    } else {
      var m := CreateEachRaises(next, alias, records[1..]);
      j := m + 1;
      assert FaultAt(r.faults, j) == FaultAt(next.faults, m);
    }
  }

  /** The ids a fault-free loop of m creates remembers: those the gateway answered with. */
  ghost predicate Remembered(r: Remote, m: nat, ids: seq<nat>) {
    && (forall id: nat :: id in ids <==>
                          r.nextId <= id < r.nextId + m && FaultAt(r.faults, id - r.nextId) == Fine(true))
    && (forall i, j :: 0 <= i < j < |ids| ==> ids[i] < ids[j])
    && (AllAnswered(r, m) ==> |ids| == m)
  }

  ghost predicate AllAnswered(r: Remote, m: nat) {
    forall k: nat :: k < m ==> FaultAt(r.faults, k) == Fine(true)
  }

  lemma {:induction false} CreateEachLeaves(r: Remote, alias: string, records: seq<Deployment>)
    requires Sound(r) && !CreateEach(r, alias, records).2
    ensures var after := CreateEach(r, alias, records).0;
      && Sound(after) && after.faults == Drop(r.faults, |records|) && after.nextId == r.nextId + |records|
      && (forall id: nat :: OfAlias(after.live, alias, id) <==>
                            OfAlias(r.live, alias, id) || r.nextId <= id < r.nextId + |records|)
    decreases |records|
  {
    FaultsShift(r);
    if records != [] {
      CreateEachLeaves(Create(r, alias, records[0].params).0, alias, records[1..]);
    }
  }

  lemma {:induction false} CreateEachRemembers(r: Remote, alias: string, records: seq<Deployment>)
    requires Sound(r) && !CreateEach(r, alias, records).2
    ensures Remembered(r, |records|, CreateEach(r, alias, records).1)
    decreases |records|
  {
    if records != [] {
      var next := Create(r, alias, records[0].params).0;
      CreateEachRemembers(next, alias, records[1..]);
      RememberedFirst(r, next, |records[1..]|, CreateEach(next, alias, records[1..]).1);
    }
  }

  lemma RememberedFirst(r: Remote, next: Remote, m: nat, rest: seq<nat>)
    requires next.faults == LaterFaults(r) && next.nextId == r.nextId + 1 && NextFault(r).Fine? &&
             Remembered(next, m, rest)
    ensures Remembered(r, m + 1, (if NextFault(r).withId then [r.nextId] else []) + rest)
  {
    FaultsShift(r);
    var ids := (if NextFault(r).withId then [r.nextId] else []) + rest;
    assert FaultAt(r.faults, 0) == NextFault(r);
    forall id: nat
      ensures id in ids <==> r.nextId <= id < r.nextId + m + 1 && FaultAt(r.faults, id - r.nextId) == Fine(true) {
      if id > r.nextId { assert FaultAt(next.faults, id - next.nextId) == FaultAt(r.faults, id - r.nextId); }
    }
    forall i, j | 0 <= i < j < |ids| ensures ids[i] < ids[j] {
      if NextFault(r).withId && i == 0 { assert ids[j] == rest[j - 1] && rest[j - 1] in rest; }
    }
    if AllAnswered(r, m + 1) {
      forall k: nat | k < m ensures FaultAt(next.faults, k) == Fine(true) {
        assert FaultAt(r.faults, k + 1) == Fine(true);
      }
      assert FaultAt(r.faults, 0) == Fine(true);
    }
  }

  // ---- replacing deployments never leaves the alias dark ------------------------------------------

  /**
   * The one way replacing an alias's deployments by m new ones empties it: nothing there
   * but deletable deployments, every create answered with an id, every stale delete but the
   * last fine, the last one carried out though it raised, and the rollback carried out to
   * its end.
   */
  ghost predicate LateLastDelete(r: Remote, alias: string, m: nat) {
    var stale := StaleIds(r.live, alias);
    && m > 0 && stale != []
    && (forall id :: OfAlias(r.live, alias, id) ==> id in stale)
    && AllAnswered(r, m) && AllFineFrom(r, m, |stale| - 1)
    && FaultAt(r.faults, m + |stale| - 1).FailsLate?
    && AllFineFrom(r, m + |stale|, m - 1)
    && !FaultAt(r.faults, m + |stale| + m - 1).Fails?
  }

  ghost predicate AllFineFrom(r: Remote, start: nat, count: nat) {
    forall k: nat :: start <= k < start + count ==> FaultAt(r.faults, k).Fine?
  }

  /** An old deployment is left unless all were stale and all were taken. */
  lemma OldLeft(r: Remote, alias: string, gone: seq<nat>)
    requires gone <= StaleIds(r.live, alias)
    ensures (exists id :: OfAlias(r.live, alias, id) && id !in gone) <==>
      !((forall id :: OfAlias(r.live, alias, id) ==> id in StaleIds(r.live, alias)) && gone == StaleIds(r.live, alias))
  {
    var stale := StaleIds(r.live, alias);
    StaleIdsAre(r.live, alias);
    if |gone| < |stale| {
      var left := stale[|gone|];
      assert left in stale && left !in gone;
      assert OfAlias(r.live, alias, left);
    } else {
      assert gone == stale;
    }
  }

  /** A new deployment is left unless each was answered with an id and all of those were taken. */
  lemma NewLeft(r: Remote, m: nat, ids: seq<nat>, gone: seq<nat>)
    requires Remembered(r, m, ids) && gone <= ids
    ensures (exists id: nat :: r.nextId <= id < r.nextId + m && id !in gone) <==> !(AllAnswered(r, m) && gone == ids)
  {
    if !AllAnswered(r, m) {
      var k: nat :| k < m && FaultAt(r.faults, k) != Fine(true);
      assert r.nextId + k !in ids;
      assert r.nextId + k !in gone;
    } else if |gone| < |ids| {
      var left := ids[|gone|];
      assert left in ids && left !in gone;
    } else {
      assert gone == ids;
      forall id: nat | r.nextId <= id < r.nextId + m ensures id in ids {
        assert FaultAt(r.faults, id - r.nextId) == Fine(true);
      }
    }
  }

  /** Everything was taken exactly when all calls but the last were fine and the last was carried out. */
  lemma AllTaken(faults: seq<Fault>, ids: seq<nat>, k: nat)
    requires k <= |ids| && (forall j: nat :: j < k ==> FaultAt(faults, j).Fine?) &&
             (k < |ids| ==> !FaultAt(faults, k).Fine?)
    ensures Taken(faults, ids, k) <= ids
    ensures ids != [] ==> (Taken(faults, ids, k) == ids <==>
      (forall j: nat :: j < |ids| - 1 ==> FaultAt(faults, j).Fine?) && !FaultAt(faults, |ids| - 1).Fails?)
  {
    assert ids[..|ids|] == ids;
    if k < |ids| - 1 { assert !FaultAt(faults, k).Fine?; }
  }

  /** A stale delete raised and the rollback ran, itself perhaps stopped. */
  lemma RolledBack(r: Remote, alias: string, m: nat, created: Remote, after: Remote, ids: seq<nat>, k: nat, l: nat)
    requires Sound(r) && m > 0 && Remembered(r, m, ids) && l <= |ids|
    requires created.faults == Drop(r.faults, m) && after.faults == Drop(created.faults, k + 1)
    requires forall id: nat :: OfAlias(created.live, alias, id) <==>
                               OfAlias(r.live, alias, id) || r.nextId <= id < r.nextId + m
    requires k < |StaleIds(r.live, alias)| && (forall j: nat :: j < k ==> FaultAt(created.faults, j).Fine?) &&
             !FaultAt(created.faults, k).Fine?
    requires (forall j: nat :: j < l ==> FaultAt(after.faults, j).Fine?) &&
             (l < |ids| ==> !FaultAt(after.faults, l).Fine?)
    requires after.live == Minus(created.live, Taken(created.faults, StaleIds(r.live, alias), k))
    ensures Alive(Minus(after.live, Taken(after.faults, ids, l)), alias) <==> !LateLastDelete(r, alias, m)
  {
    var stale := StaleIds(r.live, alias);
    var taken, undone := Taken(created.faults, stale, k), Taken(after.faults, ids, l);
    AllTaken(created.faults, stale, k);
    AllTaken(after.faults, ids, l);
    OldLeft(r, alias, taken);
    NewLeft(r, m, ids, undone);
    forall id | id in undone ensures r.nextId <= id { assert id in ids; }
    LeftOver(r, alias, m, created.live, taken, undone);
    LateMeans(r, alias, m, created.faults, after.faults, ids, k, l);
  }

  lemma LeftOver(r: Remote, alias: string, m: nat, live: Live, taken: seq<nat>, undone: seq<nat>)
    requires Sound(r) && taken <= StaleIds(r.live, alias) && forall id :: id in undone ==> r.nextId <= id
    requires forall id: nat :: OfAlias(live, alias, id) <==> OfAlias(r.live, alias, id) || r.nextId <= id < r.nextId + m
    ensures Alive(Minus(Minus(live, taken), undone), alias) <==>
      || (exists id :: OfAlias(r.live, alias, id) && id !in taken)
      || (exists id: nat :: r.nextId <= id < r.nextId + m && id !in undone)
  {
    StaleIdsAre(r.live, alias);
    var left := Minus(Minus(live, taken), undone);
    forall id | id in taken ensures id in StaleIds(r.live, alias) && id < r.nextId { }
    forall id: nat ensures OfAlias(left, alias, id) <==> OfAlias(live, alias, id) && id !in taken && id !in undone { }
    if id :| OfAlias(r.live, alias, id) && id !in taken { assert OfAlias(left, alias, id); }
    if id: nat :| r.nextId <= id < r.nextId + m && id !in undone { assert OfAlias(left, alias, id); }
    if id: nat :| OfAlias(left, alias, id) { assert OfAlias(live, alias, id); }
  }

  lemma FaultsFrom(faults: seq<Fault>, m: nat)
    ensures forall j: nat :: FaultAt(Drop(faults, m), j) == FaultAt(faults, m + j)
    ensures forall k: nat :: m <= k ==> FaultAt(faults, k) == FaultAt(Drop(faults, m), k - m)
  {
  }

  /** A run of fine calls counted from m on. */
  lemma FineFrom(r: Remote, later: seq<Fault>, m: nat, count: nat)
    requires later == Drop(r.faults, m)
    ensures AllFineFrom(r, m, count) <==> forall j: nat :: j < count ==> FaultAt(later, j).Fine?
  {
    FaultsFrom(r.faults, m);
    if AllFineFrom(r, m, count) {
      forall j: nat | j < count ensures FaultAt(later, j).Fine? { assert FaultAt(r.faults, m + j).Fine?; }
    }
  }

  /** All stale deployments were taken: every delete but the last was fine and the last one was late. */
  lemma AllStaleTaken(r: Remote, m: nat, later: seq<Fault>, stale: seq<nat>, k: nat)
    requires later == Drop(r.faults, m) && k < |stale|
    requires (forall j: nat :: j < k ==> FaultAt(later, j).Fine?) && !FaultAt(later, k).Fine?
    ensures Taken(later, stale, k) == stale <==>
            AllFineFrom(r, m, |stale| - 1) && FaultAt(r.faults, m + |stale| - 1).FailsLate?
    ensures Taken(later, stale, k) == stale ==> k == |stale| - 1
  {
    FaultsFrom(r.faults, m);
    FineFrom(r, later, m, |stale| - 1);
    assert FaultAt(r.faults, m + (|stale| - 1)) == FaultAt(later, |stale| - 1);
    AllTaken(later, stale, k);
  }

  /** The whole rollback was carried out. */
  lemma AllUndone(r: Remote, m: nat, start: nat, later: seq<Fault>, ids: seq<nat>, l: nat)
    requires m > 0 && |ids| == m && later == Drop(r.faults, start) && l <= |ids|
    requires (forall j: nat :: j < l ==> FaultAt(later, j).Fine?) && (l < |ids| ==> !FaultAt(later, l).Fine?)
    ensures Taken(later, ids, l) == ids <==> AllFineFrom(r, start, m - 1) && !FaultAt(r.faults, start + m - 1).Fails?
  {
    AllTaken(later, ids, l);
    RollbackComplete(r, m, start, later);
  }

  lemma LateMeans(r: Remote, alias: string, m: nat, deletes: seq<Fault>, undos: seq<Fault>, ids: seq<nat>, k: nat,
                  l: nat)
    requires m > 0 && (AllAnswered(r, m) ==> |ids| == m) && l <= |ids| && k < |StaleIds(r.live, alias)|
    requires deletes == Drop(r.faults, m) && undos == Drop(deletes, k + 1)
    requires (forall j: nat :: j < k ==> FaultAt(deletes, j).Fine?) && !FaultAt(deletes, k).Fine?
    requires (forall j: nat :: j < l ==> FaultAt(undos, j).Fine?) && (l < |ids| ==> !FaultAt(undos, l).Fine?)
    ensures LateLastDelete(r, alias, m) <==>
      && (forall id :: OfAlias(r.live, alias, id) ==> id in StaleIds(r.live, alias))
      && Taken(deletes, StaleIds(r.live, alias), k) == StaleIds(r.live, alias)
      && AllAnswered(r, m) && Taken(undos, ids, l) == ids
  {
    var stale := StaleIds(r.live, alias);
    AllStaleTaken(r, m, deletes, stale, k);
    if Taken(deletes, stale, k) == stale && AllAnswered(r, m) {
      assert undos == Drop(r.faults, m + |stale|);
      AllUndone(r, m, m + |stale|, undos, ids, l);
    }
  }

  lemma RollbackComplete(r: Remote, m: nat, start: nat, later: seq<Fault>)
    requires m > 0 && later == Drop(r.faults, start)
    ensures AllFineFrom(r, start, m - 1) && !FaultAt(r.faults, start + m - 1).Fails? <==>
      (forall j: nat :: j < m - 1 ==> FaultAt(later, j).Fine?) && !FaultAt(later, m - 1).Fails?
  {
    FineFrom(r, later, start, m - 1);
    FaultsFrom(r.faults, start);
    assert FaultAt(r.faults, start + (m - 1)) == FaultAt(later, m - 1);
  }

  /** The final state of a replacement. */
  lemma RestoreFinal(r: Remote, alias: string, records: seq<Deployment>)
    requires Sound(r) && Alive(r.live, alias) && records != []
    ensures Alive(Restore(r, alias, records).0.live, alias) <==> !LateLastDelete(r, alias, |records|)
  {
    var stale := StaleIds(r.live, alias);
    var (created, ids, failed) := CreateEach(r, alias, records);
    if failed {
      var j := CreateEachRaises(r, alias, records);
      CreateEachGrows(r, alias, records);
      var id0 :| OfAlias(r.live, alias, id0);
      var l := DeleteEachStops(created, ids);
      assert id0 !in ids;
      assert OfAlias(DeleteEach(created, ids).0.live, alias, id0);
    } else {
      CreateEachLeaves(r, alias, records);
      CreateEachRemembers(r, alias, records);
      StaleDeletes(r, alias, set id | id in ids);
      var k := DeleteEachStops(created, stale);
      var after := DeleteEach(created, stale).0;
      if k == |stale| {
        assert OfAlias(created.live, alias, r.nextId) && stale[..k] == stale;
        assert r.nextId !in stale;
        assert OfAlias(after.live, alias, r.nextId);
        FaultsFrom(r.faults, |records|);
        if stale != [] { assert FaultAt(created.faults, |stale| - 1).Fine?; }
      } else {
        var l := DeleteEachStops(after, ids);
        RolledBack(r, alias, |records|, created, after, ids, k, l);
      }
    }
  }

  /** From a state with a full history, deletes that leave the alias served have served it throughout. */
  lemma AliveBefore(r: Remote, ids: seq<nat>, alias: string, from: nat)
    requires Recorded(r) && from < |r.past|
    requires AliveSince(r, from, alias)
    ensures var last := DeleteEach(r, ids).0;
      Recorded(last) && from < |last.past| && (AliveSince(last, from, alias) <==> Alive(last.live, alias))
      && (Alive(last.live, alias) ==> Alive(r.live, alias))
  {
    var last := DeleteEach(r, ids).0;
    DeleteEachShrinks(r, ids);
    DeleteEachRecorded(r, ids);
    if Alive(last.live, alias) {
      var id :| OfAlias(last.live, alias, id);
      assert OfAlias(r.live, alias, id);
      forall i | from <= i < |last.past| ensures Alive(last.past[i], alias) {
        if i < |r.past| { assert last.past[i] == r.past[i]; } else { assert OfAlias(last.past[i], alias, id); }
      }
    } else {
      assert last.past[|last.past| - 1] == last.live;
    }
  }

  lemma CreatingStatesAlive(r: Remote, alias: string, records: seq<Deployment>)
    requires Sound(r) && Alive(r.live, alias) && records != []
    ensures var created := CreateEach(r, alias, records).0;
      Recorded(created) && |r.past| < |created.past| && AliveSince(created, |r.past|, alias)
  {
    CreateEachGrows(r, alias, records);
    var created := CreateEach(r, alias, records).0;
    var id0 :| OfAlias(r.live, alias, id0);
    forall i | |r.past| <= i < |created.past| ensures Alive(created.past[i], alias) {
      assert OfAlias(created.past[i], alias, id0);
    }
  }

  /** The alias is served in every state of a replacement exactly when it is at the end. */
  lemma AliveThroughout(r: Remote, alias: string, records: seq<Deployment>)
    requires Sound(r) && Alive(r.live, alias) && records != []
    ensures AliveSince(Restore(r, alias, records).0, |r.past|, alias) <==>
            Alive(Restore(r, alias, records).0.live, alias)
  {
    var (created, ids, failed) := CreateEach(r, alias, records);
    CreatingStatesAlive(r, alias, records);
    if failed {
      AliveBefore(created, ids, alias, |r.past|);
    } else {
      var stale := Without(StaleIds(r.live, alias), set id | id in ids);
      var (after, raised) := DeleteEach(created, stale);
      AliveBefore(created, stale, alias, |r.past|);
      if raised {
        if AliveSince(after, |r.past|, alias) {
          AliveBefore(after, ids, alias, |r.past|);
        } else {
          DeadStaysDead(after, ids, alias, |r.past|);
        }
      }
    }
  }

  lemma DeadStaysDead(r: Remote, ids: seq<nat>, alias: string, from: nat)
    requires Recorded(r) && from < |r.past| && !Alive(r.live, alias)
    ensures var last := DeleteEach(r, ids).0; !Alive(last.live, alias) && !AliveSince(last, from, alias)
  {
    var last := DeleteEach(r, ids).0;
    DeleteEachShrinks(r, ids);
    if id :| OfAlias(last.live, alias, id) { assert OfAlias(r.live, alias, id); }
    assert last.past[|r.past| - 1] == r.live;
  }

  /** Failing calls that had no effect cannot empty the alias. */
  lemma NoLateNoLoss(r: Remote, alias: string, m: nat)
    requires NoLate(r.faults)
    ensures !LateLastDelete(r, alias, m)
  {
  }

  /**
   * Restoring at least one record, with any call failing at any point, rollback
   * included: the alias is served in every state, unless the last stale delete was
   * carried out though it raised.
   */
  lemma RestoreKeepsAlias(r: Remote, alias: string, records: seq<Deployment>)
    requires Sound(r) && Alive(r.live, alias) && records != []
    ensures AliveSince(Restore(r, alias, records).0, |r.past|, alias) <==> !LateLastDelete(r, alias, |records|)
    ensures NoLate(r.faults) ==> AliveSince(Restore(r, alias, records).0, |r.past|, alias)
  {
    RestoreFinal(r, alias, records);
    AliveThroughout(r, alias, records);
    if NoLate(r.faults) { NoLateNoLoss(r, alias, |records|); }
  }

  /** To the gateway, routing is restoring one deployment. */
  lemma RouteIsRestore(r: Remote, alias: string, params: Params)
    ensures Route(r, alias, params) == Restore(r, alias, [Deployment(alias, params, true, true)])
  {
    var records := [Deployment(alias, params, true, true)];
    var (created, reply) := Create(r, alias, params);
    assert records[1..] == [];
    if reply.Created? {
      var ids := if reply.id.Some? then [reply.id.value] else [];
      assert ids + [] == ids;
      assert CreateEach(created, alias, records[1..]) == (created, [], false);
      assert CreateEach(r, alias, records) == (created, ids, false);
      var stale := StaleIds(r.live, alias);
      var drop: set<nat> := set id | id in ids;
      assert drop == if reply.id.Some? then {reply.id.value} else {};
      var (after, raised) := DeleteEach(created, Without(stale, drop));
      if reply.id.Some? { OneDelete(after, reply.id.value); } else { assert DeleteEach(after, []) == (after, false); }
      assert Restore(r, alias, records) == if raised then (DeleteEach(after, ids).0, true) else (after, false);
    }
  }

  lemma OneDelete(r: Remote, id: nat)
    ensures DeleteEach(r, [id]) == Delete(r, id)
  {
    assert [id][1..] == [];
  }

  /** Routing, whatever fails: the alias is served in every state, with the same one exception. */
  lemma RouteKeepsAlias(r: Remote, alias: string, params: Params)
    requires Sound(r) && Alive(r.live, alias)
    ensures AliveSince(Route(r, alias, params).0, |r.past|, alias) <==> !LateLastDelete(r, alias, 1)
    ensures NoLate(r.faults) ==> AliveSince(Route(r, alias, params).0, |r.past|, alias)
  {
    RouteIsRestore(r, alias, params);
    RestoreKeepsAlias(r, alias, [Deployment(alias, params, true, true)]);
  }

  /** The lost alias, concretely: one stale deployment, its delete carried out but timing out. */
  lemma TimeoutLosesTheAlias(alias: string, before: Params, params: Params)
    ensures var r := Remote(map[0 := Deployment(alias, before, true, true)], 1, [Fine(true), FailsLate, Fine(true)],
                            []);
      Sound(r) && Alive(r.live, alias) && !Alive(Route(r, alias, params).0.live, alias)
  {
    var r := Remote(map[0 := Deployment(alias, before, true, true)], 1, [Fine(true), FailsLate, Fine(true)], []);
    StaleIdsAre(r.live, alias);
    var stale := StaleIds(r.live, alias);
    assert Deletable(r.live, alias, 0);
    assert 0 in stale;
    OneStale(stale);
    assert OfAlias(r.live, alias, 0);
    RouteIsRestore(r, alias, params);
    RestoreFinal(r, alias, [Deployment(alias, params, true, true)]);
  }

  lemma OneStale(stale: seq<nat>)
    requires 0 in stale && (forall id :: id in stale ==> id == 0)
    requires forall i, j :: 0 <= i < j < |stale| ==> stale[i] != stale[j]
    ensures stale == [0]
  {
    assert forall i :: 0 <= i < |stale| ==> stale[i] in stale;
    forall i | 0 <= i < |stale| ensures stale[i] == 0 && i == 0 { assert stale[i] == 0 && stale[0] == 0; }
    assert stale[|stale| - 1] == 0;
  }
}
