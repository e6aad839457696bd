/** scripts/perf/litellm_route_alias.py: snapshot, route, restore, with no call failing. */
module RouteRoundTrip {
  import opened Base
  import opened RouteAlias
  import opened RouteSafety

  // ---- parameters as a multiset ------------------------------------------------------

  function ParamsAt(live: Live, id: nat): Params {
    if id in live then live[id].params else map[]
  }

  /** The parameters of a set of deployments, with multiplicity. */
  ghost function ParamsOf(live: Live, ids: set<nat>): multiset<Params>
    decreases |ids|
  {
    if ids == {} then multiset{}
    else
      var id :| id in ids;
      ParamsOf(live, ids - {id}) + multiset{ParamsAt(live, id)}
  }

  /** Any member may be counted last. */
  lemma {:induction false} ParamsSplit(live: Live, ids: set<nat>, id: nat)
    requires id in ids
    ensures ParamsOf(live, ids) == ParamsOf(live, ids - {id}) + multiset{ParamsAt(live, id)}
    decreases |ids|
  {
    var picked :| picked in ids &&
                  ParamsOf(live, ids) == ParamsOf(live, ids - {picked}) + multiset{ParamsAt(live, picked)};
    if picked != id {
      ParamsSplit(live, ids - {picked}, id);
      ParamsSplit(live, ids - {id}, picked);
      assert ids - {picked} - {id} == ids - {id} - {picked};
    }
  }

  lemma {:induction false} ParamsAgree(a: Live, b: Live, ids: set<nat>)
    requires forall id :: id in ids ==> ParamsAt(a, id) == ParamsAt(b, id)
    ensures ParamsOf(a, ids) == ParamsOf(b, ids)
    decreases |ids|
  {
    if ids != {} {
      var id :| id in ids;
      ParamsSplit(a, ids, id);
      ParamsSplit(b, ids, id);
      ParamsAgree(a, b, ids - {id});
    }
  }

  lemma {:induction false} ParamsUnion(live: Live, a: set<nat>, b: set<nat>)
    requires a !! b
    ensures ParamsOf(live, a + b) == ParamsOf(live, a) + ParamsOf(live, b)
    decreases |b|
  {
    if b == {} {
      assert a + b == a;
    } else {
      var id :| id in b;
      var rest := b - {id};
      var one := multiset{ParamsAt(live, id)};
      assert a + b - {id} == a + rest;
      assert ParamsOf(live, a + rest) == ParamsOf(live, a) + ParamsOf(live, rest) by { ParamsUnion(live, a, rest); }
      assert ParamsOf(live, b) == ParamsOf(live, rest) + one by { ParamsSplit(live, b, id); }
      assert ParamsOf(live, a + b) == ParamsOf(live, a + rest) + one by { ParamsSplit(live, a + b, id); }
      Regroup(ParamsOf(live, a), ParamsOf(live, rest), one);
    }
  }

  lemma Regroup(a: multiset<Params>, b: multiset<Params>, c: multiset<Params>)
    ensures (a + b) + c == a + (b + c)
  {
  }

  function ParamsList(records: seq<Deployment>): seq<Params> {
    seq(|records|, i requires 0 <= i < |records| => records[i].params)
  }

  function DbPart(live: Live, ids: seq<nat>): set<nat> {
    set id | id in ids && id in live && live[id].dbModel
  }

  /** The DB records of a listing carry exactly the parameters of its DB deployments. */
  lemma {:induction false} ListedParams(live: Live, ids: seq<nat>)
    requires forall id :: id in ids ==> id in live
    requires forall i, j :: 0 <= i < j < |ids| ==> ids[i] != ids[j]
    ensures multiset(ParamsList(DbRecords(Records(ids, live)))) == ParamsOf(live, DbPart(live, ids))
  {
    if ids == [] {
      assert DbPart(live, ids) == {};
    } else {
      var init, last := ids[..|ids| - 1], ids[|ids| - 1];
      assert ids == init + [last];
      ListedParams(live, init);
      var earlier := ParamsList(DbRecords(Records(init, live)));
      RecordsNext(live, init, last);
      DbPartNext(live, init, last);
      if live[last].dbModel {
        ParamsSplit(live, DbPart(live, ids), last);
        AppendCounts(earlier, live[last].params);
      }
    }
  }

  lemma DbPartNext(live: Live, init: seq<nat>, last: nat)
    requires last in live && last !in init
    ensures last in DbPart(live, init + [last]) <==> live[last].dbModel
    ensures DbPart(live, init + [last]) - {last} == DbPart(live, init)
    ensures !live[last].dbModel ==> DbPart(live, init + [last]) == DbPart(live, init)
  {
  }

  lemma RecordsNext(live: Live, init: seq<nat>, last: nat)
    requires last in live && forall id :: id in init ==> id in live
    ensures forall id :: id in init + [last] ==> id in live
    ensures ParamsList(DbRecords(Records(init + [last], live)))
         == ParamsList(DbRecords(Records(init, live))) + if live[last].dbModel then [live[last].params] else []
  {
    DbRecordsNext(Records(init, live), live[last]);
    assert Records(init + [last], live) == Records(init, live) + [live[last]];
    var earlier := ParamsList(DbRecords(Records(init, live)));
    assert earlier + [] == earlier;
  }

  lemma AppendCounts(a: seq<Params>, p: Params)
    ensures multiset(a + [p]) == multiset(a) + multiset{p}
  {
  }

  lemma DbRecordsNext(records: seq<Deployment>, last: Deployment)
    ensures ParamsList(DbRecords(records + [last]))
         == ParamsList(DbRecords(records)) + if last.dbModel then [last.params] else []
  {
    assert (records + [last])[..|records|] == records;
  }

  /** The parameters serving the alias from the admin database. */
  ghost function DbParams(live: Live, alias: string): multiset<Params> {
    ParamsOf(live, DbIds(live, alias))
  }

  /** DB deployments of the alias that are listed without an id and so are never deleted. */
  function Undeletable(live: Live, alias: string): set<nat> {
    DbIds(live, alias) - DeletableIds(live, alias)
  }

  // ---- what a view of the parameters makes of them ------------------------------------------

  /** Masking twice shows what masking once shows. */
  ghost predicate Settles(mask: Params -> Params) {
    forall p :: mask(mask(p)) == mask(p)
  }

  /** A view that settles leaves a multiset as it is only if it leaves each member as it is. */
  lemma ImageIsSame(mask: Params -> Params, m: multiset<Params>)
    requires Settles(mask)
    ensures Image(mask, m) == m <==> forall p :: p in m ==> mask(p) == p
  {
    if Image(mask, m) == m {
      forall p | p in m ensures mask(p) == p { ImageMembers(mask, m, p); }
    } else {
      if forall p :: p in m ==> mask(p) == p { ImageSame(mask, m); }
    }
  }

  lemma {:induction false} ParamsListed(live: Live, mask: Params -> Params, ids: set<nat>)
    requires forall id :: id in ids ==> id in live
    ensures ParamsOf(Listed(live, mask), ids) == Image(mask, ParamsOf(live, ids))
    decreases |ids|
  {
    if ids != {} {
      var id :| id in ids;
      ParamsListed(live, mask, ids - {id});
      ParamsSplit(live, ids, id);
      ParamsSplit(Listed(live, mask), ids, id);
      ImageAdd(mask, ParamsOf(live, ids - {id}), ParamsAt(live, id));
    }
  }

  /** The members are the parameters of the deployments. */
  lemma {:induction false} ParamsMembers(live: Live, ids: set<nat>, p: Params)
    ensures p in ParamsOf(live, ids) <==> exists id :: id in ids && ParamsAt(live, id) == p
    decreases |ids|
  {
    if ids != {} {
      var id :| id in ids;
      ParamsSplit(live, ids, id);
      ParamsMembers(live, ids - {id}, p);
    }
  }

  /** What reading a snapshot back yields: the DB parameters as the gateway lists them, each once. */
  lemma SnapshotHoldsDbParams(live: Live, alias: string, mask: Params -> Params)
    requires SnapshotSafe(Listed(live, mask), alias)
    ensures multiset(ParamsList(DbRecords(Snapshot(Listed(live, mask), alias).value)))
         == Image(mask, DbParams(live, alias))
  {
    var listed := Listed(live, mask);
    var ids := Listing(listed, alias);
    SortedByMembers(AliasIds(listed, alias), (id: nat) => id as int);
    SortedByAscends(AliasIds(listed, alias), (id: nat) => id as int);
    ListedParams(listed, ids);
    assert DbPart(listed, ids) == DbIds(live, alias);
    ParamsListed(live, mask, DbIds(live, alias));
  }

  // ---- what runs without faults leave --------------------------------------------------

  /** The new deployments sit at consecutive fresh ids. */
  function AddAll(live: Live, nextId: nat, alias: string, params: seq<Params>): Live {
    if params == [] then live
    else
      var last := Deployment(alias, params[|params| - 1], true, true);
      AddAll(live, nextId, alias, params[..|params| - 1])[nextId + |params| - 1 := last]
  }

  lemma {:induction false} AddAllFirst(live: Live, nextId: nat, alias: string, params: seq<Params>)
    requires params != []
    ensures AddAll(live, nextId, alias, params)
      == AddAll(live[nextId := Deployment(alias, params[0], true, true)], nextId + 1, alias, params[1..])
  {
    if |params| == 1 {
      assert params[..0] == [] && params[1..] == [];
    } else {
      AddAllFirst(live, nextId, alias, params[..|params| - 1]);
      assert params[..|params| - 1][1..] == params[1..][..|params| - 2];
    }
  }

  lemma AddOne(live: Live, nextId: nat, alias: string, params: Params)
    ensures AddAll(live, nextId, alias, [params]) == live[nextId := Deployment(alias, params, true, true)]
  {
    assert [params][..0] == [];
    assert AddAll(live, nextId, alias, []) == live;
  }

  lemma {:induction false} CreateEachFine(r: Remote, alias: string, records: seq<Deployment>)
    requires AllFine(r.faults)
    ensures var (after, ids, failed) := CreateEach(r, alias, records);
      && !failed && after.live == AddAll(r.live, r.nextId, alias, ParamsList(records))
      && after.nextId == r.nextId + |records| && AllFine(after.faults)
      && forall id :: id in ids ==> r.nextId <= id < after.nextId
    decreases |records|
  {
    if records == [] {
      assert ParamsList(records) == [];
    } else {
      var (next, reply) := Create(r, alias, records[0].params);
      assert AllFine(next.faults);
      CreateEachFine(next, alias, records[1..]);
      assert ParamsList(records)[1..] == ParamsList(records[1..]);
      AddAllFirst(r.live, r.nextId, alias, ParamsList(records));
    }
  }

  lemma DeleteEachFine(r: Remote, ids: seq<nat>)
    requires AllFine(r.faults)
    ensures var (after, raised) := DeleteEach(r, ids);
      !raised && after.live == Minus(r.live, ids) && after.nextId == r.nextId && AllFine(after.faults)
  {
    var k := DeleteEachStops(r, ids);
    assert ids[..|ids|] == ids;
  }

  /** The ids a creation loop mints. */
  function Minted(nextId: nat, count: nat): set<nat> {
    if count == 0 then {} else Minted(nextId, count - 1) + {nextId + count - 1}
  }

  lemma {:induction false} MintedAre(nextId: nat, count: nat)
    ensures forall id :: id in Minted(nextId, count) <==> nextId <= id < nextId + count
  {
    if count > 0 { MintedAre(nextId, count - 1); }
  }

  /** Adding leaves every other deployment as it was. */
  lemma {:induction false} AddAllFacts(live: Live, nextId: nat, alias: string, params: seq<Params>)
    requires forall id :: id in live ==> id < nextId
    ensures var after := AddAll(live, nextId, alias, params);
      && after.Keys == live.Keys + Minted(nextId, |params|)
      && (forall id :: id in live ==> after[id] == live[id])
      && (forall id :: id in Minted(nextId, |params|) ==> Deletable(after, alias, id))
  {
    MintedAre(nextId, |params|);
    if params != [] {
      MintedAre(nextId, |params| - 1);
      AddAllFacts(live, nextId, alias, params[..|params| - 1]);
    }
  }

  /** One deployment more counts its parameters once more. */
  lemma ParamsAdded(before: Live, after: Live, earlier: set<nat>, last: nat)
    requires last !in earlier && forall id :: id in earlier ==> ParamsAt(before, id) == ParamsAt(after, id)
    ensures ParamsOf(after, earlier + {last}) == ParamsOf(before, earlier) + multiset{ParamsAt(after, last)}
  {
    ParamsAgree(before, after, earlier);
    ParamsSplit(after, earlier + {last}, last);
    assert earlier + {last} - {last} == earlier;
  }

  lemma MintedNext(nextId: nat, count: nat)
    ensures Minted(nextId, count + 1) == Minted(nextId, count) + {nextId + count}
    ensures nextId + count !in Minted(nextId, count)
  {
    MintedAre(nextId, count);
  }

  lemma AddAllNext(live: Live, nextId: nat, alias: string, params: seq<Params>, last: Params)
    ensures AddAll(live, nextId, alias, params + [last])
         == AddAll(live, nextId, alias, params)[nextId + |params| := Deployment(alias, last, true, true)]
  {
    assert (params + [last])[..|params|] == params;
  }

  lemma AddAllParamsNext(live: Live, nextId: nat, alias: string, params: seq<Params>, last: Params)
    requires ParamsOf(AddAll(live, nextId, alias, params), Minted(nextId, |params|)) == multiset(params)
    ensures ParamsOf(AddAll(live, nextId, alias, params + [last]), Minted(nextId, |params| + 1)) ==
            multiset(params + [last])
  {
    AddAllNext(live, nextId, alias, params, last);
    MintedNext(nextId, |params|);
    ParamsAdded(AddAll(live, nextId, alias, params), AddAll(live, nextId, alias, params + [last]),
                Minted(nextId, |params|), nextId + |params|);
  }

  /** The added parameters come out with their multiplicity. */
  lemma {:induction false} AddAllParams(live: Live, nextId: nat, alias: string, params: seq<Params>)
    ensures ParamsOf(AddAll(live, nextId, alias, params), Minted(nextId, |params|)) == multiset(params)
  {
    if params != [] {
      var init, last := params[..|params| - 1], params[|params| - 1];
      AddAllParams(live, nextId, alias, init);
      AddAllParamsNext(live, nextId, alias, init, last);
      assert params == init + [last];
    }
  }

  /**
   * A fault-free replacement of an alias: new deployments with the given
   * parameters, the deletable ones gone, everything else untouched.
   */
  ghost predicate Replaced(before: Live, after: Live, alias: string, params: multiset<Params>) {
    && (forall id :: id in before && !Deletable(before, alias, id) ==> id in after && after[id] == before[id])
    && (forall id :: id in after && id !in before ==> Deletable(after, alias, id))
    && (forall id :: id in after && id in before ==> !Deletable(before, alias, id))
    && ParamsOf(after, after.Keys - before.Keys) == params
  }

  lemma ReplaceDeployments(r: Remote, alias: string, params: seq<Params>)
    requires Sound(r)
    ensures Replaced(r.live, Minus(AddAll(r.live, r.nextId, alias, params), StaleIds(r.live, alias)), alias,
                     multiset(params))
  {
    StaleIdsAre(r.live, alias);
    AddAllFacts(r.live, r.nextId, alias, params);
    AddAllParams(r.live, r.nextId, alias, params);
    MintedAre(r.nextId, |params|);
    MinusReplaces(r.live, AddAll(r.live, r.nextId, alias, params), alias, StaleIds(r.live, alias),
                  Minted(r.nextId, |params|));
  }

  /** Taking the deletable deployments away once others have been added. */
  lemma MinusReplaces(before: Live, added: Live, alias: string, stale: seq<nat>, minted: set<nat>)
    requires added.Keys == before.Keys + minted && before.Keys !! minted
    requires forall id :: id in before ==> added[id] == before[id]
    requires forall id :: id in minted ==> Deletable(added, alias, id)
    requires forall id :: id in stale <==> Deletable(before, alias, id)
    ensures Replaced(before, Minus(added, stale), alias, ParamsOf(added, minted))
  {
    var after := Minus(added, stale);
    assert after.Keys - before.Keys == minted;
    ParamsAgree(added, after, minted);
  }

  /** Routing without faults leaves the new deployment and what could not be deleted. */
  lemma RouteReplaces(r: Remote, alias: string, params: Params)
    requires Sound(r) && AllFine(r.faults)
    ensures var (after, raised) := Route(r, alias, params);
      !raised && Replaced(r.live, after.live, alias, multiset{params}) && Sound(after) && AllFine(after.faults)
  {
    var (created, reply) := Create(r, alias, params);
    StaleDeletes(r, alias, if reply.id.Some? then {r.nextId} else {});
    DeleteEachFine(created, StaleIds(r.live, alias));
    AddOne(r.live, r.nextId, alias, params);
    ReplaceDeployments(r, alias, [params]);
    assert multiset([params]) == multiset{params};
  }

  lemma RestoreReplaces(r: Remote, alias: string, records: seq<Deployment>)
    requires Sound(r) && AllFine(r.faults)
    ensures var (after, raised) := Restore(r, alias, records);
      !raised && Replaced(r.live, after.live, alias, multiset(ParamsList(records)))
  {
    var (created, ids, failed) := CreateEach(r, alias, records);
    CreateEachFine(r, alias, records);
    StaleDeletes(r, alias, set id | id in ids);
    DeleteEachFine(created, StaleIds(r.live, alias));
    ReplaceDeployments(r, alias, ParamsList(records));
  }

  /** Which DB deployments a replaced alias has: the undeletable ones and the new ones. */
  lemma ReplacedIds(before: Live, after: Live, alias: string, params: multiset<Params>)
    requires Replaced(before, after, alias, params)
    ensures DbIds(after, alias) == Undeletable(before, alias) + (after.Keys - before.Keys)
    ensures Undeletable(after, alias) == Undeletable(before, alias)
    ensures forall id :: id in Undeletable(before, alias) ==> ParamsAt(after, id) == ParamsAt(before, id)
  {
    forall id
      ensures id in DbIds(after, alias) <==> id in Undeletable(before, alias) || id in after.Keys - before.Keys {
      if id in before { assert Deletable(before, alias, id) || (id in after && after[id] == before[id]); }
    }
    forall id ensures id in Undeletable(after, alias) <==> id in Undeletable(before, alias) {
      if id in before { assert Deletable(before, alias, id) || (id in after && after[id] == before[id]); }
    }
  }

  /** The database side of a replaced alias: the new parameters beside the undeletable ones. */
  lemma ReplacedParams(before: Live, after: Live, alias: string, params: multiset<Params>)
    requires Replaced(before, after, alias, params)
    ensures Undeletable(after, alias) == Undeletable(before, alias)
    ensures ParamsOf(after, Undeletable(before, alias)) == ParamsOf(before, Undeletable(before, alias))
    ensures DbParams(after, alias) == ParamsOf(before, Undeletable(before, alias)) + params
  {
    ReplacedIds(before, after, alias, params);
    var stuck := Undeletable(before, alias);
    ParamsAgree(before, after, stuck);
    ParamsUnion(after, stuck, after.Keys - before.Keys);
  }

  /** After routing alone, if every DB deployment had an id, the alias's DB side is exactly the new route. */
  lemma RoutedAlone(r: Remote, alias: string, params: Params)
    requires Sound(r) && AllFine(r.faults) && Undeletable(r.live, alias) == {}
    ensures var after := Route(r, alias, params).0.live;
      && DbParams(after, alias) == multiset{params}
      && forall id :: id in r.live && !IsDb(r.live, alias, id) ==> id in after && after[id] == r.live[id]
  {
    RouteReplaces(r, alias, params);
    var after := Route(r, alias, params).0.live;
    ReplacedParams(r.live, after, alias, multiset{params});
  }

  /** The records a snapshot taken of the gateway's listing restores. */
  function Saved(live: Live, alias: string, mask: Params -> Params): seq<Deployment>
    requires SnapshotSafe(Listed(live, mask), alias)
  {
    DbRecords(Snapshot(Listed(live, mask), alias).value)
  }

  /**
   * Snapshot, route, restore: the alias ends with the DB parameters it began with, as the
   * gateway lists them, and beside them those of DB deployments listed without an id as they
   * were. Other aliases and YAML deployments are untouched.
   */
  lemma RoundTrip(r: Remote, alias: string, params: Params, mask: Params -> Params)
    requires Sound(r) && AllFine(r.faults) && SnapshotSafe(Listed(r.live, mask), alias)
    ensures var routed := Route(r, alias, params).0;
      var (restored, raised) := Restore(routed, alias, Saved(r.live, alias, mask));
      && !raised
      && DbParams(restored.live, alias)
         == ParamsOf(r.live, Undeletable(r.live, alias)) + Image(mask, DbParams(r.live, alias))
      && forall id :: id in r.live && !IsDb(r.live, alias, id) ==>
                      id in restored.live && restored.live[id] == r.live[id]
  {
    var records := Saved(r.live, alias, mask);
    var routed := Route(r, alias, params).0;
    SnapshotHoldsDbParams(r.live, alias, mask);
    RouteReplaces(r, alias, params);
    RestoreReplaces(routed, alias, records);
    ReplacedTwice(r.live, routed.live, Restore(routed, alias, records).0.live, alias, multiset{params},
                  multiset(ParamsList(records)));
  }

  /** No DB deployment of the alias is listed otherwise than it is stored. */
  ghost predicate ListedAsStored(live: Live, alias: string, mask: Params -> Params) {
    forall id :: id in DbIds(live, alias) ==> mask(live[id].params) == live[id].params
  }

  lemma SameAsListed(live: Live, alias: string, mask: Params -> Params)
    requires Settles(mask)
    ensures Image(mask, DbParams(live, alias)) == DbParams(live, alias) <==> ListedAsStored(live, alias, mask)
  {
    var ids := DbIds(live, alias);
    ImageIsSame(mask, ParamsOf(live, ids));
    forall id | id in ids ensures ParamsAt(live, id) in ParamsOf(live, ids) {
      ParamsMembers(live, ids, ParamsAt(live, id));
    }
    if ListedAsStored(live, alias, mask) {
      forall p | p in ParamsOf(live, ids) ensures mask(p) == p { ParamsMembers(live, ids, p); }
    }
  }

  /**
   * So the round trip gives back the DB parameters if and only if every DB deployment was
   * listed with an id and as it is stored.
   */
  lemma RoundTripIff(r: Remote, alias: string, params: Params, mask: Params -> Params)
    requires Sound(r) && AllFine(r.faults) && SnapshotSafe(Listed(r.live, mask), alias) && Settles(mask)
    ensures var restored := Restore(Route(r, alias, params).0, alias, Saved(r.live, alias, mask)).0.live;
      DbParams(restored, alias) == DbParams(r.live, alias)
      <==> Undeletable(r.live, alias) == {} && ListedAsStored(r.live, alias, mask)
  {
    RoundTrip(r, alias, params, mask);
    SameCount(r.live, alias, mask);
    SameAsListed(r.live, alias, mask);
  }

  lemma SameCount(live: Live, alias: string, mask: Params -> Params)
    ensures var shown, stored := Image(mask, DbParams(live, alias)), DbParams(live, alias);
      ParamsOf(live, Undeletable(live, alias)) + shown == stored <==> Undeletable(live, alias) == {} && shown == stored
  {
    ImageCount(mask, DbParams(live, alias));
    AddsNothing(live, Undeletable(live, alias), Image(mask, DbParams(live, alias)), DbParams(live, alias));
  }

  /** A stored key that must not be in a snapshot is not among what an accepted snapshot holds. */
  lemma RealKeyNotListed(live: Live, alias: string, mask: Params -> Params, id: nat)
    requires SnapshotSafe(Listed(live, mask), alias) && id in DbIds(live, alias) && !SafeKey(live[id].params)
    ensures Image(mask, DbParams(live, alias)) != DbParams(live, alias)
  {
    var ids, p := DbIds(live, alias), live[id].params;
    ParamsMembers(live, ids, p);
    ImageMembers(mask, ParamsOf(live, ids), p);
    forall q | q in ParamsOf(live, ids) ensures SafeKey(mask(q)) {
      ParamsMembers(live, ids, q);
      var other :| other in ids && ParamsAt(live, other) == q;
      assert OfAlias(Listed(live, mask), alias, other);
    }
  }

  /** Whatever the mask, the round trip never gives back a key that must not be in a snapshot. */
  lemma RealKeysAreLost(r: Remote, alias: string, params: Params, mask: Params -> Params, id: nat)
    requires Sound(r) && AllFine(r.faults) && SnapshotSafe(Listed(r.live, mask), alias)
    requires id in DbIds(r.live, alias) && !SafeKey(r.live[id].params)
    ensures var restored := Restore(Route(r, alias, params).0, alias, Saved(r.live, alias, mask)).0.live;
      DbParams(restored, alias) != DbParams(r.live, alias)
  {
    RoundTrip(r, alias, params, mask);
    SameCount(r.live, alias, mask);
    RealKeyNotListed(r.live, alias, mask, id);
  }

  /** The parameters without the key. */
  function Keyless(p: Params): Params {
    p - {"api_key"}
  }

  /** The mask changes nothing but api_key. */
  ghost predicate MasksKeysOnly(mask: Params -> Params) {
    forall p :: Keyless(mask(p)) == Keyless(p)
  }

  /** Every other setting comes back, twice for DB deployments listed without an id. */
  lemma RoundTripBesidesKeys(r: Remote, alias: string, params: Params, mask: Params -> Params)
    requires Sound(r) && AllFine(r.faults) && SnapshotSafe(Listed(r.live, mask), alias) && MasksKeysOnly(mask)
    ensures var restored := Restore(Route(r, alias, params).0, alias, Saved(r.live, alias, mask)).0.live;
      Image(Keyless, DbParams(restored, alias))
      == Image(Keyless, ParamsOf(r.live, Undeletable(r.live, alias))) + Image(Keyless, DbParams(r.live, alias))
  {
    var stored := DbParams(r.live, alias);
    RoundTrip(r, alias, params, mask);
    ImageUnion(Keyless, ParamsOf(r.live, Undeletable(r.live, alias)), Image(mask, stored));
    ImageThen(mask, Keyless, stored);
  }

  /** A mask as LiteLLM's: any key that could not go into a snapshot becomes stars. */
  function Starred(p: Params): Params {
    if SafeKey(p) then p else p["api_key" := Text("sk-***")]
  }

  /** One deployment with a key: the snapshot is accepted, and the alias ends with the stars for its key. */
  lemma MaskedKeyRestored(alias: string, key: string, params: Params)
    requires !SafeKey(map["api_key" := Text(key)])
    ensures var r := Remote(map[0 := Deployment(alias, map["api_key" := Text(key)], true, true)], 1, [], []);
      && Sound(r) && Settles(Starred) && MasksKeysOnly(Starred) && SnapshotSafe(Listed(r.live, Starred), alias)
      && var restored := Restore(Route(r, alias, params).0, alias, Saved(r.live, alias, Starred)).0.live;
         && DbParams(r.live, alias) == multiset{map["api_key" := Text(key)]}
         && DbParams(restored, alias) == multiset{map["api_key" := Text("sk-***")]}
  {
    var stored: Params := map["api_key" := Text(key)];
    var r := Remote(map[0 := Deployment(alias, stored, true, true)], 1, [], []);
    StarredSettles();
    assert Starred(stored) == map["api_key" := Text("sk-***")];
    assert DbIds(r.live, alias) == {0} && Undeletable(r.live, alias) == {};
    OneDeployment(r.live, stored);
    ImageOne(Starred, stored);
    RoundTrip(r, alias, params, Starred);
  }

  lemma OneDeployment(live: Live, params: Params)
    requires 0 in live && live[0].params == params
    ensures ParamsOf(live, {0}) == multiset{params} && ParamsOf(live, {}) == multiset{}
  {
    ParamsSplit(live, {0}, 0);
    assert {0} - {0} == {};
  }

  lemma StarredSettles()
    ensures Settles(Starred) && MasksKeysOnly(Starred) && forall p :: SafeKey(Starred(p))
  {
    assert "sk-***"[3] == '*';
  }

  /** Replacing twice: the second set of parameters beside what neither could delete. */
  lemma ReplacedTwice(a: Live, b: Live, d: Live, alias: string, first: multiset<Params>, second: multiset<Params>)
    requires Replaced(a, b, alias, first) && Replaced(b, d, alias, second)
    ensures DbParams(d, alias) == ParamsOf(a, Undeletable(a, alias)) + second
    ensures forall id :: id in a && !IsDb(a, alias, id) ==> id in d && d[id] == a[id]
  {
    ReplacedParams(a, b, alias, first);
    ReplacedParams(b, d, alias, second);
  }

  /** Adding a set's parameters to as many as before gives the same multiset only if the set is empty. */
  lemma AddsNothing(live: Live, ids: set<nat>, more: multiset<Params>, base: multiset<Params>)
    requires |more| == |base|
    ensures ParamsOf(live, ids) + more == base <==> ids == {} && more == base
  {
    ParamsCount(live, ids);
    assert |ParamsOf(live, ids) + more| == |ids| + |more|;
  }

  /** There are as many parameter records as deployments. */
  lemma {:induction false} ParamsCount(live: Live, ids: set<nat>)
    ensures |ParamsOf(live, ids)| == |ids|
    decreases |ids|
  {
    if ids != {} {
      var id :| id in ids;
      ParamsSplit(live, ids, id);
      ParamsCount(live, ids - {id});
    }
  }
}
