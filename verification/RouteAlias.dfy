/** scripts/perf/litellm_route_alias.py: create-first, delete-after routing of a model alias, with rollback. */
module RouteAlias {
  import opened Base

  datatype Value = Text(text: string) | Number(number: real) | Null

  type Params = map<string, Value>

  /** One deployment; hasId says whether its model_info carries an id. */
  datatype Deployment = Deployment(modelName: string, params: Params, dbModel: bool, hasId: bool)

  type Live = map<nat, Deployment>

  /**
   * How one call ends: it succeeds (a create may still answer without an id), it
   * fails with no effect, or it raises although the gateway carried it out.
   */
  datatype Fault = Fine(withId: bool) | Fails | FailsLate

  /** The deployments as GET /v1/model/info shows them: LiteLLM masks api_key, and the script sees no other view. */
  function Listed(live: Live, mask: Params -> Params): (listed: Live)
    ensures listed.Keys == live.Keys
  {
    map id | id in live :: live[id].(params := mask(live[id].params))
  }

  /** The gateway, the outcomes of its next calls, and every state it has been through. */
  datatype Remote = Remote(live: Live, nextId: nat, faults: seq<Fault>, past: seq<Live>)

  /** Ids from nextId on have never been used. */
  ghost predicate Sound(r: Remote) {
    forall id :: id in r.live ==> id < r.nextId
  }

  function NextFault(r: Remote): Fault {
    if r.faults == [] then Fine(true) else r.faults[0]
  }

  function LaterFaults(r: Remote): seq<Fault> {
    if r.faults == [] then [] else r.faults[1..]
  }

  /** The state after a call that leaves `live`. */
  function Step(r: Remote, live: Live, nextId: nat): Remote {
    Remote(live, nextId, LaterFaults(r), r.past + [live])
  }

  datatype Reply = Created(id: Option<nat>) | Raised

  function Create(r: Remote, alias: string, params: Params): (Remote, Reply) {
    match NextFault(r)
    case Fails => (Step(r, r.live, r.nextId), Raised)
    case FailsLate => (Step(r, r.live[r.nextId := Deployment(alias, params, true, true)], r.nextId + 1), Raised)
    case Fine(withId) =>
      (Step(r, r.live[r.nextId := Deployment(alias, params, true, true)], r.nextId + 1),
       Created(if withId then Some(r.nextId) else None))
  }

  /** The remote after the call, and whether it raised. */
  function Delete(r: Remote, id: nat): (Remote, bool) {
    if NextFault(r).Fails? then (Step(r, r.live, r.nextId), true)
    else (Step(r, r.live - {id}, r.nextId), NextFault(r).FailsLate?)
  }

  /** A loop of deletes, ended by the first that raises. */
  function DeleteEach(r: Remote, ids: seq<nat>): (Remote, bool)
    decreases |ids|
  {
    if ids == [] then (r, false)
    else
      var (after, raised) := Delete(r, ids[0]);
      if raised then (after, true) else DeleteEach(after, ids[1..])
  }

  // ---- reading the deployment list ---------------------------------------------------

  predicate OfAlias(live: Live, alias: string, id: nat) {
    id in live && live[id].modelName == alias
  }

  function AliasIds(live: Live, alias: string): set<nat> {
    set id | id in live && OfAlias(live, alias, id)
  }

  predicate IsDb(live: Live, alias: string, id: nat) {
    OfAlias(live, alias, id) && live[id].dbModel
  }

  function DbIds(live: Live, alias: string): set<nat> {
    set id | id in live && IsDb(live, alias, id)
  }

  /** alias_records in listing order. */
  function Listing(live: Live, alias: string): seq<nat> {
    SortedBy(AliasIds(live, alias), (id: nat) => id as int)
  }

  predicate Deletable(live: Live, alias: string, id: nat) {
    IsDb(live, alias, id) && live[id].hasId
  }

  function DeletableIds(live: Live, alias: string): set<nat> {
    set id | id in live && Deletable(live, alias, id)
  }

  /** db_deployment_ids: a loop over the alias's records. */
  method DbDeploymentIds(live: Live, alias: string) returns (ids: seq<nat>)
    ensures ids == StaleIds(live, alias)
  {
    var records := Listing(live, alias);
    ids := [];
    for i := 0 to |records|
      invariant ids == Kept(records[..i], live, alias)
    {
      assert records[..i + 1][..i] == records[..i];
      if Deletable(live, alias, records[i]) { ids := ids + [records[i]]; }
    }
    assert records[..|records|] == records;
  }

  function Kept(records: seq<nat>, live: Live, alias: string): seq<nat> {
    if records == [] then []
    else
      var last := records[|records| - 1];
      Kept(records[..|records| - 1], live, alias) + if Deletable(live, alias, last) then [last] else []
  }

  function StaleIds(live: Live, alias: string): seq<nat> {
    Kept(Listing(live, alias), live, alias)
  }

  lemma {:induction false} KeptAre(records: seq<nat>, live: Live, alias: string)
    requires forall i, j :: 0 <= i < j < |records| ==> records[i] != records[j]
    ensures var kept := Kept(records, live, alias);
      && (forall id :: id in kept <==> id in records && Deletable(live, alias, id))
      && (forall i, j :: 0 <= i < j < |kept| ==> kept[i] != kept[j])
  {
    if records != [] {
      var init := records[..|records| - 1];
      KeptAre(init, live, alias);
      assert records == init + [records[|records| - 1]];
    }
  }

  /** The stale ids are the alias's deletable deployments, each once. */
  lemma StaleIdsAre(live: Live, alias: string)
    ensures var stale := StaleIds(live, alias);
      && (forall id :: id in stale <==> Deletable(live, alias, id))
      && (forall i, j :: 0 <= i < j < |stale| ==> stale[i] != stale[j])
  {
    SortedByMembers(AliasIds(live, alias), (id: nat) => id as int);
    SortedByAscends(AliasIds(live, alias), (id: nat) => id as int);
    KeptAre(Listing(live, alias), live, alias);
  }

  lemma {:induction false} KeptListed(records: seq<nat>, live: Live, alias: string, mask: Params -> Params)
    ensures Kept(records, Listed(live, mask), alias) == Kept(records, live, alias)
  {
    if records != [] { KeptListed(records[..|records| - 1], live, alias, mask); }
  }

  /** Masking changes no deployment's name, kind or id, and so not what is stale. */
  lemma StaleListed(live: Live, alias: string, mask: Params -> Params)
    ensures AliasIds(Listed(live, mask), alias) == AliasIds(live, alias)
    ensures DbIds(Listed(live, mask), alias) == DbIds(live, alias)
    ensures StaleIds(Listed(live, mask), alias) == StaleIds(live, alias)
  {
    assert AliasIds(Listed(live, mask), alias) == AliasIds(live, alias);
    KeptListed(Listing(live, alias), live, alias, mask);
  }

  // ---- parameters and snapshots ---------------------------------------------------------

  datatype RouteError = YamlStack | UnsafeKey | BadBase | EmptySnapshot | CallFailed

  function StripSlashes(s: string): string {
    if s != [] && s[|s| - 1] == '/' then StripSlashes(s[..|s| - 1]) else s
  }

  /** build_openai_compatible_params, the remaining settings given as rest. */
  function BuildParams(servedModel: string, apiBase: string, rest: Params): Result<Params, RouteError> {
    var base := StripSlashes(apiBase);
    if |base| < 3 || base[|base| - 3..] != "/v1" then Err(BadBase)
    else Ok(rest["model" := Text("openai/" + servedModel)]["api_base" := Text(base)])
  }

  /** The address with any slashes at its end taken off is b, and b ends in /v1. */
  ghost predicate BaseOf(apiBase: string, b: string) {
    && |b| >= 3 && b[|b| - 3..] == "/v1"
    && b <= apiBase && forall i :: |b| <= i < |apiBase| ==> apiBase[i] == '/'
  }

  /** The parameters of the new deployment: its model and address, and every other setting as given. */
  ghost predicate Targets(params: Params, servedModel: string, b: string, rest: Params) {
    && params.Keys == rest.Keys + {"model", "api_base"}
    && params["model"] == Text("openai/" + servedModel) && params["api_base"] == Text(b)
    && forall key :: key in rest && key != "model" && key != "api_base" ==> params[key] == rest[key]
  }

  lemma {:induction false} StripSlashesIs(s: string)
    ensures var b := StripSlashes(s);
      && b <= s && (b != "" ==> b[|b| - 1] != '/') && forall i :: |b| <= i < |s| ==> s[i] == '/'
  {
    if s != [] && s[|s| - 1] == '/' { StripSlashesIs(s[..|s| - 1]); }
  }

  lemma BaseIsStripped(apiBase: string, b: string)
    requires BaseOf(apiBase, b)
    ensures b == StripSlashes(apiBase)
  {
    StripSlashesIs(apiBase);
    var stripped := StripSlashes(apiBase);
    assert b[|b| - 1] == b[|b| - 3..][2];
    assert apiBase[|b| - 1] == '1';
    assert stripped != "" ==> apiBase[|stripped| - 1] == stripped[|stripped| - 1];
  }

  /** An address without such a base is refused; any other is routed to. */
  lemma BuildParamsExactly(servedModel: string, apiBase: string, rest: Params)
    ensures var r := BuildParams(servedModel, apiBase, rest);
      && (r.Err? <==> forall b :: !BaseOf(apiBase, b))
      && (r.Err? ==> r.error == BadBase)
      && (r.Ok? ==> forall b :: BaseOf(apiBase, b) ==> Targets(r.value, servedModel, b, rest))
  {
    StripSlashesIs(apiBase);
    if BuildParams(servedModel, apiBase, rest).Ok? { assert BaseOf(apiBase, StripSlashes(apiBase)); }
    forall b | BaseOf(apiBase, b) ensures b == StripSlashes(apiBase) { BaseIsStripped(apiBase, b); }
  }

  /** safe_litellm_params accepts the parameters. */
  predicate SafeKey(params: Params) {
    "api_key" !in params || match params["api_key"]
      case Null => true
      case Text(key) => key == "" || key == "EMPTY" || '*' in key
      case Number(_) => false
  }

  predicate SnapshotSafe(live: Live, alias: string) {
    forall id :: id in live && OfAlias(live, alias, id) ==> SafeKey(live[id].params)
  }

  /** snapshot_payload: every record of the alias, YAML ones included. */
  function Snapshot(live: Live, alias: string): Result<seq<Deployment>, RouteError> {
    if SnapshotSafe(live, alias) then Ok(Records(Listing(live, alias), live)) else Err(UnsafeKey)
  }

  /** A snapshot is refused exactly for a deployment of the alias with a number or an unstarred text for its key. */
  lemma SnapshotRefused(live: Live, alias: string)
    ensures Snapshot(live, alias).Err? <==>
      exists id :: id in live && live[id].modelName == alias && "api_key" in live[id].params &&
        match live[id].params["api_key"]
        case Null => false
        case Number(_) => true
        case Text(key) => key != "" && key != "EMPTY" && '*' !in key
  {
    if id :| id in live && OfAlias(live, alias, id) && !SafeKey(live[id].params) {
      assert live[id].modelName == alias;
    }
    forall id | id in live && live[id].modelName == alias ensures OfAlias(live, alias, id) {}
  }

  function Records(ids: seq<nat>, live: Live): seq<Deployment> {
    if ids == [] then []
    else Records(ids[..|ids| - 1], live) + if ids[|ids| - 1] in live then [live[ids[|ids| - 1]]] else []
  }

  /** A snapshot holds every record of the alias, from YAML too, each once, in listing order. */
  lemma SnapshotLists(live: Live, alias: string)
    requires SnapshotSafe(live, alias)
    ensures var records, ids := Snapshot(live, alias).value, Listing(live, alias);
      && (forall id :: id in ids <==> id in live && live[id].modelName == alias)
      && (forall i, j :: 0 <= i < j < |ids| ==> ids[i] < ids[j])
      && |records| == |ids| && forall i :: 0 <= i < |ids| ==> records[i] == live[ids[i]]
  {
    SortedByMembers(AliasIds(live, alias), (id: nat) => id as int);
    SortedByAscends(AliasIds(live, alias), (id: nat) => id as int);
    forall id | id in live && live[id].modelName == alias ensures id in AliasIds(live, alias) {
      assert OfAlias(live, alias, id);
    }
    RecordsAre(Listing(live, alias), live);
  }

  lemma {:induction false} RecordsAre(ids: seq<nat>, live: Live)
    requires forall id :: id in ids ==> id in live
    ensures |Records(ids, live)| == |ids| && forall i :: 0 <= i < |ids| ==> Records(ids, live)[i] == live[ids[i]]
  {
    if ids != [] {
      assert forall id :: id in ids[..|ids| - 1] ==> id in ids;
      RecordsAre(ids[..|ids| - 1], live);
    }
  }

  /** records_from_snapshot: the DB records, in order. */
  function DbRecords(records: seq<Deployment>): seq<Deployment> {
    if records == [] then []
    else DbRecords(records[..|records| - 1]) + if records[|records| - 1].dbModel then [records[|records| - 1]] else []
  }

  // ---- routing and restoring -----------------------------------------------------------------

  function Without(ids: seq<nat>, drop: set<nat>): seq<nat> {
    if ids == [] then []
    else Without(ids[..|ids| - 1], drop) + if ids[|ids| - 1] in drop then [] else [ids[|ids| - 1]]
  }

  /** Create, delete the stale deployments, and on failure delete what was created. */
  function Route(r: Remote, alias: string, params: Params): (Remote, bool) {
    var stale := StaleIds(r.live, alias);
    var (created, reply) := Create(r, alias, params);
    if reply.Raised? then (created, true)
    else
      var (after, raised) := DeleteEach(created, Without(stale, if reply.id.Some? then {reply.id.value} else {}));
      if !raised then (after, false)
      else if reply.id.Some? then (Delete(after, reply.id.value).0, true)
      else (after, true)
  }

  function CreateEach(r: Remote, alias: string, records: seq<Deployment>): (Remote, seq<nat>, bool)
    decreases |records|
  {
    if records == [] then (r, [], false)
    else
      var (after, reply) := Create(r, alias, records[0].params);
      if reply.Raised? then (after, [], true)
      else
        var (last, ids, raised) := CreateEach(after, alias, records[1..]);
        (last, (if reply.id.Some? then [reply.id.value] else []) + ids, raised)
  }

  function Restore(r: Remote, alias: string, records: seq<Deployment>): (Remote, bool) {
    var stale := StaleIds(r.live, alias);
    var (created, ids, failed) := CreateEach(r, alias, records);
    var (after, raised) := if failed then (created, true) else DeleteEach(created, Without(stale, set id | id in ids));
    if raised then (DeleteEach(after, ids).0, true) else (after, false)
  }

  /** The deployment is the alias's, in the database, and calls this model at this address. */
  ghost predicate RoutedTo(live: Live, id: nat, alias: string, servedModel: string, b: string, rest: Params) {
    && id in live && live[id].modelName == alias && live[id].dbModel
    && Targets(live[id].params, servedModel, b, rest)
  }

  ghost predicate AllFine(faults: seq<Fault>) {
    forall i :: 0 <= i < |faults| ==> faults[i].Fine?
  }

  lemma {:induction false} DeleteEachSpares(r: Remote, ids: seq<nat>, kept: nat)
    requires kept !in ids
    ensures kept in DeleteEach(r, ids).0.live <==> kept in r.live
    ensures kept in r.live ==> DeleteEach(r, ids).0.live[kept] == r.live[kept]
    decreases |ids|
  {
    if ids != [] {
      var (after, raised) := Delete(r, ids[0]);
      if !raised { DeleteEachSpares(after, ids[1..], kept); }
    }
  }

  lemma {:induction false} DeletesDoNotRaise(r: Remote, ids: seq<nat>)
    requires AllFine(r.faults)
    ensures !DeleteEach(r, ids).1
    decreases |ids|
  {
    if ids != [] { DeletesDoNotRaise(Delete(r, ids[0]).0, ids[1..]); }
  }

  lemma {:induction false} WithoutMembers(ids: seq<nat>, drop: set<nat>)
    ensures forall id :: id in Without(ids, drop) ==> id in ids && id !in drop
  {
    if ids != [] { WithoutMembers(ids[..|ids| - 1], drop); }
  }

  /** A routing that does not raise leaves the new deployment as given, and none raises without a fault. */
  lemma RouteServes(r: Remote, alias: string, params: Params)
    ensures var (after, raised) := Route(r, alias, params);
      && (!raised && Sound(r) ==>
          r.nextId in after.live && after.live[r.nextId] == Deployment(alias, params, true, true))
      && (AllFine(r.faults) ==> !raised)
  {
    var (created, reply) := Create(r, alias, params);
    if reply.Created? {
      var drop: set<nat> := if reply.id.Some? then {reply.id.value} else {};
      var ids := Without(StaleIds(r.live, alias), drop);
      WithoutMembers(StaleIds(r.live, alias), drop);
      StaleIdsAre(r.live, alias);
      if r.nextId !in ids { DeleteEachSpares(created, ids, r.nextId); }
      if AllFine(r.faults) { DeletesDoNotRaise(created, ids); }
    }
  }

  class Gateway {
    var remote: Remote
    const mask: Params -> Params

    constructor (remote: Remote, mask: Params -> Params)
      ensures this.remote == remote && this.mask == mask
    {
      this.remote, this.mask := remote, mask;
    }

    method FetchDeployments() returns (records: Live)
      ensures records == Listed(remote.live, mask)
    {
      records := Listed(remote.live, mask);
    }

    method CreateDeployment(alias: string, params: Params) returns (reply: Reply)
      modifies this
      ensures (remote, reply) == Create(old(remote), alias, params)
    {
      var (after, answer) := Create(remote, alias, params);
      remote, reply := after, answer;
    }

    method DeleteDeployment(id: nat) returns (raised: bool)
      modifies this
      ensures (remote, raised) == Delete(old(remote), id)
    {
      var (after, failed) := Delete(remote, id);
      remote, raised := after, failed;
    }

    method DeleteMany(ids: seq<nat>, skip: set<nat>) returns (raised: bool)
      modifies this
      ensures (remote, raised) == DeleteEach(old(remote), Without(ids, skip))
    {
      for i := 0 to |ids|
        invariant DeleteEach(remote, Without(ids[i..], skip)) == DeleteEach(old(remote), Without(ids, skip))
      {
        assert ids[i..] == [ids[i]] + ids[i + 1..];
        WithoutFirst(ids[i], ids[i + 1..], skip);
        ghost var later := Without(ids[i + 1..], skip);
        assert [] + later == later && ([ids[i]] + later)[1..] == later;
        if ids[i] !in skip {
          raised := DeleteDeployment(ids[i]);
          if raised { return; }
        }
      }
      raised := false;
    }

    method RouteAlias(alias: string, servedModel: string, apiBase: string, rest: Params, allowYamlStack: bool,
                      snapshotOut: bool)
      returns (r: Result<Option<seq<Deployment>>, RouteError>)
      modifies this
      ensures var yaml := AliasIds(old(remote).live, alias) != DbIds(old(remote).live, alias) && !allowYamlStack;
        var snapshot := Snapshot(Listed(old(remote).live, mask), alias);
        var params := BuildParams(servedModel, apiBase, rest);
        if yaml then r == Err(YamlStack) && remote == old(remote)
        else if snapshotOut && snapshot.Err? then r == Err(UnsafeKey) && remote == old(remote)
        else if params.Err? then r == Err(BadBase) && remote == old(remote)
        else
          && remote == Route(old(remote), alias, params.value).0
          && r == if Route(old(remote), alias, params.value).1 then Err(CallFailed)
                  else Ok(if snapshotOut then Some(snapshot.value) else None)
      ensures r == Err(BadBase) ==> forall b :: !BaseOf(apiBase, b)
      ensures (forall b :: !BaseOf(apiBase, b)) ==> r.Err? && r.error in {YamlStack, UnsafeKey, BadBase}
      ensures r.Ok? && Sound(old(remote)) ==>
        forall b :: BaseOf(apiBase, b) ==> RoutedTo(remote.live, old(remote).nextId, alias, servedModel, b, rest)
      ensures AllFine(old(remote).faults) ==> r != Err(CallFailed)
    {
      BuildParamsExactly(servedModel, apiBase, rest);
      var records := FetchDeployments();
      StaleListed(remote.live, alias, mask);
      if AliasIds(records, alias) != DbIds(records, alias) && !allowYamlStack { return Err(YamlStack); }
      var snapshot := Snapshot(records, alias);
      if snapshotOut && snapshot.Err? { return Err(UnsafeKey); }
      var stale := DbDeploymentIds(records, alias);
      var params := BuildParams(servedModel, apiBase, rest);
      if params.Err? { return Err(BadBase); }
      RouteServes(remote, alias, params.value);
      var reply := CreateDeployment(alias, params.value);
      if reply.Raised? { return Err(CallFailed); }
      var raised := DeleteMany(stale, if reply.id.Some? then {reply.id.value} else {});
      if raised {
        if reply.id.Some? { var _ := DeleteDeployment(reply.id.value); }
        return Err(CallFailed);
      }
      return Ok(if snapshotOut then Some(snapshot.value) else None);
    }

    /** The creation loop of restore_alias. */
    method CreateMany(alias: string, records: seq<Deployment>) returns (created: seq<nat>, raised: bool)
      modifies this
      ensures (remote, created, raised) == CreateEach(old(remote), alias, records)
    {
      created, raised := [], false;
      ghost var whole := CreateEach(remote, alias, records);
      var i := 0;
      assert records[0..] == records && [] + whole.1 == whole.1;
      while i < |records|
        invariant 0 <= i <= |records| && !raised
        invariant var left := CreateEach(remote, alias, records[i..]);
          whole.0 == left.0 && whole.1 == created + left.1 && whole.2 == left.2
      {
        assert records[i..][1..] == records[i + 1..];
        ghost var left := CreateEach(remote, alias, records[i..]);
        var reply := CreateDeployment(alias, records[i].params);
        if reply.Raised? {
          assert created + [] == created;
          raised := true;
          return;
        }
        ghost var next := CreateEach(remote, alias, records[i + 1..]);
        if reply.id.Some? {
          assert created + left.1 == created + [reply.id.value] + next.1;
          created := created + [reply.id.value];
        } else {
          assert [] + next.1 == next.1;
        }
        i := i + 1;
      }
      assert created + [] == created;
    }

    method RestoreAlias(alias: string, snapshot: seq<Deployment>, allowEmpty: bool) returns (r: Result<(), RouteError>)
      modifies this
      ensures var records := DbRecords(snapshot);
        if records == [] && !allowEmpty then r == Err(EmptySnapshot) && remote == old(remote)
        else
          && remote == Restore(old(remote), alias, records).0
          && r == if Restore(old(remote), alias, records).1 then Err(CallFailed) else Ok(())
    {
      var current := FetchDeployments();
      StaleListed(remote.live, alias, mask);
      var stale := DbDeploymentIds(current, alias);
      var records := DbRecords(snapshot);
      if records == [] && !allowEmpty { return Err(EmptySnapshot); }
      var created, raised := CreateMany(alias, records);
      if !raised {
        raised := DeleteMany(stale, set id | id in created);
      }
      if raised {
        WithoutNothing(created);
        var _ := DeleteMany(created, {});
        return Err(CallFailed);
      }
      return Ok(());
    }
  }

  lemma {:induction false} WithoutFirst(id: nat, rest: seq<nat>, drop: set<nat>)
    ensures Without([id] + rest, drop) == (if id in drop then [] else [id]) + Without(rest, drop)
  {
    if rest == [] {
      assert [id] + rest == [id] && [id][..0] == [];
    } else {
      assert ([id] + rest)[..|rest|] == [id] + rest[..|rest| - 1];
      WithoutFirst(id, rest[..|rest| - 1], drop);
    }
  }

  lemma {:induction false} WithoutNothing(ids: seq<nat>)
    ensures Without(ids, {}) == ids
  {
    if ids != [] {
      WithoutNothing(ids[..|ids| - 1]);
      assert ids == ids[..|ids| - 1] + [ids[|ids| - 1]];
    }
  }
}
