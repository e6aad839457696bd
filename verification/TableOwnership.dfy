/** scripts/database_inventory.py: who owns a table, and which writes cross a domain boundary. */
module TableOwnership {
  import opened Base

  datatype Domain = Domain(name: string, objects: seq<string>)

  datatype Claim = Claim(table: string, domain: string)

  /** Every assignment the manifest makes, in reading order. */
  function Claims(manifest: seq<Domain>): seq<Claim> {
    if manifest == [] then []
    else Claims(manifest[..|manifest| - 1]) + ClaimsOf(manifest[|manifest| - 1])
  }

  function ClaimsOf(d: Domain): (r: seq<Claim>)
    ensures |r| == |d.objects| && forall i :: 0 <= i < |r| ==> r[i] == Claim(d.objects[i], d.name)
  {
    seq(|d.objects|, i requires 0 <= i < |d.objects| => Claim(d.objects[i], d.name))
  }

  ghost predicate Distinct(claims: seq<Claim>) {
    forall i, j :: 0 <= i < j < |claims| ==> claims[i].table != claims[j].table
  }

  /** The map says exactly what the claims say. */
  ghost predicate Owners(owners: map<string, string>, claims: seq<Claim>) {
    && (forall i :: 0 <= i < |claims| ==> claims[i].table in owners && owners[claims[i].table] == claims[i].domain)
    && (forall name :: name in owners ==> Claimed(claims, name))
  }

  predicate Claimed(claims: seq<Claim>, name: string) {
    exists i :: 0 <= i < |claims| && claims[i].table == name
  }

  datatype Clash = Clash(table: string, first: string, second: string)

  /** The clash is the first claim that repeats an object, with the domain that had it. */
  ghost predicate FirstRepeat(claims: seq<Claim>, clash: Clash) {
    exists i, j ::
      && 0 <= i < j < |claims| && claims[i] == Claim(clash.table, clash.first)
      && claims[j] == Claim(clash.table, clash.second) && Distinct(claims[..j])
  }

  lemma OwnersNext(owners: map<string, string>, claims: seq<Claim>, c: Claim)
    requires Owners(owners, claims) && Distinct(claims) && c.table !in owners
    ensures Owners(owners[c.table := c.domain], claims + [c]) && Distinct(claims + [c])
  {
    var longer := claims + [c];
    forall name | name in owners[c.table := c.domain] ensures Claimed(longer, name) {
      if name == c.table { assert longer[|claims|] == c; } else {
        assert Claimed(claims, name);
        var i :| 0 <= i < |claims| && claims[i].table == name;
        assert longer[i] == claims[i];
      }
    }
  }

  lemma RepeatFound(owners: map<string, string>, claims: seq<Claim>, c: Claim, rest: seq<Claim>)
    requires Owners(owners, claims) && Distinct(claims) && c.table in owners
    ensures FirstRepeat(claims + [c] + rest, Clash(c.table, owners[c.table], c.domain))
    ensures !Distinct(claims + [c] + rest)
  {
    var all := claims + [c] + rest;
    assert Claimed(claims, c.table);
    var i :| 0 <= i < |claims| && claims[i].table == c.table;
    assert all[i] == claims[i] && all[|claims|] == c && all[..|claims|] == claims;
  }

  lemma {:induction false} ClaimsPrefix(manifest: seq<Domain>, n: nat)
    requires n <= |manifest|
    ensures Claims(manifest[..n]) <= Claims(manifest)
    decreases |manifest| - n
  {
    if n < |manifest| {
      assert manifest[..n + 1][..n] == manifest[..n];
      ClaimsPrefix(manifest, n + 1);
    } else {
      assert manifest[..n] == manifest;
    }
  }

  /** The claims read before the k-th object of the n-th domain. */
  function Upto(manifest: seq<Domain>, n: nat, k: nat): seq<Claim>
    requires n < |manifest| && k <= |manifest[n].objects|
  {
    Claims(manifest[..n]) + ClaimsOf(manifest[n])[..k]
  }

  /** A map that says exactly what these claims say, no table among them twice. */
  ghost predicate Good(owners: map<string, string>, claims: seq<Claim>) {
    Owners(owners, claims) && Distinct(claims)
  }

  lemma UptoEnds(manifest: seq<Domain>, n: nat)
    requires n < |manifest|
    ensures Upto(manifest, n, 0) == Claims(manifest[..n])
    ensures Upto(manifest, n, |manifest[n].objects|) == Claims(manifest[..n + 1])
  {
    assert manifest[..n + 1][..n] == manifest[..n];
    assert ClaimsOf(manifest[n])[..|manifest[n].objects|] == ClaimsOf(manifest[n]);
  }

  lemma UptoNext(manifest: seq<Domain>, n: nat, k: nat, owners: map<string, string>)
    requires n < |manifest| && k < |manifest[n].objects| && Good(owners, Upto(manifest, n, k))
    requires manifest[n].objects[k] !in owners
    ensures Good(owners[manifest[n].objects[k] := manifest[n].name], Upto(manifest, n, k + 1))
  {
    var c := ClaimsOf(manifest[n])[k];
    OwnersNext(owners, Upto(manifest, n, k), c);
    assert Upto(manifest, n, k) + [c] == Upto(manifest, n, k + 1);
  }

  /** The claims go on with the one at hand. */
  lemma UptoFollows(manifest: seq<Domain>, n: nat, k: nat) returns (rest: seq<Claim>)
    requires n < |manifest| && k < |manifest[n].objects|
    ensures Claims(manifest) == Upto(manifest, n, k) + [ClaimsOf(manifest[n])[k]] + rest
  {
    var sofar, c := Upto(manifest, n, k), ClaimsOf(manifest[n])[k];
    UptoEnds(manifest, n);
    assert sofar + [c] <= Claims(manifest[..n + 1]);
    ClaimsPrefix(manifest, n + 1);
    rest := Claims(manifest)[|sofar| + 1..];
  }

  lemma ClashAt(manifest: seq<Domain>, n: nat, k: nat, owners: map<string, string>)
    requires n < |manifest| && k < |manifest[n].objects| && Good(owners, Upto(manifest, n, k))
    requires manifest[n].objects[k] in owners
    ensures !Distinct(Claims(manifest))
    ensures FirstRepeat(Claims(manifest),
                        Clash(manifest[n].objects[k], owners[manifest[n].objects[k]], manifest[n].name))
  {
    var rest := UptoFollows(manifest, n, k);
    RepeatFound(owners, Upto(manifest, n, k), ClaimsOf(manifest[n])[k], rest);
  }

  /** The ownership map, unless some table is assigned twice, even to one domain twice. */
  method FlattenOwned(manifest: seq<Domain>) returns (r: Result<map<string, string>, Clash>)
    ensures r.Ok? <==> Distinct(Claims(manifest))
    ensures r.Ok? ==> Owners(r.value, Claims(manifest))
    ensures r.Err? ==> FirstRepeat(Claims(manifest), r.error)
  {
    var owners: map<string, string> := map[];
    for n := 0 to |manifest|
      invariant Good(owners, Claims(manifest[..n]))
    {
      var d := manifest[n];
      UptoEnds(manifest, n);
      for k := 0 to |d.objects|
        invariant Good(owners, Upto(manifest, n, k))
      {
        var name := d.objects[k];
        if name in owners {
          ClashAt(manifest, n, k, owners);
          return Err(Clash(name, owners[name], d.name));
        }
        UptoNext(manifest, n, k, owners);
        owners := owners[name := d.name];
      }
    }
    assert manifest[..|manifest|] == manifest;
    return Ok(owners);
  }

  datatype Record = Record(path: string, line: int, writes: seq<string>)

  datatype CrossWrite = CrossWrite(writer: string, relation: string, destination: string, path: string, line: int)

  /** The writing component and its own domain, by the path's first matching prefix. */
  function WriterForPath(path: string): (string, Option<string>) {
    if "services/platform_api/" <= path then ("platform_api", Some("platform"))
    else if "services/paper_ingestion/" <= path then ("paper_ingestion", Some("research"))
    else if "services/learning_engine/" <= path then ("learning_engine", Some("learning"))
    else if "services/telegram_bot/" <= path then ("telegram_bot", None)
    else if "libs/jarvis_common/" <= path then ("jarvis_common", None)
    else if "scripts/" <= path then ("operator_scripts", None)
    else ("unknown", None)
  }

  /** The k-th write of a record lands in a table of another component's domain. */
  ghost predicate Crosses(owners: map<string, string>, r: Record, k: int) {
    && 0 <= k < |r.writes| && r.writes[k] in owners
    && WriterForPath(r.path).0 != "operator_scripts"
    && Some(owners[r.writes[k]]) != WriterForPath(r.path).1
  }

  /** The k-th write is to a table that some domain other than this one owns. */
  ghost predicate OwnedElsewhere(owners: map<string, string>, r: Record, k: int, native: Option<string>) {
    0 <= k < |r.writes| && r.writes[k] in owners && Some(owners[r.writes[k]]) != native
  }

  predicate OtherCode(path: string) {
    && !("services/platform_api/" <= path) && !("services/paper_ingestion/" <= path)
    && !("services/learning_engine/" <= path) && !("scripts/" <= path)
  }

  /**
   * Whose writes cross, by where the file is: the three services that own a domain may write
   * there, operator scripts anywhere, all other code nowhere.
   */
  lemma CrossesByPlace(owners: map<string, string>, r: Record, k: int)
    ensures "services/platform_api/" <= r.path ==>
      (Crosses(owners, r, k) <==> OwnedElsewhere(owners, r, k, Some("platform")))
    ensures "services/paper_ingestion/" <= r.path ==>
      (Crosses(owners, r, k) <==> OwnedElsewhere(owners, r, k, Some("research")))
    ensures "services/learning_engine/" <= r.path ==>
      (Crosses(owners, r, k) <==> OwnedElsewhere(owners, r, k, Some("learning")))
    ensures "scripts/" <= r.path ==> !Crosses(owners, r, k)
    ensures OtherCode(r.path) ==> (Crosses(owners, r, k) <==> OwnedElsewhere(owners, r, k, None))
  {
    var path := r.path;
    PrefixesApart(path, "services/platform_api/", "services/paper_ingestion/", 10);
    PrefixesApart(path, "services/platform_api/", "services/learning_engine/", 9);
    PrefixesApart(path, "services/paper_ingestion/", "services/learning_engine/", 9);
    PrefixesApart(path, "services/platform_api/", "scripts/", 1);
    PrefixesApart(path, "services/paper_ingestion/", "scripts/", 1);
    PrefixesApart(path, "services/learning_engine/", "scripts/", 1);
    PrefixesApart(path, "services/telegram_bot/", "scripts/", 1);
    PrefixesApart(path, "libs/jarvis_common/", "scripts/", 0);
  }

  lemma PrefixesApart(path: string, a: string, b: string, i: nat)
    requires i < |a| && i < |b| && a[i] != b[i]
    ensures !(a <= path && b <= path)
  {
  }

  /** The writer named in a listed write, by where the file is. */
  lemma WriterByPlace(owners: map<string, string>, r: Record, k: int)
    requires Crosses(owners, r, k)
    ensures var writer := Crossing(owners, r, k).writer;
      && ("services/platform_api/" <= r.path ==> writer == "platform_api")
      && ("services/paper_ingestion/" <= r.path ==> writer == "paper_ingestion")
      && ("services/learning_engine/" <= r.path ==> writer == "learning_engine")
      && ("services/telegram_bot/" <= r.path ==> writer == "telegram_bot")
      && ("libs/jarvis_common/" <= r.path ==> writer == "jarvis_common")
  {
    var path := r.path;
    PrefixesApart(path, "services/platform_api/", "services/paper_ingestion/", 10);
    PrefixesApart(path, "services/platform_api/", "services/learning_engine/", 9);
    PrefixesApart(path, "services/paper_ingestion/", "services/learning_engine/", 9);
    PrefixesApart(path, "services/platform_api/", "services/telegram_bot/", 9);
    PrefixesApart(path, "services/paper_ingestion/", "services/telegram_bot/", 9);
    PrefixesApart(path, "services/learning_engine/", "services/telegram_bot/", 9);
    PrefixesApart(path, "services/platform_api/", "libs/jarvis_common/", 0);
    PrefixesApart(path, "services/paper_ingestion/", "libs/jarvis_common/", 0);
    PrefixesApart(path, "services/learning_engine/", "libs/jarvis_common/", 0);
    PrefixesApart(path, "services/telegram_bot/", "libs/jarvis_common/", 0);
  }

  ghost function Crossing(owners: map<string, string>, r: Record, k: int): CrossWrite
    requires Crosses(owners, r, k)
  {
    CrossWrite(WriterForPath(r.path).0, r.writes[k], owners[r.writes[k]], r.path, r.line)
  }

  /** Positions in source order. */
  ghost predicate Before(a: (nat, nat), b: (nat, nat)) {
    a.0 < b.0 || (a.0 == b.0 && a.1 < b.1)
  }

  /** `found` lists exactly the crossing writes before a position, in source order; `at` says where each one is. */
  ghost predicate ListsCrossings(owners: map<string, string>, records: seq<Record>, upto: (nat, nat),
                                 found: seq<CrossWrite>, at: seq<(nat, nat)>) {
    && |at| == |found|
    && (forall i, j :: 0 <= i < j < |at| ==> Before(at[i], at[j]))
    && (forall i :: 0 <= i < |at| ==>
                    Before(at[i], upto) && at[i].0 < |records| && Crosses(owners, records[at[i].0], at[i].1))
    && (forall i :: 0 <= i < |at| ==> found[i] == Crossing(owners, records[at[i].0], at[i].1))
    && (forall n: nat, k: nat :: n < |records| && Before((n, k), upto) && Crosses(owners, records[n], k) ==>
                                   (n, k) in at)
  }

  method CrossDomainWrites(owners: map<string, string>, records: seq<Record>) returns (found: seq<CrossWrite>)
    ensures exists at :: ListsCrossings(owners, records, (|records|, 0), found, at)
  {
    found := [];
    ghost var at: seq<(nat, nat)> := [];
    for n := 0 to |records|
      invariant ListsCrossings(owners, records, (n, 0), found, at)
    {
      var r := records[n];
      var (writer, native) := WriterForPath(r.path);
      if r.writes != [] && writer != "operator_scripts" {
        for k := 0 to |r.writes|
          invariant ListsCrossings(owners, records, (n, k), found, at)
        {
          var relation := r.writes[k];
          if relation in owners && Some(owners[relation]) != native {
            Listed(owners, records, n, k, found, at);
            found := found + [CrossWrite(writer, relation, owners[relation], r.path, r.line)];
            at := at + [(n, k)];
          } else {
            Skipped(owners, records, n, k, found, at);
          }
        }
      }
      RecordDone(owners, records, n, if r.writes != [] && writer != "operator_scripts" then |r.writes| else 0, found,
                 at);
    }
  }

  lemma Listed(owners: map<string, string>, records: seq<Record>, n: nat, k: nat, found: seq<CrossWrite>,
               at: seq<(nat, nat)>)
    requires n < |records| && Crosses(owners, records[n], k) && ListsCrossings(owners, records, (n, k), found, at)
    ensures ListsCrossings(owners, records, (n, k + 1), found + [Crossing(owners, records[n], k)], at + [(n, k)])
  {
    var longer := at + [(n, k)];
    forall m: nat, l: nat | m < |records| && Before((m, l), (n, k + 1)) && Crosses(owners, records[m], l)
      ensures (m, l) in longer {
      if (m, l) == (n, k) { assert longer[|at|] == (n, k); } else { assert (m, l) in at; }
    }
  }

  lemma Skipped(owners: map<string, string>, records: seq<Record>, n: nat, k: nat, found: seq<CrossWrite>,
                at: seq<(nat, nat)>)
    requires n < |records| && !Crosses(owners, records[n], k) && ListsCrossings(owners, records, (n, k), found, at)
    ensures ListsCrossings(owners, records, (n, k + 1), found, at)
  {
  }

  lemma RecordDone(owners: map<string, string>, records: seq<Record>, n: nat, k: nat, found: seq<CrossWrite>,
                   at: seq<(nat, nat)>)
    requires n < |records| && ListsCrossings(owners, records, (n, k), found, at)
    requires forall l: nat :: k <= l ==> !Crosses(owners, records[n], l)
    ensures ListsCrossings(owners, records, (n + 1, 0), found, at)
  {
  }
}
