/** scripts/check_npm_audit.py: resolving blocking advisories through the dependency graph of an audit report. */
module NpmAudit {
  import opened Base

  /** One item of a `via` array: a package name, an advisory object, or anything else. */
  datatype Cause = Name(name: string) | Advisory(severity: Option<string>, url: Option<string>) | Ignored

  /** One value under `vulnerabilities`. */
  datatype Entry = NotObject | Entry(severity: Option<string>, via: Option<seq<Cause>>)

  /** FAIL_SEVERITIES holds it. */
  predicate Severe(severity: Option<string>) {
    severity in {Some("high"), Some("critical")}
  }

  type Vulnerabilities = map<string, Entry>

  datatype AuditError =
    | NotAnObject | VersionMissing | Cycle | ViaMissing | MissingCause | NoUrl | BadUrl | NoRoot
    | BlockingAdvisories(ids: set<string>)

  predicate IsIdChar(c: char) {
    '0' <= c <= '9' || 'a' <= c <= 'z' || 'A' <= c <= 'Z' || c == '-'
  }

  /** The part after the last slash. */
  function AfterSlash(s: string): Option<string> {
    if s == [] then None
    else if s[|s| - 1] == '/' then Some("")
    else match AfterSlash(s[..|s| - 1])
      case None => None
      case Some(tail) => Some(tail + [s[|s| - 1]])
  }

  /** GHSA_URL_PATTERN.search(url): `$` also matches before one final newline. */
  function GhsaId(url: string): Option<string> {
    match AfterSlash(WithoutNewline(url))
    case None => None
    case Some(tail) => if IsId(tail) then Some(tail) else None
  }

  function WithoutNewline(url: string): (body: string)
    ensures url == body || url == body + "\n"
  {
    if url != [] && url[|url| - 1] == '\n' then url[..|url| - 1] else url
  }

  /** GHSA-[0-9A-Za-z-]+ */
  predicate IsId(s: string) {
    "GHSA-" <= s && |s| > |"GHSA-"| && forall i :: 0 <= i < |s| ==> IsIdChar(s[i])
  }

  function AdvisoryId(cause: Cause): Result<string, AuditError>
    requires cause.Advisory?
  {
    if cause.url.None? then Err(NoUrl)
    else match GhsaId(cause.url.value)
      case None => Err(BadUrl)
      case Some(id) => Ok(id)
  }

  // ---- which urls name an advisory ------------------------------------------------------------

  ghost predicate LinkTo(url: string, u: string, id: string) {
    url == u + "/" + id || url == u + "/" + id + "\n"
  }

  /** GHSA- and at least one letter, digit or hyphen. */
  predicate Shaped(id: string) {
    && |id| > 5 && id[..5] == "GHSA-"
    && forall i :: 5 <= i < |id| ==> '0' <= id[i] <= '9' || 'A' <= id[i] <= 'Z' || 'a' <= id[i] <= 'z' || id[i] == '-'
  }

  /** The url ends in a slash and the id, but for one newline. */
  ghost predicate Links(url: string, id: string) {
    Shaped(id) && exists u :: LinkTo(url, u, id)
  }

  /** The advisory is given by this id. */
  ghost predicate Carries(cause: Cause, id: string) {
    cause.Advisory? && cause.url.Some? && Links(cause.url.value, id)
  }

  /** What is found after the last slash. */
  lemma {:induction false} AfterSlashIs(s: string)
    ensures match AfterSlash(s)
            case None => '/' !in s
            case Some(tail) => '/' !in tail && exists u :: s == u + "/" + tail
  {
    if s != "" && s[|s| - 1] != '/' {
      var init, last := s[..|s| - 1], s[|s| - 1];
      assert s == init + [last];
      AfterSlashIs(init);
      if AfterSlash(init).Some? {
        var tail := AfterSlash(init).value;
        var u :| init == u + "/" + tail;
        assert s == u + "/" + (tail + [last]);
      }
    } else if s != "" {
      assert s == s[..|s| - 1] + "/" + "";
    }
  }

  lemma TailsAgree(u: string, a: string, w: string, b: string)
    requires u + "/" + a == w + "/" + b && '/' !in a && '/' !in b
    ensures a == b
  {
    var s := u + "/" + a;
    assert s[|u|] == '/' && s[|w|] == '/';
    assert forall i :: |u| < i < |s| ==> s[i] == a[i - |u| - 1];
    assert forall i :: |w| < i < |s| ==> s[i] == b[i - |w| - 1];
    assert s[|u| + 1..] == a && s[|w| + 1..] == b;
  }

  lemma IsIdIfShaped(id: string)
    ensures IsId(id) <==> Shaped(id)
  {
    if |id| >= 5 {
      assert forall i :: 0 <= i < 5 ==> id[..5][i] == id[i];
      if id[..5] == "GHSA-" { assert forall i :: 0 <= i < 5 ==> IsIdChar("GHSA-"[i]) && id[i] == "GHSA-"[i]; }
    }
  }

  lemma IdHasNoSlash(id: string)
    requires IsId(id)
    ensures '/' !in id && id[|id| - 1] != '\n'
  {
  }

  /** What the pattern finds is the id the url links to. */
  lemma FoundLinks(url: string, id: string)
    requires GhsaId(url) == Some(id)
    ensures Links(url, id)
  {
    IsIdIfShaped(id);
    SlashBefore(WithoutNewline(url), id, url);
  }

  lemma SlashBefore(body: string, id: string, url: string)
    requires AfterSlash(body) == Some(id) && (url == body || url == body + "\n")
    ensures exists u :: LinkTo(url, u, id)
  {
    AfterSlashIs(body);
    var u :| body == u + "/" + id;
    assert LinkTo(url, u, id);
  }

  lemma LinksFound(url: string, id: string)
    requires Links(url, id)
    ensures GhsaId(url) == Some(id)
  {
    IsIdIfShaped(id);
    IdHasNoSlash(id);
    var u :| LinkTo(url, u, id);
    var body := u + "/" + id;
    assert body[|body| - 1] == id[|id| - 1];
    if url != body { assert url[..|url| - 1] == body; }
    AfterSlashIs(body);
    assert body[|u|] == '/';
    var tail := AfterSlash(body).value;
    var w :| body == w + "/" + tail;
    TailsAgree(u, id, w, tail);
  }

  /** An advisory's id is the one its url links to; it has none if and only if its url links to none. */
  lemma AdvisoryIdExactly(cause: Cause)
    requires cause.Advisory?
    ensures forall id :: AdvisoryId(cause) == Ok(id) <==> Carries(cause, id)
    ensures AdvisoryId(cause).Err? <==> forall id :: !Carries(cause, id)
  {
    forall id ensures AdvisoryId(cause) == Ok(id) <==> Carries(cause, id) {
      if Carries(cause, id) { LinksFound(cause.url.value, id); }
      if AdvisoryId(cause) == Ok(id) { FoundLinks(cause.url.value, id); }
    }
    if AdvisoryId(cause).Ok? { assert Carries(cause, AdvisoryId(cause).value); }
  }

  // ---- the resolver, as a function ---------------------------------------------------------

  lemma TrailShrinks(v: Vulnerabilities, name: string, trail: set<string>)
    requires name in v && name !in trail
    ensures |v.Keys - (trail + {name})| < |v.Keys - trail|
  {
    var left := v.Keys - trail;
    assert v.Keys - (trail + {name}) == left - {name};
  }

  function Resolve(v: Vulnerabilities, name: string, trail: set<string>): Result<set<string>, AuditError>
    decreases |v.Keys - trail|, 0
  {
    if name in trail then Err(Cycle)
    else if name !in v || v[name].NotObject? then Err(NotAnObject)
    else if !Severe(v[name].severity) then Ok({})
    else if v[name].via.None? then Err(ViaMissing)
    else
      TrailShrinks(v, name, trail);
      match ViaRoots(v, v[name].via.value, trail + {name})
      case Err(e) => Err(e)
      case Ok(roots) => if roots == {} then Err(NoRoot) else Ok(roots)
  }

  /** The roots of the causes seen so far, or the first error among them. */
  function ViaRoots(v: Vulnerabilities, via: seq<Cause>, trail: set<string>): Result<set<string>, AuditError>
    decreases |v.Keys - trail|, 1 + |via|
  {
    if via == [] then Ok({})
    else
      var before := ViaRoots(v, via[..|via| - 1], trail);
      if before.Err? then before
      else match CauseRoots(v, via[|via| - 1], trail)
        case Err(e) => Err(e)
        case Ok(more) => Ok(before.value + more)
  }

  function CauseRoots(v: Vulnerabilities, cause: Cause, trail: set<string>): Result<set<string>, AuditError>
    decreases |v.Keys - trail|, 1
  {
    match cause
    case Name(next) => if next !in v then Err(MissingCause) else Resolve(v, next, trail)
    case Advisory(severity, _) =>
      if !Severe(severity) then Ok({})
      else if AdvisoryId(cause).Err? then Err(AdvisoryId(cause).error)
      else Ok({AdvisoryId(cause).value})
    case Ignored => Ok({})
  }

  /** _resolve_advisory_roots */
  method ResolveAdvisoryRoots(name: string, v: Vulnerabilities, trail: set<string>)
    returns (r: Result<set<string>, AuditError>)
    ensures r == Resolve(v, name, trail)
    decreases |v.Keys - trail|, 0
  {
    if name in trail { return Err(Cycle); }
    if name !in v || v[name].NotObject? { return Err(NotAnObject); }
    if !Severe(v[name].severity) { return Ok({}); }
    if v[name].via.None? { return Err(ViaMissing); }
    var via := v[name].via.value;
    var roots: set<string> := {};
    TrailShrinks(v, name, trail);
    ghost var all := ViaRoots(v, via, trail + {name});
    for i := 0 to |via|
      invariant ViaRoots(v, via[..i], trail + {name}) == Ok(roots)
    {
      ViaNext(v, via, i, trail + {name});
      var more := FollowCause(via[i], v, trail + {name});
      if more.Err? {
        assert all == Err(more.error);
        return Err(more.error);
      }
      roots := roots + more.value;
    }
    assert via[..|via|] == via;
    if roots == {} { return Err(NoRoot); }
    return Ok(roots);
  }

  /** The loop body: what one cause contributes. */
  method FollowCause(cause: Cause, v: Vulnerabilities, trail: set<string>) returns (r: Result<set<string>, AuditError>)
    ensures r == CauseRoots(v, cause, trail)
    decreases |v.Keys - trail|, 1
  {
    match cause {
      case Name(next) =>
        if next !in v { return Err(MissingCause); }
        r := ResolveAdvisoryRoots(next, v, trail);
      case Advisory(severity, _) =>
        if !Severe(severity) { return Ok({}); }
        var id := AdvisoryId(cause);
        r := if id.Err? then Err(id.error) else Ok({id.value});
      case Ignored => r := Ok({});
    }
  }

  /** One more cause; an error is the error of the whole list. */
  lemma ViaNext(v: Vulnerabilities, via: seq<Cause>, i: nat, trail: set<string>)
    requires i < |via| && ViaRoots(v, via[..i], trail).Ok?
    ensures var more := CauseRoots(v, via[i], trail);
      if more.Err? then ViaRoots(v, via, trail) == Err(more.error)
      else ViaRoots(v, via[..i + 1], trail) == Ok(ViaRoots(v, via[..i], trail).value + more.value)
  {
    assert via[..i + 1][..i] == via[..i];
    ViaStops(v, via, i + 1, trail);
  }

  lemma {:induction false} ViaStops(v: Vulnerabilities, via: seq<Cause>, i: nat, trail: set<string>)
    requires i <= |via|
    ensures ViaRoots(v, via[..i], trail).Err? ==> ViaRoots(v, via, trail) == ViaRoots(v, via[..i], trail)
    decreases |via|
  {
    if i < |via| {
      ViaStops(v, via[..|via| - 1], i, trail);
      assert via[..|via| - 1][..i] == via[..i];
    } else {
      assert via[..i] == via;
    }
  }

  // ---- the graph, as an independent reference --------------------------------------------------

  predicate Blocking(v: Vulnerabilities, name: string) {
    name in v && v[name].Entry? && (v[name].severity == Some("high") || v[name].severity == Some("critical"))
  }

  /** name is blocking and lists next among its causes. */
  predicate Edge(v: Vulnerabilities, name: string, next: string) {
    Blocking(v, name) && v[name].via.Some? && Name(next) in v[name].via.value
  }

  predicate Path(v: Vulnerabilities, p: seq<string>) {
    p != [] && forall i :: 0 <= i < |p| - 1 ==> Edge(v, p[i], p[i + 1])
  }

  predicate PathFrom(v: Vulnerabilities, name: string, p: seq<string>) {
    Path(v, p) && p[0] == name
  }

  /** A blocking advisory listed by the entry itself. */
  ghost predicate Lists(v: Vulnerabilities, name: string, id: string) {
    Blocking(v, name) && v[name].via.Some?
    && exists i ::
         0 <= i < |v[name].via.value| && v[name].via.value[i].Advisory? && Severe(v[name].via.value[i].severity)
         && Carries(v[name].via.value[i], id)
  }

  /** A blocking advisory reachable through blocking entries. */
  ghost predicate Reaches(v: Vulnerabilities, name: string, id: string) {
    exists p :: PathFrom(v, name, p) && Lists(v, p[|p| - 1], id)
  }

  /** The entry cannot be read on its own terms. */
  ghost predicate Defective(v: Vulnerabilities, name: string) {
    || name !in v || v[name].NotObject?
    || (Severe(v[name].severity) &&
          (v[name].via.None?
           || exists i ::
                0 <= i < |v[name].via.value| && v[name].via.value[i].Advisory? && Severe(v[name].via.value[i].severity)
                && forall id :: !Carries(v[name].via.value[i], id)))
  }

  ghost predicate Rootless(v: Vulnerabilities, name: string) {
    Blocking(v, name) && forall id :: !Reaches(v, name, id)
  }

  /** Why a walk ending here must be refused: it met an entry again, or an unreadable or rootless one. */
  ghost predicate Refused(v: Vulnerabilities, p: seq<string>)
    requires p != []
  {
    var last := p[|p| - 1];
    last in p[..|p| - 1] || Defective(v, last) || Rootless(v, last)
  }

  // ---- a success means a clean graph -----------------------------------------------------------

  lemma {:induction false} ViaMembers(v: Vulnerabilities, via: seq<Cause>, trail: set<string>, i: nat)
    requires ViaRoots(v, via, trail).Ok? && i < |via|
    ensures CauseRoots(v, via[i], trail).Ok? && CauseRoots(v, via[i], trail).value <= ViaRoots(v, via, trail).value
  {
    if i < |via| - 1 {
      ViaMembers(v, via[..|via| - 1], trail, i);
    }
  }

  lemma {:induction false} ViaOrigin(v: Vulnerabilities, via: seq<Cause>, trail: set<string>, id: string)
    returns (i: nat)
    requires ViaRoots(v, via, trail).Ok? && id in ViaRoots(v, via, trail).value
    ensures i < |via| && CauseRoots(v, via[i], trail).Ok? && id in CauseRoots(v, via[i], trail).value
  {
    var last := |via| - 1;
    if id in CauseRoots(v, via[last], trail).value {
      i := last;
    } else {
      i := ViaOrigin(v, via[..last], trail, id);
    }
  }

  /** Following one edge from a resolved entry. */
  lemma StepOk(v: Vulnerabilities, name: string, trail: set<string>, next: string)
    requires Resolve(v, name, trail).Ok? && Edge(v, name, next)
    ensures Resolve(v, next, trail + {name}).Ok?
    ensures Resolve(v, next, trail + {name}).value <= Resolve(v, name, trail).value
  {
    var via := v[name].via.value;
    var i :| 0 <= i < |via| && via[i] == Name(next);
    ViaMembers(v, via, trail + {name}, i);
  }

  /** Along any path from a resolved entry nothing is met twice, and the end resolves too. */
  lemma {:induction false} PathOk(v: Vulnerabilities, name: string, trail: set<string>, p: seq<string>)
    returns (later: set<string>)
    requires Resolve(v, name, trail).Ok? && PathFrom(v, name, p)
    ensures forall i :: 0 <= i < |p| ==> p[i] !in trail
    ensures p[|p| - 1] !in p[..|p| - 1]
    ensures Resolve(v, p[|p| - 1], later).Ok?
    ensures Resolve(v, p[|p| - 1], later).value <= Resolve(v, name, trail).value
    decreases |p|
  {
    if |p| == 1 {
      later := trail;
    } else {
      var q := p[1..];
      assert Edge(v, p[0], p[1]);
      forall i | 0 <= i < |q| - 1 ensures Edge(v, q[i], q[i + 1]) { assert Edge(v, p[i + 1], p[i + 2]); }
      StepOk(v, name, trail, q[0]);
      later := PathOk(v, q[0], trail + {name}, q);
      assert forall i :: 1 <= i < |p| ==> p[i] == q[i - 1];
      assert p[|p| - 1] == q[|q| - 1];
      assert p[..|p| - 1] == [p[0]] + q[..|q| - 1];
    }
  }

  lemma ListedInRoots(v: Vulnerabilities, name: string, trail: set<string>, id: string)
    requires Resolve(v, name, trail).Ok? && Lists(v, name, id)
    ensures id in Resolve(v, name, trail).value
  {
    var via := v[name].via.value;
    var i :| 0 <= i < |via| && via[i].Advisory? && Severe(via[i].severity) && Carries(via[i], id);
    AdvisoryIdExactly(via[i]);
    ViaMembers(v, via, trail + {name}, i);
  }

  /** Every root found is really reachable. */
  lemma {:induction false} RootReachable(v: Vulnerabilities, name: string, trail: set<string>, id: string)
    returns (p: seq<string>)
    requires Resolve(v, name, trail).Ok? && id in Resolve(v, name, trail).value
    ensures PathFrom(v, name, p) && Lists(v, p[|p| - 1], id)
    decreases |v.Keys - trail|
  {
    TrailShrinks(v, name, trail);
    var via := v[name].via.value;
    var i := ViaOrigin(v, via, trail + {name}, id);
    match via[i] {
      case Name(next) =>
        var q := RootReachable(v, next, trail + {name}, id);
        assert Name(next) in via;
        p := [name] + q;
      case Advisory(_, _) =>
        AdvisoryIdExactly(via[i]);
        p := [name];
      case Ignored => assert false;
    }
  }

  /** The roots are exactly the blocking advisories reachable through blocking entries. */
  lemma RootsExact(v: Vulnerabilities, name: string, trail: set<string>)
    requires Resolve(v, name, trail).Ok?
    ensures forall id :: id in Resolve(v, name, trail).value <==> Reaches(v, name, id)
  {
    forall id | id in Resolve(v, name, trail).value ensures Reaches(v, name, id) {
      var p := RootReachable(v, name, trail, id);
    }
    forall id | Reaches(v, name, id) ensures id in Resolve(v, name, trail).value {
      var p :| PathFrom(v, name, p) && Lists(v, p[|p| - 1], id);
      var later := PathOk(v, name, trail, p);
      ListedInRoots(v, p[|p| - 1], later, id);
    }
  }

  /** A resolved entry is readable and, if blocking, has a root. */
  lemma ResolvedClean(v: Vulnerabilities, name: string, trail: set<string>)
    requires Resolve(v, name, trail).Ok?
    ensures !Defective(v, name) && !Rootless(v, name)
  {
    if Blocking(v, name) {
      var via := v[name].via.value;
      forall i | 0 <= i < |via| && via[i].Advisory? && Severe(via[i].severity)
        ensures exists id :: Carries(via[i], id) {
        ViaMembers(v, via, trail + {name}, i);
        AdvisoryIdExactly(via[i]);
      }
      RootsExact(v, name, trail);
      var id :| id in Resolve(v, name, trail).value;
      assert Reaches(v, name, id);
    }
  }

  lemma SuccessIsClean(v: Vulnerabilities, name: string, p: seq<string>)
    requires Resolve(v, name, {}).Ok? && PathFrom(v, name, p)
    ensures !Refused(v, p)
  {
    var later := PathOk(v, name, {}, p);
    ResolvedClean(v, p[|p| - 1], later);
  }

  // ---- a failure names a walk that must be refused --------------------------------------------------

  lemma {:induction false} ViaCulprit(v: Vulnerabilities, via: seq<Cause>, trail: set<string>) returns (i: nat)
    requires ViaRoots(v, via, trail).Err?
    ensures i < |via| && CauseRoots(v, via[i], trail).Err?
  {
    if ViaRoots(v, via[..|via| - 1], trail).Err? {
      i := ViaCulprit(v, via[..|via| - 1], trail);
    } else {
      i := |via| - 1;
    }
  }

  /** A walk that shows why the entry was refused; it may end by coming back to the trail. */
  lemma {:induction false} FailureWalk(v: Vulnerabilities, name: string, trail: set<string>) returns (p: seq<string>)
    requires Resolve(v, name, trail).Err?
    ensures PathFrom(v, name, p) && (p[|p| - 1] in trail || Refused(v, p))
    decreases |v.Keys - trail|
  {
    p := [name];
    if name !in trail && !Defective(v, name) {
      TrailShrinks(v, name, trail);
      var via := v[name].via.value;
      if ViaRoots(v, via, trail + {name}).Err? {
        var i := ViaCulprit(v, via, trail + {name});
        if via[i].Advisory? { AdvisoryIdExactly(via[i]); }
        if via[i].Name? {
          var next := via[i].name;
          assert Name(next) in via && Edge(v, name, next);
          var q: seq<string> := [next];
          if next in v { q := FailureWalk(v, next, trail + {name}); }
          p := [name] + q;
          assert p[..|p| - 1] == [name] + q[..|q| - 1];
          assert p[|p| - 1] == q[|q| - 1];
        }
      } else {
        NoRootsNoReach(v, name, trail);
      }
    }
  }

  lemma NoRootsNoReach(v: Vulnerabilities, name: string, trail: set<string>)
    requires Blocking(v, name) && v[name].via.Some? && ViaRoots(v, v[name].via.value, trail + {name}) == Ok({})
    ensures Rootless(v, name)
  {
    forall id ensures !Reaches(v, name, id) {
      forall p | PathFrom(v, name, p) ensures !Lists(v, p[|p| - 1], id) { NoListedRoot(v, name, trail, p, id); }
    }
  }

  lemma NoListedRoot(v: Vulnerabilities, name: string, trail: set<string>, p: seq<string>, id: string)
    requires Blocking(v, name) && v[name].via.Some? && ViaRoots(v, v[name].via.value, trail + {name}) == Ok({})
    requires PathFrom(v, name, p)
    ensures !Lists(v, p[|p| - 1], id)
  {
    var via := v[name].via.value;
    if |p| == 1 {
      forall i | 0 <= i < |via| && via[i].Advisory? && Severe(via[i].severity) ensures !Carries(via[i], id) {
        ViaMembers(v, via, trail + {name}, i);
        AdvisoryIdExactly(via[i]);
      }
    } else {
      var q := p[1..];
      assert Edge(v, p[0], p[1]);
      forall i | 0 <= i < |q| - 1 ensures Edge(v, q[i], q[i + 1]) { assert Edge(v, p[i + 1], p[i + 2]); }
      var i :| 0 <= i < |via| && via[i] == Name(q[0]);
      ViaMembers(v, via, trail + {name}, i);
      RootsExact(v, q[0], trail + {name});
      assert PathFrom(v, q[0], q) && !Reaches(v, q[0], id);
    }
  }

  /**
   * The resolver, on every graph: it succeeds exactly when no walk from the
   * entry comes back on itself or meets an unreadable or rootless entry, and then
   * returns exactly the reachable blocking advisories.
   */
  lemma ResolverExact(v: Vulnerabilities, name: string)
    ensures Resolve(v, name, {}).Ok? <==> forall p :: PathFrom(v, name, p) ==> !Refused(v, p)
    ensures Resolve(v, name, {}).Ok? ==> forall id :: id in Resolve(v, name, {}).value <==> Reaches(v, name, id)
    ensures Resolve(v, name, {}).Ok? && Blocking(v, name) ==> Resolve(v, name, {}).value != {}
  {
    if Resolve(v, name, {}).Ok? {
      forall p | PathFrom(v, name, p) ensures !Refused(v, p) { SuccessIsClean(v, name, p); }
      RootsExact(v, name, {});
    } else {
      var p := FailureWalk(v, name, {});
    }
  }

  // ---- the gate --------------------------------------------------------------------------------------

  /** A report's `vulnerabilities` object with its keys in iteration order. */
  datatype Report = NoReport | Report(version: Option<int>, vulnerabilities: Option<Vulnerabilities>,
                                      order: seq<string>)

  ghost predicate Ordered(report: Report) {
    report.Report? && report.vulnerabilities.Some? ==>
      forall name :: name in report.order <==> name in report.vulnerabilities.value
  }

  /** The loop of _high_advisory_ids over the entries so far. */
  function RootsOf(v: Vulnerabilities, names: seq<string>): Result<set<string>, AuditError> {
    if names == [] then Ok({})
    else
      var before := RootsOf(v, names[..|names| - 1]);
      var name := names[|names| - 1];
      if before.Err? then before
      else if name !in v || v[name].NotObject? then Err(NotAnObject)
      else if !Severe(v[name].severity) then before
      else
        var more := Resolve(v, name, {});
        if more.Err? then Err(more.error) else Ok(before.value + more.value)
  }

  /** Some blocking entry among these reaches the advisory. */
  ghost predicate ReachedFrom(v: Vulnerabilities, names: seq<string>, id: string) {
    exists name :: name in names && Blocking(v, name) && Reaches(v, name, id)
  }

  ghost predicate ReadsClean(v: Vulnerabilities, names: seq<string>) {
    forall name :: name in names ==>
                   name in v && v[name].Entry? && (Severe(v[name].severity) ==> Resolve(v, name, {}).Ok?)
  }

  lemma ReachedNext(v: Vulnerabilities, names: seq<string>, last: string, id: string)
    ensures ReachedFrom(v, names + [last], id) <==>
            ReachedFrom(v, names, id) || (Blocking(v, last) && Reaches(v, last, id))
  {
    if n :| n in names && Blocking(v, n) && Reaches(v, n, id) { assert n in names + [last]; }
    assert last in names + [last];
  }

  /** The loop succeeds exactly on readable entries, and collects exactly what the blocking ones reach. */
  lemma {:induction false} RootsOfExact(v: Vulnerabilities, names: seq<string>)
    ensures RootsOf(v, names).Ok? <==> ReadsClean(v, names)
    ensures RootsOf(v, names).Ok? ==> forall id :: id in RootsOf(v, names).value <==> ReachedFrom(v, names, id)
    ensures RootsOf(v, names).Ok? ==>
            (RootsOf(v, names).value == {} <==> forall name :: name in names ==> !Blocking(v, name))
    ensures RootsOf(v, names).Err? ==> !RootsOf(v, names).error.BlockingAdvisories?
  {
    if names != [] {
      var init, last := names[..|names| - 1], names[|names| - 1];
      assert names == init + [last];
      RootsOfExact(v, init);
      ResolverExact(v, last);
      if Resolve(v, last, {}).Err? { NoBlockingError(v, last, {}); }
      forall id
        ensures ReachedFrom(v, names, id) <==> ReachedFrom(v, init, id) || (Blocking(v, last) && Reaches(v, last, id)) {
        ReachedNext(v, init, last, id);
      }
    }
  }

  lemma {:induction false} RootsOfStops(v: Vulnerabilities, names: seq<string>, i: nat)
    requires i <= |names|
    ensures RootsOf(v, names[..i]).Err? ==> RootsOf(v, names) == RootsOf(v, names[..i])
    decreases |names|
  {
    if i < |names| {
      RootsOfStops(v, names[..|names| - 1], i);
      assert names[..|names| - 1][..i] == names[..i];
    } else {
      assert names[..i] == names;
    }
  }

  /** _high_advisory_ids */
  method HighAdvisoryIds(report: Report) returns (r: Result<set<string>, AuditError>)
    requires Ordered(report)
    ensures r == HighIds(report)
  {
    if report.NoReport? { return Err(NotAnObject); }
    if report.version != Some(2) { return Err(VersionMissing); }
    if report.vulnerabilities.None? { return Err(NotAnObject); }
    var v, names := report.vulnerabilities.value, report.order;
    var roots: set<string> := {};
    for i := 0 to |names|
      invariant RootsOf(v, names[..i]) == Ok(roots)
    {
      var name := names[i];
      assert names[..i + 1][..i] == names[..i];
      RootsOfStops(v, names, i + 1);
      if name !in v || v[name].NotObject? { return Err(NotAnObject); }
      if Severe(v[name].severity) {
        var more := ResolveAdvisoryRoots(name, v, {});
        if more.Err? { return Err(more.error); }
        roots := roots + more.value;
      }
    }
    assert names[..|names|] == names;
    return Ok(roots);
  }

  function HighIds(report: Report): Result<set<string>, AuditError> {
    if report.NoReport? then Err(NotAnObject)
    else if report.version != Some(2) then Err(VersionMissing)
    else if report.vulnerabilities.None? then Err(NotAnObject)
    else RootsOf(report.vulnerabilities.value, report.order)
  }

  lemma {:induction false} NoBlockingError(v: Vulnerabilities, name: string, trail: set<string>)
    requires Resolve(v, name, trail).Err?
    ensures !Resolve(v, name, trail).error.BlockingAdvisories?
    decreases |v.Keys - trail|, 0
  {
    if name !in trail && name in v && v[name].Entry? && Severe(v[name].severity) && v[name].via.Some? {
      TrailShrinks(v, name, trail);
      if ViaRoots(v, v[name].via.value, trail + {name}).Err? {
        NoBlockingErrorVia(v, v[name].via.value, trail + {name});
      }
    }
  }

  lemma {:induction false} NoBlockingErrorVia(v: Vulnerabilities, via: seq<Cause>, trail: set<string>)
    requires ViaRoots(v, via, trail).Err?
    ensures !ViaRoots(v, via, trail).error.BlockingAdvisories?
    decreases |v.Keys - trail|, 1 + |via|
  {
    if ViaRoots(v, via[..|via| - 1], trail).Err? {
      NoBlockingErrorVia(v, via[..|via| - 1], trail);
    } else if via[|via| - 1].Name? && via[|via| - 1].name in v {
      NoBlockingError(v, via[|via| - 1].name, trail);
    }
  }

  /** Version 2, only objects, nothing high or critical. */
  ghost predicate Harmless(report: Report) {
    && report.Report? && report.version == Some(2) && report.vulnerabilities.Some?
    && forall name :: name in report.vulnerabilities.value ==>
         && report.vulnerabilities.value[name].Entry?
         && report.vulnerabilities.value[name].severity != Some("high")
         && report.vulnerabilities.value[name].severity != Some("critical")
  }

  /** The advisory blocks the report: a blocking entry reaches it. */
  ghost predicate Blocks(report: Report, id: string) {
    report.Report? && report.vulnerabilities.Some? && ReachedFrom(report.vulnerabilities.value, report.order, id)
  }

  lemma HighIdsExact(report: Report)
    requires Ordered(report)
    ensures HighIds(report).Ok? ==> forall id :: id in HighIds(report).value <==> Blocks(report, id)
    ensures HighIds(report) == Ok({}) <==> Harmless(report)
    ensures HighIds(report).Err? ==> !HighIds(report).error.BlockingAdvisories?
  {
    if report.Report? && report.vulnerabilities.Some? {
      RootsOfExact(report.vulnerabilities.value, report.order);
    }
  }

  /**
   * evaluate_reports: passes exactly when both reports have version 2, hold only
   * objects and block nothing; the ids it otherwise blocks on are the reachable
   * advisories of both reports.
   */
  method EvaluateReports(full: Report, production: Report) returns (r: Result<(), AuditError>)
    requires Ordered(full) && Ordered(production)
    ensures r.Ok? <==> Harmless(full) && Harmless(production)
    ensures r.Err? && r.error.BlockingAdvisories? ==>
      r.error.ids != {} && forall id :: id in r.error.ids <==> Blocks(full, id) || Blocks(production, id)
  {
    HighIdsExact(full);
    HighIdsExact(production);
    var fullIds := HighAdvisoryIds(full);
    if fullIds.Err? { return Err(fullIds.error); }
    var productionIds := HighAdvisoryIds(production);
    if productionIds.Err? { return Err(productionIds.error); }
    var blocking := fullIds.value + productionIds.value;
    assert fullIds.value <= blocking && productionIds.value <= blocking;
    if blocking != {} { return Err(BlockingAdvisories(blocking)); }
    assert fullIds.value == {} && productionIds.value == {};
    return Ok(());
  }
}
