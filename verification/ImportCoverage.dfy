/** scripts/check-shared-import-coverage.py: the import closure of the shared library and the coverage gate over it. */
module ImportCoverage {
  import opened Base

  /** A source file of the package: a/b.py is Module([a, b]), a/__init__.py is Init([a]). */
  datatype File = Module(parts: seq<string>) | Init(parts: seq<string>)

  /** One import executed at module scope: the dotted name's parts and its line. */
  datatype Import = Import(parts: seq<string>, line: int)

  /**
   * The package on disk: its files in directory order, each file's import-time
   * imports, and how top-level names are classified.
   */
  datatype Package = Package(
    files: seq<File>, imports: File -> seq<Import>,
    shared: string, stdlib: set<string>, distribution: string -> string)

  ghost predicate Sound(p: Package) {
    && (forall i, j :: 0 <= i < j < |p.files| ==> p.files[i] != p.files[j])
    && (forall f, k :: f in p.files && 0 <= k < |p.imports(f)| ==> p.imports(f)[k].parts != [])
    && p.shared != "__future__" && p.shared !in p.stdlib
  }

  predicate StartsWith(s: string, prefix: string) {
    prefix <= s
  }

  /** Test-only helpers are not scanned on their own. */
  predicate TestOnly(f: File) {
    || (f.Module? && f.parts != [] &&
        (StartsWith(f.parts[|f.parts| - 1], "testing_") || f.parts[|f.parts| - 1] == "testing"))
    || (f.Module? && f.parts != [] && "testing_sidecars" in f.parts[..|f.parts| - 1])
    || (f.Init? && "testing_sidecars" in f.parts)
  }

  ghost predicate EndsIn(parts: seq<string>, dirs: seq<string>, last: string) {
    parts == dirs + [last]
  }

  /**
   * The test-only files: testing.py and every testing_*.py in any directory, and whatever
   * lies below a directory testing_sidecars.
   */
  lemma TestOnlyExactly(f: File)
    ensures TestOnly(f) <==>
      match f
      case Module(parts) =>
        || (exists dirs :: EndsIn(parts, dirs, "testing"))
        || (exists dirs, rest :: EndsIn(parts, dirs, "testing_" + rest))
        || (exists i :: 0 <= i < |parts| - 1 && parts[i] == "testing_sidecars")
      case Init(parts) => exists i :: 0 <= i < |parts| && parts[i] == "testing_sidecars"
  {
    match f {
      case Module(parts) =>
        if parts != [] {
          var dirs, last := parts[..|parts| - 1], parts[|parts| - 1];
          assert EndsIn(parts, dirs, last);
          if "testing_" <= last { assert last == "testing_" + last[|"testing_"|..]; }
          assert forall i :: 0 <= i < |parts| - 1 ==> parts[i] == dirs[i];
        }
      case Init(parts) =>
    }
  }

  function RuntimeModules(files: seq<File>): seq<File> {
    if files == [] then []
    else RuntimeModules(files[..|files| - 1]) + if TestOnly(files[|files| - 1]) then [] else [files[|files| - 1]]
  }

  lemma {:induction false} RuntimeModulesAre(files: seq<File>)
    requires forall i, j :: 0 <= i < j < |files| ==> files[i] != files[j]
    ensures var r := RuntimeModules(files);
      && (forall f :: f in r <==> f in files && !TestOnly(f))
      && (forall i, j :: 0 <= i < j < |r| ==> r[i] != r[j])
  {
    if files != [] {
      RuntimeModulesAre(files[..|files| - 1]);
      assert files == files[..|files| - 1] + [files[|files| - 1]];
    }
  }

  /** _module_files: every existing file that importing the dotted module executes, from the package root down. */
  method ModuleFiles(p: Package, parts: seq<string>) returns (found: seq<File>)
    requires parts != []
    ensures forall f :: f in found <==> Executes(p, parts, f)
  {
    found := if Init([]) in p.files then [Init([])] else [];
    var base: seq<string> := [];
    for k := 1 to |parts|
      invariant base == parts[1..k]
      invariant forall f :: f in found <==> (f in p.files && OnTheWay(parts, k, f))
    {
      base := base + [parts[k]];
      assert base == parts[1..k + 1];
      if Module(base) in p.files { found := found + [Module(base)]; }
      if Init(base) in p.files { found := found + [Init(base)]; }
    }
  }

  /** Importing the dotted module runs f: the package, or a module or package on the way down. */
  predicate Executes(p: Package, parts: seq<string>, f: File)
    requires parts != []
  {
    f in p.files && OnTheWay(parts, |parts|, f)
  }

  /** f is the package itself, or a module or package named by the first k parts or fewer. */
  predicate OnTheWay(parts: seq<string>, k: nat, f: File)
    requires 0 < k <= |parts|
  {
    f == Init([]) || exists n :: 1 < n <= k && (f == Module(parts[1..n]) || f == Init(parts[1..n]))
  }

  predicate Skipped(p: Package, i: Import)
    requires i.parts != []
  {
    i.parts[0] == "__future__" || i.parts[0] in p.stdlib
  }

  predicate Internal(p: Package, i: Import)
    requires i.parts != []
  {
    !Skipped(p, i) && i.parts[0] == p.shared
  }

  predicate External(p: Package, i: Import)
    requires i.parts != []
  {
    !Skipped(p, i) && i.parts[0] != p.shared
  }

  /** Running f at import time also runs g. */
  ghost predicate Pulls(p: Package, f: File, g: File)
    requires Sound(p)
  {
    && f in p.files
    && exists k :: 0 <= k < |p.imports(f)| && Internal(p, p.imports(f)[k]) && Executes(p, p.imports(f)[k].parts, g)
  }

  ghost predicate Needs(p: Package, f: File, d: string)
    requires Sound(p)
  {
    && f in p.files
    && exists k :: 0 <= k < |p.imports(f)| && External(p, p.imports(f)[k])
                   && p.distribution(p.imports(f)[k].parts[0]) == d
  }

  /** The top-level name is no future statement, no standard module and not the package, but the distribution's. */
  predicate Wants(p: Package, i: Import, d: string) {
    && i.parts != [] && i.parts[0] != "__future__" && i.parts[0] !in p.stdlib && i.parts[0] != p.shared
    && p.distribution(i.parts[0]) == d
  }

  /** A file needs what its imports want, and nothing else. */
  lemma NeedsExactly(p: Package, f: File, d: string)
    requires Sound(p) && f in p.files
    ensures Needs(p, f, d) <==> exists i :: i in p.imports(f) && Wants(p, i, d)
  {
    if i :| i in p.imports(f) && Wants(p, i, d) {
      var k :| 0 <= k < |p.imports(f)| && p.imports(f)[k] == i;
      assert External(p, p.imports(f)[k]);
    }
    if k :| 0 <= k < |p.imports(f)| && External(p, p.imports(f)[k]) && p.distribution(p.imports(f)[k].parts[0]) == d {
      assert p.imports(f)[k] in p.imports(f) && Wants(p, p.imports(f)[k], d);
    }
  }

  /** s holds every runtime module and everything its members pull in. */
  ghost predicate Closed(p: Package, s: set<File>)
    requires Sound(p)
  {
    && (forall f :: f in p.files && !TestOnly(f) ==> f in s)
    && (forall f, g :: f in s && Pulls(p, f, g) ==> g in s)
  }

  /** An existing file that belongs to every closed set. */
  ghost predicate Forced(p: Package, f: File)
    requires Sound(p)
  {
    f in p.files && forall t :: Closed(p, t) ==> f in t
  }

  ghost predicate LeastClosed(p: Package, s: set<File>)
    requires Sound(p)
  {
    Closed(p, s) && forall t :: Closed(p, t) ==> s <= t
  }

  /** A distribution the closure needs. */
  ghost predicate Required(p: Package, s: set<File>, d: string)
    requires Sound(p)
  {
    exists f :: f in s && Needs(p, f, d)
  }

  datatype Site = Site(file: File, line: int)

  // ---- the worklist ------------------------------------------------------------------

  ghost function Elements(q: seq<File>): set<File> {
    set f | f in q
  }

  /** What the worklist knows between two files. */
  ghost predicate WorkInv(p: Package, queue: seq<File>, scanned: set<File>, parsed: seq<File>)
    requires Sound(p)
  {
    && scanned == Elements(queue) + Elements(parsed)
    && (forall f :: f in scanned ==> f in p.files)
    && (forall i, j :: 0 <= i < j < |queue| ==> queue[i] != queue[j])
    && (forall i, j :: 0 <= i < j < |parsed| ==> parsed[i] != parsed[j])
    && (forall f :: f in queue ==> f !in parsed)
    && (forall f :: f in p.files && !TestOnly(f) ==> f in scanned)
    && (forall t :: Closed(p, t) ==> scanned <= t)
  }

  ghost predicate ParsedClosed(p: Package, scanned: set<File>, parsed: seq<File>)
    requires Sound(p)
  {
    forall f, g :: f in parsed && Pulls(p, f, g) ==> g in scanned
  }

  /** Every recorded site is an import of the first parsed file that needs the distribution. */
  ghost predicate FirstUseOk(p: Package, parsed: seq<File>, firstUse: map<string, Site>)
    requires Sound(p)
  {
    && (forall d :: d in firstUse <==> Required(p, Elements(parsed), d))
    && (forall d :: d in firstUse ==> FirstSite(p, parsed, d, firstUse[d]))
  }

  ghost predicate FirstSite(p: Package, parsed: seq<File>, d: string, site: Site)
    requires Sound(p)
  {
    && SiteOf(p, d, site)
    && exists k :: 0 <= k < |parsed| && parsed[k] == site.file && forall j :: 0 <= j < k ==> !Needs(p, parsed[j], d)
  }

  ghost predicate SiteOf(p: Package, d: string, site: Site)
    requires Sound(p)
  {
    && site.file in p.files
    && exists k :: 0 <= k < |p.imports(site.file)| && Imports(p, p.imports(site.file)[k], d, site.line)
  }

  predicate Imports(p: Package, i: Import, d: string, line: int)
    requires i.parts != []
  {
    External(p, i) && p.distribution(i.parts[0]) == d && i.line == line
  }

  /** The queue and scanned set once the targets have been offered. */
  function Offered(targets: seq<File>, queue: seq<File>, scanned: set<File>): (seq<File>, set<File>) {
    if targets == [] then (queue, scanned)
    else
      var (q, s) := Offered(targets[..|targets| - 1], queue, scanned);
      var last := targets[|targets| - 1];
      if last in s then (q, s) else (q + [last], s + {last})
  }

  /** One intra-package import: unseen targets join the queue. */
  method EnqueueTargets(targets: seq<File>, queue: seq<File>, scanned: set<File>)
    returns (queue': seq<File>, scanned': set<File>)
    ensures (queue', scanned') == Offered(targets, queue, scanned)
  {
    queue', scanned' := queue, scanned;
    for i := 0 to |targets|
      invariant (queue', scanned') == Offered(targets[..i], queue, scanned)
    {
      assert targets[..i + 1][..i] == targets[..i];
      if targets[i] !in scanned' {
        scanned' := scanned' + {targets[i]};
        queue' := queue' + [targets[i]];
      }
    }
    assert targets[..|targets|] == targets;
  }

  lemma {:induction false} OfferedSet(targets: seq<File>, queue: seq<File>, scanned: set<File>)
    ensures var (q, s) := Offered(targets, queue, scanned);
      s == scanned + Elements(targets) && (s == scanned ==> q == queue)
  {
    if targets == [] {
      assert Elements(targets) == {};
    } else {
      var init, last := targets[..|targets| - 1], targets[|targets| - 1];
      assert targets == init + [last];
      assert Elements(targets) == Elements(init) + {last};
      OfferedSet(init, queue, scanned);
    }
  }

  lemma {:induction false} OfferedKeeps(p: Package, targets: seq<File>, queue: seq<File>, scanned: set<File>,
                                        parsed: seq<File>)
    requires Sound(p) && WorkInv(p, queue, scanned, parsed)
    requires forall g :: g in targets ==> Forced(p, g)
    ensures var (q, s) := Offered(targets, queue, scanned); WorkInv(p, q, s, parsed)
  {
    if targets != [] {
      var init, last := targets[..|targets| - 1], targets[|targets| - 1];
      assert targets == init + [last] && last in targets;
      OfferedKeeps(p, init, queue, scanned, parsed);
      var (q, s) := Offered(init, queue, scanned);
      if last !in s { PushKeeps(p, q, s, parsed, last); }
    }
  }

  lemma PushKeeps(p: Package, queue: seq<File>, scanned: set<File>, parsed: seq<File>, g: File)
    requires Sound(p) && WorkInv(p, queue, scanned, parsed) && g !in scanned && Forced(p, g)
    ensures WorkInv(p, queue + [g], scanned + {g}, parsed)
  {
    assert Elements(queue + [g]) == Elements(queue) + {g};
    assert g !in Elements(queue) && g !in Elements(parsed);
  }

  /** Needs and pulls of a file restricted to its first k imports. */
  ghost predicate PullsIn(p: Package, f: File, k: nat, g: File)
    requires Sound(p) && f in p.files && k <= |p.imports(f)|
  {
    exists i :: 0 <= i < k && Internal(p, p.imports(f)[i]) && Executes(p, p.imports(f)[i].parts, g)
  }

  ghost predicate NeedsIn(p: Package, f: File, k: nat, d: string)
    requires Sound(p) && f in p.files && k <= |p.imports(f)|
  {
    exists i :: 0 <= i < k && External(p, p.imports(f)[i]) && p.distribution(p.imports(f)[i].parts[0]) == d
  }

  /** One file: follows its intra-package imports and records the distributions it is the first to need. */
  method ScanFile(p: Package, path: File, queue: seq<File>, scanned: set<File>, ghost parsed: seq<File>,
                  firstUse: map<string, Site>)
    returns (queue': seq<File>, scanned': set<File>, firstUse': map<string, Site>)
    requires Sound(p) && Forced(p, path)
    requires WorkInv(p, queue, scanned, parsed)
    ensures WorkInv(p, queue', scanned', parsed)
    ensures scanned <= scanned' && (scanned' == scanned ==> queue' == queue)
    ensures forall g :: Pulls(p, path, g) ==> g in scanned'
    ensures forall d :: d in firstUse' <==> d in firstUse || Needs(p, path, d)
    ensures forall d :: d in firstUse ==> firstUse'[d] == firstUse[d]
    ensures forall d :: d in firstUse' && d !in firstUse ==> firstUse'[d].file == path && SiteOf(p, d, firstUse'[d])
  {
    queue', scanned', firstUse' := queue, scanned, firstUse;
    var imports := p.imports(path);
    for k := 0 to |imports|
      invariant WorkInv(p, queue', scanned', parsed)
      invariant scanned <= scanned' && (scanned' == scanned ==> queue' == queue)
      invariant forall g :: PullsIn(p, path, k, g) ==> g in scanned'
      invariant forall d :: d in firstUse' <==> d in firstUse || NeedsIn(p, path, k, d)
      invariant forall d :: d in firstUse ==> firstUse'[d] == firstUse[d]
      invariant forall d :: d in firstUse' && d !in firstUse ==> firstUse'[d].file == path && SiteOf(p, d, firstUse'[d])
    {
      var i := imports[k];
      forall d ensures NeedsIn(p, path, k + 1, d) <==>
        NeedsIn(p, path, k, d) || (External(p, i) && p.distribution(i.parts[0]) == d) {}
      forall g
        ensures PullsIn(p, path, k + 1, g) <==> PullsIn(p, path, k, g) || (Internal(p, i) && Executes(p, i.parts, g)) {}
      if i.parts[0] == "__future__" || i.parts[0] in p.stdlib {
      } else if i.parts[0] == p.shared {
        var targets := ModuleFiles(p, i.parts);
        forall g | g in targets ensures Forced(p, g) { assert Pulls(p, path, g); }
        OfferedKeeps(p, targets, queue', scanned', parsed);
        OfferedSet(targets, queue', scanned');
        queue', scanned' := EnqueueTargets(targets, queue', scanned');
      } else {
        var d := p.distribution(i.parts[0]);
        if d !in firstUse' {
          assert Imports(p, imports[k], d, i.line);
          firstUse' := firstUse'[d := Site(path, i.line)];
        }
      }
    }
  }

  /** Popping the head of the queue into the parsed list. */
  lemma PopKeeps(p: Package, queue: seq<File>, scanned: set<File>, parsed: seq<File>)
    requires Sound(p) && WorkInv(p, queue, scanned, parsed) && queue != []
    ensures WorkInv(p, queue[1..], scanned, parsed + [queue[0]])
    ensures queue[0] in scanned && queue[0] !in parsed
  {
    assert queue == [queue[0]] + queue[1..];
    assert Elements(queue) == {queue[0]} + Elements(queue[1..]);
    assert Elements(parsed + [queue[0]]) == Elements(parsed) + {queue[0]};
  }

  lemma StartKeeps(p: Package)
    requires Sound(p)
    ensures WorkInv(p, RuntimeModules(p.files), Elements(RuntimeModules(p.files)), [])
  {
    RuntimeModulesAre(p.files);
    assert Elements([]) == {};
  }

  /** The record of first uses after one more file. */
  lemma FirstUseExtends(p: Package, parsed: seq<File>, path: File, before: map<string, Site>, after: map<string, Site>)
    requires Sound(p) && path in p.files && path !in parsed && FirstUseOk(p, parsed, before)
    requires forall d :: d in after <==> d in before || Needs(p, path, d)
    requires forall d :: d in before ==> after[d] == before[d]
    requires forall d :: d in after && d !in before ==> after[d].file == path && SiteOf(p, d, after[d])
    ensures FirstUseOk(p, parsed + [path], after)
  {
    var later := parsed + [path];
    forall d ensures d in after <==> Required(p, Elements(later), d) { RequiredNext(p, parsed, path, d); }
    forall d | d in after ensures FirstSite(p, later, d, after[d]) {
      if d in before {
        FirstSiteStays(p, parsed, path, d, before[d]);
      } else {
        forall j | 0 <= j < |parsed| ensures !Needs(p, later[j], d) {
          assert parsed[j] in Elements(parsed);
        }
        assert later[|parsed|] == path;
      }
    }
  }

  lemma RequiredNext(p: Package, parsed: seq<File>, path: File, d: string)
    requires Sound(p)
    ensures Required(p, Elements(parsed + [path]), d) <==> Required(p, Elements(parsed), d) || Needs(p, path, d)
  {
    assert Elements(parsed + [path]) == Elements(parsed) + {path};
  }

  lemma FirstSiteStays(p: Package, parsed: seq<File>, path: File, d: string, site: Site)
    requires Sound(p) && FirstSite(p, parsed, d, site)
    ensures FirstSite(p, parsed + [path], d, site)
  {
    var k :| 0 <= k < |parsed| && parsed[k] == site.file && forall j :: 0 <= j < k ==> !Needs(p, parsed[j], d);
    var later := parsed + [path];
    assert later[k] == parsed[k] && forall j :: 0 <= j < k ==> later[j] == parsed[j];
  }

  /** The map's keys are the distributions any least closed set needs, its sites imports of them. */
  ghost predicate MapsTheRequired(p: Package, firstUse: map<string, Site>)
    requires Sound(p)
  {
    && (forall s, d :: LeastClosed(p, s) ==> (d in firstUse <==> Required(p, s, d)))
    && (forall d :: d in firstUse ==> SiteOf(p, d, firstUse[d]))
  }

  /**
   * required_distributions: terminates, parses each file of the least closed set
   * exactly once and no other, and maps exactly the distributions that set needs
   * to an import of the first parsed file needing it.
   */
  method RequiredDistributions(p: Package) returns (firstUse: map<string, Site>, ghost parsed: seq<File>)
    requires Sound(p)
    ensures LeastClosed(p, Elements(parsed))
    ensures forall i, j :: 0 <= i < j < |parsed| ==> parsed[i] != parsed[j]
    ensures FirstUseOk(p, parsed, firstUse)
    ensures MapsTheRequired(p, firstUse)
  {
    var queue := RuntimeModules(p.files);
    var scanned: set<File> := set f | f in queue;
    parsed := [];
    firstUse := map[];
    StartKeeps(p);
    assert scanned == Elements(queue);
    ghost var all := Elements(p.files);
    while queue != []
      invariant WorkInv(p, queue, scanned, parsed) && ParsedClosed(p, scanned, parsed)
      invariant FirstUseOk(p, parsed, firstUse)
      decreases |all - scanned|, |queue|
    {
      var path := queue[0];
      ScannedExist(p, queue, scanned, parsed);
      PopKeeps(p, queue, scanned, parsed);
      ghost var before, seen := firstUse, scanned;
      var rest := queue[1..];
      ghost var later := parsed + [path];
      queue, scanned, firstUse := ScanFile(p, path, rest, scanned, later, firstUse);
      FirstUseExtends(p, parsed, path, before, firstUse);
      ParsedExtends(p, seen, scanned, parsed, path);
      parsed := later;
      ScannedExist(p, queue, scanned, parsed);
      if scanned != seen { FewerLeft(all, seen, scanned); }
    }
    DoneIsLeast(p, scanned, parsed);
    RequiredMapped(p, parsed, firstUse);
  }

  lemma RequiredMapped(p: Package, parsed: seq<File>, firstUse: map<string, Site>)
    requires Sound(p) && LeastClosed(p, Elements(parsed)) && FirstUseOk(p, parsed, firstUse)
    ensures MapsTheRequired(p, firstUse)
  {
    forall s | LeastClosed(p, s) ensures s == Elements(parsed) { }
  }

  /** With the queue empty the parsed files are the least closed set. */
  lemma DoneIsLeast(p: Package, scanned: set<File>, parsed: seq<File>)
    requires Sound(p) && WorkInv(p, [], scanned, parsed) && ParsedClosed(p, scanned, parsed)
    ensures scanned == Elements(parsed) && LeastClosed(p, scanned)
  {
    assert Elements([]) == {};
    forall f, g | f in scanned && Pulls(p, f, g) ensures g in scanned { assert f in parsed; }
  }

  lemma ParsedExtends(p: Package, seen: set<File>, scanned: set<File>, parsed: seq<File>, path: File)
    requires Sound(p) && ParsedClosed(p, seen, parsed) && seen <= scanned
    requires forall g :: Pulls(p, path, g) ==> g in scanned
    ensures ParsedClosed(p, scanned, parsed + [path])
  {
  }

  lemma ScannedExist(p: Package, queue: seq<File>, scanned: set<File>, parsed: seq<File>)
    requires Sound(p) && WorkInv(p, queue, scanned, parsed)
    ensures scanned <= Elements(p.files)
  {
  }

  lemma FewerLeft<T>(all: set<T>, a: set<T>, b: set<T>)
    requires a <= b <= all && a != b
    ensures |all - b| < |all - a|
  {
    var x :| x in b && x !in a;
    SubsetSmaller(all - b, all - a, x);
  }

  /**
   * The result does not depend on the order files are queued in: two listings of
   * the same files have the same closure and need the same distributions.
   */
  lemma OrderDoesNotMatter(p: Package, q: Package, s: set<File>, t: set<File>)
    requires Sound(p) && Sound(q) && q == p.(files := q.files)
    requires forall f :: f in p.files <==> f in q.files
    requires LeastClosed(p, s) && LeastClosed(q, t)
    ensures s == t && forall d :: Required(p, s, d) <==> Required(q, t, d)
  {
    forall f, g ensures Pulls(p, f, g) <==> Pulls(q, f, g) {
      forall parts: seq<string> | parts != [] ensures Executes(p, parts, g) <==> Executes(q, parts, g) {}
    }
    forall f, d ensures Needs(p, f, d) <==> Needs(q, f, d) {}
    assert Closed(p, t) && Closed(q, s);
  }

  /** Importing a submodule brings in every existing ancestor package with it. */
  lemma AncestorsIncluded(p: Package, s: set<File>, f: File, k: nat, n: nat)
    requires Sound(p) && Closed(p, s) && f in s && f in p.files && k < |p.imports(f)|
    requires Internal(p, p.imports(f)[k]) && 0 < n <= |p.imports(f)[k].parts|
    ensures Init(p.imports(f)[k].parts[1..n]) in p.files ==> Init(p.imports(f)[k].parts[1..n]) in s
  {
    var parts := p.imports(f)[k].parts;
    var ancestor := Init(parts[1..n]);
    if ancestor in p.files {
      if n == 1 { assert ancestor == Init([]); }
      assert Executes(p, parts, ancestor);
      assert Pulls(p, f, ancestor);
    }
  }

  /** A testing helper counts as soon as a scanned file pulls it in, and only then. */
  lemma TestingHelpersOnlyWhenPulled(p: Package, s: set<File>, f: File)
    requires Sound(p) && LeastClosed(p, s) && f in p.files && TestOnly(f)
    ensures f in s <==> exists g :: g in s && g != f && Pulls(p, g, f)
  {
    if f in s && !(exists g :: g in s && g != f && Pulls(p, g, f)) {
      var t := s - {f};
      assert Closed(p, t);
      assert false;
    }
  }

  // ---- the gate --------------------------------------------------------------------------

  /** A distribution missing from the owning group (None) or from constraint set number c. */
  datatype Violation = Violation(distribution: string, constraints: Option<nat>)

  ghost predicate Uncovered(required: set<string>, declared: set<string>, pinned: seq<set<string>>, v: Violation) {
    v.distribution in required &&
    match v.constraints
    case None => v.distribution !in declared
    case Some(c) => c < |pinned| && v.distribution !in pinned[c]
  }

  /** Python's order of strings, by code points. */
  predicate Precedes(a: string, b: string) {
    b != "" && (a == "" || a[0] < b[0] || (a[0] == b[0] && Precedes(a[1..], b[1..])))
  }

  lemma {:induction false} PrecedesTotal(a: string, b: string)
    ensures a != b ==> Precedes(a, b) || Precedes(b, a)
  {
    if a != "" && b != "" && a[0] == b[0] {
      PrecedesTotal(a[1..], b[1..]);
      if a != b { assert a == [a[0]] + a[1..] && b == [b[0]] + b[1..]; }
    }
  }

  lemma {:induction false} PrecedesThen(a: string, b: string, c: string)
    requires Precedes(a, b) && Precedes(b, c)
    ensures Precedes(a, c)
  {
    if a != "" && a[0] == b[0] && b[0] == c[0] { PrecedesThen(a[1..], b[1..], c[1..]); }
  }

  predicate IsFirst(d: string, names: set<string>) {
    d in names && forall x :: x in names && x != d ==> Precedes(d, x)
  }

  lemma {:induction false} FirstExists(names: set<string>)
    requires names != {}
    ensures exists d :: IsFirst(d, names)
  {
    var a :| a in names;
    var rest := names - {a};
    assert names == {a} + rest;
    if rest == {} {
      assert IsFirst(a, names);
    } else {
      FirstExists(rest);
      var d :| IsFirst(d, rest);
      PrecedesTotal(a, d);
      if Precedes(a, d) {
        forall x | x in rest && x != d ensures Precedes(a, x) { PrecedesThen(a, d, x); }
        assert IsFirst(a, names);
      } else {
        assert IsFirst(d, names);
      }
    }
  }

  /** The declaring group comes first, then the constraint sets in turn, each in the order of names. */
  predicate Earlier(a: Violation, b: Violation) {
    if a.constraints == b.constraints then Precedes(a.distribution, b.distribution)
    else b.constraints.Some? && (a.constraints.None? || a.constraints.value < b.constraints.value)
  }

  predicate InOrder(violations: seq<Violation>) {
    forall i, j :: 0 <= i < j < |violations| ==> Earlier(violations[i], violations[j])
  }

  lemma InOrderConcat(a: seq<Violation>, b: seq<Violation>)
    requires InOrder(a) && InOrder(b) && forall v, w :: v in a && w in b ==> Earlier(v, w)
    ensures InOrder(a + b)
  {
    forall i, j | 0 <= i < j < |a + b| ensures Earlier((a + b)[i], (a + b)[j]) {
      if i < |a| <= j { assert a[i] in a && b[j - |a|] in b; }
    }
  }

  method MissingFrom(required: set<string>, present: set<string>, where: Option<nat>)
    returns (violations: seq<Violation>)
    ensures InOrder(violations)
    ensures forall v :: v in violations <==>
                        v.constraints == where && v.distribution in required && v.distribution !in present
  {
    violations := [];
    var todo := required;
    while todo != {}
      invariant todo <= required && InOrder(violations)
      invariant forall v, d :: v in violations && d in todo ==> Precedes(v.distribution, d)
      invariant forall v :: v in violations <==>
        v.constraints == where && v.distribution in required - todo && v.distribution !in present
      decreases |todo|
    {
      FirstExists(todo);
      var d :| d in todo && IsFirst(d, todo);
      if d !in present {
        InOrderConcat(violations, [Violation(d, where)]);
        violations := violations + [Violation(d, where)];
      }
      todo := todo - {d};
    }
  }

  /** The violation loops of main: the declaring group first, then each constraint set. */
  method Violations(required: set<string>, declared: set<string>, pinned: seq<set<string>>)
    returns (violations: seq<Violation>)
    ensures InOrder(violations)
    ensures forall v :: v in violations <==> Uncovered(required, declared, pinned, v)
  {
    violations := MissingFrom(required, declared, None);
    for c := 0 to |pinned|
      invariant InOrder(violations)
      invariant forall v :: v in violations <==>
        Uncovered(required, declared, pinned, v) && (v.constraints.Some? ==> v.constraints.value < c)
    {
      var more := MissingFrom(required, pinned[c], Some(c));
      InOrderConcat(violations, more);
      violations := violations + more;
    }
  }

  function Sets(pinned: seq<Option<set<string>>>): seq<set<string>> {
    seq(|pinned|, c requires 0 <= c < |pinned| => if pinned[c].Some? then pinned[c].value else {})
  }

  /** main: exit status 2 when the inputs cannot be measured, 1 on a violation, 0 when everything is covered. */
  method CheckCoverage(p: Package, packageExists: bool, declared: Option<set<string>>, pinned: seq<Option<set<string>>>)
    returns (status: int)
    requires Sound(p)
    ensures status == 2 <==> !packageExists || RuntimeModules(p.files) == [] || declared.None?
                             || exists c :: 0 <= c < |pinned| && pinned[c].None?
    ensures status == 0 ==>
              forall s, d :: LeastClosed(p, s) && Required(p, s, d) ==> Covered(declared.value, Sets(pinned), d)
    ensures status == 1 ==>
              exists s, d :: LeastClosed(p, s) && Required(p, s, d) && !Covered(declared.value, Sets(pinned), d)
    ensures status in {0, 1, 2}
  {
    if || !packageExists || RuntimeModules(p.files) == [] || declared.None?
       || exists c :: 0 <= c < |pinned| && pinned[c].None? {
      return 2;
    }
    var firstUse, parsed := RequiredDistributions(p);
    var sets := Sets(pinned);
    var violations := Violations(firstUse.Keys, declared.value, sets);
    status := if violations != [] then 1 else 0;
    if violations != [] {
      assert violations[0] in violations;
      assert !Covered(declared.value, sets, violations[0].distribution);
    } else {
      forall d | d in firstUse ensures Covered(declared.value, sets, d) {
        NoViolationCovers(firstUse.Keys, declared.value, sets, d);
      }
      forall s, d | LeastClosed(p, s) && Required(p, s, d) ensures Covered(declared.value, sets, d) {
        OrderDoesNotMatter(p, p, s, Elements(parsed));
      }
    }
  }

  predicate Covered(declared: set<string>, pinned: seq<set<string>>, d: string) {
    d in declared && forall c :: 0 <= c < |pinned| ==> d in pinned[c]
  }

  lemma NoViolationCovers(required: set<string>, declared: set<string>, pinned: seq<set<string>>, d: string)
    requires d in required && forall v :: !Uncovered(required, declared, pinned, v)
    ensures Covered(declared, pinned, d)
  {
    assert !Uncovered(required, declared, pinned, Violation(d, None));
    forall c | 0 <= c < |pinned| ensures d in pinned[c] {
      assert !Uncovered(required, declared, pinned, Violation(d, Some(c)));
    }
  }
}
