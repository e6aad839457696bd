/** services/restore_uploader/uploader.py: allowlisted names, bounded streaming and the atomic commit of one upload. */
module RestoreUploader {
  import opened Base

  // ---- names --------------------------------------------------------------------------

  /** What `\d` matches beyond ASCII is a parameter; it never matches a separator, a dot or NUL. */
  ghost predicate SaneDigits(digit: char -> bool) {
    !digit('/') && !digit('\\') && !digit('.') && !digit('\0')
  }

  predicate Digits(digit: char -> bool, s: string) {
    forall i :: 0 <= i < |s| ==> digit(s[i])
  }

  /** \d{8}_\d{6} */
  predicate Timestamp(digit: char -> bool, s: string) {
    |s| == 15 && Digits(digit, s[..8]) && s[8] == '_' && Digits(digit, s[9..])
  }

  predicate EndsWith(s: string, suffix: string) {
    |suffix| <= |s| && s[|s| - |suffix|..] == suffix
  }

  /** prefix, timestamp, suffix and nothing else */
  predicate Stamped(digit: char -> bool, name: string, prefix: string, suffix: string) {
    && |name| == |prefix| + 15 + |suffix|
    && prefix <= name && EndsWith(name, suffix)
    && Timestamp(digit, name[|prefix|..|prefix| + 15])
  }

  predicate StampedOptional(digit: char -> bool, name: string, prefix: string, suffix: string, extra: string) {
    Stamped(digit, name, prefix, suffix) || Stamped(digit, name, prefix, suffix + extra)
  }

  predicate IsLabelChar(c: char) {
    'A' <= c <= 'Z' || 'a' <= c <= 'z' || '0' <= c <= '9' || c == '_' || c == '-'
  }

  /** qdrant_ label _ timestamp suffix, the label not empty */
  predicate Labelled(digit: char -> bool, name: string, suffix: string) {
    && |name| > |"qdrant_"| + 16 + |suffix|
    && "qdrant_" <= name && EndsWith(name, suffix)
    && var cut := |name| - |suffix| - 15;
       && Timestamp(digit, name[cut..cut + 15])
       && name[cut - 1] == '_'
       && forall i :: |"qdrant_"| <= i < cut - 1 ==> IsLabelChar(name[i])
  }

  /** _FILENAME_RE.fullmatch(name) */
  predicate Allowed(digit: char -> bool, name: string) {
    || StampedOptional(digit, name, "jarvis_", ".sql.gz", ".enc")
    || StampedOptional(digit, name, "litellm_", ".sql.gz", ".enc")
    || StampedOptional(digit, name, "pdfs_", ".tar.gz", ".enc")
    || StampedOptional(digit, name, "secrets_", ".tar.gz", ".enc")
    || Labelled(digit, name, ".snapshot") || Labelled(digit, name, ".snapshot.enc")
    || StampedOptional(digit, name, "manifest_", ".json", ".hmac")
    || name == "operator_key"
  }

  function PartName(name: string): string {
    name + ".part"
  }

  lemma SuffixLast(name: string, suffix: string, k: nat)
    requires EndsWith(name, suffix) && k < |suffix|
    ensures name[|name| - 1 - k] == suffix[|suffix| - 1 - k]
  {
    assert name[|name| - |suffix|..][|suffix| - 1 - k] == suffix[|suffix| - 1 - k];
  }

  /** The last two characters. */
  function LastTwo(s: string): (char, char)
    requires |s| >= 2
  {
    (s[|s| - 2], s[|s| - 1])
  }

  lemma EndsLike(name: string, suffix: string)
    requires EndsWith(name, suffix) && |suffix| >= 2
    ensures |name| >= 2 && LastTwo(name) == LastTwo(suffix)
  {
    SuffixLast(name, suffix, 0);
    SuffixLast(name, suffix, 1);
  }

  lemma StampedOptionalEnding(digit: char -> bool, name: string, prefix: string, suffix: string, extra: string)
    requires StampedOptional(digit, name, prefix, suffix, extra) && |suffix| >= 2 && |extra| >= 2
    ensures |name| >= 2 && (LastTwo(name) == LastTwo(suffix) || LastTwo(name) == LastTwo(extra))
  {
    if Stamped(digit, name, prefix, suffix) { EndsLike(name, suffix); }
    else { EndsLike(name, suffix + extra); }
  }

  lemma AllowedEnding(digit: char -> bool, name: string)
    requires Allowed(digit, name)
    ensures |name| >= 2 && LastTwo(name) != ('r', 't')
  {
    if StampedOptional(digit, name, "jarvis_", ".sql.gz", ".enc") {
      StampedOptionalEnding(digit, name, "jarvis_", ".sql.gz", ".enc");
    } else if StampedOptional(digit, name, "litellm_", ".sql.gz", ".enc") {
      StampedOptionalEnding(digit, name, "litellm_", ".sql.gz", ".enc");
    } else if StampedOptional(digit, name, "pdfs_", ".tar.gz", ".enc") {
      StampedOptionalEnding(digit, name, "pdfs_", ".tar.gz", ".enc");
    } else if StampedOptional(digit, name, "secrets_", ".tar.gz", ".enc") {
      StampedOptionalEnding(digit, name, "secrets_", ".tar.gz", ".enc");
    } else if StampedOptional(digit, name, "manifest_", ".json", ".hmac") {
      StampedOptionalEnding(digit, name, "manifest_", ".json", ".hmac");
    } else if Labelled(digit, name, ".snapshot") { EndsLike(name, ".snapshot"); }
    else if Labelled(digit, name, ".snapshot.enc") { EndsLike(name, ".snapshot.enc"); }
  }

  /** A temporary never carries an allowlisted name, so it can be neither a target nor a finished upload. */
  lemma PartNeverAllowed(digit: char -> bool, name: string)
    ensures !Allowed(digit, PartName(name))
  {
    assert LastTwo(PartName(name)) == ('r', 't');
    if Allowed(digit, PartName(name)) { AllowedEnding(digit, PartName(name)); }
  }

  /** Distinct targets have distinct temporaries. */
  lemma PartsDistinct(a: string, b: string)
    requires PartName(a) == PartName(b)
    ensures a == b
  {
    assert a == PartName(a)[..|PartName(a)| - 5];
    assert b == PartName(b)[..|PartName(b)| - 5];
  }

  predicate Separator(c: char) {
    c == '/' || c == '\\' || c == '\0'
  }

  ghost predicate PlainName(name: string) {
    && name != "" && (forall i :: 0 <= i < |name| ==> !Separator(name[i]))
    && (forall i :: 0 <= i < |name| - 1 ==> !(name[i] == '.' && name[i + 1] == '.'))
  }

  lemma StampedPlain(digit: char -> bool, name: string, prefix: string, suffix: string)
    requires SaneDigits(digit) && Stamped(digit, name, prefix, suffix)
    requires PlainName(suffix) && prefix != ""
    requires forall i :: 0 <= i < |prefix| ==> !Separator(prefix[i]) && prefix[i] != '.'
    ensures PlainName(name)
  {
    var stamp := name[|prefix|..|prefix| + 15];
    forall i | 0 <= i < |name| - |suffix| ensures !Separator(name[i]) && name[i] != '.' {
      if i < |prefix| { assert name[i] == prefix[i]; }
      else { StampCharPlain(digit, stamp, i - |prefix|); assert name[i] == stamp[i - |prefix|]; }
    }
    TailPlain(name, suffix);
  }

  lemma StampCharPlain(digit: char -> bool, stamp: string, i: nat)
    requires SaneDigits(digit) && Timestamp(digit, stamp) && i < 15
    ensures !Separator(stamp[i]) && stamp[i] != '.'
  {
    if i < 8 { assert stamp[i] == stamp[..8][i]; }
    if i > 8 { assert stamp[i] == stamp[9..][i - 9]; }
  }

  /** A name that is plain up to a plain suffix is plain. */
  lemma TailPlain(name: string, suffix: string)
    requires EndsWith(name, suffix) && PlainName(suffix)
    requires forall i :: 0 <= i < |name| - |suffix| ==> !Separator(name[i]) && name[i] != '.'
    ensures PlainName(name)
  {
    var cut := |name| - |suffix|;
    forall i | cut <= i < |name| ensures name[i] == suffix[i - cut] { assert name[cut..][i - cut] == name[i]; }
  }

  lemma LabelledPlain(digit: char -> bool, name: string, suffix: string)
    requires SaneDigits(digit) && Labelled(digit, name, suffix) && PlainName(suffix)
    ensures PlainName(name)
  {
    var cut := |name| - |suffix| - 15;
    var stamp := name[cut..cut + 15];
    forall i | 0 <= i < |name| - |suffix| ensures !Separator(name[i]) && name[i] != '.' {
      if i < |"qdrant_"| { assert name[i] == "qdrant_"[i]; }
      else if i >= cut { StampCharPlain(digit, stamp, i - cut); assert name[i] == stamp[i - cut]; }
    }
    TailPlain(name, suffix);
  }

  lemma StampedOptionalPlain(digit: char -> bool, name: string, prefix: string, suffix: string, extra: string)
    requires SaneDigits(digit) && StampedOptional(digit, name, prefix, suffix, extra)
    requires PlainName(suffix) && PlainName(suffix + extra)
    requires PlainPrefix(prefix)
    ensures PlainName(name)
  {
    if Stamped(digit, name, prefix, suffix) { StampedPlain(digit, name, prefix, suffix); }
    else { StampedPlain(digit, name, prefix, suffix + extra); }
  }

  ghost predicate PlainPrefix(prefix: string) {
    prefix != "" && forall i :: 0 <= i < |prefix| ==> !Separator(prefix[i]) && prefix[i] != '.'
  }

  lemma PlainPrefixes()
    ensures PlainPrefix("jarvis_") && PlainPrefix("litellm_") && PlainPrefix("pdfs_") && PlainPrefix("secrets_") &&
            PlainPrefix("manifest_")
  {
  }

  lemma PlainSuffixes()
    ensures PlainName(".sql.gz") && PlainName(".sql.gz" + ".enc") && PlainName(".tar.gz") &&
            PlainName(".tar.gz" + ".enc")
  {
  }

  lemma PlainOtherSuffixes()
    ensures PlainName(".snapshot") && PlainName(".snapshot.enc") && PlainName(".json") && PlainName(".json" + ".hmac")
    ensures PlainName("operator_key")
  {
  }

  lemma ArchivePlain(digit: char -> bool, name: string, prefix: string)
    requires SaneDigits(digit) && PlainPrefix(prefix)
    requires StampedOptional(digit, name, prefix, ".sql.gz", ".enc") ||
             StampedOptional(digit, name, prefix, ".tar.gz", ".enc")
    ensures PlainName(name)
  {
    PlainSuffixes();
    if StampedOptional(digit, name, prefix, ".sql.gz", ".enc") {
      StampedOptionalPlain(digit, name, prefix, ".sql.gz", ".enc");
    }
    else { StampedOptionalPlain(digit, name, prefix, ".tar.gz", ".enc"); }
  }

  /** The allowlist alone already excludes separators, traversal, NUL and the empty name. */
  lemma AllowedIsPlain(digit: char -> bool, name: string)
    requires SaneDigits(digit) && Allowed(digit, name)
    ensures PlainName(name)
  {
    PlainPrefixes();
    if StampedOptional(digit, name, "jarvis_", ".sql.gz", ".enc") { ArchivePlain(digit, name, "jarvis_"); }
    else if StampedOptional(digit, name, "litellm_", ".sql.gz", ".enc") { ArchivePlain(digit, name, "litellm_"); }
    else if StampedOptional(digit, name, "pdfs_", ".tar.gz", ".enc") { ArchivePlain(digit, name, "pdfs_"); }
    else if StampedOptional(digit, name, "secrets_", ".tar.gz", ".enc") { ArchivePlain(digit, name, "secrets_"); }
    else { OtherPlain(digit, name); }
  }

  lemma OtherPlain(digit: char -> bool, name: string)
    requires SaneDigits(digit)
    requires Labelled(digit, name, ".snapshot") || Labelled(digit, name, ".snapshot.enc")
      || StampedOptional(digit, name, "manifest_", ".json", ".hmac") || name == "operator_key"
    ensures PlainName(name)
  {
    PlainPrefixes();
    PlainOtherSuffixes();
    if Labelled(digit, name, ".snapshot") { LabelledPlain(digit, name, ".snapshot"); }
    else if Labelled(digit, name, ".snapshot.enc") { LabelledPlain(digit, name, ".snapshot.enc"); }
    else if name != "operator_key" { StampedOptionalPlain(digit, name, "manifest_", ".json", ".hmac"); }
  }

  // ---- the names, put together -------------------------------------------------------------

  /** Eight digits, an underscore, six digits. */
  ghost predicate IsStamp(digit: char -> bool, stamp: string) {
    exists date: string, time: string ::
      |date| == 8 && |time| == 6 && Digits(digit, date) && Digits(digit, time) && stamp == date + ("_" + time)
  }

  lemma StampIs(digit: char -> bool, stamp: string)
    ensures Timestamp(digit, stamp) <==> IsStamp(digit, stamp)
  {
    if Timestamp(digit, stamp) {
      assert stamp == stamp[..8] + ("_" + stamp[9..]);
    }
    if IsStamp(digit, stamp) {
      var date: string, time: string :|
        |date| == 8 && |time| == 6 && Digits(digit, date) && Digits(digit, time) && stamp == date + ("_" + time);
      assert stamp[..8] == date && stamp[9..] == time;
    }
  }

  ghost predicate Joins(digit: char -> bool, name: string, front: string, stamp: string, suffix: string) {
    IsStamp(digit, stamp) && name == front + (stamp + suffix)
  }

  lemma StampedIs(digit: char -> bool, name: string, front: string, suffix: string)
    ensures Stamped(digit, name, front, suffix) <==> exists stamp :: Joins(digit, name, front, stamp, suffix)
  {
    if Stamped(digit, name, front, suffix) {
      var stamp := name[|front|..|front| + 15];
      StampIs(digit, stamp);
      assert name == front + (stamp + suffix);
      assert Joins(digit, name, front, stamp, suffix);
    }
    if stamp :| Joins(digit, name, front, stamp, suffix) {
      StampIs(digit, stamp);
      assert name[|front|..|front| + 15] == stamp && name[|name| - |suffix|..] == suffix;
    }
  }

  /** A tag of letters, digits, underscores and hyphens. */
  ghost predicate IsLabel(tag: string) {
    tag != "" && forall i :: 0 <= i < |tag| ==>
      '0' <= tag[i] <= '9' || 'A' <= tag[i] <= 'Z' || 'a' <= tag[i] <= 'z' || tag[i] in {'_', '-'}
  }

  ghost predicate LabelJoins(digit: char -> bool, name: string, tag: string, stamp: string, suffix: string) {
    IsLabel(tag) && Joins(digit, name, "qdrant_" + (tag + "_"), stamp, suffix)
  }

  lemma LabelledIs(digit: char -> bool, name: string, suffix: string)
    ensures Labelled(digit, name, suffix) <==> exists tag, stamp :: LabelJoins(digit, name, tag, stamp, suffix)
  {
    if Labelled(digit, name, suffix) {
      var cut := |name| - |suffix| - 15;
      var tag, stamp := name[7..cut - 1], name[cut..cut + 15];
      StampIs(digit, stamp);
      assert name == "qdrant_" + (tag + "_") + (stamp + suffix);
      assert LabelJoins(digit, name, tag, stamp, suffix);
    }
    if tag, stamp :| LabelJoins(digit, name, tag, stamp, suffix) {
      LabelFound(digit, name, tag, stamp, suffix);
    }
  }

  lemma LabelFound(digit: char -> bool, name: string, tag: string, stamp: string, suffix: string)
    requires LabelJoins(digit, name, tag, stamp, suffix)
    ensures Labelled(digit, name, suffix)
  {
    StampIs(digit, stamp);
    var cut := |name| - |suffix| - 15;
    assert name[cut..cut + 15] == stamp && name[|name| - |suffix|..] == suffix;
    assert forall i :: 7 <= i < cut - 1 ==> name[i] == tag[i - 7];
    assert name[..7] == "qdrant_" && name[cut - 1] == '_';
  }

  /** The prefixes and suffixes between which an archive's timestamp stands. */
  const ARCHIVES: set<(string, string)> := {
    ("jarvis_", ".sql.gz"), ("jarvis_", ".sql.gz.enc"), ("litellm_", ".sql.gz"), ("litellm_", ".sql.gz.enc"),
    ("pdfs_", ".tar.gz"), ("pdfs_", ".tar.gz.enc"), ("secrets_", ".tar.gz"), ("secrets_", ".tar.gz.enc"),
    ("manifest_", ".json"), ("manifest_", ".json.hmac")
  }

  /** A name put together from a listed prefix, a timestamp and the suffix that belongs to it. */
  ghost predicate ArchiveName(digit: char -> bool, name: string) {
    exists front, stamp, suffix :: (front, suffix) in ARCHIVES && Joins(digit, name, front, stamp, suffix)
  }

  ghost predicate SnapshotName(digit: char -> bool, name: string) {
    exists tag, stamp, suffix :: suffix in {".snapshot", ".snapshot.enc"} && LabelJoins(digit, name, tag, stamp, suffix)
  }

  /** The allowlist holds exactly the names so put together, and the operator key. */
  lemma AllowedIs(digit: char -> bool, name: string)
    ensures Allowed(digit, name) <==> name == "operator_key" || ArchiveName(digit, name) || SnapshotName(digit, name)
  {
    forall front, suffix | (front, suffix) in ARCHIVES
      ensures Stamped(digit, name, front, suffix) <==> exists stamp :: Joins(digit, name, front, stamp, suffix)
    {
      StampedIs(digit, name, front, suffix);
    }
    LabelledIs(digit, name, ".snapshot");
    LabelledIs(digit, name, ".snapshot.enc");
    assert ".sql.gz" + ".enc" == ".sql.gz.enc" && ".tar.gz" + ".enc" == ".tar.gz.enc";
    assert ".json" + ".hmac" == ".json.hmac";
  }

  datatype Rejection = Rejection(code: int)

  function BeforeQuery(path: string): (bare: string)
    ensures bare <= path && '?' !in bare && (bare == path || path[|bare|] == '?')
  {
    if path == "" || path[0] == '?' then "" else [path[0]] + BeforeQuery(path[1..])
  }

  const ROUTE_PREFIX := "/restore-upload/"

  predicate Unsafe(name: string) {
    || name == "" || (exists i :: 0 <= i < |name| && Separator(name[i]))
    || (exists i :: 0 <= i < |name| - 1 && name[i] == '.' && name[i + 1] == '.')
  }

  /** The name asked for, if the path has the route's prefix. */
  function Asked(path: string, unquote: string -> string): string {
    if "/restore-upload/" <= BeforeQuery(path) then unquote(BeforeQuery(path)[|"/restore-upload/"|..]) else ""
  }

  /** _resolve_filename; percent decoding is a parameter. */
  method ResolveFilename(digit: char -> bool, path: string, unquote: string -> string)
    returns (r: Result<string, Rejection>)
    requires SaneDigits(digit)
    ensures r.Ok? <==> "/restore-upload/" <= BeforeQuery(path) && Allowed(digit, Asked(path, unquote))
    ensures r.Ok? ==> r.value == Asked(path, unquote) && PlainName(r.value)
    ensures r.Err? ==> r.error == Rejection(if "/restore-upload/" <= BeforeQuery(path) then 400 else 404)
  {
    var bare := BeforeQuery(path);
    if !(ROUTE_PREFIX <= bare) { return Err(Rejection(404)); }
    var filename := unquote(bare[|ROUTE_PREFIX|..]);
    if Allowed(digit, filename) { AllowedIsPlain(digit, filename); }
    if Unsafe(filename) { return Err(Rejection(400)); }
    if !Allowed(digit, filename) { return Err(Rejection(400)); }
    return Ok(filename);
  }

  // ---- streaming ---------------------------------------------------------------------------

  const READ_CHUNK := 1024 * 1024

  /** How the connection ends once the bytes that arrive are read: a clean end of file, or an error. */
  datatype Ending = Closes | Breaks

  /**
   * A client's connection: the body it means to send, how much of it arrives, and how the
   * connection then ends. A read of n bytes waits for all of them unless the end comes first.
   */
  class BodySource {
    const intended: seq<byte>
    const arrived: nat
    const ending: Ending
    var position: nat

    constructor (intended: seq<byte>, arrived: nat, ending: Ending)
      requires arrived <= |intended|
      ensures this.intended == intended && this.arrived == arrived && this.ending == ending && position == 0
    {
      this.intended, this.arrived, this.ending := intended, arrived, ending;
      position := 0;
    }

    /** What arrives of the body. */
    function Body(): (body: seq<byte>)
      requires arrived <= |intended|
      ensures |body| == arrived && body <= intended
    {
      intended[..arrived]
    }

    /** None when the connection breaks during the read. */
    method Read(n: nat) returns (chunk: Option<seq<byte>>)
      requires n > 0 && position <= arrived <= |intended|
      modifies this
      ensures old(position) <= position <= arrived && position <= old(position) + n
      ensures chunk.None? <==> ending.Breaks? && old(position) + n > arrived
      ensures chunk.Some? ==> chunk.value == Body()[old(position)..position]
      ensures chunk.Some? ==> (chunk.value == [] <==> old(position) == arrived)
    {
      if ending.Breaks? && position + n > arrived { return None; }
      var next := if position + n <= arrived then position + n else arrived;
      chunk := Some(Body()[position..next]);
      position := next;
    }
  }

  datatype StreamError = TooLarge | IoFailed

  /** How many bytes a stream hands over: the declared length, or all of it, whichever ends first. */
  function Offered(body: seq<byte>, declared: Option<nat>): nat {
    if declared.Some? && declared.value < |body| then declared.value else |body|
  }

  /** The connection's end is never seen: it closes cleanly, or only after the declared length. */
  predicate EndsWell(arrived: nat, ending: Ending, declared: Option<nat>) {
    ending.Closes? || (declared.Some? && declared.value <= arrived)
  }

  /**
   * _stream_body: writes the offered bytes to the temporary, refusing as soon as
   * they exceed the cap. failingWrite is the number of the write the disk refuses.
   */
  method StreamBody(source: BodySource, declared: Option<nat>, cap: nat, failingWrite: Option<nat>)
    returns (written: seq<byte>, r: Result<nat, StreamError>)
    requires source.position == 0 && source.arrived <= |source.intended|
    modifies source
    ensures written <= source.Body() && |written| <= cap
    ensures r.Ok? ==> written == source.Body()[..Offered(source.Body(), declared)] && r.value == |written|
    ensures r.Ok? ==> EndsWell(source.arrived, source.ending, declared)
    ensures r.Err? && r.error.TooLarge? ==> Offered(source.Body(), declared) > cap
    ensures r.Err? && r.error.IoFailed? ==> failingWrite.Some? || !EndsWell(source.arrived, source.ending, declared)
    ensures failingWrite.None? ==>
      (r.Ok? <==> Offered(source.Body(), declared) <= cap && EndsWell(source.arrived, source.ending, declared))
  {
    var total: nat := 0;
    var remaining: nat := if declared.Some? then declared.value else cap + 1;
    var writes: nat := 0;
    written := [];
    while remaining > 0
      invariant source.position == total == |written| <= source.arrived && total <= cap
      invariant written == source.Body()[..total]
      invariant declared.Some? ==> remaining == declared.value - total
      invariant declared.None? ==> remaining == cap + 1
      decreases source.arrived - total
    {
      var read := source.Read(if READ_CHUNK < remaining then READ_CHUNK else remaining);
      if read.None? { return written, Err(IoFailed); }
      var chunk := read.value;
      if chunk == [] { break; }
      total := total + |chunk|;
      assert total <= Offered(source.Body(), declared);
      if total > cap { return written, Err(TooLarge); }
      if failingWrite == Some(writes) { return written, Err(IoFailed); }
      writes := writes + 1;
      written := written + chunk;
      if declared.Some? { remaining := remaining - |chunk|; }
    }
    r := Ok(total);
  }

  // ---- one upload -------------------------------------------------------------------------

  /** Where the file system refuses, if it does. */
  datatype DiskFault = NoFault | OpenFails | WriteFails(write: nat) | ChmodFails | ReplaceFails

  type Files = map<string, seq<byte>>

  /** The status a store answers with on a working disk and a connection whose breaking it does not see. */
  function StoreStatus(body: seq<byte>, declared: Option<nat>, cap: nat): int {
    if Offered(body, declared) > cap then 413
    else if declared.Some? && Offered(body, declared) != declared.value then 400
    else 201
  }

  /**
   * A stored upload is the body its client meant to send if and only if the declared length
   * is that body's, or none was declared and the connection ended after all of it.
   */
  lemma StoredIsIntended(intended: seq<byte>, arrived: nat, declared: Option<nat>)
    requires arrived <= |intended|
    requires declared.Some? ==> Offered(intended[..arrived], declared) == declared.value
    ensures intended[..arrived][..Offered(intended[..arrived], declared)] == intended
       <==> if declared.Some? then declared.value == |intended| else arrived == |intended|
  {
    var stored := intended[..arrived][..Offered(intended[..arrived], declared)];
    if |stored| == |intended| { assert stored == intended; }
  }

  /** The name is allowlisted behind the route's prefix and the grant is good. */
  predicate Admitted(digit: char -> bool, path: string, unquote: string -> string, token: Option<string>,
                     grantOk: string -> bool) {
    && "/restore-upload/" <= BeforeQuery(path) && Allowed(digit, Asked(path, unquote))
    && token !in {None, Some("")} && grantOk(token.value)
  }

  /** What is offered of the bytes that arrived: the declared length of them, if there is one, or all. */
  lemma OfferedIs(intended: seq<byte>, arrived: nat, declared: Option<nat>)
    requires arrived <= |intended|
    ensures var body := intended[..arrived];
      && (declared.None? ==> Offered(body, declared) == arrived && body[..Offered(body, declared)] == body)
      && (declared.Some? && declared.value <= arrived ==> Offered(body, declared) == declared.value)
      && (declared.Some? && declared.value > arrived ==> Offered(body, declared) == arrived)
  {
  }

  class Inbox {
    var files: Files

    constructor (files: Files)
      ensures this.files == files
    {
      this.files := files;
    }

    /** _store: stream to the temporary, then rename it over the target; any failure removes the temporary only. */
    method Store(name: string, source: BodySource, declared: Option<nat>, cap: nat, fault: DiskFault)
      returns (status: int)
      requires source.position == 0 && source.arrived <= |source.intended|
      modifies this, source
      ensures status == 201 ==>
        && files == (old(files) - {PartName(name)})[name := source.Body()[..Offered(source.Body(), declared)]]
        && Offered(source.Body(), declared) <= cap
        && (declared.Some? ==> Offered(source.Body(), declared) == declared.value)
      ensures status != 201 ==> files == old(files) - {PartName(name)}
      ensures fault.NoFault? && EndsWell(source.arrived, source.ending, declared) ==>
        status == StoreStatus(source.Body(), declared, cap)
      ensures !EndsWell(source.arrived, source.ending, declared) ==> status in {413, 507}
      ensures status == 413 ==> Offered(source.Body(), declared) > cap
      ensures status == 507 ==> !fault.NoFault? || !EndsWell(source.arrived, source.ending, declared)
      ensures status in {201, 400, 413, 507}
    {
      var part := PartName(name);
      assert part != name;
      if fault.OpenFails? {
        files := files - {part};
        return 507;
      }
      files := files[part := []];
      var written, streamed := StreamBody(source, declared, cap, if fault.WriteFails? then Some(fault.write) else None);
      files := files[part := written];
      if streamed.Err? {
        files := files - {part};
        return if streamed.error.TooLarge? then 413 else 507;
      }
      if declared.Some? && streamed.value != declared.value {
        files := files - {part};
        return 400;
      }
      if fault.ChmodFails? || fault.ReplaceFails? {
        files := files - {part};
        return 507;
      }
      files := files[name := files[part]] - {part};
      return 201;
    }

    /** do_PUT: name, grant and declared length are checked before anything is written. */
    method Put(digit: char -> bool, path: string, unquote: string -> string, token: Option<string>,
               grantOk: string -> bool,
               rawLength: Option<Option<int>>, cap: nat, freeSpace: int -> bool, source: BodySource, fault: DiskFault)
      returns (status: int)
      requires SaneDigits(digit) && source.position == 0 && source.arrived <= |source.intended|
      modifies this, source
      ensures status == 201 ==>
        && Admitted(digit, path, unquote, token, grantOk)
        && var name, arrived := Asked(path, unquote), source.intended[..source.arrived];
           match rawLength
           case None => files == (old(files) - {name + ".part"})[name := arrived]
           case Some(None) => false
           case Some(Some(n)) => && 0 <= n <= cap && freeSpace(n) && n <= |arrived|
                                 && files == (old(files) - {name + ".part"})[name := arrived[..n]]
      ensures status != 201 ==> files == old(files) || files == old(files) - {Asked(path, unquote) + ".part"}
      ensures !("/restore-upload/" <= BeforeQuery(path)) ==> status == 404 && files == old(files)
      ensures "/restore-upload/" <= BeforeQuery(path) && !Allowed(digit, Asked(path, unquote)) ==>
        status == 400 && files == old(files)
      ensures "/restore-upload/" <= BeforeQuery(path) && Allowed(digit, Asked(path, unquote)) ==>
        && (token in {None, Some("")} ==> status == 401 && files == old(files))
        && (token !in {None, Some("")} && !grantOk(token.value) ==> status == 403 && files == old(files))
      ensures Admitted(digit, path, unquote, token, grantOk) && rawLength.Some? ==>
        match rawLength.value
        case None => status == 400 && files == old(files)
        case Some(n) =>
          && (n < 0 ==> status == 400 && files == old(files))
          && (n > cap ==> status == 413 && files == old(files))
          && (0 <= n <= cap && !freeSpace(n) ==> status == 507 && files == old(files))
          && (0 <= n <= cap && freeSpace(n) && fault.NoFault? ==>
                && (source.arrived >= n ==> status == 201)
                && (source.arrived < n && source.ending.Closes? ==> status == 400)
                && (source.arrived < n && source.ending.Breaks? ==> status == 507))
      ensures Admitted(digit, path, unquote, token, grantOk) && rawLength.None? && fault.NoFault? ==>
        && (source.arrived <= cap && source.ending.Closes? ==> status == 201)
        && (source.arrived > cap && source.ending.Closes? ==> status == 413)
        && (source.ending.Breaks? ==> status in {413, 507})
      ensures forall other :: Allowed(digit, other) && status != 201 ==>
        (other in files <==> other in old(files)) && (other in files ==> files[other] == old(files)[other])
    {
      var resolved := ResolveFilename(digit, path, unquote);
      if resolved.Err? { return resolved.error.code; }
      if token.None? || token.value == "" { return 401; }
      if !grantOk(token.value) { return 403; }
      var declared := CheckedLength(rawLength, cap, freeSpace);
      if declared.Err? { return declared.error.code; }
      status := Store(resolved.value, source, declared.value, cap, fault);
      OfferedIs(source.intended, source.arrived, declared.value);
      PartNeverAllowed(digit, resolved.value);
    }
  }

  /** _checked_length on a header that is absent, unparsable or a number. */
  function CheckedLength(raw: Option<Option<int>>, cap: nat, freeSpace: int -> bool): Result<Option<nat>, Rejection> {
    match raw
    case None => Ok(None)
    case Some(parsed) =>
      if parsed.None? || parsed.value < 0 then Err(Rejection(400))
      else if parsed.value > cap then Err(Rejection(413))
      else if !freeSpace(parsed.value) then Err(Rejection(507))
      else Ok(Some(parsed.value))
  }
}
