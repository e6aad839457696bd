/** services/restore_uploader/uploader.py: concurrent uploads, with an error or a crash after any step. */
module UploadRuns {
  import opened Base
  import opened RestoreUploader

  /** Ready and Done keep how many bytes had arrived when the body ended. */
  datatype Phase = Streaming(sent: nat) | Ready(arrived: nat) | Done(arrived: nat) | Failed

  /** One upload: the body its client means to send, the length it declared, and how far it is. */
  datatype Upload = Upload(name: string, body: seq<byte>, declared: Option<nat>, cap: nat, phase: Phase)

  /** base is the inbox before the first upload. */
  datatype World = World(files: Files, uploads: map<int, Upload>, base: Files)

  /** End is the end of the body the server sees: the declared length, or an end of the connection, however early. */
  datatype Event =
    | Open(u: int, name: string, body: seq<byte>, declared: Option<nat>, cap: nat)
    | Write(u: int, n: nat)
    | Overflow(u: int)
    | End(u: int)
    | Rename(u: int)
    | IoError(u: int)
    | Crash

  predicate Active(up: Upload) {
    up.phase.Streaming? || up.phase.Ready?
  }

  predicate IsActive(w: World, u: int) {
    u in w.uploads && Active(w.uploads[u])
  }

  predicate Sending(w: World, u: int) {
    u in w.uploads && w.uploads[u].phase.Streaming?
  }

  /** The file protocol's own guards. */
  predicate Possible(w: World, e: Event) {
    match e
    case Open(u, _, _, _, _) => u !in w.uploads
    case Write(u, n) => Sending(w, u) && 0 < n && w.uploads[u].phase.sent + n <= w.uploads[u].cap
      && w.uploads[u].phase.sent + n <= Offered(w.uploads[u].body, w.uploads[u].declared)
    case Overflow(u) => Sending(w, u) && Offered(w.uploads[u].body, w.uploads[u].declared) > w.uploads[u].cap
    case End(u) => Sending(w, u)
    case Rename(u) => u in w.uploads && w.uploads[u].phase.Ready? && PartName(w.uploads[u].name) in w.files
    case IoError(u) => IsActive(w, u)
    case Crash => true
  }

  /** Possible, the name is allowlisted, and one writer per name at a time. */
  ghost predicate Enabled(digit: char -> bool, w: World, e: Event) {
    Possible(w, e) && (e.Open? ==> Allowed(digit, e.name) && forall u :: IsActive(w, u) ==> w.uploads[u].name != e.name)
  }

  function Set(w: World, u: int, phase: Phase): map<int, Upload>
    requires u in w.uploads
  {
    w.uploads[u := w.uploads[u].(phase := phase)]
  }

  function Next(w: World, e: Event): World
    requires Possible(w, e)
  {
    match e
    case Open(u, name, body, declared, cap) =>
      World(w.files[PartName(name) := []], w.uploads[u := Upload(name, body, declared, cap, Streaming(0))], w.base)
    case Write(u, n) =>
      var up := w.uploads[u];
      World(w.files[PartName(up.name) := up.body[..up.phase.sent + n]], Set(w, u, Streaming(up.phase.sent + n)), w.base)
    case Overflow(u) => World(w.files - {PartName(w.uploads[u].name)}, Set(w, u, Failed), w.base)
    case End(u) =>
      var up := w.uploads[u];
      if up.declared.Some? && up.phase.sent != up.declared.value
      then World(w.files - {PartName(up.name)}, Set(w, u, Failed), w.base)
      else w.(uploads := Set(w, u, Ready(up.phase.sent)))
    case Rename(u) =>
      var up := w.uploads[u];
      World(w.files[up.name := w.files[PartName(up.name)]] - {PartName(up.name)}, Set(w, u, Done(up.phase.arrived)),
            w.base)
    case IoError(u) => World(w.files - {PartName(w.uploads[u].name)}, Set(w, u, Failed), w.base)
    case Crash =>
      w.(uploads :=
           map u | u in w.uploads :: if Active(w.uploads[u]) then w.uploads[u].(phase := Failed) else w.uploads[u])
  }

  // ---- the invariant ---------------------------------------------------------------------

  /** A content that may be committed: what had arrived, within the cap, as long as declared. */
  predicate Complete(up: Upload, arrived: nat, content: seq<byte>) {
    && arrived <= up.cap && arrived <= |up.body| && content == up.body[..arrived]
    && (up.declared.Some? ==> arrived == up.declared.value)
  }

  ghost predicate UploadOk(digit: char -> bool, files: Files, up: Upload) {
    Allowed(digit, up.name) &&
    match up.phase
    case Streaming(sent) =>
      && sent <= up.cap && sent <= Offered(up.body, up.declared)
      && PartName(up.name) in files && files[PartName(up.name)] == up.body[..sent]
    case Ready(arrived) => PartName(up.name) in files && Complete(up, arrived, files[PartName(up.name)])
    case _ => true
  }

  /** The finished upload to this name that the content is what arrived of. */
  predicate CommittedBy(up: Upload, name: string, content: seq<byte>) {
    up.phase.Done? && up.name == name && Complete(up, up.phase.arrived, content)
  }

  /** The name holds what it held at first, or what one finished upload to it brought. */
  ghost predicate Settled(w: World, name: string) {
    || (name in w.files && name in w.base && w.files[name] == w.base[name])
    || (name !in w.files && name !in w.base)
    || (name in w.files && exists u :: u in w.uploads && CommittedBy(w.uploads[u], name, w.files[name]))
  }

  ghost predicate Inv(digit: char -> bool, w: World) {
    && (forall u :: u in w.uploads ==> UploadOk(digit, w.files, w.uploads[u]))
    && (forall a, b :: IsActive(w, a) && IsActive(w, b) && w.uploads[a].name == w.uploads[b].name ==> a == b)
    && (forall name :: Allowed(digit, name) ==> Settled(w, name))
  }

  /** Only a rename touches an allowlisted name, and it replaces the whole content at once. */
  lemma OnlyRenameCommits(digit: char -> bool, w: World, e: Event, name: string)
    requires Enabled(digit, w, e) && Allowed(digit, name)
    requires !(e.Rename? && w.uploads[e.u].name == name)
    ensures name in Next(w, e).files <==> name in w.files
    ensures name in w.files ==> Next(w, e).files[name] == w.files[name]
  {
    match e {
      case Open(_, other, _, _, _) => PartNeverAllowed(digit, other);
      case Write(u, _) => PartNeverAllowed(digit, w.uploads[u].name);
      case Overflow(u) => PartNeverAllowed(digit, w.uploads[u].name);
      case End(u) => PartNeverAllowed(digit, w.uploads[u].name);
      case Rename(u) => PartNeverAllowed(digit, w.uploads[u].name);
      case IoError(u) => PartNeverAllowed(digit, w.uploads[u].name);
      case Crash =>
    }
  }

  /** The upload an event moves, if it moves one. */
  function Mover(e: Event): Option<int> {
    if e.Crash? then None else Some(e.u)
  }

  /** An event leaves the other active uploads' temporaries as they were. */
  lemma OthersUndisturbed(digit: char -> bool, w: World, e: Event, b: int)
    requires Inv(digit, w) && Enabled(digit, w, e) && IsActive(w, b) && Mover(e) != Some(b)
    ensures PartName(w.uploads[b].name) in Next(w, e).files
    ensures Next(w, e).files[PartName(w.uploads[b].name)] == w.files[PartName(w.uploads[b].name)]
  {
    var name := w.uploads[b].name;
    assert UploadOk(digit, w.files, w.uploads[b]);
    PartNeverAllowed(digit, name);
    if e.Open? {
      if PartName(e.name) == PartName(name) { PartsDistinct(e.name, name); }
    } else if Mover(e).Some? {
      var a := e.u;
      assert UploadOk(digit, w.files, w.uploads[a]);
      assert IsActive(w, a);
      if PartName(w.uploads[a].name) == PartName(name) { PartsDistinct(w.uploads[a].name, name); }
    }
  }

  lemma UploadsStayOk(digit: char -> bool, w: World, e: Event, u: int)
    requires Inv(digit, w) && Enabled(digit, w, e) && u in Next(w, e).uploads
    ensures UploadOk(digit, Next(w, e).files, Next(w, e).uploads[u])
  {
    if Mover(e) == Some(u) {
      if !e.Open? { assert UploadOk(digit, w.files, w.uploads[u]); }
    } else {
      assert UploadOk(digit, w.files, w.uploads[u]);
      if IsActive(w, u) { OthersUndisturbed(digit, w, e, u); }
    }
  }

  lemma NameStaysSettled(digit: char -> bool, w: World, e: Event, name: string)
    requires Inv(digit, w) && Enabled(digit, w, e) && Allowed(digit, name)
    ensures Settled(Next(w, e), name)
  {
    var after := Next(w, e);
    assert Settled(w, name);
    if e.Rename? && w.uploads[e.u].name == name {
      assert UploadOk(digit, w.files, w.uploads[e.u]);
      PartNeverAllowed(digit, name);
      assert after.files[name] == w.files[PartName(name)];
      assert CommittedBy(after.uploads[e.u], name, after.files[name]);
    } else {
      OnlyRenameCommits(digit, w, e, name);
      if u :| u in w.uploads && name in w.files && CommittedBy(w.uploads[u], name, w.files[name]) {
        assert after.uploads[u] == w.uploads[u];
      }
    }
  }

  lemma StepKeepsInv(digit: char -> bool, w: World, e: Event)
    requires Inv(digit, w) && Enabled(digit, w, e)
    ensures Inv(digit, Next(w, e))
  {
    var after := Next(w, e);
    forall u | u in after.uploads ensures UploadOk(digit, after.files, after.uploads[u]) {
      UploadsStayOk(digit, w, e, u);
    }
    forall name | Allowed(digit, name) ensures Settled(after, name) { NameStaysSettled(digit, w, e, name); }
    WritersStayDistinct(digit, w, e);
  }

  lemma WritersStayDistinct(digit: char -> bool, w: World, e: Event)
    requires Enabled(digit, w, e)
    requires forall a, b :: IsActive(w, a) && IsActive(w, b) && w.uploads[a].name == w.uploads[b].name ==> a == b
    ensures var after := Next(w, e);
      forall a, b :: IsActive(after, a) && IsActive(after, b) && after.uploads[a].name == after.uploads[b].name ==>
                     a == b
  {
    var after := Next(w, e);
    forall a | IsActive(after, a) && !(e.Open? && a == e.u)
      ensures IsActive(w, a) && after.uploads[a].name == w.uploads[a].name {}
  }

  ghost predicate StepAt(digit: char -> bool, worlds: seq<World>, events: seq<Event>, i: nat)
    requires i < |events| && |worlds| == |events| + 1
  {
    Enabled(digit, worlds[i], events[i]) && worlds[i + 1] == Next(worlds[i], events[i])
  }

  ghost predicate Trace(digit: char -> bool, worlds: seq<World>, events: seq<Event>) {
    && |worlds| == |events| + 1 && worlds[0] == World(worlds[0].base, map[], worlds[0].base)
    && forall i :: 0 <= i < |events| ==> StepAt(digit, worlds, events, i)
  }

  lemma {:induction false} TraceInv(digit: char -> bool, worlds: seq<World>, events: seq<Event>, i: nat)
    requires Trace(digit, worlds, events) && i < |worlds|
    ensures Inv(digit, worlds[i]) && worlds[i].base == worlds[0].base
    decreases i
  {
    if i > 0 {
      assert StepAt(digit, worlds, events, i - 1);
      TraceInv(digit, worlds, events, i - 1);
      StepKeepsInv(digit, worlds[i - 1], events[i - 1]);
    }
  }

  /** Did the client get its whole body in? With a declared length it did if that was the body's. */
  predicate WholeBody(up: Upload)
    requires up.phase.Done?
  {
    if up.declared.Some? then up.declared.value == |up.body| else up.phase.arrived == |up.body|
  }

  /**
   * In every reachable world, whatever interleaving, error or crash led there,
   * every allowlisted name holds its first content or what arrived of one finished
   * upload to that name: at most the cap, exactly the declared length, and the body
   * its client meant to send if and only if the declared length is that body's, or,
   * with none declared, the connection ended after all of it.
   */
  lemma NamesHoldWholeUploads(digit: char -> bool, worlds: seq<World>, events: seq<Event>, i: nat, name: string)
    requires Trace(digit, worlds, events) && i < |worlds| && Allowed(digit, name)
    requires name in worlds[i].files && !(name in worlds[0].files && worlds[i].files[name] == worlds[0].files[name])
    ensures exists u :: u in worlds[i].uploads && CommittedBy(worlds[i].uploads[u], name, worlds[i].files[name])
    ensures forall u :: u in worlds[i].uploads && CommittedBy(worlds[i].uploads[u], name, worlds[i].files[name]) ==>
      (worlds[i].files[name] == worlds[i].uploads[u].body <==> WholeBody(worlds[i].uploads[u]))
  {
    TraceInv(digit, worlds, events, i);
    assert Settled(worlds[i], name);
    forall u | u in worlds[i].uploads && CommittedBy(worlds[i].uploads[u], name, worlds[i].files[name])
      ensures worlds[i].files[name] == worlds[i].uploads[u].body <==> WholeBody(worlds[i].uploads[u])
    {
      var up := worlds[i].uploads[u];
      if up.phase.arrived == |up.body| { assert up.body[..|up.body|] == up.body; }
    }
  }

  /** Without a declared length, a client cut off half-way leaves half a body under the name, and a 201. */
  lemma ShortUploadCommitted(name: string, body: seq<byte>, cap: nat, n: nat)
    requires 0 < n < |body| && n <= cap
    ensures var w0 := World(map[], map[], map[]);
      var w1 := Next(w0, Open(0, name, body, None, cap));
      var w2 := Next(w1, Write(0, n));
      var w3 := Next(w2, End(0));
      Possible(w3, Rename(0)) && var w4 := Next(w3, Rename(0));
      && w4.uploads[0].phase == Done(n)
      && name in w4.files && w4.files[name] == body[..n] && w4.files[name] != body
  {
    assert PartName(name) != name;
  }

  /** No allowlisted name ever disappears. */
  lemma {:induction false} NamesNeverVanish(digit: char -> bool, worlds: seq<World>, events: seq<Event>, i: nat,
                                            name: string)
    requires Trace(digit, worlds, events) && i < |events| && Allowed(digit, name) && name in worlds[i].files
    ensures name in worlds[i + 1].files
  {
    assert StepAt(digit, worlds, events, i);
    TraceInv(digit, worlds, events, i);
    if e: int :| events[i] == Rename(e) && worlds[i].uploads[e].name == name {
      PartNeverAllowed(digit, name);
    } else {
      OnlyRenameCommits(digit, worlds[i], events[i], name);
    }
  }

  /**
   * Why one writer per name: a second upload to a name truncates the shared
   * temporary, and the first then commits an empty file that nobody sent.
   */
  lemma SharedTemporaryCommitsNothing(name: string, body: seq<byte>, cap: nat)
    requires body != [] && |body| <= cap
    ensures var w0 := World(map[], map[], map[]);
      var w1 := Next(w0, Open(0, name, body, None, cap));
      var w2 := Next(w1, Write(0, |body|));
      var w3 := Next(w2, End(0));
      var w4 := Next(w3, Open(1, name, body, None, cap));
      && Possible(w4, Rename(0))
      && var w5 := Next(w4, Rename(0));
         && name in w5.files && w5.files[name] == [] && w5.uploads[0].phase.Done?
         && !CommittedBy(w5.uploads[0], name, w5.files[name]) && !w5.uploads[1].phase.Done? && !Settled(w5, name)
  {
    assert PartName(name) != name;
  }
}
