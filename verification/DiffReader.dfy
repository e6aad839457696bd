/** Which lines of a file are new: reading `git diff --unified=0` (scripts/check-test-shape.py). */
module DiffReader {
  import opened Base
  import opened Decimal

  datatype Added = Added(line: nat, text: string)

  // ---- the reader -------------------------------------------------------------------------------

  /** What follows `\d+(?:,\d+)?` at the front of s. */
  function AfterRange(s: string): Option<string> {
    var n := LeadingDigits(s);
    var rest := s[n..];
    if n == 0 then None
    else if rest != "" && rest[0] == ',' && LeadingDigits(rest[1..]) > 0 then Some(rest[1 + LeadingDigits(rest[1..])..])
    else Some(rest)
  }

  /** The new-file start number of a hunk header, when the line has the header's shape. */
  function NewStart(line: string): Option<nat> {
    if !("@@ -" <= line) then None
    else
      var oldRange := AfterRange(line[4..]);
      if oldRange.None? || !(" +" <= oldRange.value) then None
      else
        var newRange := oldRange.value[2..];
        var tail := AfterRange(newRange);
        if tail.None? || !(" @@" <= tail.value) then None
        else Some(Value(newRange[..LeadingDigits(newRange)]))
  }

  predicate Opens(line: string, c: char) {
    |line| >= 1 && line[0] == c
  }

  predicate OpensTwice(line: string, c: char) {
    |line| >= 2 && line[0] == c && line[1] == c
  }

  predicate OpensThrice(line: string, c: char) {
    |line| >= 3 && line[0] == c && line[1] == c && line[2] == c
  }

  /** The cases the reader tells apart: a hunk header, a new line, a removed line, anything else. */
  datatype Kind = Start(at: Option<nat>) | Put(text: string) | Gone | Other

  function KindOf(line: string): Kind {
    if OpensTwice(line, '@') then Start(NewStart(line))
    else if Opens(line, '+') && !OpensThrice(line, '+') then Put(line[1..])
    else if Opens(line, '-') then Gone
    else Other
  }

  function Mapped<A, B>(f: A -> B, s: seq<A>): (r: seq<B>)
    ensures |r| == |s| && forall i :: 0 <= i < |r| ==> r[i] == f(s[i])
  {
    seq(|s|, i requires 0 <= i < |s| => f(s[i]))
  }

  lemma MappedConcat<A, B>(f: A -> B, a: seq<A>, b: seq<A>)
    ensures Mapped(f, a + b) == Mapped(f, a) + Mapped(f, b)
  {
  }

  function Kinds(lines: seq<string>): seq<Kind> {
    Mapped(KindOf, lines)
  }

  function NextNumber(k: Kind, current: nat): nat {
    match k
    case Start(start) => if start.Some? then start.value else current
    case Gone => current
    case _ => current + 1
  }

  function Entry(k: Kind, current: nat): seq<Added> {
    if k.Put? then [Added(current, k.text)] else []
  }

  function Read(kinds: seq<Kind>, current: nat): seq<Added> {
    if kinds == [] then []
    else Entry(kinds[0], current) + Read(kinds[1..], NextNumber(kinds[0], current))
  }

  function NumberAfter(kinds: seq<Kind>, current: nat): nat {
    if kinds == [] then current else NumberAfter(kinds[1..], NextNumber(kinds[0], current))
  }

  lemma ReadStep(kinds: seq<Kind>, i: nat, current: nat, added: seq<Added>)
    requires i < |kinds|
    ensures added + Read(kinds[i..], current)
         == (added + Entry(kinds[i], current)) + Read(kinds[i + 1..], NextNumber(kinds[i], current))
  {
    assert kinds[i..][0] == kinds[i] && kinds[i..][1..] == kinds[i + 1..];
  }

  /** One turn of the loop: the line may be recorded, and the number moves on. */
  method TakeLine(line: string, current: nat) returns (entry: seq<Added>, next: nat)
    ensures entry == Entry(KindOf(line), current) && next == NextNumber(KindOf(line), current)
  {
    entry, next := [], current;
    if OpensTwice(line, '@') {
      var start := NewStart(line);
      if start.Some? { next := start.value; }
    } else if Opens(line, '+') && !OpensThrice(line, '+') {
      entry, next := [Added(current, line[1..])], current + 1;
    } else if !Opens(line, '-') {
      next := current + 1;
    }
  }

  method AddedLines(lines: seq<string>) returns (added: seq<Added>)
    ensures added == Read(Kinds(lines), 0)
  {
    added := [];
    var current := 0;
    ghost var kinds := Kinds(lines);
    for i := 0 to |lines|
      invariant added + Read(kinds[i..], current) == Read(kinds, 0)
    {
      var entry, next := TakeLine(lines[i], current);
      ReadStep(kinds, i, current, added);
      added, current := added + entry, next;
    }
  }

  lemma {:induction false} ReadConcat(a: seq<Kind>, b: seq<Kind>, current: nat)
    ensures Read(a + b, current) == Read(a, current) + Read(b, NumberAfter(a, current))
    ensures NumberAfter(a + b, current) == NumberAfter(b, NumberAfter(a, current))
  {
    if a == [] {
      assert a + b == b;
    } else {
      assert (a + b)[1..] == a[1..] + b;
      ReadConcat(a[1..], b, NextNumber(a[0], current));
    }
  }

  // ---- hunks, and the lines git prints for them ---------------------------------------------------

  /**
   * One zero-context hunk: `gone` lines dropped after old line oldAt, `put` lines put in after
   * new line newAt; an open side is the file's last line, without a newline. The heading is
   * what git prints after the closing @@.
   */
  datatype Hunk = Hunk(oldAt: nat, gone: seq<string>, oldOpen: bool, newAt: nat, put: seq<string>, newOpen: bool,
                       heading: string)

  function Numbered(texts: seq<string>, first: nat): (r: seq<Added>)
    ensures |r| == |texts| && forall i :: 0 <= i < |r| ==> r[i] == Added(first + i, texts[i])
  {
    seq(|texts|, i requires 0 <= i < |texts| => Added(first + i, texts[i]))
  }

  /** The inserted lines with their numbers in the new file. */
  function NewLines(hunks: seq<Hunk>): seq<Added> {
    if hunks == [] then [] else Numbered(hunks[0].put, hunks[0].newAt + 1) + NewLines(hunks[1..])
  }

  const NO_NEWLINE := "\\ No newline at end of file"

  /** The start of a hunk's range: an empty one names the line before it. */
  function First(done: nat, count: nat): nat {
    if count == 0 then done else done + 1
  }

  function Range(done: nat, count: nat): string {
    Digits(First(done, count)) + (if count == 1 then "" else "," + Digits(count))
  }

  function Header(oldAt: nat, gone: nat, newAt: nat, put: nat, heading: string): string {
    "@@ -" + (Range(oldAt, gone) + (" +" + (Range(newAt, put) + (" @@" + heading))))
  }

  function Body(gone: seq<string>, oldOpen: bool, put: seq<string>, newOpen: bool): seq<string> {
    (Prefixed('-', gone) + Marker(oldOpen)) + (Prefixed('+', put) + Marker(newOpen))
  }

  function Prefixed(mark: char, lines: seq<string>): (r: seq<string>)
    ensures |r| == |lines| && forall i :: 0 <= i < |r| ==> r[i] == [mark] + lines[i]
  {
    seq(|lines|, i requires 0 <= i < |lines| => [mark] + lines[i])
  }

  function Marker(wanted: bool): seq<string> {
    if wanted then [NO_NEWLINE] else []
  }

  function HunkLines(h: Hunk): seq<string> {
    [Header(h.oldAt, |h.gone|, h.newAt, |h.put|, h.heading)] + Body(h.gone, h.oldOpen, h.put, h.newOpen)
  }

  function AllHunkLines(hunks: seq<Hunk>): seq<string> {
    if hunks == [] then [] else HunkLines(hunks[0]) + AllHunkLines(hunks[1..])
  }

  /** The lines git prints before the first hunk: mode, rename and index lines, then the two names. */
  datatype Preamble = Preamble(command: string, extended: seq<string>, oldName: string, newName: string)

  ghost predicate WellFormed(p: Preamble) {
    forall l :: l in p.extended ==> l != "" && l[0] != '+' && l[0] != '@'
  }

  function PreambleLines(p: Preamble): seq<string> {
    ["diff --git " + p.command] + p.extended + ["--- " + p.oldName, "+++ " + p.newName]
  }

  function Diff(p: Preamble, hunks: seq<Hunk>): seq<string> {
    PreambleLines(p) + AllHunkLines(hunks)
  }

  // ---- reading them back --------------------------------------------------------------------------

  /** The inserted lines the reader recognises; one that begins with ++ looks like a file name line. */
  function Recognised(texts: seq<string>, first: nat): seq<Added> {
    if texts == [] then []
    else (if OpensTwice(texts[0], '+') then [] else [Added(first, texts[0])]) + Recognised(texts[1..], first + 1)
  }

  lemma {:induction false} RecognisedLength(texts: seq<string>, first: nat)
    ensures |Recognised(texts, first)| <= |texts|
    ensures |Recognised(texts, first)| == |texts| <==> NoneDoubled(texts)
  {
    if texts != [] {
      RecognisedLength(texts[1..], first + 1);
      assert texts == [texts[0]] + texts[1..];
    }
  }

  ghost predicate NoneDoubled(texts: seq<string>) {
    forall t :: t in texts ==> !OpensTwice(t, '+')
  }

  function Shift(h: Hunk): nat {
    if h.oldOpen then 1 else 0
  }

  /** What the reader makes of the hunks. */
  function Seen(hunks: seq<Hunk>): seq<Added> {
    if hunks == [] then []
    else Recognised(hunks[0].put, hunks[0].newAt + 1 + Shift(hunks[0])) + Seen(hunks[1..])
  }

  /** A range is a number, or a number and a count. */
  lemma AfterNumber(number: string, rest: string)
    requires number != "" && AllDigits(number) && rest != "" && rest[0] == ' '
    ensures AfterRange(number + rest) == Some(rest) && LeadingDigits(number + rest) == |number|
  {
    LeadingDigitsOf(number, rest);
  }

  lemma AfterCounted(number: string, count: string, rest: string)
    requires number != "" && AllDigits(number) && count != "" && AllDigits(count) && rest != "" && rest[0] == ' '
    ensures AfterRange(number + ("," + (count + rest))) == Some(rest)
    ensures LeadingDigits(number + ("," + (count + rest))) == |number|
  {
    var tail := "," + (count + rest);
    LeadingDigitsOf(number, tail);
    assert tail[1..] == count + rest;
    LeadingDigitsOf(count, rest);
    assert tail[1 + |count|..] == rest;
  }

  lemma AfterRangeOf(done: nat, count: nat, rest: string, part: string)
    requires rest != "" && rest[0] == ' ' && part == Range(done, count) + rest
    ensures AfterRange(part) == Some(rest)
    ensures LeadingDigits(part) == |Digits(First(done, count))| &&
            part[..LeadingDigits(part)] == Digits(First(done, count))
  {
    var number := Digits(First(done, count));
    if count == 1 {
      assert part == number + rest;
      AfterNumber(number, rest);
    } else {
      assert part == number + ("," + (Digits(count) + rest));
      AfterCounted(number, Digits(count), rest);
    }
  }

  /** The header says where the new lines start, whatever git adds after it. */
  lemma HeaderRead(oldAt: nat, gone: nat, newAt: nat, put: nat, heading: string)
    ensures NewStart(Header(oldAt, gone, newAt, put, heading)) == Some(First(newAt, put))
  {
    var newPart := Range(newAt, put) + (" @@" + heading);
    var oldPart := Range(oldAt, gone) + (" +" + newPart);
    assert ("@@ -" + oldPart)[4..] == oldPart;
    AfterRangeOf(oldAt, gone, " +" + newPart, oldPart);
    assert (" +" + newPart)[2..] == newPart;
    AfterRangeOf(newAt, put, " @@" + heading, newPart);
    ValueOfDigits(First(newAt, put));
  }

  function StartKind(newAt: nat, put: nat): Kind {
    Start(Some(First(newAt, put)))
  }

  lemma HeaderLooks(oldAt: nat, gone: nat, newAt: nat, put: nat, heading: string)
    ensures KindOf(Header(oldAt, gone, newAt, put, heading)) == StartKind(newAt, put)
  {
    HeaderRead(oldAt, gone, newAt, put, heading);
    var line := Header(oldAt, gone, newAt, put, heading);
    assert line[0] == '@' && line[1] == '@';
  }

  function Removed(count: nat): seq<Kind> {
    seq(count, _ => Gone)
  }

  function MarkerKinds(wanted: bool): seq<Kind> {
    if wanted then [Other] else []
  }

  function PutKinds(texts: seq<string>): (r: seq<Kind>)
    ensures |r| == |texts|
    ensures forall i :: 0 <= i < |r| ==> r[i] == if OpensTwice(texts[i], '+') then Other else Put(texts[i])
  {
    seq(|texts|, i requires 0 <= i < |texts| => if OpensTwice(texts[i], '+') then Other else Put(texts[i]))
  }

  function BodyKinds(gone: nat, oldOpen: bool, put: seq<string>, newOpen: bool): seq<Kind> {
    (Removed(gone) + MarkerKinds(oldOpen)) + (PutKinds(put) + MarkerKinds(newOpen))
  }

  function HunkKinds(h: Hunk): seq<Kind> {
    [StartKind(h.newAt, |h.put|)] + BodyKinds(|h.gone|, h.oldOpen, h.put, h.newOpen)
  }

  function AllKinds(hunks: seq<Hunk>): seq<Kind> {
    if hunks == [] then [] else HunkKinds(hunks[0]) + AllKinds(hunks[1..])
  }

  lemma BodyLooks(gone: seq<string>, oldOpen: bool, put: seq<string>, newOpen: bool)
    ensures Kinds(Body(gone, oldOpen, put, newOpen)) == BodyKinds(|gone|, oldOpen, put, newOpen)
  {
    forall i | 0 <= i < |gone| ensures KindOf(Prefixed('-', gone)[i]) == Gone { }
    forall i | 0 <= i < |put| ensures KindOf(Prefixed('+', put)[i]) == PutKinds(put)[i] {
      assert Prefixed('+', put)[i][1..] == put[i];
    }
    assert Kinds(Prefixed('-', gone)) == Removed(|gone|);
    assert Kinds(Prefixed('+', put)) == PutKinds(put);
    assert KindOf(NO_NEWLINE) == Other;
  }

  lemma KindsOfFirst(head: string, body: seq<string>)
    ensures Kinds([head] + body) == [KindOf(head)] + Kinds(body)
  {
    MappedConcat(KindOf, [head], body);
    assert Mapped(KindOf, [head]) == [KindOf(head)];
  }

  lemma HunkLooks(h: Hunk)
    ensures Kinds(HunkLines(h)) == HunkKinds(h)
  {
    BodyLooks(h.gone, h.oldOpen, h.put, h.newOpen);
    HeaderLooks(h.oldAt, |h.gone|, h.newAt, |h.put|, h.heading);
    KindsOfFirst(Header(h.oldAt, |h.gone|, h.newAt, |h.put|, h.heading), Body(h.gone, h.oldOpen, h.put, h.newOpen));
  }

  lemma KindsConcat(a: seq<string>, b: seq<string>)
    ensures Kinds(a + b) == Kinds(a) + Kinds(b)
  {
    MappedConcat(KindOf, a, b);
  }

  lemma {:induction false} AllLook(hunks: seq<Hunk>)
    ensures Kinds(AllHunkLines(hunks)) == AllKinds(hunks)
  {
    if hunks != [] {
      HunkLooks(hunks[0]);
      AllLook(hunks[1..]);
      KindsConcat(HunkLines(hunks[0]), AllHunkLines(hunks[1..]));
    }
  }

  lemma {:induction false} RemovedRead(count: nat, current: nat)
    ensures Read(Removed(count), current) == [] && NumberAfter(Removed(count), current) == current
  {
    if count > 0 {
      RemovedRead(count - 1, current);
      assert Removed(count)[1..] == Removed(count - 1);
    }
  }

  lemma {:induction false} PutRead(texts: seq<string>, current: nat)
    ensures Read(PutKinds(texts), current) == Recognised(texts, current)
  {
    if texts != [] {
      PutRead(texts[1..], current + 1);
      assert PutKinds(texts)[1..] == PutKinds(texts[1..]);
    }
  }

  lemma BodyRead(gone: nat, oldOpen: bool, put: seq<string>, newOpen: bool, current: nat)
    ensures Read(BodyKinds(gone, oldOpen, put, newOpen), current) ==
            Recognised(put, current + (if oldOpen then 1 else 0))
  {
    var front, back := Removed(gone) + MarkerKinds(oldOpen), PutKinds(put) + MarkerKinds(newOpen);
    FrontRead(gone, oldOpen, current);
    BackRead(put, newOpen, current + (if oldOpen then 1 else 0));
    ReadPastSilent(front, back, current);
  }

  lemma ReadPastSilent(front: seq<Kind>, back: seq<Kind>, current: nat)
    requires Read(front, current) == []
    ensures Read(front + back, current) == Read(back, NumberAfter(front, current))
  {
    ReadConcat(front, back, current);
  }

  lemma FrontRead(gone: nat, oldOpen: bool, current: nat)
    ensures Read(Removed(gone) + MarkerKinds(oldOpen), current) == []
    ensures NumberAfter(Removed(gone) + MarkerKinds(oldOpen), current) == current + (if oldOpen then 1 else 0)
  {
    RemovedRead(gone, current);
    ReadConcat(Removed(gone), MarkerKinds(oldOpen), current);
  }

  lemma BackRead(put: seq<string>, newOpen: bool, current: nat)
    ensures Read(PutKinds(put) + MarkerKinds(newOpen), current) == Recognised(put, current)
  {
    PutRead(put, current);
    ReadConcat(PutKinds(put), MarkerKinds(newOpen), current);
  }

  lemma HunkRead(h: Hunk, current: nat)
    ensures Read(HunkKinds(h), current) == Recognised(h.put, h.newAt + 1 + Shift(h))
  {
    var start := if h.put == [] then h.newAt else h.newAt + 1;
    var body := BodyKinds(|h.gone|, h.oldOpen, h.put, h.newOpen);
    BodyRead(|h.gone|, h.oldOpen, h.put, h.newOpen, start);
    assert HunkKinds(h)[1..] == body;
  }

  lemma {:induction false} HunksRead(hunks: seq<Hunk>, current: nat)
    ensures Read(AllKinds(hunks), current) == Seen(hunks)
  {
    if hunks != [] {
      HunkRead(hunks[0], current);
      ReadConcat(HunkKinds(hunks[0]), AllKinds(hunks[1..]), current);
      HunksRead(hunks[1..], NumberAfter(HunkKinds(hunks[0]), current));
    }
  }

  lemma {:induction false} QuietRead(kinds: seq<Kind>, current: nat)
    requires forall i :: 0 <= i < |kinds| ==> !kinds[i].Put?
    ensures Read(kinds, current) == []
  {
    if kinds != [] { QuietRead(kinds[1..], NextNumber(kinds[0], current)); }
  }

  lemma PreambleRead(p: Preamble, current: nat)
    requires WellFormed(p)
    ensures Read(Kinds(PreambleLines(p)), current) == []
  {
    var lines := PreambleLines(p);
    forall i | 0 <= i < |lines| ensures !KindOf(lines[i]).Put? {
      if 1 <= i < |p.extended| + 1 { assert lines[i] == p.extended[i - 1] && p.extended[i - 1] in p.extended; }
    }
    QuietRead(Kinds(lines), current);
  }

  lemma ReadsAsSeen(p: Preamble, hunks: seq<Hunk>)
    requires WellFormed(p)
    ensures Read(Kinds(Diff(p, hunks)), 0) == Seen(hunks)
  {
    var head, body := PreambleLines(p), AllHunkLines(hunks);
    PreambleRead(p, 0);
    KindsConcat(head, body);
    ReadConcat(Kinds(head), Kinds(body), 0);
    AllLook(hunks);
    HunksRead(hunks, NumberAfter(Kinds(head), 0));
  }

  // ---- when it comes back exact ------------------------------------------------------------------

  /** None of the hunk's lines begins with ++, and they do not replace an old last line that had no newline. */
  ghost predicate Faithful(h: Hunk) {
    NoneDoubled(h.put) && (h.oldOpen ==> h.put == [])
  }

  lemma {:induction false} RecognisedAll(texts: seq<string>, first: nat)
    requires NoneDoubled(texts)
    ensures Recognised(texts, first) == Numbered(texts, first)
  {
    if texts != [] {
      RecognisedAll(texts[1..], first + 1);
      assert Numbered(texts, first) == [Added(first, texts[0])] + Numbered(texts[1..], first + 1);
    }
  }

  lemma NumberedFrom(texts: seq<string>, first: nat, other: nat)
    ensures Numbered(texts, first) == Numbered(texts, other) <==> first == other || texts == []
  {
    if texts != [] {
      assert Numbered(texts, first)[0].line == first;
      assert Numbered(texts, other)[0].line == other;
    }
  }

  lemma AllRecognised(texts: seq<string>, first: nat, other: nat)
    requires NoneDoubled(texts)
    ensures Recognised(texts, other) == Numbered(texts, first) <==> first == other || texts == []
  {
    RecognisedAll(texts, other);
    NumberedFrom(texts, other, first);
  }

  /** One hunk reads back exact precisely when none of its lines begins with ++ and its numbers are not shifted. */
  lemma HunkExact(texts: seq<string>, first: nat, shift: nat)
    ensures Recognised(texts, first + shift) == Numbered(texts, first) <==>
            NoneDoubled(texts) && (shift > 0 ==> texts == [])
  {
    if NoneDoubled(texts) {
      AllRecognised(texts, first, first + shift);
    } else {
      RecognisedLength(texts, first + shift);
    }
  }

  lemma SplitEqual<T>(a: seq<T>, b: seq<T>, c: seq<T>, d: seq<T>)
    requires |a| <= |c| && |b| <= |d|
    ensures a + b == c + d <==> a == c && b == d
  {
    if a + b == c + d {
      assert |a| == |c| by { assert |a + b| == |c + d|; }
      assert (a + b)[..|a|] == a && (c + d)[..|c|] == c;
      assert (a + b)[|a|..] == b && (c + d)[|c|..] == d;
    }
  }

  lemma {:induction false} SeenNoLonger(hunks: seq<Hunk>)
    ensures |Seen(hunks)| <= |NewLines(hunks)|
  {
    if hunks != [] {
      RecognisedLength(hunks[0].put, hunks[0].newAt + 1 + Shift(hunks[0]));
      SeenNoLonger(hunks[1..]);
    }
  }

  lemma FirstExact(h: Hunk, seen: seq<Added>, wanted: seq<Added>)
    requires |seen| <= |wanted|
    ensures Recognised(h.put, h.newAt + 1 + Shift(h)) + seen == Numbered(h.put, h.newAt + 1) + wanted
       <==> seen == wanted && Faithful(h)
  {
    HunkExact(h.put, h.newAt + 1, Shift(h));
    RecognisedLength(h.put, h.newAt + 1 + Shift(h));
    SplitEqual(Recognised(h.put, h.newAt + 1 + Shift(h)), seen, Numbered(h.put, h.newAt + 1), wanted);
  }

  lemma SeenFirst(h: Hunk, rest: seq<Hunk>)
    ensures Seen([h] + rest) == NewLines([h] + rest) <==> Seen(rest) == NewLines(rest) && Faithful(h)
  {
    assert ([h] + rest)[1..] == rest;
    SeenNoLonger(rest);
    FirstExact(h, Seen(rest), NewLines(rest));
  }

  lemma {:induction false} SeenExact(hunks: seq<Hunk>)
    ensures Seen(hunks) == NewLines(hunks) <==> forall h :: h in hunks ==> Faithful(h)
  {
    if hunks != [] {
      SeenExact(hunks[1..]);
      SeenFirst(hunks[0], hunks[1..]);
      assert hunks == [hunks[0]] + hunks[1..];
    }
  }

  /**
   * Reading a printed diff gives back exactly the inserted lines with their numbers in the
   * new file, unless an inserted line begins with ++ or new lines replace an old last line
   * that had no newline.
   */
  lemma ReadsBackExactly(p: Preamble, hunks: seq<Hunk>)
    requires WellFormed(p)
    ensures Read(Kinds(Diff(p, hunks)), 0) == NewLines(hunks) <==> forall h :: h in hunks ==> Faithful(h)
  {
    ReadsAsSeen(p, hunks);
    SeenExact(hunks);
  }

  // ---- the hunks of an edit script, and the file it makes ------------------------------------------

  /** Keep some lines, drop some, put new ones in. */
  datatype Edit = Edit(kept: nat, deleted: nat, inserted: seq<string>, heading: string)

  ghost predicate Fits(before: seq<string>, edits: seq<Edit>) {
    edits == [] ||
    (edits[0].kept + edits[0].deleted <= |before| && Fits(before[edits[0].kept + edits[0].deleted..], edits[1..]))
  }

  function Edited(before: seq<string>, edits: seq<Edit>): seq<string>
    requires Fits(before, edits)
  {
    if edits == [] then before
    else before[..edits[0].kept] + edits[0].inserted + Edited(before[edits[0].kept + edits[0].deleted..], edits[1..])
  }

  function Deletions(edits: seq<Edit>): nat {
    if edits == [] then 0 else edits[0].deleted + Deletions(edits[1..])
  }

  /**
   * The hunks of a script whose earlier part covered oldDone and newDone lines;
   * oldEnds and newEnds say whether the old and the new file end in a newline.
   */
  function HunksOf(before: seq<string>, edits: seq<Edit>, oldDone: nat, newDone: nat, oldEnds: bool,
                   newEnds: bool): seq<Hunk>
    requires Fits(before, edits)
  {
    if edits == [] then []
    else
      var e := edits[0];
      var cut := e.kept + e.deleted;
      [Hunk(oldDone + e.kept, before[e.kept..cut], !oldEnds && e.deleted > 0 && cut == |before|,
            newDone + e.kept, e.inserted,
            !newEnds && e.inserted != [] && Edited(before[cut..], edits[1..]) == [], e.heading)]
      + HunksOf(before[cut..], edits[1..], oldDone + cut, newDone + e.kept + |e.inserted|, oldEnds, newEnds)
  }

  /** The inserted lines with their numbers in the edited file, of which `done` lines came before. */
  function Insertions(edits: seq<Edit>, done: nat): seq<Added> {
    if edits == [] then []
    else
      var e := edits[0];
      Numbered(e.inserted, done + e.kept + 1) + Insertions(edits[1..], done + e.kept + |e.inserted|)
  }

  lemma EditedHere(before: seq<string>, edits: seq<Edit>, i: nat)
    requires Fits(before, edits) && edits != [] && i < |edits[0].inserted|
    ensures edits[0].kept + i < |Edited(before, edits)| &&
            Edited(before, edits)[edits[0].kept + i] == edits[0].inserted[i]
  {
  }

  lemma EditedPast(before: seq<string>, edits: seq<Edit>, k: nat)
    requires Fits(before, edits) && edits != []
    requires k < |Edited(before[edits[0].kept + edits[0].deleted..], edits[1..])|
    ensures var e := edits[0];
      && e.kept + |e.inserted| + k < |Edited(before, edits)|
      && Edited(before, edits)[e.kept + |e.inserted| + k] == Edited(before[e.kept + e.deleted..], edits[1..])[k]
  {
  }

  lemma InsertionHere(edits: seq<Edit>, done: nat, i: nat)
    requires edits != [] && i < |edits[0].inserted|
    ensures i < |Insertions(edits, done)|
    ensures Insertions(edits, done)[i] == Added(done + edits[0].kept + 1 + i, edits[0].inserted[i])
  {
  }

  lemma InsertionPast(edits: seq<Edit>, done: nat, i: nat)
    requires edits != [] && |edits[0].inserted| <= i < |Insertions(edits, done)|
    ensures var e := edits[0]; var rest := Insertions(edits[1..], done + e.kept + |e.inserted|);
      i - |e.inserted| < |rest| && Insertions(edits, done)[i] == rest[i - |e.inserted|]
  {
  }

  /** The added line stands under its number in the edited file, of which the first `done` lines are cut off. */
  ghost predicate InPlace(before: seq<string>, edits: seq<Edit>, done: nat, a: Added)
    requires Fits(before, edits)
  {
    done < a.line <= done + |Edited(before, edits)| && Edited(before, edits)[a.line - done - 1] == a.text
  }

  lemma InPlacePast(before: seq<string>, edits: seq<Edit>, done: nat, a: Added)
    requires Fits(before, edits) && edits != []
    requires InPlace(before[edits[0].kept + edits[0].deleted..], edits[1..],
                     done + edits[0].kept + |edits[0].inserted|, a)
    ensures InPlace(before, edits, done, a)
  {
    EditedPast(before, edits, a.line - (done + edits[0].kept + |edits[0].inserted|) - 1);
  }

  lemma {:induction false} InsertionsInPlace(before: seq<string>, edits: seq<Edit>, done: nat, i: nat)
    requires Fits(before, edits) && i < |Insertions(edits, done)|
    ensures InPlace(before, edits, done, Insertions(edits, done)[i])
  {
    var e := edits[0];
    if i < |e.inserted| {
      InsertionHere(edits, done, i);
      EditedHere(before, edits, i);
    } else {
      var later := done + e.kept + |e.inserted|;
      InsertionPast(edits, done, i);
      InsertionsInPlace(before[e.kept + e.deleted..], edits[1..], later, i - |e.inserted|);
      InPlacePast(before, edits, done, Insertions(edits, done)[i]);
    }
  }

  lemma {:induction false} InsertionsAscend(edits: seq<Edit>, done: nat, i: nat, j: nat)
    requires i < j < |Insertions(edits, done)|
    ensures done < Insertions(edits, done)[i].line < Insertions(edits, done)[j].line
  {
    var e := edits[0];
    var here, later := |e.inserted|, done + e.kept + |e.inserted|;
    if i >= here {
      InsertionsAscend(edits[1..], later, i - here, j - here);
    } else if j >= here {
      InsertionsAbove(edits[1..], later, j - here);
    }
  }

  lemma {:induction false} InsertionsAbove(edits: seq<Edit>, done: nat, i: nat)
    requires i < |Insertions(edits, done)|
    ensures done < Insertions(edits, done)[i].line
  {
    var e := edits[0];
    if i >= |e.inserted| { InsertionsAbove(edits[1..], done + e.kept + |e.inserted|, i - |e.inserted|); }
  }

  lemma {:induction false} InsertionsCount(before: seq<string>, edits: seq<Edit>, done: nat)
    requires Fits(before, edits)
    ensures |Edited(before, edits)| + Deletions(edits) == |before| + |Insertions(edits, done)|
  {
    if edits != [] {
      var e := edits[0];
      InsertionsCount(before[e.kept + e.deleted..], edits[1..], done + e.kept + |e.inserted|);
    }
  }

  lemma {:induction false} NewLinesOfScript(before: seq<string>, edits: seq<Edit>, oldDone: nat, newDone: nat,
                                            oldEnds: bool, newEnds: bool)
    requires Fits(before, edits)
    ensures NewLines(HunksOf(before, edits, oldDone, newDone, oldEnds, newEnds)) == Insertions(edits, newDone)
  {
    if edits != [] {
      var e := edits[0];
      var cut := e.kept + e.deleted;
      NewLinesOfScript(before[cut..], edits[1..], oldDone + cut, newDone + e.kept + |e.inserted|, oldEnds, newEnds);
    }
  }

  /** The numbering is right: each entry is that very line of the edited file, in file order, and none is missing. */
  lemma NumberedAsInTheNewFile(before: seq<string>, edits: seq<Edit>, oldEnds: bool, newEnds: bool)
    requires Fits(before, edits)
    ensures var all, after := NewLines(HunksOf(before, edits, 0, 0, oldEnds, newEnds)), Edited(before, edits);
      && (forall i :: 0 <= i < |all| ==> 0 < all[i].line <= |after| && after[all[i].line - 1] == all[i].text)
      && (forall i, j :: 0 <= i < j < |all| ==> all[i].line < all[j].line)
      && |all| == |after| - (|before| - Deletions(edits))
  {
    NewLinesOfScript(before, edits, 0, 0, oldEnds, newEnds);
    var all, after := Insertions(edits, 0), Edited(before, edits);
    forall i | 0 <= i < |all| ensures 0 < all[i].line <= |after| && after[all[i].line - 1] == all[i].text {
      InsertionsInPlace(before, edits, 0, i);
    }
    forall i, j | 0 <= i < j < |all| ensures all[i].line < all[j].line {
      InsertionsAscend(edits, 0, i, j);
    }
    InsertionsCount(before, edits, 0);
  }

  /** Adding a newline to a file's last line while extending it numbers the new lines one too high. */
  lemma OpenEndShiftsNumbers(p: Preamble)
    requires WellFormed(p)
    ensures var edits := [Edit(0, 1, ["a", "b"], "")];
      && Edited(["a"], edits) == ["a", "b"]
      && Read(Kinds(Diff(p, HunksOf(["a"], edits, 0, 0, false, true))), 0) == [Added(2, "a"), Added(3, "b")]
  {
    var edits := [Edit(0, 1, ["a", "b"], "")];
    var hunks := HunksOf(["a"], edits, 0, 0, false, true);
    ReadsAsSeen(p, hunks);
    assert edits[1..] == [] && ["a", "b"][1..] == ["b"] && ["b"][1..] == [];
    assert ["a"][0..1] == ["a"] && ["a"][1..] == [];
    assert hunks == [Hunk(0, ["a"], true, 0, ["a", "b"], false, "")];
    assert hunks[1..] == [];
    assert Recognised(["b"], 3) == [Added(3, "b")];
    assert Recognised(["a", "b"], 2) == [Added(2, "a"), Added(3, "b")];
  }

  // ---- from the text git prints -------------------------------------------------------------------

  /** The line boundaries of Python's str.splitlines. */
  predicate IsBreak(c: char) {
    c in {'\n', '\r', '\U{0B}', '\U{0C}', '\U{1C}', '\U{1D}', '\U{1E}', '\U{85}', '\U{2028}', '\U{2029}'}
  }

  predicate Unbroken(s: string) {
    forall i :: 0 <= i < |s| ==> !IsBreak(s[i])
  }

  function FirstBreak(text: string): (n: nat)
    ensures n <= |text| && Unbroken(text[..n]) && (n < |text| ==> IsBreak(text[n]))
  {
    if text == "" || IsBreak(text[0]) then 0
    else
      var n := 1 + FirstBreak(text[1..]);
      assert forall i :: 1 <= i < n ==> text[i] == text[1..][i - 1];
      n
  }

  function SplitLines(text: string): seq<string>
    decreases |text|
  {
    var n := FirstBreak(text);
    if text == "" then []
    else if n == |text| then [text]
    else if text[n] == '\r' && n + 1 < |text| && text[n + 1] == '\n' then [text[..n]] + SplitLines(text[n + 2..])
    else [text[..n]] + SplitLines(text[n + 1..])
  }

  function Printed(lines: seq<string>): string {
    if lines == [] then "" else lines[0] + "\n" + Printed(lines[1..])
  }

  lemma {:induction false} SplitPieces(text: string)
    ensures forall l :: l in SplitLines(text) ==> Unbroken(l)
    decreases |text|
  {
    var n := FirstBreak(text);
    if n < |text| {
      SplitPieces(text[n + 1..]);
      if text[n] == '\r' && n + 1 < |text| && text[n + 1] == '\n' { SplitPieces(text[n + 2..]); }
    }
  }

  lemma FirstBreakOf(first: string, rest: string)
    requires Unbroken(first) && rest != "" && IsBreak(rest[0])
    ensures FirstBreak(first + rest) == |first|
  {
    var text := first + rest;
    var n := FirstBreak(text);
    assert text[|first|] == rest[0];
    assert forall i :: 0 <= i < n ==> !IsBreak(text[..n][i]);
    assert forall i :: 0 <= i < |first| ==> text[i] == first[i];
  }

  /** What splitlines makes of one printed line. */
  function Fragments(line: string): (r: seq<string>)
    ensures r != []
  {
    SplitLines(line + "\n")
  }

  /** The fragments of a line after its first. */
  function Tail(line: string): seq<string> {
    Fragments(line)[1..]
  }

  function AllFragments(lines: seq<string>): seq<string> {
    if lines == [] then [] else Fragments(lines[0]) + AllFragments(lines[1..])
  }

  /** What is left of a text behind its first line boundary, if it begins with one. */
  function Behind(text: string): string
    requires text != ""
  {
    if "\r\n" <= text then text[2..] else text[1..]
  }

  lemma SplitAtBreak(first: string, rest: string)
    requires Unbroken(first) && rest != "" && IsBreak(rest[0])
    ensures SplitLines(first + rest) == [first] + SplitLines(Behind(rest))
  {
    var text := first + rest;
    FirstBreakOf(first, rest);
    assert text[..|first|] == first && text[|first|] == rest[0] && text[|first| + 1..] == rest[1..];
    if |rest| >= 2 { assert text[|first| + 1] == rest[1] && text[|first| + 2..] == rest[2..]; }
  }

  lemma BehindLonger(left: string, more: string)
    requires left != "" && left != "\r"
    ensures Behind(left + more) == Behind(left) + more
  {
    assert (left + more)[1..] == left[1..] + more;
    if |left| >= 2 { assert (left + more)[2..] == left[2..] + more; }
  }

  /** The newline of a line that has no boundary besides, or a carriage return before it. */
  lemma SplitLineEnd(first: string, left: string, rest: string)
    requires Unbroken(first) && left in {"", "\r"}
    ensures SplitLines(first + left + "\n" + rest) == [first] + SplitLines(rest)
  {
    var tail := left + "\n" + rest;
    assert first + left + "\n" + rest == first + tail;
    if left == "" {
      assert tail == "\n" + rest && tail[0] == '\n' && tail[1..] == rest;
    } else {
      assert tail == "\r\n" + rest && tail[2..] == rest;
    }
    SplitAtBreak(first, tail);
  }

  lemma SplitLineOn(first: string, left: string, rest: string)
    requires Unbroken(first) && left !in {"", "\r"} && IsBreak(left[0])
    ensures |Behind(left)| < |left|
    ensures SplitLines(first + left + "\n" + rest) == [first] + SplitLines(Behind(left) + "\n" + rest)
  {
    assert first + left + "\n" + rest == first + (left + ("\n" + rest));
    BehindLonger(left, "\n" + rest);
    assert Behind(left) + ("\n" + rest) == Behind(left) + "\n" + rest;
    SplitAtBreak(first, left + ("\n" + rest));
  }

  lemma NothingAfter(line: string)
    ensures line + "\n" + "" == line + "\n" && SplitLines("") == []
  {
  }

  /** Each printed line is split on its own: its newline ends its last fragment. */
  lemma {:induction false} SplitLine(line: string, rest: string)
    ensures SplitLines(line + "\n" + rest) == Fragments(line) + SplitLines(rest)
    decreases |line|
  {
    var n := FirstBreak(line);
    var first, left := line[..n], line[n..];
    assert line == first + left;
    NothingAfter(line);
    if left in {"", "\r"} {
      SplitLineEnd(first, left, rest);
      SplitLineEnd(first, left, "");
    } else {
      SplitLineOn(first, left, rest);
      SplitLineOn(first, left, "");
      NothingAfter(Behind(left));
      SplitLine(Behind(left), rest);
    }
  }

  lemma {:induction false} SplitPrinted(lines: seq<string>)
    ensures SplitLines(Printed(lines)) == AllFragments(lines)
  {
    if lines != [] {
      SplitLine(lines[0], Printed(lines[1..]));
      SplitPrinted(lines[1..]);
    }
  }

  lemma {:induction false} AllFragmentsConcat(a: seq<string>, b: seq<string>)
    ensures AllFragments(a + b) == AllFragments(a) + AllFragments(b)
  {
    if a == [] {
      assert a + b == b;
    } else {
      assert (a + b)[1..] == a[1..] + b;
      AllFragmentsConcat(a[1..], b);
    }
  }

  /** A text in front of a line, without a boundary of its own, only extends the line's first fragment. */
  lemma FragmentsAfter(front: string, line: string)
    requires Unbroken(front)
    ensures Fragments(front + line) == [front + Fragments(line)[0]] + Tail(line)
  {
    var n := FirstBreak(line);
    var first, left := line[..n], line[n..];
    assert line + "\n" == first + (left + "\n") && front + line + "\n" == (front + first) + (left + "\n");
    SplitAtBreak(first, left + "\n");
    SplitAtBreak(front + first, left + "\n");
  }

  lemma UnbrokenFragment(line: string)
    requires Unbroken(line)
    ensures Fragments(line) == [line] && Tail(line) == []
  {
    SplitAtBreak(line, "\n");
    assert "\n"[1..] == "";
  }

  lemma {:induction false} UnbrokenFragments(lines: seq<string>)
    requires forall l :: l in lines ==> Unbroken(l)
    ensures AllFragments(lines) == lines
  {
    if lines != [] {
      UnbrokenFragment(lines[0]);
      UnbrokenFragments(lines[1..]);
    }
  }

  lemma PutUnbroken(line: string)
    requires Unbroken(line) && KindOf(line).Put?
    ensures Unbroken(KindOf(line).text)
  {
    assert forall i :: 0 <= i < |line[1..]| ==> line[1..][i] == line[i + 1];
  }

  ghost predicate HunkUnbroken(h: Hunk) {
    (forall l :: l in h.gone ==> Unbroken(l)) && Unbroken(h.heading)
  }

  lemma {:induction false} PrefixedUnbroken(mark: char, lines: seq<string>)
    requires !IsBreak(mark) && forall l :: l in lines ==> Unbroken(l)
    ensures forall l :: l in Prefixed(mark, lines) ==> Unbroken(l)
  {
    forall i | 0 <= i < |lines| ensures Unbroken(Prefixed(mark, lines)[i]) {
      assert lines[i] in lines;
    }
  }

  lemma HeaderUnbroken(oldAt: nat, gone: nat, newAt: nat, put: nat, heading: string)
    requires Unbroken(heading)
    ensures Unbroken(Header(oldAt, gone, newAt, put, heading))
  {
    var newPart := Range(newAt, put) + (" @@" + heading);
    RangeUnbroken(oldAt, gone);
    RangeUnbroken(newAt, put);
    JoinUnbroken(Range(newAt, put), " @@" + heading);
    JoinUnbroken(Range(oldAt, gone), " +" + newPart);
  }

  lemma RangeUnbroken(done: nat, count: nat)
    ensures Unbroken(Range(done, count))
  {
    JoinUnbroken(Digits(First(done, count)), "," + Digits(count));
  }

  lemma JoinUnbroken(a: string, b: string)
    requires Unbroken(a) && Unbroken(b)
    ensures Unbroken(a + b)
  {
  }

  /** No inserted line holds a line boundary of its own or begins with ++. */
  ghost predicate Plain(h: Hunk) {
    NoneDoubled(h.put) && forall t :: t in h.put ==> Unbroken(t)
  }

  // ---- what a hunk's printed text looks like, piece by piece -----------------------------------------

  /** What the removed lines leave beyond their first fragments. */
  function AllTails(lines: seq<string>): seq<string> {
    if lines == [] then [] else Tail(lines[0]) + AllTails(lines[1..])
  }

  /** The pieces of heading and removed lines that the reader takes for lines of the diff. */
  function Strays(h: Hunk): seq<string> {
    Tail(h.heading) + AllTails(h.gone)
  }

  function GoneKinds(gone: seq<string>): seq<Kind> {
    if gone == [] then [] else ([Gone] + Kinds(Tail(gone[0]))) + GoneKinds(gone[1..])
  }

  /** The kinds of what is printed before the inserted lines. */
  function LeadKinds(h: Hunk): seq<Kind> {
    ([StartKind(h.newAt, |h.put|)] + Kinds(Tail(h.heading))) + (GoneKinds(h.gone) + MarkerKinds(h.oldOpen))
  }

  function TextKinds(h: Hunk): seq<Kind> {
    LeadKinds(h) + (PutKinds(h.put) + MarkerKinds(h.newOpen))
  }

  function AllTextKinds(hunks: seq<Hunk>): seq<Kind> {
    if hunks == [] then [] else TextKinds(hunks[0]) + AllTextKinds(hunks[1..])
  }

  lemma {:induction false} GoneLook(gone: seq<string>)
    ensures Kinds(AllFragments(Prefixed('-', gone))) == GoneKinds(gone)
  {
    if gone != [] {
      var g := gone[0];
      assert "-" + g == Prefixed('-', gone)[0] && Prefixed('-', gone)[1..] == Prefixed('-', gone[1..]);
      FragmentsAfter("-", g);
      KindsOfFirst("-" + Fragments(g)[0], Tail(g));
      KindsConcat(Fragments("-" + g), AllFragments(Prefixed('-', gone[1..])));
      GoneLook(gone[1..]);
    }
  }

  lemma HeaderJoin(oldAt: nat, gone: nat, newAt: nat, put: nat, heading: string)
    ensures Header(oldAt, gone, newAt, put, heading) == Header(oldAt, gone, newAt, put, "") + heading
  {
    var newFront := Range(newAt, put) + " @@";
    assert Range(newAt, put) + (" @@" + heading) == newFront + heading;
    assert " +" + (newFront + heading) == (" +" + newFront) + heading;
    var oldFront := Range(oldAt, gone) + (" +" + newFront);
    assert Range(oldAt, gone) + ((" +" + newFront) + heading) == oldFront + heading;
    assert "@@ -" + (oldFront + heading) == ("@@ -" + oldFront) + heading;
    assert " @@" + "" == " @@";
  }

  lemma HeadLooks(oldAt: nat, gone: nat, newAt: nat, put: nat, heading: string)
    ensures Kinds(Fragments(Header(oldAt, gone, newAt, put, heading))) == [StartKind(newAt, put)] + Kinds(Tail(heading))
  {
    var front := Header(oldAt, gone, newAt, put, "");
    HeaderUnbroken(oldAt, gone, newAt, put, "");
    HeaderJoin(oldAt, gone, newAt, put, heading);
    FragmentsAfter(front, heading);
    var first := Fragments(heading)[0];
    HeaderJoin(oldAt, gone, newAt, put, first);
    HeaderLooks(oldAt, gone, newAt, put, first);
    KindsOfFirst(front + first, Tail(heading));
  }

  lemma MarkerLooks(wanted: bool)
    ensures Kinds(AllFragments(Marker(wanted))) == MarkerKinds(wanted)
  {
    if wanted {
      UnbrokenFragment(NO_NEWLINE);
      assert AllFragments(Marker(wanted)) == [NO_NEWLINE] + AllFragments([]);
      assert KindOf(NO_NEWLINE) == Other;
    }
  }

  lemma PutLooks(put: seq<string>)
    requires forall t :: t in put ==> Unbroken(t)
    ensures Kinds(AllFragments(Prefixed('+', put))) == PutKinds(put)
  {
    PrefixedUnbroken('+', put);
    UnbrokenFragments(Prefixed('+', put));
    forall i | 0 <= i < |put| ensures KindOf(Prefixed('+', put)[i]) == PutKinds(put)[i] {
      assert Prefixed('+', put)[i][1..] == put[i];
    }
  }

  lemma PartsLook(a: seq<string>, b: seq<string>)
    ensures Kinds(AllFragments(a + b)) == Kinds(AllFragments(a)) + Kinds(AllFragments(b))
  {
    AllFragmentsConcat(a, b);
    KindsConcat(AllFragments(a), AllFragments(b));
  }

  lemma TextLooks(h: Hunk)
    requires forall t :: t in h.put ==> Unbroken(t)
    ensures Kinds(AllFragments(HunkLines(h))) == TextKinds(h)
  {
    var head := Header(h.oldAt, |h.gone|, h.newAt, |h.put|, h.heading);
    var gone, put := Prefixed('-', h.gone), Prefixed('+', h.put);
    PartsLook([head], (gone + Marker(h.oldOpen)) + (put + Marker(h.newOpen)));
    PartsLook(gone + Marker(h.oldOpen), put + Marker(h.newOpen));
    PartsLook(gone, Marker(h.oldOpen));
    PartsLook(put, Marker(h.newOpen));
    OneFragments(head);
    HeadLooks(h.oldAt, |h.gone|, h.newAt, |h.put|, h.heading);
    GoneLook(h.gone);
    PutLooks(h.put);
    MarkerLooks(h.oldOpen);
    MarkerLooks(h.newOpen);
    Regrouped([StartKind(h.newAt, |h.put|)] + Kinds(Tail(h.heading)), GoneKinds(h.gone) + MarkerKinds(h.oldOpen),
              PutKinds(h.put) + MarkerKinds(h.newOpen));
  }

  lemma OneFragments(line: string)
    ensures AllFragments([line]) == Fragments(line)
  {
    assert AllFragments([line]) == Fragments(line) + AllFragments([line][1..]);
  }

  lemma Regrouped<T>(a: seq<T>, b: seq<T>, c: seq<T>)
    ensures a + (b + c) == (a + b) + c
  {
  }

  lemma {:induction false} AllTextLooks(hunks: seq<Hunk>)
    requires forall h :: h in hunks ==> Plain(h)
    ensures Kinds(AllFragments(AllHunkLines(hunks))) == AllTextKinds(hunks)
  {
    if hunks != [] {
      assert Plain(hunks[0]);
      TextLooks(hunks[0]);
      AllTextLooks(hunks[1..]);
      PartsLook(HunkLines(hunks[0]), AllHunkLines(hunks[1..]));
    }
  }

  // ---- what the reader makes of it -----------------------------------------------------------------------

  ghost predicate Silent(lines: seq<string>) {
    forall l :: l in lines ==> !KindOf(l).Put?
  }

  /** Only lines that look inserted are recorded. */
  lemma {:induction false} ReadEmpty(lines: seq<string>, current: nat)
    ensures Read(Kinds(lines), current) == [] <==> Silent(lines)
  {
    if lines != [] {
      KindsOfFirst(lines[0], lines[1..]);
      assert lines == [lines[0]] + lines[1..];
      ReadEmpty(lines[1..], NextNumber(KindOf(lines[0]), current));
    }
  }

  /** First fragments of removed lines neither count nor are recorded. */
  lemma {:induction false} GoneRead(gone: seq<string>, current: nat)
    ensures Read(GoneKinds(gone), current) == Read(Kinds(AllTails(gone)), current)
    ensures NumberAfter(GoneKinds(gone), current) == NumberAfter(Kinds(AllTails(gone)), current)
  {
    if gone != [] {
      var tail := Kinds(Tail(gone[0]));
      var next := NumberAfter(tail, current);
      KindsConcat(Tail(gone[0]), AllTails(gone[1..]));
      ReadConcat(tail, Kinds(AllTails(gone[1..])), current);
      ReadConcat([Gone] + tail, GoneKinds(gone[1..]), current);
      assert ([Gone] + tail)[1..] == tail;
      GoneRead(gone[1..], next);
    }
  }

  /** The number the reader has come to before the inserted lines. */
  function NumberBefore(h: Hunk): nat {
    NumberAfter(Kinds(Strays(h)), First(h.newAt, |h.put|)) + Shift(h)
  }

  lemma LeadRead(h: Hunk, current: nat)
    ensures Read(LeadKinds(h), current) == [] <==> Silent(Strays(h))
    ensures NumberAfter(LeadKinds(h), current) == NumberBefore(h)
  {
    var start := First(h.newAt, |h.put|);
    var head, tails, marker := Kinds(Tail(h.heading)), GoneKinds(h.gone), MarkerKinds(h.oldOpen);
    var mid := NumberAfter(head, start);
    assert ([StartKind(h.newAt, |h.put|)] + head)[1..] == head;
    ReadConcat([StartKind(h.newAt, |h.put|)] + head, tails + marker, current);
    ReadConcat(tails, marker, mid);
    GoneRead(h.gone, mid);
    KindsConcat(Tail(h.heading), AllTails(h.gone));
    ReadConcat(head, Kinds(AllTails(h.gone)), start);
    ReadEmpty(Strays(h), start);
  }

  lemma TextRead(h: Hunk, current: nat)
    requires Plain(h)
    ensures Read(TextKinds(h), current) == Read(LeadKinds(h), current) + Numbered(h.put, NumberBefore(h))
  {
    LeadRead(h, current);
    ReadConcat(LeadKinds(h), PutKinds(h.put) + MarkerKinds(h.newOpen), current);
    BackRead(h.put, h.newOpen, NumberBefore(h));
    RecognisedAll(h.put, NumberBefore(h));
  }

  /**
   * When a hunk comes back from the printed text: its inserted lines are whole, no piece of
   * its heading or of a removed line looks inserted, and what those pieces and the
   * no-newline marker do to the number is undone before the inserted lines, if there are any.
   */
  ghost predicate Exact(h: Hunk) {
    Plain(h) && Silent(Strays(h)) && (h.put != [] ==> NumberBefore(h) == h.newAt + 1)
  }

  lemma {:induction false} NoneMissing(hunks: seq<Hunk>, current: nat)
    requires forall h :: h in hunks ==> Plain(h)
    ensures |NewLines(hunks)| <= |Read(AllTextKinds(hunks), current)|
  {
    if hunks != [] {
      assert Plain(hunks[0]);
      TextRead(hunks[0], current);
      ReadConcat(TextKinds(hunks[0]), AllTextKinds(hunks[1..]), current);
      NoneMissing(hunks[1..], NumberAfter(TextKinds(hunks[0]), current));
    }
  }

  lemma OneExact(h: Hunk, current: nat, seen: seq<Added>, wanted: seq<Added>)
    requires Plain(h) && |wanted| <= |seen|
    ensures Read(TextKinds(h), current) + seen == Numbered(h.put, h.newAt + 1) + wanted <==> Exact(h) && seen == wanted
  {
    var lead, put := Read(LeadKinds(h), current), Numbered(h.put, NumberBefore(h));
    TextRead(h, current);
    LeadRead(h, current);
    SplitEqual(Numbered(h.put, h.newAt + 1), wanted, lead + put, seen);
    NumberedFrom(h.put, h.newAt + 1, NumberBefore(h));
    if lead == [] { assert lead + put == put; }
  }

  lemma FirstText(h: Hunk, rest: seq<Hunk>)
    ensures AllTextKinds([h] + rest) == TextKinds(h) + AllTextKinds(rest)
    ensures NewLines([h] + rest) == Numbered(h.put, h.newAt + 1) + NewLines(rest)
  {
    assert ([h] + rest)[1..] == rest;
  }

  lemma FirstTextExact(h: Hunk, rest: seq<Hunk>, current: nat)
    requires Plain(h) && forall x :: x in rest ==> Plain(x)
    ensures Read(AllTextKinds([h] + rest), current) == NewLines([h] + rest)
       <==> Exact(h) && Read(AllTextKinds(rest), NumberAfter(TextKinds(h), current)) == NewLines(rest)
  {
    FirstText(h, rest);
    var next := NumberAfter(TextKinds(h), current);
    ReadConcat(TextKinds(h), AllTextKinds(rest), current);
    NoneMissing(rest, next);
    OneExact(h, current, Read(AllTextKinds(rest), next), NewLines(rest));
  }

  lemma {:induction false} AllExact(hunks: seq<Hunk>, current: nat)
    requires forall h :: h in hunks ==> Plain(h)
    ensures Read(AllTextKinds(hunks), current) == NewLines(hunks) <==> forall h :: h in hunks ==> Exact(h)
  {
    if hunks != [] {
      assert hunks == [hunks[0]] + hunks[1..];
      FirstTextExact(hunks[0], hunks[1..], current);
      AllExact(hunks[1..], NumberAfter(TextKinds(hunks[0]), current));
    }
  }

  lemma {:induction false} NewLineTexts(hunks: seq<Hunk>, h: Hunk, t: string)
    requires h in hunks && t in h.put
    ensures exists a :: a in NewLines(hunks) && a.text == t
  {
    if h == hunks[0] {
      var i :| 0 <= i < |h.put| && h.put[i] == t;
      assert NewLines(hunks)[i] == Numbered(h.put, h.newAt + 1)[i];
    } else {
      NewLineTexts(hunks[1..], h, t);
    }
  }

  lemma {:induction false} ReadTextsPlain(lines: seq<string>, current: nat)
    requires forall l :: l in lines ==> Unbroken(l)
    ensures forall a :: a in Read(Kinds(lines), current) ==> Unbroken(a.text) && !OpensTwice(a.text, '+')
  {
    if lines != [] {
      var line := lines[0];
      KindsOfFirst(line, lines[1..]);
      assert lines == [line] + lines[1..];
      if KindOf(line).Put? { PutUnbroken(line); }
      ReadTextsPlain(lines[1..], NextNumber(KindOf(line), current));
    }
  }

  /** What is read back is whole lines that do not begin with ++, so nothing else comes back. */
  lemma ExactMeansPlain(text: string, hunks: seq<Hunk>)
    requires Read(Kinds(SplitLines(text)), 0) == NewLines(hunks)
    ensures forall h :: h in hunks ==> Plain(h)
  {
    SplitPieces(text);
    ReadTextsPlain(SplitLines(text), 0);
    forall h, t | h in hunks && t in h.put ensures Unbroken(t) && !OpensTwice(t, '+') { NewLineTexts(hunks, h, t); }
  }

  /**
   * From the printed text, for every preamble, heading, removed and inserted line: reading it
   * gives back exactly the inserted lines with their numbers in the new file, if and only if
   * no piece of the preamble looks inserted and every hunk is exact.
   */
  lemma TextReadsBackExactly(p: Preamble, hunks: seq<Hunk>)
    ensures Read(Kinds(SplitLines(Printed(Diff(p, hunks)))), 0) == NewLines(hunks)
       <==> Silent(AllFragments(PreambleLines(p))) && forall h :: h in hunks ==> Exact(h)
  {
    var text := Printed(Diff(p, hunks));
    SplitPrinted(Diff(p, hunks));
    if Read(Kinds(SplitLines(text)), 0) == NewLines(hunks) { ExactMeansPlain(text, hunks); }
    if forall h :: h in hunks ==> Plain(h) {
      var head := AllFragments(PreambleLines(p));
      var next := NumberAfter(Kinds(head), 0);
      PartsLook(PreambleLines(p), AllHunkLines(hunks));
      AllTextLooks(hunks);
      ReadConcat(Kinds(head), AllTextKinds(hunks), 0);
      ReadEmpty(head, 0);
      NoneMissing(hunks, next);
      AllExact(hunks, next);
      SplitEqual([], NewLines(hunks), Read(Kinds(head), 0), Read(AllTextKinds(hunks), next));
      assert [] + NewLines(hunks) == NewLines(hunks);
    }
  }

  // ---- the condition in plainer terms ----------------------------------------------------------------------

  /** How many pieces the reader counts as lines of the new file: those that neither look removed nor begin with @@. */
  function Counted(strays: seq<string>): nat {
    if strays == [] then 0
    else (if KindOf(strays[0]).Gone? || KindOf(strays[0]).Start? then 0 else 1) + Counted(strays[1..])
  }

  lemma {:induction false} CountedMoves(strays: seq<string>, current: nat)
    requires forall l :: l in strays ==> NewStart(l).None?
    ensures NumberAfter(Kinds(strays), current) == current + Counted(strays)
  {
    if strays != [] {
      KindsOfFirst(strays[0], strays[1..]);
      assert strays == [strays[0]] + strays[1..];
      CountedMoves(strays[1..], NextNumber(KindOf(strays[0]), current));
    }
  }

  /**
   * Unless a piece of a heading or removed line is itself a hunk header: a hunk is exact if and
   * only if it is faithful, its inserted lines are whole, no piece looks inserted, and, where
   * lines are inserted, every piece looks removed or begins with @@.
   */
  lemma ExactPlainly(h: Hunk)
    requires forall l :: l in Strays(h) ==> NewStart(l).None?
    ensures Exact(h) <==> Faithful(h) && Plain(h) && Silent(Strays(h)) && (h.put != [] ==> Counted(Strays(h)) == 0)
  {
    CountedMoves(Strays(h), First(h.newAt, |h.put|));
  }

  /** Where only inserted lines hold separators, being exact is being faithful with whole inserted lines. */
  lemma ExactUnbroken(h: Hunk)
    requires HunkUnbroken(h)
    ensures Exact(h) <==> Faithful(h) && Plain(h)
  {
    UnbrokenFragment(h.heading);
    NoTails(h.gone);
    assert Strays(h) == [];
    ExactPlainly(h);
  }

  lemma {:induction false} NoTails(lines: seq<string>)
    requires forall l :: l in lines ==> Unbroken(l)
    ensures AllTails(lines) == []
  {
    if lines != [] {
      UnbrokenFragment(lines[0]);
      NoTails(lines[1..]);
    }
  }

  /** A line broken in the middle leaves its second part. */
  lemma BrokenOnce(first: string, c: char, second: string)
    requires Unbroken(first) && Unbroken(second) && IsBreak(c) && c != '\r'
    ensures Tail(first + [c] + second) == [second]
  {
    var rest := [c] + second + "\n";
    assert first + [c] + second + "\n" == first + rest;
    assert rest[0] == c && rest[1..] == second + "\n";
    SplitAtBreak(first, rest);
    UnbrokenFragment(second);
  }

  lemma PhantomStrays(h: Hunk)
    requires h.heading == "" && h.gone == ["a" + ['\U{0C}'] + "+b"]
    ensures Strays(h) == ["+b"]
  {
    UnbrokenFragment("");
    BrokenOnce("a", '\U{0C}', "+b");
    assert h.gone[1..] == [] && AllTails([]) == [];
  }

  /** A removed line with a form feed in it yields an added line nobody inserted. */
  lemma PhantomLine(p: Preamble, h: Hunk)
    requires h.heading == "" && h.gone == ["a" + ['\U{0C}'] + "+b"] && h.put == []
    ensures NewLines([h]) == [] && Read(Kinds(SplitLines(Printed(Diff(p, [h])))), 0) != []
  {
    PhantomStrays(h);
    assert KindOf("+b") == Put("b") && "+b" in Strays(h);
    assert h in [h] && !Exact(h);
    assert [h][1..] == [];
    TextReadsBackExactly(p, [h]);
  }

  /** A heading with a form feed in it shifts the numbers of what is inserted under it. */
  lemma HeadingShiftsNumbers(p: Preamble, h: Hunk)
    requires h.heading == " f" + ['\U{0C}'] + "g" && h.gone == [] && !h.oldOpen && h.put != []
    ensures NumberBefore(h) == h.newAt + 2
    ensures Read(Kinds(SplitLines(Printed(Diff(p, [h])))), 0) != NewLines([h])
  {
    BrokenOnce(" f", '\U{0C}', "g");
    CountedMoves(Strays(h), First(h.newAt, |h.put|));
    assert ["g"][1..] == [];
    assert h in [h] && !Exact(h);
    TextReadsBackExactly(p, [h]);
  }
}
