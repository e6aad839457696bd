/** frontend/src/lib/sse.ts: incremental framing of `data:` lines over a byte stream. */
module SseFraming {
  import opened Base
  import opened Utf8

  // ---- batch reading: the reference --------------------------------------------------

  /** text.split('\n') */
  function SplitLines(text: string): (lines: seq<string>)
    ensures lines != []
  {
    AddText([""], text)
  }

  /** The lines after more text has come in. */
  function AddText(lines: seq<string>, text: string): (r: seq<string>)
    requires lines != []
    ensures r != []
  {
    if text == [] then lines else AddChar(AddText(lines, text[..|text| - 1]), text[|text| - 1])
  }

  /** A line feed starts a line; any other character extends the last one. */
  function AddChar(lines: seq<string>, c: char): (r: seq<string>)
    requires lines != []
    ensures r != []
  {
    if c == '\n' then lines + [""]
    else lines[..|lines| - 1] + [lines[|lines| - 1] + [c]]
  }

  function TrimStart(s: string): string {
    if s != [] && IsJsSpace(s[0]) then TrimStart(s[1..]) else s
  }

  function TrimEnd(s: string): string {
    if s != [] && IsJsSpace(s[|s| - 1]) then TrimEnd(s[..|s| - 1]) else s
  }

  const PREFIX := "data: "
  const SENTINEL := "[DONE]"

  function DataOf(line: string): Option<string> {
    if PREFIX <= line then Some(TrimEnd(TrimStart(line[|PREFIX|..]))) else None
  }

  /** Payloads of the lines in order, and whether the sentinel cut them short. */
  datatype Framed = Framed(payloads: seq<string>, done: bool)

  function Frames(lines: seq<string>): Framed {
    if lines == [] then Framed([], false)
    else
      var before := Frames(lines[..|lines| - 1]);
      var data := DataOf(lines[|lines| - 1]);
      if before.done || data.None? then before
      else if data.value == SENTINEL then Framed(before.payloads, true)
      else Framed(before.payloads + [data.value], false)
  }

  function Take<T>(s: seq<T>, n: nat): seq<T> {
    if n <= |s| then s[..n] else s
  }

  // ---- the stream -------------------------------------------------------------------------

  datatype ReadResult = Chunk(bytes: seq<byte>) | Rejected

  function BytesOf(inputs: seq<ReadResult>): seq<byte>
    requires forall i :: 0 <= i < |inputs| ==> inputs[i].Chunk?
  {
    if inputs == [] then [] else BytesOf(inputs[..|inputs| - 1]) + inputs[|inputs| - 1].bytes
  }

  /** The reads before the first rejection. */
  function Delivered(inputs: seq<ReadResult>): (r: seq<ReadResult>)
    ensures r <= inputs && forall i :: 0 <= i < |r| ==> r[i].Chunk?
    ensures |r| < |inputs| ==> inputs[|r|] == Rejected
  {
    if inputs == [] || inputs[0].Rejected? then [] else [inputs[0]] + Delivered(inputs[1..])
  }

  /** The text the reader has decoded after those reads. */
  function TextOf(inputs: seq<ReadResult>): string {
    Decode(FRESH, BytesOf(Delivered(inputs))).1
  }

  /** Every line once the stream ended; only the terminated lines if a read rejected. */
  function LinesOf(inputs: seq<ReadResult>): seq<string> {
    var lines := SplitLines(TextOf(inputs));
    if Delivered(inputs) == inputs then lines else lines[..|lines| - 1]
  }

  datatype Exit = Finished | SentinelSeen | ConsumerStopped | ReadFailed

  function ExitOf(inputs: seq<ReadResult>, demand: nat): Exit {
    var framed := Frames(LinesOf(inputs));
    if |framed.payloads| >= demand then ConsumerStopped
    else if framed.done then SentinelSeen
    else if Delivered(inputs) == inputs then Finished
    else ReadFailed
  }

  /** What a ReadableStreamDefaultReader answers. */
  datatype Answer = Done | Value(bytes: seq<byte>) | Throws

  /** What the reader answers to the read at that position. */
  function AnswerAt(inputs: seq<ReadResult>, position: nat): Answer {
    if position >= |inputs| then Done
    else if inputs[position].Rejected? then Throws else Value(inputs[position].bytes)
  }

  class StreamReader {
    const inputs: seq<ReadResult>
    var position: nat
    var cancels: nat

    constructor (inputs: seq<ReadResult>)
      ensures this.inputs == inputs && position == 0 && cancels == 0
    {
      this.inputs := inputs;
      position, cancels := 0, 0;
    }

    method Read() returns (r: Answer)
      modifies this`position
      ensures position == if old(position) < |inputs| then old(position) + 1 else old(position)
      ensures r == AnswerAt(inputs, old(position))
    {
      if position >= |inputs| { return Done; }
      r := if inputs[position].Rejected? then Throws else Value(inputs[position].bytes);
      position := position + 1;
    }

    method Cancel()
      modifies this`cancels
      ensures cancels == old(cancels) + 1
    {
      cancels := cancels + 1;
    }
  }

  // ---- facts ---------------------------------------------------------------------------------

  lemma {:induction false} AddTextConcat(lines: seq<string>, a: string, b: string)
    requires lines != []
    ensures AddText(lines, a + b) == AddText(AddText(lines, a), b)
  {
    if b == [] {
      assert a + b == a;
    } else {
      assert (a + b)[..|a + b| - 1] == a + b[..|b| - 1];
      AddTextConcat(lines, a, b[..|b| - 1]);
    }
  }

  /** Finished lines in front stay in front. */
  lemma {:induction false} AddTextAfter(front: seq<string>, lines: seq<string>, text: string)
    requires lines != []
    ensures AddText(front + lines, text) == front + AddText(lines, text)
  {
    if text != [] {
      AddTextAfter(front, lines, text[..|text| - 1]);
      AddCharAfter(front, AddText(lines, text[..|text| - 1]), text[|text| - 1]);
    }
  }

  lemma AddCharAfter(front: seq<string>, lines: seq<string>, c: char)
    requires lines != []
    ensures AddChar(front + lines, c) == front + AddChar(lines, c)
  {
    if c == '\n' {
      assert front + lines + [""] == front + (lines + [""]);
    } else {
      assert (front + lines)[..|front + lines| - 1] == front + lines[..|lines| - 1];
    }
  }

  /** Splitting in two parts: the first part's last line runs on into the second part. */
  lemma SplitConcat(a: string, b: string)
    ensures SplitLines(a + b) == Terminated(a) + SplitLines(Rest(a) + b)
  {
    AddTextConcat([""], a, b);
    LinesAre(a);
    AddTextAfter(Terminated(a), [Rest(a)], b);
    AddTextConcat([""], Rest(a), b);
    LastLineAlone(a);
  }

  lemma LinesAre(text: string)
    ensures SplitLines(text) == Terminated(text) + [Rest(text)]
  {
  }

  /** The last line holds no line feed, so it splits to itself. */
  lemma {:induction false} LastLineAlone(a: string)
    ensures SplitLines(Rest(a)) == [Rest(a)]
  {
    if a != [] {
      var init, c := a[..|a| - 1], a[|a| - 1];
      LastLineAlone(init);
      if c != '\n' { assert Rest(a)[..|Rest(a)| - 1] == Rest(init); }
    }
  }

  /** Lines already framed stay framed when more follow. */
  lemma {:induction false} FramesConcat(a: seq<string>, b: seq<string>)
    ensures var first, all := Frames(a), Frames(a + b);
      && first.payloads <= all.payloads
      && (first.done ==> all == first)
      && (!first.done ==> all.done == Frames(b).done && all.payloads == first.payloads + Frames(b).payloads)
  {
    if b == [] {
      assert a + b == a;
      assert Frames(a).payloads + [] == Frames(a).payloads;
    } else {
      assert (a + b)[..|a + b| - 1] == a + b[..|b| - 1];
      FramesConcat(a, b[..|b| - 1]);
      var data := DataOf(b[|b| - 1]);
      if data.Some? {
        assert Frames(a).payloads + Frames(b[..|b| - 1]).payloads + [data.value]
          == Frames(a).payloads + (Frames(b[..|b| - 1]).payloads + [data.value]);
      }
    }
  }

  lemma {:induction false} DeliveredIs(inputs: seq<ReadResult>, k: nat)
    requires k <= |inputs| && forall i :: 0 <= i < k ==> inputs[i].Chunk?
    requires k == |inputs| || inputs[k].Rejected?
    ensures Delivered(inputs) == inputs[..k]
  {
    if k > 0 { DeliveredIs(inputs[1..], k - 1); }
  }

  /** The decoder and text after k chunks. */
  function DecodedAt(inputs: seq<ReadResult>, k: nat): (Decoder, string)
    requires k <= |inputs| && forall i :: 0 <= i < k ==> inputs[i].Chunk?
  {
    Decode(FRESH, BytesOf(inputs[..k]))
  }

  lemma DecodedNext(inputs: seq<ReadResult>, k: nat)
    requires k < |inputs| && forall i :: 0 <= i <= k ==> inputs[i].Chunk?
    ensures var (d, text) := DecodedAt(inputs, k);
      DecodedAt(inputs, k + 1) == (Decode(d, inputs[k].bytes).0, text + Decode(d, inputs[k].bytes).1)
  {
    assert inputs[..k + 1][..k] == inputs[..k];
    DecodeConcat(FRESH, BytesOf(inputs[..k]), inputs[k].bytes);
  }

  /** The terminated lines of the text so far, and the unterminated rest. */
  function Terminated(text: string): seq<string> {
    SplitLines(text)[..|SplitLines(text)| - 1]
  }

  function Rest(text: string): string {
    SplitLines(text)[|SplitLines(text)| - 1]
  }

  /** Later text only adds lines after the terminated ones. */
  lemma TerminatedGrows(text: string, more: string)
    ensures Terminated(text + more) == Terminated(text) + Terminated(Rest(text) + more)
    ensures Rest(text + more) == Rest(Rest(text) + more)
  {
    SplitConcat(text, more);
  }

  /** Terminated lines of the first k chunks come first among all lines that will be framed. */
  lemma {:induction false} LinesExtend(inputs: seq<ReadResult>, k: nat)
    requires k <= |inputs| && forall i :: 0 <= i < k ==> inputs[i].Chunk?
    ensures Terminated(DecodedAt(inputs, k).1) <= LinesOf(inputs)
    decreases |inputs| - k
  {
    if k < |inputs| && inputs[k].Chunk? {
      LinesExtend(inputs, k + 1);
      ChunkAdvances(inputs, k);
    } else {
      DeliveredIs(inputs, k);
      assert inputs[..|inputs|] == inputs;
    }
  }

  /** One more chunk: how the buffer, the terminated lines and their frames advance. */
  lemma ChunkAdvances(inputs: seq<ReadResult>, k: nat)
    requires k < |inputs| && forall i :: 0 <= i <= k ==> inputs[i].Chunk?
    ensures var (d, text) := DecodedAt(inputs, k);
      var lines := SplitLines(Rest(text) + Decode(d, inputs[k].bytes).1);
      && DecodedAt(inputs, k + 1).0 == Decode(d, inputs[k].bytes).0
      && Rest(DecodedAt(inputs, k + 1).1) == lines[|lines| - 1]
      && Terminated(DecodedAt(inputs, k + 1).1) == Terminated(text) + lines[..|lines| - 1]
  {
    var (d, text) := DecodedAt(inputs, k);
    DecodedNext(inputs, k);
    TerminatedGrows(text, Decode(d, inputs[k].bytes).1);
  }

  /** Frames of what is terminated so far are final. */
  lemma FramesSoFar(inputs: seq<ReadResult>, k: nat)
    requires k <= |inputs| && forall i :: 0 <= i < k ==> inputs[i].Chunk?
    ensures var framed, all := Frames(Terminated(DecodedAt(inputs, k).1)), Frames(LinesOf(inputs));
      framed.payloads <= all.payloads && (framed.done ==> all == framed)
  {
    LinesExtend(inputs, k);
    var terminated := Terminated(DecodedAt(inputs, k).1);
    assert LinesOf(inputs) == terminated + LinesOf(inputs)[|terminated|..];
    FramesConcat(terminated, LinesOf(inputs)[|terminated|..]);
  }

  /** The end of the stream flushes the buffered rest as a last line. */
  lemma EndFlushes(inputs: seq<ReadResult>)
    requires forall i :: 0 <= i < |inputs| ==> inputs[i].Chunk?
    ensures var text := DecodedAt(inputs, |inputs|).1;
      && Delivered(inputs) == inputs
      && LinesOf(inputs) == Terminated(text) + SplitLines(Rest(text))
  {
    DeliveredIs(inputs, |inputs|);
    assert inputs[..|inputs|] == inputs;
    var text := DecodedAt(inputs, |inputs|).1;
    assert TextOf(inputs) == text;
    LinesAre(text);
    LastLineAlone(text);
  }

  /** A rejected read leaves exactly the terminated lines framed. */
  lemma RejectionKeepsTerminated(inputs: seq<ReadResult>, k: nat)
    requires k < |inputs| && inputs[k].Rejected? && forall i :: 0 <= i < k ==> inputs[i].Chunk?
    ensures Delivered(inputs) != inputs && LinesOf(inputs) == Terminated(DecodedAt(inputs, k).1)
  {
    DeliveredIs(inputs, k);
  }

  // ---- the stream as a server writes it --------------------------------------------------------

  /** A line as a server writes it: a data line with its payload and the padding round it, or any other line. */
  datatype Sent = Data(before: string, payload: string, after: string) | Other(line: string)

  function Wire(s: Sent): string {
    match s
    case Data(before, payload, after) => "data: " + before + payload + after
    case Other(line) => line
  }

  /** The white space of ECMAScript, line terminators included. */
  const WHITE: set<char> := {
    '\t', '\n', '\U{0B}', '\U{0C}', '\r', ' ', '\U{A0}', '\U{1680}', '\U{2000}', '\U{2001}', '\U{2002}', '\U{2003}',
    '\U{2004}', '\U{2005}', '\U{2006}', '\U{2007}', '\U{2008}', '\U{2009}', '\U{200A}', '\U{2028}', '\U{2029}',
    '\U{202F}', '\U{205F}', '\U{3000}', '\U{FEFF}'
  }

  predicate Padding(s: string) {
    forall i :: 0 <= i < |s| ==> s[i] in WHITE
  }

  /** No line feed inside; a payload has no white space at its ends, and another line does not look like data. */
  predicate Proper(s: Sent) {
    '\n' !in Wire(s) &&
    match s
    case Data(before, payload, after) =>
      && Padding(before) && Padding(after)
      && (payload != "" ==> payload[0] !in WHITE && payload[|payload| - 1] !in WHITE)
    case Other(line) => !("data: " <= line)
  }

  ghost predicate AllProper(sent: seq<Sent>) {
    forall i :: 0 <= i < |sent| ==> Proper(sent[i])
  }

  /** Each line ended by a line feed. */
  function Written(lines: seq<string>): string {
    if lines == [] then "" else Written(lines[..|lines| - 1]) + (lines[|lines| - 1] + "\n")
  }

  function Wires(sent: seq<Sent>): (lines: seq<string>)
    ensures |lines| == |sent| && forall i :: 0 <= i < |lines| ==> lines[i] == Wire(sent[i])
  {
    seq(|sent|, i requires 0 <= i < |sent| => Wire(sent[i]))
  }

  function OpenText(lines: seq<string>, open: bool): string {
    if open && lines != [] then Written(lines[..|lines| - 1]) + lines[|lines| - 1] else Written(lines)
  }

  /** All the lines written, the last line feed left out if the stream ends without one. */
  function StreamText(sent: seq<Sent>, open: bool): string {
    OpenText(Wires(sent), open)
  }

  predicate IsDone(s: Sent) {
    s.Data? && s.payload == "[DONE]"
  }

  /** The payloads of the data lines in order, up to the first that is [DONE]. */
  function Payloads(sent: seq<Sent>): seq<string> {
    if sent == [] || IsDone(sent[0]) then []
    else (if sent[0].Data? then [sent[0].payload] else []) + Payloads(sent[1..])
  }

  lemma SpaceIs(c: char)
    ensures IsJsSpace(c) <==> c in WHITE
  {
    if '\U{2000}' <= c <= '\U{200A}' {
      assert c as int - 0x2000 in {0, 1, 2, 3, 4, 5, 6, 7, 8, 9, 10};
    }
  }

  lemma {:induction false} TrimStartIs(before: string, rest: string)
    requires Padding(before) && (rest != "" ==> rest[0] !in WHITE)
    ensures TrimStart(before + rest) == rest
  {
    if before == "" {
      assert before + rest == rest;
      if rest != "" { SpaceIs(rest[0]); }
    } else {
      SpaceIs(before[0]);
      assert (before + rest)[1..] == before[1..] + rest;
      TrimStartIs(before[1..], rest);
    }
  }

  lemma {:induction false} TrimEndIs(rest: string, after: string)
    requires Padding(after) && (rest != "" ==> rest[|rest| - 1] !in WHITE)
    ensures TrimEnd(rest + after) == rest
  {
    if after == "" {
      assert rest + after == rest;
      if rest != "" { SpaceIs(rest[|rest| - 1]); }
    } else {
      SpaceIs(after[|after| - 1]);
      assert (rest + after)[..|rest + after| - 1] == rest + after[..|after| - 1];
      TrimEndIs(rest, after[..|after| - 1]);
    }
  }

  lemma TrimmedNothing(before: string, after: string)
    requires Padding(before) && Padding(after)
    ensures TrimStart(before + after) == ""
  {
    assert before + after == (before + after) + "";
    TrimStartIs(before + after, "");
  }

  lemma TrimmedStart(before: string, payload: string, after: string)
    requires Padding(before) && payload != "" && payload[0] !in WHITE
    ensures TrimStart(before + payload + after) == payload + after
  {
    assert before + payload + after == before + (payload + after);
    TrimStartIs(before, payload + after);
  }

  lemma TrimmedPayload(before: string, payload: string, after: string)
    requires Padding(before) && Padding(after)
    requires payload != "" ==> payload[0] !in WHITE && payload[|payload| - 1] !in WHITE
    ensures TrimEnd(TrimStart(before + payload + after)) == payload
  {
    if payload == "" {
      assert before + payload + after == before + after;
      TrimmedNothing(before, after);
    } else {
      TrimmedStart(before, payload, after);
      TrimEndIs(payload, after);
    }
  }

  lemma DataLine(value: string)
    ensures DataOf("data: " + value) == Some(TrimEnd(TrimStart(value)))
  {
    assert ("data: " + value)[6..] == value;
  }

  /** Padding round a payload goes; only a data line has a payload. */
  lemma DataOfSent(s: Sent)
    requires Proper(s)
    ensures DataOf(Wire(s)) == if s.Data? then Some(s.payload) else None
  {
    if s.Data? {
      assert Wire(s) == "data: " + (s.before + s.payload + s.after);
      DataLine(s.before + s.payload + s.after);
      TrimmedPayload(s.before, s.payload, s.after);
    }
  }

  lemma {:induction false} AddPlain(lines: seq<string>, text: string)
    requires lines != [] && '\n' !in text
    ensures AddText(lines, text) == lines[..|lines| - 1] + [lines[|lines| - 1] + text]
  {
    if text == "" {
      assert lines[|lines| - 1] + "" == lines[|lines| - 1];
    } else {
      var init, c := text[..|text| - 1], text[|text| - 1];
      assert text == init + [c];
      AddPlain(lines, init);
      assert (lines[|lines| - 1] + init) + [c] == lines[|lines| - 1] + text;
    }
  }

  /** A line feed, and the beginning of one more line. */
  lemma NextSplit(text: string, lines: seq<string>, more: string)
    requires lines != [] && SplitLines(text) == lines && '\n' !in more
    ensures SplitLines(text + "\n" + more) == lines + [more]
  {
    AddTextConcat([""], text, "\n");
    AddTextConcat([""], text + "\n", more);
    LineFeed(lines);
    AddPlain(lines + [""], more);
    assert "" + more == more;
  }

  /** The lines of what was written so far, and one more without a line feed. */
  lemma {:induction false} SplitWritten(lines: seq<string>, more: string)
    requires (forall i :: 0 <= i < |lines| ==> '\n' !in lines[i]) && '\n' !in more
    ensures SplitLines(Written(lines) + more) == lines + [more]
  {
    if lines == [] {
      AddPlain([""], more);
      assert Written(lines) + more == more && "" + more == more;
    } else {
      var init, last := lines[..|lines| - 1], lines[|lines| - 1];
      SplitWritten(init, last);
      assert lines == init + [last];
      NextSplit(Written(init) + last, lines, more);
      assert Written(lines) + more == Written(init) + last + "\n" + more;
    }
  }

  lemma LineFeed(lines: seq<string>)
    requires lines != []
    ensures AddText(lines, "\n") == lines + [""]
  {
    assert AddText(lines, []) == lines;
    assert "\n"[..0] == [];
  }

  lemma {:induction false} PayloadsNext(sent: seq<Sent>, last: Sent)
    ensures Payloads(sent + [last])
         == if (exists i :: 0 <= i < |sent| && IsDone(sent[i])) || IsDone(last) || last.Other? then Payloads(sent)
            else Payloads(sent) + [last.payload]
  {
    if sent == [] {
      assert sent + [last] == [last] && [last][1..] == [];
    } else if !IsDone(sent[0]) {
      assert (sent + [last])[1..] == sent[1..] + [last];
      PayloadsNext(sent[1..], last);
      assert (exists i :: 0 <= i < |sent| && IsDone(sent[i])) <==>
             exists i :: 0 <= i < |sent[1..]| && IsDone(sent[1..][i]) by {
        if i :| 0 <= i < |sent| && IsDone(sent[i]) { assert sent[1..][i - 1] == sent[i]; }
      }
    }
  }

  ghost predicate HasDone(sent: seq<Sent>) {
    exists i :: 0 <= i < |sent| && IsDone(sent[i])
  }

  lemma DoneNext(sent: seq<Sent>, last: Sent)
    ensures HasDone(sent + [last]) <==> HasDone(sent) || IsDone(last)
  {
    var all := sent + [last];
    if i :| 0 <= i < |sent| && IsDone(sent[i]) { assert all[i] == sent[i]; }
    assert all[|sent|] == last;
  }

  lemma WiresNext(sent: seq<Sent>, last: Sent)
    ensures Wires(sent + [last]) == Wires(sent) + [Wire(last)]
  {
  }

  /** One more line, framed after those before it. */
  lemma FramesOneMore(lines: seq<string>, line: string)
    ensures Frames(lines + [line]) ==
      var before, data := Frames(lines), DataOf(line);
      if before.done || data.None? then before
      else if data.value == SENTINEL then Framed(before.payloads, true)
      else Framed(before.payloads + [data.value], false)
  {
    assert (lines + [line])[..|lines|] == lines;
  }

  lemma FramesSentNext(sent: seq<Sent>, last: Sent)
    requires Frames(Wires(sent)) == Framed(Payloads(sent), HasDone(sent)) && Proper(last)
    ensures Frames(Wires(sent + [last])) == Framed(Payloads(sent + [last]), HasDone(sent + [last]))
  {
    WiresNext(sent, last);
    FramesOneMore(Wires(sent), Wire(last));
    DataOfSent(last);
    PayloadsNext(sent, last);
    DoneNext(sent, last);
  }

  /** Framing the lines a server wrote gives their payloads, up to the sentinel. */
  lemma {:induction false} FramesSent(sent: seq<Sent>)
    requires AllProper(sent)
    ensures Frames(Wires(sent)) == Framed(Payloads(sent), HasDone(sent))
  {
    if sent != [] {
      var init, last := sent[..|sent| - 1], sent[|sent| - 1];
      FramesSent(init);
      FramesSentNext(init, last);
      assert sent == init + [last];
    }
  }

  /** Nothing but whole reads, carrying the bytes of these lines. */
  ghost predicate Carries(inputs: seq<ReadResult>, sent: seq<Sent>, open: bool) {
    && (forall i :: 0 <= i < |inputs| ==> inputs[i].Chunk?) && AllProper(sent)
    && BytesOf(inputs) == Encode(StreamText(sent, open))
    && (StreamText(sent, open) != "" ==> StreamText(sent, open)[0] != '\U{FEFF}')
  }

  lemma FramesClosed(lines: seq<string>)
    requires forall i :: 0 <= i < |lines| ==> '\n' !in lines[i]
    ensures Frames(SplitLines(Written(lines))) == Frames(lines)
  {
    SplitWritten(lines, "");
    assert Written(lines) + "" == Written(lines);
    FrameNothing(lines);
  }

  lemma SplitOpen(lines: seq<string>)
    requires lines != [] && forall i :: 0 <= i < |lines| ==> '\n' !in lines[i]
    ensures SplitLines(Written(lines[..|lines| - 1]) + lines[|lines| - 1]) == lines
  {
    SplitWritten(lines[..|lines| - 1], lines[|lines| - 1]);
    assert lines == lines[..|lines| - 1] + [lines[|lines| - 1]];
  }

  lemma FramesWritten(lines: seq<string>, open: bool)
    requires forall i :: 0 <= i < |lines| ==> '\n' !in lines[i]
    ensures Frames(SplitLines(OpenText(lines, open))) == Frames(lines)
  {
    if open && lines != [] { SplitOpen(lines); } else { FramesClosed(lines); }
  }

  lemma StreamFrames(sent: seq<Sent>, open: bool)
    requires AllProper(sent)
    ensures Frames(SplitLines(StreamText(sent, open))) == Framed(Payloads(sent), HasDone(sent))
  {
    FramesSent(sent);
    NoFeeds(sent);
    FramesWritten(Wires(sent), open);
  }

  lemma NoFeeds(sent: seq<Sent>)
    requires AllProper(sent)
    ensures forall i :: 0 <= i < |Wires(sent)| ==> '\n' !in Wires(sent)[i]
  {
    forall i | 0 <= i < |sent| ensures '\n' !in Wire(sent[i]) { assert Proper(sent[i]); }
  }

  lemma CarriedFrames(inputs: seq<ReadResult>, sent: seq<Sent>, open: bool)
    requires Carries(inputs, sent, open)
    ensures Delivered(inputs) == inputs && Frames(LinesOf(inputs)) == Framed(Payloads(sent), HasDone(sent))
  {
    StreamFrames(sent, open);
    CarriedText(inputs, StreamText(sent, open));
  }

  lemma CarriedText(inputs: seq<ReadResult>, text: string)
    requires forall i :: 0 <= i < |inputs| ==> inputs[i].Chunk?
    requires BytesOf(inputs) == Encode(text) && (text != "" ==> text[0] != '\U{FEFF}')
    ensures Delivered(inputs) == inputs && LinesOf(inputs) == SplitLines(text)
  {
    DeliveredIs(inputs, |inputs|);
    assert inputs[..|inputs|] == inputs;
    DecodeEncode(text);
  }

  lemma FrameNothing(lines: seq<string>)
    ensures Frames(lines + [""]) == Frames(lines)
  {
    assert (lines + [""])[..|lines|] == lines;
  }

  // ---- the generator ---------------------------------------------------------------------------

  /** One line framed after those before it, and kept by those after it. */
  lemma NextLine(lines: seq<string>, i: nat)
    requires i < |lines| && !Frames(lines[..i]).done
    ensures var so, next, data := Frames(lines[..i]), Frames(lines[..i + 1]), DataOf(lines[i]);
      && next == (if data.None? then so
                  else if data.value == SENTINEL then Framed(so.payloads, true)
                  else Framed(so.payloads + [data.value], false))
      && next.payloads <= Frames(lines).payloads && (next.done ==> Frames(lines) == next)
  {
    PrefixNext(lines, i);
    NextFramed(lines[..i], lines[i]);
    FramedFirst(lines, lines[..i + 1], lines[i + 1..]);
  }

  lemma FramedFirst(lines: seq<string>, a: seq<string>, b: seq<string>)
    requires lines == a + b
    ensures Frames(a).payloads <= Frames(lines).payloads && (Frames(a).done ==> Frames(lines) == Frames(a))
  {
    FramesConcat(a, b);
  }

  lemma NextFramed(so: seq<string>, line: string)
    requires !Frames(so).done
    ensures var before, data := Frames(so), DataOf(line);
      Frames(so + [line]) == if data.None? then before else if data.value == SENTINEL then Framed(before.payloads, true)
                             else Framed(before.payloads + [data.value], false)
  {
    assert (so + [line])[..|so|] == so;
  }

  /** Why the emission stops when it has come to these payloads, if it does. */
  function StopOf(payloads: seq<string>, done: bool, demand: nat): Option<Exit> {
    if |payloads| >= demand then Some(ConsumerStopped) else if done then Some(SentinelSeen) else None
  }

  /** The inner loop: one batch of lines, yielding until the sentinel or the consumer's last demand. */
  method EmitLines(lines: seq<string>, before: seq<string>, demand: nat)
    returns (emitted: seq<string>, exit: Option<Exit>)
    requires |before| < demand
    ensures emitted == Take(before + Frames(lines).payloads, demand)
    ensures exit == StopOf(before + Frames(lines).payloads, Frames(lines).done, demand)
  {
    emitted := before;
    for i := 0 to |lines|
      invariant !Frames(lines[..i]).done
      invariant emitted == before + Frames(lines[..i]).payloads && |emitted| < demand
    {
      var data := DataOf(lines[i]);
      NextLine(lines, i);
      if data.Some? {
        if data.value == SENTINEL {
          return emitted, Some(SentinelSeen);
        }
        emitted := emitted + [data.value];
        if |emitted| == demand {
          return emitted, Some(ConsumerStopped);
        }
      }
    }
    assert lines[..|lines|] == lines;
    exit := None;
  }

  /** Where the generator stands after k chunks, none of them having ended it. */
  ghost predicate Underway(inputs: seq<ReadResult>, k: nat, decoder: Decoder, buffer: string, emitted: seq<string>,
                           demand: nat) {
    && k <= |inputs| && (forall i :: 0 <= i < k ==> inputs[i].Chunk?)
    && decoder == DecodedAt(inputs, k).0 && buffer == Rest(DecodedAt(inputs, k).1)
    && Frames(Terminated(DecodedAt(inputs, k).1)) == Framed(emitted, false) && |emitted| < demand
  }

  /** The generator has ended as the whole stream says it should. */
  ghost predicate Ended(inputs: seq<ReadResult>, emitted: seq<string>, exit: Exit, demand: nat) {
    emitted == Take(Frames(LinesOf(inputs)).payloads, demand) && exit == ExitOf(inputs, demand)
  }

  /** The frames of what is terminated after one more chunk: those before it, then those of its own lines. */
  lemma ChunkFrames(inputs: seq<ReadResult>, k: nat, lines: seq<string>)
    requires k < |inputs| && forall i :: 0 <= i <= k ==> inputs[i].Chunk?
    requires var (d, text) := DecodedAt(inputs, k);
      lines == SplitLines(Rest(text) + Decode(d, inputs[k].bytes).1)
    requires !Frames(Terminated(DecodedAt(inputs, k).1)).done
    ensures lines != [] && Rest(DecodedAt(inputs, k + 1).1) == lines[|lines| - 1]
    ensures var before, own := Frames(Terminated(DecodedAt(inputs, k).1)), Frames(lines[..|lines| - 1]);
      Frames(Terminated(DecodedAt(inputs, k + 1).1)) == Framed(before.payloads + own.payloads, own.done)
  {
    ChunkAdvances(inputs, k);
    FramesConcat(Terminated(DecodedAt(inputs, k).1), lines[..|lines| - 1]);
  }

  /** An emission that stops on the terminated lines stops as the whole stream says. */
  lemma StopsAsTheWhole(inputs: seq<ReadResult>, k: nat, demand: nat)
    requires k <= |inputs| && forall i :: 0 <= i < k ==> inputs[i].Chunk?
    ensures var framed := Frames(Terminated(DecodedAt(inputs, k).1));
      var stop := StopOf(framed.payloads, framed.done, demand);
      stop.Some? ==> Ended(inputs, Take(framed.payloads, demand), stop.value, demand)
  {
    FramesSoFar(inputs, k);
    TakeOfPrefix(Frames(Terminated(DecodedAt(inputs, k).1)).payloads, Frames(LinesOf(inputs)).payloads, demand);
  }

  lemma TakeOfPrefix<T>(s: seq<T>, all: seq<T>, n: nat)
    requires s <= all
    ensures n <= |s| ==> Take(s, n) == Take(all, n)
  {
  }

  /** One chunk: decode, split, keep the unterminated rest, emit the terminated lines. */
  method FeedChunk(ghost inputs: seq<ReadResult>, ghost k: nat, decoder: Decoder, buffer: string, bytes: seq<byte>,
                   before: seq<string>, demand: nat)
    returns (decoder': Decoder, buffer': string, emitted: seq<string>, stop: Option<Exit>)
    requires Underway(inputs, k, decoder, buffer, before, demand) && k < |inputs| && inputs[k] == Chunk(bytes)
    ensures stop.None? ==> Underway(inputs, k + 1, decoder', buffer', emitted, demand)
    ensures stop.Some? ==> Ended(inputs, emitted, stop.value, demand)
  {
    var decoded := Decode(decoder, bytes);
    var lines := SplitLines(buffer + decoded.1);
    decoder', buffer' := decoded.0, lines[|lines| - 1];
    emitted, stop := EmitLines(lines[..|lines| - 1], before, demand);
    DecodedNext(inputs, k);
    ChunkFrames(inputs, k, lines);
    StopsAsTheWhole(inputs, k + 1, demand);
  }

  /** The end of the stream: the rest is one more line. */
  method Flush(ghost inputs: seq<ReadResult>, ghost decoder: Decoder, buffer: string, before: seq<string>, demand: nat)
    returns (emitted: seq<string>, exit: Exit)
    requires Underway(inputs, |inputs|, decoder, buffer, before, demand)
    ensures Ended(inputs, emitted, exit, demand)
  {
    ghost var terminated := Terminated(DecodedAt(inputs, |inputs|).1);
    EndFlushes(inputs);
    var lines := SplitLines(buffer);
    FramesConcat(terminated, lines);
    var stop: Option<Exit>;
    emitted, stop := EmitLines(lines, before, demand);
    exit := if stop.Some? then stop.value else Finished;
  }

  lemma RejectedEnds(inputs: seq<ReadResult>, k: nat, decoder: Decoder, buffer: string, emitted: seq<string>,
                     demand: nat)
    requires Underway(inputs, k, decoder, buffer, emitted, demand) && k < |inputs| && inputs[k].Rejected?
    ensures Ended(inputs, emitted, ReadFailed, demand)
  {
    RejectionKeepsTerminated(inputs, k);
  }

  lemma StartsUnderway(inputs: seq<ReadResult>, demand: nat)
    requires demand > 0
    ensures Underway(inputs, 0, FRESH, "", [], demand)
  {
    assert inputs[..0] == [];
    assert Decode(FRESH, []) == (FRESH, "");
    assert SplitLines("") == [""];
  }

  /** The body of the loop: what one answer does to the generator. */
  method HandleAnswer(ghost inputs: seq<ReadResult>, ghost k: nat, answer: Answer, decoder: Decoder, buffer: string,
                      before: seq<string>, demand: nat)
    returns (decoder': Decoder, buffer': string, emitted: seq<string>, stop: Option<Exit>)
    requires Underway(inputs, k, decoder, buffer, before, demand) && answer == AnswerAt(inputs, k)
    ensures stop.None? ==> k < |inputs| && Underway(inputs, k + 1, decoder', buffer', emitted, demand)
    ensures stop.Some? ==> Ended(inputs, emitted, stop.value, demand)
  {
    decoder', buffer', emitted := decoder, buffer, before;
    match answer {
      case Throws =>
        RejectedEnds(inputs, k, decoder, buffer, before, demand);
        stop := Some(ReadFailed);
      case Done =>
        var exit: Exit;
        emitted, exit := Flush(inputs, decoder, buffer, before, demand);
        stop := Some(exit);
      case Value(bytes) =>
        decoder', buffer', emitted, stop := FeedChunk(inputs, k, decoder, buffer, bytes, before, demand);
    }
  }

  /**
   * readSSEFrames driven by a consumer that asks for at most `demand` payloads.
   * For every cut of the bytes into chunks the payloads are those of framing the
   * whole decoded text at once, and every exit cancels the reader exactly once.
   */
  method ReadSSEFrames(reader: StreamReader, demand: nat) returns (emitted: seq<string>, exit: Exit)
    requires reader.position == 0 && demand > 0
    modifies reader
    ensures emitted == Take(Frames(LinesOf(reader.inputs)).payloads, demand)
    ensures exit == ExitOf(reader.inputs, demand)
    ensures forall sent, open :: Carries(reader.inputs, sent, open) ==>
      var payloads := Payloads(sent);
      && emitted == (if |payloads| <= demand then payloads else payloads[..demand])
      && exit == if |payloads| >= demand then ConsumerStopped else if HasDone(sent) then SentinelSeen else Finished
    ensures reader.cancels == old(reader.cancels) + 1
  {
    var decoder: Decoder := FRESH;
    var buffer := "";
    var stop: Option<Exit> := None;
    emitted := [];
    StartsUnderway(reader.inputs, demand);
    while stop.None?
      invariant reader.cancels == old(reader.cancels)
      invariant stop.None? ==> Underway(reader.inputs, reader.position, decoder, buffer, emitted, demand)
      invariant stop.Some? ==> Ended(reader.inputs, emitted, stop.value, demand)
      decreases stop.None?, |reader.inputs| - reader.position
    {
      ghost var k := reader.position;
      var answer := reader.Read();
      decoder, buffer, emitted, stop := HandleAnswer(reader.inputs, k, answer, decoder, buffer, emitted, demand);
    }
    reader.Cancel();
    exit := stop.value;
    forall sent, open | Carries(reader.inputs, sent, open)
      ensures Frames(LinesOf(reader.inputs)) == Framed(Payloads(sent), HasDone(sent)) &&
              Delivered(reader.inputs) == reader.inputs
    {
      CarriedFrames(reader.inputs, sent, open);
    }
  }

  // ---- results -----------------------------------------------------------------------------------

  /** Chunks of bytes, in order, as reads. */
  function AsReads(chunks: seq<seq<byte>>): (r: seq<ReadResult>)
    ensures |r| == |chunks| && forall i :: 0 <= i < |r| ==> r[i] == Chunk(chunks[i])
  {
    seq(|chunks|, i requires 0 <= i < |chunks| => Chunk(chunks[i]))
  }

  function Flatten(chunks: seq<seq<byte>>): seq<byte> {
    if chunks == [] then [] else Flatten(chunks[..|chunks| - 1]) + chunks[|chunks| - 1]
  }

  lemma {:induction false} BytesOfReads(chunks: seq<seq<byte>>)
    ensures BytesOf(AsReads(chunks)) == Flatten(chunks)
  {
    if chunks != [] {
      BytesOfReads(chunks[..|chunks| - 1]);
      assert AsReads(chunks)[..|chunks| - 1] == AsReads(chunks[..|chunks| - 1]);
    }
  }

  /**
   * The chunking law: however a text's bytes are cut, even inside a character,
   * with empty chunks and without a final newline, framing sees the lines of the text
   * after any byte order mark.
   */
  lemma ChunkingDoesNotMatter(text: string, chunks: seq<seq<byte>>)
    requires Flatten(chunks) == Encode(text)
    ensures LinesOf(AsReads(chunks)) == SplitLines(Unmarked(text))
  {
    var inputs := AsReads(chunks);
    DeliveredIs(inputs, |inputs|);
    assert inputs[..|inputs|] == inputs;
    BytesOfReads(chunks);
    DecodeEncode(text);
  }

  // ---- typed events ------------------------------------------------------------------------------

  /** _postSSEStream: payloads that parse and validate, in order; the others are skipped. */
  method TypedEvents<T>(payloads: seq<string>, decode: string -> Option<T>) returns (events: seq<T>)
    ensures events == Accepted(payloads, decode)
  {
    events := [];
    for i := 0 to |payloads|
      invariant events == Accepted(payloads[..i], decode)
    {
      assert payloads[..i + 1][..i] == payloads[..i];
      var parsed := decode(payloads[i]);
      if parsed.Some? { events := events + [parsed.value]; }
    }
    assert payloads[..|payloads|] == payloads;
  }

  function Accepted<T>(payloads: seq<string>, decode: string -> Option<T>): seq<T> {
    if payloads == [] then []
    else
      var parsed := decode(payloads[|payloads| - 1]);
      Accepted(payloads[..|payloads| - 1], decode) + if parsed.Some? then [parsed.value] else []
  }

  /** The values are those of the payloads that decode, each at its turn: at lists their positions. */
  ghost predicate InTurn<T>(payloads: seq<string>, decode: string -> Option<T>, values: seq<T>, at: seq<nat>) {
    && |at| == |values|
    && (forall j, k :: 0 <= j < k < |at| ==> at[j] < at[k])
    && (forall j :: 0 <= j < |at| ==> at[j] < |payloads| && decode(payloads[at[j]]) == Some(values[j]))
    && (forall i: nat :: i < |payloads| && decode(payloads[i]).Some? ==> i in at)
  }

  lemma InTurnNext<T>(payloads: seq<string>, decode: string -> Option<T>, values: seq<T>, at: seq<nat>, last: string)
    requires InTurn(payloads, decode, values, at)
    ensures decode(last).None? ==> InTurn(payloads + [last], decode, values, at)
    ensures decode(last).Some? ==> InTurn(payloads + [last], decode, values + [decode(last).value], at + [|payloads|])
  {
    var longer := at + [|payloads|];
    assert forall i :: i in at ==> i in longer;
    assert longer[|at|] == |payloads|;
  }

  /** The events are exactly the payloads that decode, in payload order. */
  lemma {:induction false} AcceptedAre<T>(payloads: seq<string>, decode: string -> Option<T>) returns (at: seq<nat>)
    ensures InTurn(payloads, decode, Accepted(payloads, decode), at)
  {
    if payloads == [] {
      at := [];
    } else {
      var init, last := payloads[..|payloads| - 1], payloads[|payloads| - 1];
      at := AcceptedAre(init, decode);
      InTurnNext(init, decode, Accepted(init, decode), at, last);
      assert payloads == init + [last];
      if decode(last).Some? { at := at + [|init|]; }
    }
  }

  /** A malformed frame anywhere costs only itself. */
  lemma {:induction false} MalformedFrameSkipped<T>(before: seq<string>, bad: string, after: seq<string>,
                                                    decode: string -> Option<T>)
    requires decode(bad).None?
    ensures Accepted(before + [bad] + after, decode) == Accepted(before + after, decode)
  {
    if after == [] {
      assert (before + [bad] + after)[..|before|] == before && before + after == before;
      assert before + [bad] + after == before + [bad];
    } else {
      var init := after[..|after| - 1];
      MalformedFrameSkipped(before, bad, init, decode);
      assert (before + [bad] + after)[..|before| + |after|] == before + [bad] + init;
      assert (before + after)[..|before| + |after| - 1] == before + init;
    }
  }
}
