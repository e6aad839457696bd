/**
 * The incremental decoder readSSEFrames feeds: TextDecoder's UTF-8 decoder as
 * section 8.1.1 of the WHATWG Encoding Standard defines it, one byte at a time,
 * and the encoding of RFC 3629 it inverts.
 */
module Utf8 {
  import opened Base

  /** bomSeen is the serializer's flag; the rest is the decoder's pending sequence. */
  datatype RawDecoder = RawDecoder(bomSeen: bool, codePoint: nat, seen: nat, needed: nat, lower: nat, upper: nat)

  /** Pending sequences can only end in a Unicode scalar value. */
  predicate ValidDecoder(d: RawDecoder) {
    && 0x80 <= d.lower && d.upper <= 0xBF
    && (d.seen > 0 ==> d.lower == 0x80 && d.upper == 0xBF)
    && match d.needed
       case 0 => d.codePoint == 0 && d.seen == 0 && d.lower == 0x80 && d.upper == 0xBF
       case 1 => d.seen == 0 && 2 <= d.codePoint < 0x20
       case 2 =>
         || (d.seen == 0 && d.codePoint < 0x10
             && (d.codePoint == 0 ==> d.lower >= 0xA0) && (d.codePoint == 0xD ==> d.upper <= 0x9F))
         || (d.seen == 1 && 0x20 <= d.codePoint < 0x400 && !(0x360 <= d.codePoint < 0x380))
       case 3 =>
         || (d.seen == 0 && d.codePoint <= 4
             && (d.codePoint == 0 ==> d.lower >= 0x90) && (d.codePoint == 4 ==> d.upper <= 0x8F))
         || (d.seen == 1 && 0x10 <= d.codePoint < 0x110)
         || (d.seen == 2 && 0x400 <= d.codePoint < 0x4400)
       case _ => false
  }

  type Decoder = d: RawDecoder | ValidDecoder(d) witness RawDecoder(false, 0, 0, 0, 0x80, 0xBF)

  const FRESH: Decoder := RawDecoder(false, 0, 0, 0, 0x80, 0xBF)

  /** Between characters, the start of the stream behind it. */
  const STARTED: Decoder := RawDecoder(true, 0, 0, 0, 0x80, 0xBF)

  function Idle(d: Decoder): Decoder {
    RawDecoder(d.bomSeen, 0, 0, 0, 0x80, 0xBF)
  }

  const REPLACEMENT := '\U{FFFD}'

  /** A byte that starts a sequence, or an ASCII or illegal byte. */
  function Lead(d: Decoder, b: byte): (Decoder, string)
    requires d.needed == 0
  {
    if b < 0x80 then (d, [b as char])
    else if 0xC2 <= b <= 0xDF then (d.(needed := 1, codePoint := b - 0xC0), [])
    else if 0xE0 <= b <= 0xEF then
      (d.(needed := 2, codePoint := b - 0xE0,
          lower := if b == 0xE0 then 0xA0 else 0x80, upper := if b == 0xED then 0x9F else 0xBF), [])
    else if 0xF0 <= b <= 0xF4 then
      (d.(needed := 3, codePoint := b - 0xF0,
          lower := if b == 0xF0 then 0x90 else 0x80, upper := if b == 0xF4 then 0x8F else 0xBF), [])
    else (d, [REPLACEMENT])
  }

  /** One byte; a byte that breaks a pending sequence yields U+FFFD and is read again. */
  function DecodeByte(d: Decoder, b: byte): (Decoder, string) {
    if d.needed == 0 then Lead(d, b)
    else if !(d.lower <= b <= d.upper) then
      var (next, out) := Lead(Idle(d), b);
      (next, [REPLACEMENT] + out)
    else
      var codePoint := d.codePoint * 64 + (b - 0x80);
      if d.seen + 1 == d.needed then (Idle(d), [codePoint as char])
      else (d.(codePoint := codePoint, seen := d.seen + 1, lower := 0x80, upper := 0xBF), [])
  }

  /** The serializer drops one leading byte order mark. */
  function Serialize(d: Decoder, out: string): (Decoder, string) {
    if out == [] || d.bomSeen then (d, out)
    else (d.(bomSeen := true), if out[0] == '\U{FEFF}' then out[1..] else out)
  }

  function Consume(d: Decoder, b: byte): (Decoder, string) {
    var (raw, out) := DecodeByte(d, b);
    Serialize(raw, out)
  }

  /** A machine run over its input, with everything it put out. */
  function Run<S, A, B>(step: (S, A) -> (S, seq<B>), s: S, input: seq<A>): (S, seq<B>) {
    if input == [] then (s, [])
    else
      var (before, out) := Run(step, s, input[..|input| - 1]);
      var (next, shown) := step(before, input[|input| - 1]);
      (next, out + shown)
  }

  lemma {:induction false} RunConcat<S, A, B>(step: (S, A) -> (S, seq<B>), s: S, a: seq<A>, b: seq<A>)
    ensures Run(step, s, a + b) ==
            (Run(step, Run(step, s, a).0, b).0, Run(step, s, a).1 + Run(step, Run(step, s, a).0, b).1)
  {
    if b == [] {
      assert a + b == a;
      assert Run(step, s, a).1 + [] == Run(step, s, a).1;
    } else {
      assert (a + b)[..|a + b| - 1] == a + b[..|b| - 1];
      RunConcat(step, s, a, b[..|b| - 1]);
      var mid := Run(step, s, a);
      var late := Run(step, mid.0, b[..|b| - 1]);
      var last := step(late.0, b[|b| - 1]);
      assert (mid.1 + late.1) + last.1 == mid.1 + (late.1 + last.1);
    }
  }

  lemma RunOne<S, A, B>(step: (S, A) -> (S, seq<B>), s: S, x: A)
    ensures Run(step, s, [x]) == step(s, x)
  {
    assert [x][..0] == [];
    assert Run(step, s, []) == (s, []);
    assert [] + step(s, x).1 == step(s, x).1;
  }

  /** decoder.decode(bytes, {stream: true}): the decoder to continue with, and the text. */
  function Decode(d: Decoder, bytes: seq<byte>): (Decoder, string) {
    Run(Consume, d, bytes)
  }

  /** Where the bytes are cut does not matter. */
  lemma DecodeConcat(d: Decoder, a: seq<byte>, b: seq<byte>)
    ensures Decode(d, a + b) == (Decode(Decode(d, a).0, b).0, Decode(d, a).1 + Decode(Decode(d, a).0, b).1)
  {
    RunConcat(Consume, d, a, b);
  }

  // ---- malformed input ----------------------------------------------------------------

  /** A byte that cannot begin a sequence shows as the replacement character. */
  lemma IllegalByte(d: Decoder, b: byte)
    requires d.needed == 0 && (0x80 <= b < 0xC2 || b > 0xF4)
    ensures DecodeByte(d, b) == (d, "\U{FFFD}")
  {
  }

  /** A byte that breaks a pending sequence: one replacement character, and the byte is read anew. */
  lemma BrokenSequence(d: Decoder, b: byte)
    requires d.needed > 0 && !(d.lower <= b <= d.upper)
    ensures var (next, out) := DecodeByte(Idle(d), b);
      DecodeByte(d, b) == (next, "\U{FFFD}" + out)
  {
  }

  /** So a lead byte in front of a plain character costs one replacement character and nothing else. */
  lemma LeadBeforePlain(b: byte, c: byte)
    requires 0xC2 <= b <= 0xF4 && c < 0x80
    ensures Decode(FRESH, [b] + [c]).1 == "\U{FFFD}" + [c as char]
  {
    RunConcat(Consume, FRESH, [b], [c]);
    RunOne(Consume, FRESH, b);
    RunOne(Consume, Consume(FRESH, b).0, c);
    var (raw, out) := DecodeByte(Consume(FRESH, b).0, c);
    assert out == "\U{FFFD}" + [c as char];
  }

  // ---- round trip ------------------------------------------------------------------

  function EncodeChar(c: char): seq<byte> {
    var n := c as int;
    if n < 0x80 then [n]
    else if n < 0x800 then [0xC0 + n / 64, 0x80 + n % 64]
    else if n < 0x10000 then [0xE0 + n / 4096, 0x80 + n / 64 % 64, 0x80 + n % 64]
    else [0xF0 + n / 262144, 0x80 + n / 4096 % 64, 0x80 + n / 64 % 64, 0x80 + n % 64]
  }

  function Encode(text: string): seq<byte> {
    if text == [] then [] else Encode(text[..|text| - 1]) + EncodeChar(text[|text| - 1])
  }

  /** Reading one more byte that yields nothing. */
  lemma DecodePending(d: Decoder, b: byte, rest: seq<byte>)
    requires Consume(d, b).1 == []
    ensures Decode(d, [b] + rest) == Decode(Consume(d, b).0, rest)
  {
    RunConcat(Consume, d, [b], rest);
    RunOne(Consume, d, b);
    assert [] + Decode(Consume(d, b).0, rest).1 == Decode(Consume(d, b).0, rest).1;
  }

  /** Between characters, and c is not about to be dropped as the byte order mark. */
  predicate Ready(d: Decoder, c: char) {
    d.needed == 0 && Shows(d, c)
  }

  predicate Shows(d: Decoder, c: char) {
    d.bomSeen || c != '\U{FEFF}'
  }

  /** The last byte of a sequence yields its character. */
  lemma Completes(d: Decoder, b: byte, c: char)
    requires d.needed > 0 && d.seen + 1 == d.needed && Shows(d, c) && d.lower <= b <= d.upper
    requires d.codePoint * 64 + (b - 0x80) == c as int
    ensures Decode(d, [b]) == (Idle(d).(bomSeen := true), [c])
  {
    RunOne(Consume, d, b);
  }

  /** A byte in the middle of a sequence extends the code point. */
  lemma Extends(d: Decoder, b: byte)
    requires d.needed > d.seen + 1 && d.lower <= b <= d.upper
    ensures Consume(d, b) ==
            (d.(codePoint := d.codePoint * 64 + (b - 0x80), seen := d.seen + 1, lower := 0x80, upper := 0xBF), [])
  {
  }

  /** The bytes of one character decode to it and leave the decoder idle. */
  lemma DecodeChar(d: Decoder, c: char)
    requires Ready(d, c)
    ensures Decode(d, EncodeChar(c)) == (d.(bomSeen := true), [c])
  {
    var n, bytes := c as int, EncodeChar(c);
    if n < 0x80 {
      RunOne(Consume, d, bytes[0]);
    } else if n < 0x800 {
      assert bytes == [bytes[0]] + [bytes[1]];
      DecodePending(d, bytes[0], [bytes[1]]);
      Completes(Consume(d, bytes[0]).0, bytes[1], c);
    } else if n < 0x10000 {
      DecodeThree(d, c);
    } else {
      DecodeFour(d, c);
    }
  }

  /** Rebuilding a number from its base-64 digits. */
  lemma Rebuild(n: nat)
    ensures n / 64 * 64 + n % 64 == n
    ensures n / 4096 * 64 + n / 64 % 64 == n / 64
    ensures n / 262144 * 64 + n / 4096 % 64 == n / 4096
  {
    assert n / 64 / 64 == n / 4096;
    assert n / 4096 / 64 == n / 262144;
  }

  lemma DecodeThree(d: Decoder, c: char)
    requires Ready(d, c) && 0x800 <= c as int < 0x10000
    ensures Decode(d, EncodeChar(c)) == (d.(bomSeen := true), [c])
  {
    var n, bytes := c as int, EncodeChar(c);
    Rebuild(n);
    assert bytes == [bytes[0]] + ([bytes[1]] + [bytes[2]]);
    DecodePending(d, bytes[0], [bytes[1]] + [bytes[2]]);
    var d1 := Consume(d, bytes[0]).0;
    Extends(d1, bytes[1]);
    DecodePending(d1, bytes[1], [bytes[2]]);
    Completes(Consume(d1, bytes[1]).0, bytes[2], c);
  }

  lemma DecodeFour(d: Decoder, c: char)
    requires Ready(d, c) && 0x10000 <= c as int
    ensures Decode(d, EncodeChar(c)) == (d.(bomSeen := true), [c])
  {
    var n, bytes := c as int, EncodeChar(c);
    Rebuild(n);
    assert bytes == [bytes[0]] + ([bytes[1]] + [bytes[2], bytes[3]]);
    DecodePending(d, bytes[0], [bytes[1]] + [bytes[2], bytes[3]]);
    var d1 := Consume(d, bytes[0]).0;
    Extends(d1, bytes[1]);
    DecodePending(d1, bytes[1], [bytes[2], bytes[3]]);
    DecodeLastTwo(Consume(d1, bytes[1]).0, bytes[2], bytes[3], c);
  }

  /** The third and fourth byte of a sequence of four. */
  lemma DecodeLastTwo(d: Decoder, b2: byte, b3: byte, c: char)
    requires d.needed == 3 && d.seen == 1 && Shows(d, c) && 0x80 <= b2 <= 0xBF && 0x80 <= b3 <= 0xBF
    requires (d.codePoint * 64 + (b2 - 0x80)) * 64 + (b3 - 0x80) == c as int
    ensures Decode(d, [b2, b3]) == (Idle(d).(bomSeen := true), [c])
  {
    assert [b2, b3] == [b2] + [b3];
    Extends(d, b2);
    DecodePending(d, b2, [b3]);
    Completes(Consume(d, b2).0, b3, c);
  }

  /** Decoding inverts encoding. */
  lemma {:induction false} DecodeEncodeReady(d: Decoder, text: string)
    requires d.needed == 0 && d.bomSeen
    ensures Decode(d, Encode(text)) == (d, text)
  {
    if text != [] {
      var init, last := text[..|text| - 1], text[|text| - 1];
      DecodeEncodeReady(d, init);
      DecodeOneMore(d, Encode(init), init, last);
      assert text == init + [last];
    }
  }

  lemma DecodeOneMore(d: Decoder, bytes: seq<byte>, text: string, c: char)
    requires d.needed == 0 && d.bomSeen && Decode(d, bytes) == (d, text)
    ensures Decode(d, bytes + EncodeChar(c)) == (d, text + [c])
  {
    DecodeConcat(d, bytes, EncodeChar(c));
    DecodeChar(d, c);
  }

  /** The text without a leading byte order mark. */
  function Unmarked(text: string): string {
    if text != [] && text[0] == '\U{FEFF}' then text[1..] else text
  }

  /** The first character a stream brings is shown unless it is the byte order mark. */
  lemma DecodeMark(c: char)
    ensures Decode(FRESH, EncodeChar(c)) == (STARTED, Unmarked([c]))
  {
    if c == '\U{FEFF}' {
      assert EncodeChar(c) == [0xEF] + ([0xBB] + [0xBF]);
      DecodePending(FRESH, 0xEF, [0xBB] + [0xBF]);
      var d := Consume(FRESH, 0xEF).0;
      Extends(d, 0xBB);
      DecodePending(d, 0xBB, [0xBF]);
      RunOne(Consume, Consume(d, 0xBB).0, 0xBF);
    } else {
      DecodeChar(FRESH, c);
    }
  }

  lemma DecodeFirst(c: char, rest: seq<byte>)
    ensures Decode(FRESH, EncodeChar(c) + rest).1 == Unmarked([c]) + Decode(STARTED, rest).1
  {
    DecodeConcat(FRESH, EncodeChar(c), rest);
    DecodeMark(c);
  }

  lemma EncodeFirst(text: string)
    requires text != []
    ensures Encode(text) == EncodeChar(text[0]) + Encode(text[1..])
  {
    EncodeConcat([text[0]], text[1..]);
    assert [text[0]] + text[1..] == text;
    EncodeOne(text[0]);
  }

  lemma EncodeOne(c: char)
    ensures Encode([c]) == EncodeChar(c)
  {
    assert [c][..0] == [] && Encode([]) + EncodeChar(c) == EncodeChar(c);
  }

  lemma UnmarkedFirst(text: string)
    requires text != []
    ensures Unmarked(text) == Unmarked([text[0]]) + text[1..]
  {
    assert [text[0]] + text[1..] == text && [] + text[1..] == text[1..];
  }

  /** Every text survives the wire unchanged but for one leading byte order mark. */
  lemma DecodeEncode(text: string)
    ensures Decode(FRESH, Encode(text)).1 == Unmarked(text)
  {
    if text != [] {
      EncodeFirst(text);
      DecodeFirst(text[0], Encode(text[1..]));
      DecodeEncodeReady(STARTED, text[1..]);
      UnmarkedFirst(text);
    }
  }

  lemma {:induction false} EncodeConcat(a: string, b: string)
    ensures Encode(a + b) == Encode(a) + Encode(b)
  {
    if b == "" {
      assert a + b == a;
    } else {
      assert (a + b)[..|a + b| - 1] == a + b[..|b| - 1];
      EncodeConcat(a, b[..|b| - 1]);
    }
  }
}
