/**
 The serial envelope: length, payload, checksum; its encoder and the decoder that
 consumes the line one byte at a time and resynchronises after noise.
 */
module Envelope {
  import opened Bytes
  import opened Options
  import opened Crc32

  /** Longest plausible reply: a return code and a full page chunk. */
  const MAX_PAYLOAD: nat := 2048

  /** The return code of success. */
  const RC_OK: Byte := 0x00

  function Encode(payload: Blob): Blob {
    Be16(|payload| % 0x1_0000) + payload + Be32(Crc(payload))
  }

  datatype Event = Frame(payload: Blob) | CrcMismatch

  // ----- what the decoder means ---------------------------------------------

  /** Looking for a header, with at most one byte of it seen, or inside a frame. */
  datatype Progress = Hunting(seen: Blob) | Collecting(length: nat, buf: Blob)

  predicate Plausible(hi: Byte, lo: Byte) {
    0 < FromBe16(hi, lo) <= MAX_PAYLOAD
  }

  predicate Sound(d: Progress) {
    match d
    case Hunting(seen) => |seen| <= 1
    case Collecting(length, buf) => 0 < length <= MAX_PAYLOAD && |buf| < length + 4
  }

  /** The frame in a full buffer, or the report that its checksum is wrong. */
  function Close(length: nat, buf: Blob): Event
    requires |buf| == length + 4
  {
    if Crc(buf[..length]) == FromBe32(buf[length..]) then Frame(buf[..length]) else CrcMismatch
  }

  function Next(d: Progress, b: Byte): (r: Progress)
    requires Sound(d)
    ensures Sound(r)
  {
    match d
    case Hunting(seen) =>
      if seen != [] && Plausible(seen[0], b) then Collecting(FromBe16(seen[0], b), []) else Hunting([b])
    case Collecting(length, buf) =>
      if |buf| + 1 < length + 4 then Collecting(length, buf + [b]) else Hunting([])
  }

  function Emitted(d: Progress, b: Byte): Option<Event>
    requires Sound(d)
  {
    if d.Collecting? && |d.buf| + 1 == d.length + 4 then Some(Close(d.length, d.buf + [b])) else None
  }

  /** Where the decoder stands after a whole stretch of line. */
  function After(d: Progress, line: Blob): (r: Progress)
    requires Sound(d)
    ensures Sound(r)
    decreases |line|
  {
    if line == [] then d else After(Next(d, line[0]), line[1..])
  }

  /** Everything it reports on the way. */
  function Events(d: Progress, line: Blob): seq<Event>
    requires Sound(d)
    decreases |line|
  {
    if line == [] then [] else AsList(Emitted(d, line[0])) + Events(Next(d, line[0]), line[1..])
  }

  function AsList(e: Option<Event>): seq<Event> {
    if e.Some? then [e.value] else []
  }

  // ----- the decoder ----------------------------------------------------------

  class Decoder {
    var inPayload: bool
    const header: array<Byte>
    var headerLen: nat
    var payloadLen: nat
    var buf: Blob

    ghost predicate Valid()
      reads this, header
    {
      && header.Length == 2
      && headerLen <= 1
      && (inPayload ==> 0 < payloadLen <= MAX_PAYLOAD && |buf| < payloadLen + 4)
    }

    ghost function State(): (d: Progress)
      requires Valid()
      reads this, header
      ensures Sound(d)
    {
      if inPayload then Collecting(payloadLen, buf) else Hunting(header[..headerLen])
    }

    constructor ()
      ensures Valid() && State() == Hunting([]) && fresh(header)
    {
      inPayload, headerLen, payloadLen, buf := false, 0, 0, [];
      header := new Byte[2](_ => 0);
    }

    /** Drop any partial frame. */
    method Reset()
      requires Valid()
      modifies this
      ensures Valid() && State() == Hunting([])
    {
      inPayload, headerLen, buf := false, 0, [];
    }

    method Push(b: Byte) returns (event: Option<Event>)
      requires Valid()
      modifies this, header
      ensures Valid()
      ensures State() == Next(old(State()), b)
      ensures event == Emitted(old(State()), b)
    {
      event := None;
      if !inPayload {
        header[headerLen] := b;
        headerLen := headerLen + 1;
        if headerLen == 2 {
          var length := FromBe16(header[0], header[1]);
          if length > 0 && length <= MAX_PAYLOAD {
            payloadLen, buf, inPayload := length, [], true;
            headerLen := 0;
          } else {
            header[0] := header[1];
            headerLen := 1;
          }
        }
      } else {
        buf := buf + [b];
        if |buf| < payloadLen + 4 {
          return;
        }
        inPayload, headerLen := false, 0;
        var payload, trailer := buf[..payloadLen], buf[payloadLen..];
        event := Some(if Crc(payload) == FromBe32(trailer) then Frame(payload) else CrcMismatch);
      }
    }
  }

  // ----- every frame comes through ---------------------------------------------

  lemma {:induction false} AfterConcat(d: Progress, a: Blob, b: Blob)
    requires Sound(d)
    ensures After(d, a + b) == After(After(d, a), b)
    ensures Events(d, a + b) == Events(d, a) + Events(After(d, a), b)
    decreases |a|
  {
    hide Next, Emitted, AsList;
    if a == [] {
      assert a + b == b;
    } else {
      assert (a + b)[1..] == a[1..] + b;
      AfterConcat(Next(d, a[0]), a[1..], b);
    }
  }

  /** Payload and trailer are collected; the last byte closes the frame. */
  lemma {:induction false} Collects(length: nat, buf: Blob, rest: Blob)
    requires 0 < length <= MAX_PAYLOAD && rest != [] && |buf| + |rest| == length + 4
    ensures After(Collecting(length, buf), rest) == Hunting([])
    ensures Events(Collecting(length, buf), rest) == [Close(length, buf + rest)]
    decreases |rest|
  {
    if |rest| == 1 {
      assert rest == [rest[0]] && rest[1..] == [];
    } else {
      assert buf + rest == (buf + [rest[0]]) + rest[1..];
      Collects(length, buf + [rest[0]], rest[1..]);
    }
  }

  predicate Deliverable(payload: Blob) {
    0 < |payload| <= MAX_PAYLOAD
  }

  /**
   One frame, met with an empty header or with one noise byte that does not
   make a plausible header together with the first byte of the frame.
   */
  lemma FrameComesThrough(seen: Blob, payload: Blob)
    requires Deliverable(payload)
    requires |seen| <= 1 && (seen != [] ==> !Plausible(seen[0], Encode(payload)[0]))
    ensures After(Hunting(seen), Encode(payload)) == Hunting([])
    ensures Events(Hunting(seen), Encode(payload)) == [Frame(payload)]
  {
    hide Crc, After, Events, Next, Emitted, Be16, Be32, FromBe16, FromBe32;
    var n, rest := |payload|, payload + Be32(Crc(payload));
    assert Encode(payload) == Be16(n) + rest;
    HeaderComesThrough(seen, n);
    AfterConcat(Hunting(seen), Be16(n), rest);
    Collects(n, [], rest);
    assert [] + rest == rest && rest[..n] == payload && rest[n..] == Be32(Crc(payload));
  }

  lemma HeaderComesThrough(seen: Blob, n: nat)
    requires |seen| <= 1 && 0 < n <= MAX_PAYLOAD
    requires seen != [] ==> !Plausible(seen[0], Be16(n)[0])
    ensures After(Hunting(seen), Be16(n)) == Collecting(n, [])
    ensures Events(Hunting(seen), Be16(n)) == []
  {
    var h := Be16(n);
    assert h[1..] == [h[1]] && h[1..][1..] == [];
    assert Next(Hunting(seen), h[0]) == Hunting([h[0]]);
    assert Next(Hunting([h[0]]), h[1]) == Collecting(n, []);
    assert Emitted(Hunting(seen), h[0]) == None && Emitted(Hunting([h[0]]), h[1]) == None;
    assert Events(Collecting(n, []), []) == [];
    assert After(Hunting([h[0]]), h[1..]) == Collecting(n, []);
    assert Events(Hunting([h[0]]), h[1..]) == [];
    assert Events(Hunting(seen), h) == AsList(None) + Events(Hunting([h[0]]), h[1..]);
  }

  function Stream(payloads: seq<Blob>): Blob {
    if payloads == [] then [] else Encode(payloads[0]) + Stream(payloads[1..])
  }

  function Frames(payloads: seq<Blob>): seq<Event> {
    if payloads == [] then [] else [Frame(payloads[0])] + Frames(payloads[1..])
  }

  lemma {:induction false} StreamComesThrough(payloads: seq<Blob>)
    requires forall k :: 0 <= k < |payloads| ==> Deliverable(payloads[k])
    ensures After(Hunting([]), Stream(payloads)) == Hunting([])
    ensures Events(Hunting([]), Stream(payloads)) == Frames(payloads)
  {
    if payloads == [] {
    } else {
      FrameComesThrough([], payloads[0]);
      StreamComesThrough(payloads[1..]);
      AfterConcat(Hunting([]), Encode(payloads[0]), Stream(payloads[1..]));
    }
  }

  /** No two neighbouring bytes read as a plausible length. */
  ghost predicate Harmless(line: Blob) {
    forall k {:trigger line[k]} :: 0 <= k < |line| - 1 ==> !Plausible(line[k], line[k + 1])
  }

  /** Harmless noise keeps the decoder hunting, holding the last noise byte. */
  lemma {:induction false} NoiseIsSkipped(seen: Blob, noise: Blob)
    requires |seen| <= 1 && noise != [] && Harmless(seen + noise)
    ensures After(Hunting(seen), noise) == Hunting([noise[|noise| - 1]])
    ensures Events(Hunting(seen), noise) == []
    decreases |noise|
  {
    var line := seen + noise;
    if seen != [] {
      assert line[0] == seen[0] && line[1] == noise[0];
    }
    assert Next(Hunting(seen), noise[0]) == Hunting([noise[0]]);
    if |noise| > 1 {
      TailHarmless(line, |seen|);
      assert line[|seen|..] == [noise[0]] + noise[1..];
      NoiseIsSkipped([noise[0]], noise[1..]);
    }
  }

  lemma TailHarmless(line: Blob, n: nat)
    requires Harmless(line) && n <= |line|
    ensures Harmless(line[n..])
  {
    var tail := line[n..];
    forall k | 0 <= k < |tail| - 1 ensures !Plausible(tail[k], tail[k + 1]) {
      assert tail[k] == line[n + k] && tail[k + 1] == line[n + k + 1];
    }
  }

  /**
   Any list of payloads of 1 to 2048 bytes, preceded by any harmless noise
   (harmless also next to the first header byte), decodes to exactly those
   payloads, in order.
   */
  lemma NoisyStreamComesThrough(noise: Blob, payloads: seq<Blob>)
    requires forall k :: 0 <= k < |payloads| ==> Deliverable(payloads[k])
    requires Harmless(noise + if payloads == [] then [] else [Encode(payloads[0])[0]])
    ensures Events(Hunting([]), noise + Stream(payloads)) == Frames(payloads)
  {
    if noise == [] {
      assert noise + Stream(payloads) == Stream(payloads);
      StreamComesThrough(payloads);
    } else {
      NoiseThenStream(noise, payloads);
    }
  }

  lemma NoiseThenStream(noise: Blob, payloads: seq<Blob>)
    requires forall k :: 0 <= k < |payloads| ==> Deliverable(payloads[k])
    requires noise != [] && Harmless(noise + if payloads == [] then [] else [Encode(payloads[0])[0]])
    ensures Events(Hunting([]), noise + Stream(payloads)) == Frames(payloads)
  {
    var line := noise + if payloads == [] then [] else [Encode(payloads[0])[0]];
    var last := noise[|noise| - 1];
    assert forall k :: 0 <= k < |noise| ==> noise[k] == line[k];
    forall k | 0 <= k < |noise| - 1 ensures !Plausible(([] + noise)[k], ([] + noise)[k + 1]) {
      assert !Plausible(line[k], line[k + 1]);
    }
    NoiseIsSkipped([], noise);
    AfterConcat(Hunting([]), noise, Stream(payloads));
    if payloads != [] {
      assert line[|noise| - 1] == last && !Plausible(last, line[|noise|]);
      FrameComesThrough([last], payloads[0]);
      StreamComesThrough(payloads[1..]);
      AfterConcat(Hunting([last]), Encode(payloads[0]), Stream(payloads[1..]));
    }
  }

  // ----- and nothing else does ---------------------------------------------------

  ghost predicate EndsWith(line: Blob, tail: Blob) {
    |tail| <= |line| && line[|line| - |tail|..] == tail
  }

  /** What the decoder holds is what the line ends in. */
  ghost predicate Holds(line: Blob, d: Progress)
    requires Sound(d)
  {
    match d
    case Hunting(seen) => EndsWith(line, seen)
    case Collecting(length, buf) => EndsWith(line, Be16(length) + buf)
  }

  lemma EndsWithMore(line: Blob, tail: Blob, b: Byte)
    requires EndsWith(line, tail)
    ensures EndsWith(line + [b], tail + [b])
  {
  }

  lemma HoldsStep(line: Blob, d: Progress, b: Byte)
    requires Sound(d) && Holds(line, d)
    ensures Holds(line + [b], Next(d, b))
  {
    match d
    case Hunting(seen) =>
      EndsWithMore(line, seen, b);
      if seen != [] && Plausible(seen[0], b) {
        Be16Surjective(seen[0], b);
        assert seen + [b] == Be16(FromBe16(seen[0], b)) + [];
      }
    case Collecting(length, buf) =>
      EndsWithMore(line, Be16(length) + buf, b);
      assert (Be16(length) + buf) + [b] == Be16(length) + (buf + [b]);
  }

  lemma {:induction false} HoldsAfter(done: Blob, d: Progress, line: Blob)
    requires Sound(d) && Holds(done, d)
    ensures Holds(done + line, After(d, line))
    decreases |line|
  {
    if line == [] {
      assert done + line == done;
    } else {
      HoldsStep(done, d, line[0]);
      assert (done + [line[0]]) + line[1..] == done + line;
      HoldsAfter(done + [line[0]], Next(d, line[0]), line[1..]);
    }
  }

  /** The line ends in a length, that many bytes, and a trailer that is not their checksum. */
  ghost predicate EndsInBadFrame(line: Blob, payload: Blob, trailer: Blob) {
    && Deliverable(payload) && |trailer| == 4 && trailer != Be32(Crc(payload))
    && EndsWith(line, Be16(|payload|) + payload + trailer)
  }

  lemma FullBuffer(line: Blob, length: nat, buf: Blob)
    requires 0 < length <= MAX_PAYLOAD && |buf| == length + 4 && EndsWith(line, Be16(length) + buf)
    ensures match Close(length, buf)
      case Frame(payload) => Deliverable(payload) && EndsWith(line, Encode(payload))
      case CrcMismatch => EndsInBadFrame(line, buf[..length], buf[length..])
  {
    hide Crc, Be16, Be32, FromBe16, FromBe32;
    var payload, trailer := buf[..length], buf[length..];
    assert Be16(length) + buf == Be16(|payload|) + payload + trailer;
    Be32Surjective(trailer);
  }

  /**
   An emitted frame is on the line: the bytes pushed so far end in exactly its
   encoding. A reported mismatch means they end in a frame whose trailer is wrong.
   */
  lemma EmittedIsOnTheLine(line: Blob, b: Byte)
    requires Emitted(After(Hunting([]), line), b).Some?
    ensures match Emitted(After(Hunting([]), line), b).value
      case Frame(payload) => Deliverable(payload) && EndsWith(line + [b], Encode(payload))
      case CrcMismatch => exists payload: Blob, trailer: Blob :: EndsInBadFrame(line + [b], payload, trailer)
  {
    hide After, Close, Encode, EndsInBadFrame;
    var d := After(Hunting([]), line);
    HoldsAfter([], Hunting([]), line);
    assert [] + line == line;
    EndsWithMore(line, Be16(d.length) + d.buf, b);
    assert (Be16(d.length) + d.buf) + [b] == Be16(d.length) + (d.buf + [b]);
    FullBuffer(line + [b], d.length, d.buf + [b]);
  }
}
