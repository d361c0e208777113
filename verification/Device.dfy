/**
 The simulated ECU's side of the protocol: working and burned pages, the
 calibration table, command dispatch, and the request parser on the serial buffer.
 */
module Device {
  import opened Bytes
  import opened Options
  import opened Crc32
  import Envelope

  const RC_BURN_OK: Byte := 0x04
  const RC_UNKNOWN: Byte := 0x83
  const RC_RANGE: Byte := 0x84
  const BLOCKING_FACTOR: nat := 251
  const TABLE_BLOCKING_FACTOR: nat := 256
  const CALIBRATION_SIZE: nat := 1024

  /**
   Pages are numbered from 1; `offset` is how far a calibration transfer has come,
   and `buffer` what was received and not yet taken.
   */
  datatype Store = Store(
    working: map<nat, Blob>, burned: map<nat, Blob>,
    calibration: Blob, pending: Blob, offset: nat, buffer: Blob)

  /** What the telemetry and identification commands answer; not part of this model otherwise. */
  datatype Fixed = Fixed(och: Blob, signature: Blob, product: Blob)

  ghost predicate Valid(s: Store) {
    && s.working.Keys == s.burned.Keys
    && |s.calibration| == |s.pending| == CALIBRATION_SIZE
    && s.offset <= CALIBRATION_SIZE
  }

  /** Nothing half-received is left over. */
  ghost predicate Ready(s: Store) {
    Valid(s) && s.buffer == []
  }

  /** Shortest and longest payload per command byte. */
  function Limits(cmd: Byte): Option<(nat, nat)> {
    if cmd in {0x41, 0x51, 0x53, 0x43, 0x66} then Some((1, 1))       // A Q S C f
    else if cmd in {0x72, 0x70, 0x6B} then Some((7, 7))              // r p k
    else if cmd == 0x4D then Some((8, 7 + BLOCKING_FACTOR))          // M
    else if cmd in {0x62, 0x42, 0x64} then Some((3, 3))              // b B d
    else if cmd == 0x74 then Some((8, 7 + TABLE_BLOCKING_FACTOR))    // t
    else None
  }

  predicate WithinLimits(cmd: Byte, length: nat) {
    Limits(cmd).Some? && Limits(cmd).value.0 <= length <= Limits(cmd).value.1
  }

  /** A payload the request parser passes on. */
  predicate Admissible(payload: Blob) {
    payload != [] && WithinLimits(payload[0], |payload|)
  }

  function Code(rc: Byte): Blob { Envelope.Encode([rc]) }

  function Reply(data: Blob): Blob { Envelope.Encode([Envelope.RC_OK] + data) }

  function Offset(payload: Blob): nat
    requires |payload| >= 7
  {
    FromLe16(payload[3], payload[4])
  }

  function Count(payload: Blob): nat
    requires |payload| >= 7
  {
    FromLe16(payload[5], payload[6])
  }

  /** `M`: refused unless the count matches the data and the range fits the page. */
  function WritePage(s: Store, payload: Blob): (Store, Blob)
    requires Admissible(payload) && payload[0] == 0x4D && payload[2] in s.working
  {
    var n, page, values := payload[2], s.working[payload[2]], payload[7..];
    if Count(payload) != |values| || Offset(payload) + |values| > |page| then (s, Code(RC_RANGE))
    else (s.(working := s.working[n := Patch(page, Offset(payload), values)]), Code(Envelope.RC_OK))
  }

  function ReadPage(s: Store, payload: Blob): Blob
    requires Admissible(payload) && payload[0] == 0x70 && payload[2] in s.working
  {
    var page := s.working[payload[2]];
    if Offset(payload) + Count(payload) > |page| then Code(RC_RANGE)
    else Reply(page[Offset(payload)..Offset(payload) + Count(payload)])
  }

  function Burn(s: Store, n: nat): Store
    requires n in s.working
  {
    s.(burned := s.burned[n := s.working[n]])
  }

  /** `t`: chunks are accepted in order from offset 0; the last one makes the table current. */
  function WriteTable(s: Store, payload: Blob): (r: (Store, Blob))
    requires Valid(s) && Admissible(payload) && payload[0] == 0x74
    ensures Valid(r.0) && r.0.buffer == s.buffer
  {
    var offset, count, values := FromBe16(payload[3], payload[4]), FromBe16(payload[5], payload[6]), payload[7..];
    if payload[2] != 2 || count != |values| || offset + count > CALIBRATION_SIZE || count % 32 != 0 then (s, Code(RC_RANGE))
    else
      var expected := if offset == 0 then 0 else s.offset;
      if offset != expected then (s.(offset := expected), Code(RC_RANGE))
      else
        var pending, reached := Patch(s.pending, offset, values), offset + count;
        (s.(pending := pending, offset := reached,
            calibration := if reached == CALIBRATION_SIZE then pending else s.calibration),
         Code(Envelope.RC_OK))
  }

  predicate IsPageCommand(cmd: Byte) {
    cmd in {0x70, 0x4D, 0x62, 0x42, 0x64}
  }

  function PageCommand(s: Store, payload: Blob): (r: (Store, Blob))
    requires Valid(s) && Admissible(payload) && IsPageCommand(payload[0])
    ensures Valid(r.0) && r.0.working.Keys == s.working.Keys && r.0.buffer == s.buffer
  {
    var cmd, n := payload[0], payload[2];
    if n !in s.working then (s, Code(RC_RANGE))
    else if cmd == 0x70 then (s, ReadPage(s, payload))
    else if cmd == 0x4D then WritePage(s, payload)
    else if cmd == 0x64 then (s, Reply(Be32(Crc(s.working[n]))))
    else (Burn(s, n), Code(RC_BURN_OK))
  }

  predicate IsTableCommand(cmd: Byte) {
    cmd == 0x6B || cmd == 0x74
  }

  function TableCommand(s: Store, payload: Blob): (r: (Store, Blob))
    requires Valid(s) && Admissible(payload) && IsTableCommand(payload[0])
    ensures Valid(r.0) && r.0.working.Keys == s.working.Keys && r.0.buffer == s.buffer
  {
    if payload[0] == 0x74 then WriteTable(s, payload)
    else (s, if payload[2] != 2 then Code(RC_RANGE) else Reply(Be32(Crc(s.calibration))))
  }

  /** The commands that change nothing: telemetry and identification. */
  function Answer(payload: Blob, fixed: Fixed): Blob
    requires Admissible(payload)
  {
    var cmd := payload[0];
    if cmd == 0x41 then Reply(fixed.och)
    else if cmd == 0x72 then
      if payload[2] != 0x30 then Code(RC_UNKNOWN)
      else Reply(if Count(payload) <= |fixed.och| then fixed.och[..Count(payload)] else fixed.och)
    else if cmd == 0x51 then Reply(fixed.signature)
    else if cmd == 0x53 then Reply(fixed.product)
    else if cmd == 0x43 then Reply([0xFF])
    else Reply([2] + Be16(BLOCKING_FACTOR) + Be16(TABLE_BLOCKING_FACTOR))
  }

  /** One validated payload: the new store and the reply frame. */
  function Dispatch(s: Store, payload: Blob, fixed: Fixed): (r: (Store, Blob))
    requires Valid(s) && Admissible(payload)
    ensures Valid(r.0) && r.0.working.Keys == s.working.Keys && r.0.buffer == s.buffer
  {
    if IsPageCommand(payload[0]) then PageCommand(s, payload)
    else if IsTableCommand(payload[0]) then TableCommand(s, payload)
    else (s, Answer(payload, fixed))
  }

  /** One attempt to take a command off the buffer: what remains, the reply, and whether anything happened. */
  datatype Handled = Handled(store: Store, rest: Blob, reply: Option<Blob>, progress: bool)

  function HandlePrimary(s: Store, buf: Blob, fixed: Fixed): (r: Handled)
    requires Valid(s)
    ensures Valid(r.store) && r.store.buffer == s.buffer
    ensures if r.progress then |r.rest| < |buf| else r.rest == buf && r.store == s && r.reply == None
  {
    if |buf| < 3 then Handled(s, buf, None, false)
    else
      var length := FromBe16(buf[0], buf[1]);
      if !WithinLimits(buf[2], length) then Handled(s, buf[1..], None, true)
      else if |buf| < 2 + length + 4 then Handled(s, buf, None, false)
      else
        var payload, trailer, rest := buf[2..2 + length], buf[2 + length..2 + length + 4], buf[2 + length + 4..];
        if Crc(payload) != FromBe32(trailer) then Handled(s, rest, None, true)
        else
          var r := Dispatch(s, payload, fixed);
          Handled(r.0, rest, Some(r.1), true)
  }

  /** Commands are taken off the buffer while there are any; their replies follow one another on the line. */
  function Drain(s: Store, buf: Blob, fixed: Fixed): (r: (Store, Blob))
    requires Valid(s)
    ensures Valid(r.0)
    decreases |buf|
  {
    var h := HandlePrimary(s, buf, fixed);
    if !h.progress then (s.(buffer := buf), [])
    else
      var more := Drain(h.store, h.rest, fixed);
      (more.0, (if h.reply.Some? then h.reply.value else []) + more.1)
  }

  /** The simulator object: its dictionaries and byte arrays are updated in place. */
  class PageStore {
    var working: map<nat, Blob>
    var burned: map<nat, Blob>
    var calibration: Blob
    var calibrationPending: Blob
    var calibrationOffset: nat
    var buffer: Blob
    const fixed: Fixed

    ghost function Value(): Store
      reads this
    {
      Store(working, burned, calibration, calibrationPending, calibrationOffset, buffer)
    }

    constructor (pages: map<nat, Blob>, table: Blob, fixed: Fixed)
      requires |table| == CALIBRATION_SIZE
      ensures Value() == Store(pages, pages, table, table, 0, []) && Valid(Value()) && this.fixed == fixed
    {
      working, burned, calibration, calibrationPending, calibrationOffset, buffer := pages, pages, table, table, 0, [];
      this.fixed := fixed;
    }

    method Write(n: nat, offset: nat, values: Blob) returns (ok: bool)
      requires n in working
      modifies this`working
      ensures ok <==> offset + |values| <= |old(working)[n]|
      ensures working == if ok then old(working)[n := Patch(old(working)[n], offset, values)] else old(working)
    {
      ok := offset + |values| <= |working[n]|;
      if ok {
        working := working[n := Patch(working[n], offset, values)];
      }
    }

    method AcceptTable(payload: Blob) returns (reply: Blob)
      requires Valid(Value()) && Admissible(payload) && payload[0] == 0x74
      modifies this`calibration, this`calibrationPending, this`calibrationOffset
      ensures (Value(), reply) == WriteTable(old(Value()), payload)
    {
      hide Code, FromBe16;
      var offset, count := FromBe16(payload[3], payload[4]), FromBe16(payload[5], payload[6]);
      if payload[2] != 2 || count != |payload[7..]| || offset + count > CALIBRATION_SIZE || count % 32 != 0 {
        return Code(RC_RANGE);
      }
      if offset == 0 {
        calibrationOffset := 0;
      }
      if offset != calibrationOffset {
        return Code(RC_RANGE);
      }
      calibrationPending := Patch(calibrationPending, offset, payload[7..]);
      calibrationOffset := calibrationOffset + count;
      if calibrationOffset == CALIBRATION_SIZE {
        calibration := calibrationPending;
      }
      return Code(Envelope.RC_OK);
    }

    method Process(payload: Blob) returns (reply: Blob)
      requires Valid(Value()) && Admissible(payload)
      modifies this
      ensures (Value(), reply) == Dispatch(old(Value()), payload, fixed)
    {
      hide Code, Reply, Answer, WriteTable, Crc, FromLe16;
      var cmd := payload[0];
      if IsPageCommand(cmd) {
        var n := payload[2];
        if n !in working {
          reply := Code(RC_RANGE);
        } else if cmd == 0x70 {
          var offset, count := Offset(payload), Count(payload);
          reply := if offset + count > |working[n]| then Code(RC_RANGE) else Reply(working[n][offset..offset + count]);
        } else if cmd == 0x4D {
          var ok := false;
          if Count(payload) == |payload[7..]| {
            ok := Write(n, Offset(payload), payload[7..]);
          }
          reply := Code(if ok then Envelope.RC_OK else RC_RANGE);
        } else if cmd == 0x64 {
          reply := Reply(Be32(Crc(working[n])));
        } else {
          burned := burned[n := working[n]];
          reply := Code(RC_BURN_OK);
        }
      } else if cmd == 0x74 {
        reply := AcceptTable(payload);
      } else if cmd == 0x6B {
        reply := if payload[2] != 2 then Code(RC_RANGE) else Reply(Be32(Crc(calibration)));
      } else {
        reply := Answer(payload, fixed);
      }
    }

    /** Take one command off the buffer if there is one. */
    method Handle(buf: Blob) returns (rest: Blob, reply: Option<Blob>, progress: bool)
      requires Valid(Value())
      modifies this
      ensures Handled(Value(), rest, reply, progress) == HandlePrimary(old(Value()), buf, fixed)
      ensures Valid(Value())
    {
      if |buf| < 3 {
        return buf, None, false;
      }
      var length := FromBe16(buf[0], buf[1]);
      if !WithinLimits(buf[2], length) {
        return buf[1..], None, true;
      }
      var need := 2 + length + 4;
      if |buf| < need {
        return buf, None, false;
      }
      var payload := buf[2..2 + length];
      rest := buf[need..];
      if Crc(payload) != FromBe32(buf[2 + length..need]) {
        return rest, None, true;
      }
      var answer := Process(payload);
      return rest, Some(answer), true;
    }

    /** Receive bytes and serve what they complete. */
    method Serve(bytes: Blob) returns (line: Blob)
      requires Valid(Value())
      modifies this
      ensures (Value(), line) == Drain(old(Value()), old(buffer) + bytes, fixed)
      ensures Valid(Value())
    {
      hide HandlePrimary, Valid;
      var buf := buffer + bytes;
      line := [];
      ghost var goal := Drain(Value(), buf, fixed);
      assert [] + goal.1 == goal.1;
      while true
        invariant Valid(Value()) && buffer == old(buffer)
        invariant var more := Drain(Value(), buf, fixed); goal == (more.0, line + more.1)
        decreases |buf|
      {
        var rest, reply, progress := Handle(buf);
        if !progress {
          break;
        }
        buf := rest;
        ghost var more, front := Drain(Value(), rest, fixed).1, if reply.Some? then reply.value else [];
        assert line + (front + more) == (line + front) + more;
        line := line + if reply.Some? then reply.value else [];
      }
      assert line + [] == line;
      buffer := buf;
    }
  }

  // ----- requests reach dispatch however they are cut up ------------------------

  lemma EncodeParts(payload: Blob, rest: Blob)
    requires 0 < |payload| < 0x1_0000
    ensures var line := Envelope.Encode(payload) + rest;
      && |Envelope.Encode(payload)| == |payload| + 6
      && FromBe16(line[0], line[1]) == |payload| && line[2] == payload[0]
      && line[2..2 + |payload|] == payload
      && line[2 + |payload|..2 + |payload| + 4] == Be32(Crc(payload))
      && line[2 + |payload| + 4..] == rest
  {
    hide Crc, Be16, Be32;
    var n := |payload|;
    assert Envelope.Encode(payload) == Be16(n) + payload + Be32(Crc(payload));
  }

  /** A complete admissible request at the front of the buffer is dispatched and removed. */
  lemma RequestIsDispatched(s: Store, payload: Blob, rest: Blob, fixed: Fixed)
    requires Valid(s) && Admissible(payload)
    ensures HandlePrimary(s, Envelope.Encode(payload) + rest, fixed) ==
      Handled(Dispatch(s, payload, fixed).0, rest, Some(Dispatch(s, payload, fixed).1), true)
  {
    hide Crc, Be16, Be32, FromBe32, Envelope.Encode, Dispatch, Limits;
    AdmissibleLength(payload);
    EncodeParts(payload, rest);
  }

  /** A request whose framed length its command does not allow is not taken: the parser drops one byte and looks again. */
  lemma RequestIsSkipped(s: Store, payload: Blob, fixed: Fixed)
    requires Valid(s) && payload != [] && !WithinLimits(payload[0], |payload| % 0x1_0000)
    ensures HandlePrimary(s, Envelope.Encode(payload), fixed) == Handled(s, Envelope.Encode(payload)[1..], None, true)
  {
    hide Crc, Be32, FromBe32, Dispatch, Limits;
    var n := |payload| % 0x1_0000;
    var line := Envelope.Encode(payload);
    assert line == Be16(n) + payload + Be32(Crc(payload));
    assert line[2] == payload[0] && FromBe16(line[0], line[1]) == n;
  }

  /** One admissible request, received whole by an idle device, is dispatched and leaves nothing behind. */
  lemma RequestIsServed(s: Store, payload: Blob, fixed: Fixed)
    requires Ready(s) && Admissible(payload)
    ensures Drain(s, Envelope.Encode(payload), fixed) == Dispatch(s, payload, fixed)
  {
    hide HandlePrimary, Dispatch, Envelope.Encode;
    RequestIsDispatched(s, payload, [], fixed);
    assert Envelope.Encode(payload) + [] == Envelope.Encode(payload);
    var r := Dispatch(s, payload, fixed);
    NothingToServe(r.0, fixed);
    assert r.1 + [] == r.1;
  }

  lemma NothingToServe(s: Store, fixed: Fixed)
    requires Ready(s)
    ensures Drain(s, [], fixed) == (s, [])
  {
  }

  // ----- bytes may arrive in any pieces -------------------------------------------

  lemma DispatchIgnoresBuffer(s: Store, x: Blob, payload: Blob, fixed: Fixed)
    requires Valid(s) && Admissible(payload)
    ensures Dispatch(s.(buffer := x), payload, fixed) == (Dispatch(s, payload, fixed).0.(buffer := x), Dispatch(s, payload, fixed).1)
  {
    hide Crc, Envelope.Encode, Limits, Be32, FromBe16, FromLe16;
  }

  lemma HandleIgnoresBuffer(s: Store, x: Blob, buf: Blob, fixed: Fixed)
    requires Valid(s)
    ensures var h, g := HandlePrimary(s, buf, fixed), HandlePrimary(s.(buffer := x), buf, fixed);
      g == h.(store := h.store.(buffer := x))
  {
    hide Crc, FromBe32, Dispatch;
    if |buf| >= 3 {
      var length := FromBe16(buf[0], buf[1]);
      if WithinLimits(buf[2], length) && |buf| >= 2 + length + 4 {
        LengthIsPositive(buf[2], length);
        assert buf[2..2 + length][0] == buf[2];
        DispatchIgnoresBuffer(s, x, buf[2..2 + length], fixed);
      }
    }
  }

  lemma {:induction false} DrainIgnoresBuffer(s: Store, x: Blob, buf: Blob, fixed: Fixed)
    requires Valid(s)
    ensures Drain(s.(buffer := x), buf, fixed) == Drain(s, buf, fixed)
    decreases |buf|
  {
    hide HandlePrimary, Valid;
    HandleIgnoresBuffer(s, x, buf, fixed);
    var h := HandlePrimary(s, buf, fixed);
    SameValid(s, x);
    if !h.progress {
    } else {
      DrainIgnoresBuffer(h.store, x, h.rest, fixed);
    }
  }

  lemma SameValid(s: Store, x: Blob)
    requires Valid(s)
    ensures Valid(s.(buffer := x))
  {
  }

  /** What the parser takes off a buffer it takes off a longer one just the same. */
  lemma HandlesPrefix(s: Store, a: Blob, b: Blob, fixed: Fixed)
    requires Valid(s) && HandlePrimary(s, a, fixed).progress
    ensures var h := HandlePrimary(s, a, fixed); HandlePrimary(s, a + b, fixed) == h.(rest := h.rest + b)
  {
    hide Crc, FromBe32, Dispatch, Limits;
    var length := FromBe16(a[0], a[1]);
    assert (a + b)[1..] == a[1..] + b;
    if WithinLimits(a[2], length) {
      assert (a + b)[2..2 + length] == a[2..2 + length];
      assert (a + b)[2 + length..2 + length + 4] == a[2 + length..2 + length + 4];
      assert (a + b)[2 + length + 4..] == a[2 + length + 4..] + b;
    }
  }

  /** Bytes served in two receptions are served as in one: how the line cuts a request does not matter. */
  lemma {:induction false} DrainSplits(s: Store, a: Blob, b: Blob, fixed: Fixed)
    requires Valid(s)
    ensures var first := Drain(s, a, fixed);
      var second := Drain(first.0, first.0.buffer + b, fixed);
      Drain(s, a + b, fixed) == (second.0, first.1 + second.1)
    decreases |a|
  {
    hide HandlePrimary, Valid;
    var h := HandlePrimary(s, a, fixed);
    if !h.progress {
      DrainIgnoresBuffer(s, a, a + b, fixed);
      assert [] + Drain(s, a + b, fixed).1 == Drain(s, a + b, fixed).1;
    } else {
      HandlesPrefix(s, a, b, fixed);
      DrainSplits(h.store, h.rest, b, fixed);
      var first := Drain(h.store, h.rest, fixed);
      var second := Drain(first.0, first.0.buffer + b, fixed);
      var front := if h.reply.Some? then h.reply.value else [];
      assert front + (first.1 + second.1) == (front + first.1) + second.1;
    }
  }

  // ----- what else the parser may find ------------------------------------------

  /** Whether the parser comes upon a request anywhere in these bytes; it depends on nothing but the bytes. */
  predicate Answers(buf: Blob)
    decreases |buf|
  {
    if |buf| < 3 then false
    else
      var length := FromBe16(buf[0], buf[1]);
      if !WithinLimits(buf[2], length) then Answers(buf[1..])
      else if |buf| < 2 + length + 4 then false
      else
        Crc(buf[2..2 + length]) == FromBe32(buf[2 + length..2 + length + 4]) || Answers(buf[2 + length + 4..])
  }

  /** Where it comes upon none the device stays silent and keeps its pages and tables; and only there it is silent. */
  lemma {:induction false} SilentIff(s: Store, buf: Blob, fixed: Fixed)
    requires Valid(s)
    ensures Drain(s, buf, fixed).1 == [] <==> !Answers(buf)
    ensures !Answers(buf) ==> Drain(s, buf, fixed).0 == s.(buffer := Drain(s, buf, fixed).0.buffer)
    decreases |buf|
  {
    hide Dispatch, Crc, FromBe32, WithinLimits, Admissible;
    if |buf| < 3 {
    } else {
      var h := HandlePrimary(s, buf, fixed);
      HandledFrame(s, buf, fixed);
      if h.progress {
        SilentIff(h.store, h.rest, fixed);
      }
    }
  }

  /** Fewer than seven bytes hold no request. */
  lemma {:induction false} ShortIsSilent(buf: Blob)
    requires |buf| < 7
    ensures !Answers(buf)
    decreases |buf|
  {
    hide WithinLimits, Crc, FromBe32;
    if |buf| < 3 {
    } else {
      LengthIsPositive(buf[2], FromBe16(buf[0], buf[1]));
      ShortIsSilent(buf[1..]);
    }
  }

  lemma LengthIsPositive(cmd: Byte, length: nat)
    ensures WithinLimits(cmd, length) ==> length > 0
  {
  }

  /** A byte in front of which nothing plausible stands is dropped. */
  lemma DropsByte(s: Store, b: Byte, rest: Blob, fixed: Fixed)
    requires Valid(s) && |rest| >= 2 && !WithinLimits(rest[1], FromBe16(b, rest[0]))
    ensures Drain(s, [b] + rest, fixed) == Drain(s, rest, fixed)
  {
    hide WithinLimits, Crc, Dispatch;
    var buf := [b] + rest;
    assert buf[1..] == rest && buf[1] == rest[0] && buf[2] == rest[1];
    assert [] + Drain(s, rest, fixed).1 == Drain(s, rest, fixed).1;
  }

  /** Two zero bytes are no header. */
  lemma {:induction false} ZerosAreSilent(k: nat, tail: Blob)
    requires |tail| <= 4
    ensures !Answers(Zeros(k) + tail)
    decreases k
  {
    hide WithinLimits, Crc, FromBe32;
    var buf := Zeros(k) + tail;
    if k < 2 {
      ShortIsSilent(buf);
    } else {
      assert Zeros(k)[1..] == Zeros(k - 1);
      assert buf[1..] == Zeros(k - 1) + tail;
      ZerosAreSilent(k - 1, tail);
      assert buf[0] == 0 && buf[1] == 0;
      if |buf| >= 3 { LengthIsPositive(buf[2], 0); }
    }
  }

  function Zeros(k: nat): Blob {
    seq(k, _ => 0)
  }

  lemma HandledFrame(s: Store, buf: Blob, fixed: Fixed)
    requires Valid(s)
    ensures var h := HandlePrimary(s, buf, fixed); h.reply.Some? ==> h.reply.value != []
  {
    hide Dispatch, Crc, FromBe32;
    if HandlePrimary(s, buf, fixed).reply.Some? {
      RepliesAreFrames(s, buf[2..2 + FromBe16(buf[0], buf[1])], fixed);
    }
  }

  lemma RepliesAreFrames(s: Store, payload: Blob, fixed: Fixed)
    requires Valid(s) && Admissible(payload)
    ensures Dispatch(s, payload, fixed).1 != []
  {
    hide Crc, Limits;
  }

  lemma AdmissibleLength(payload: Blob)
    requires Admissible(payload)
    ensures 0 < |payload| <= 263
  {
  }

  /** While any part of the request is missing the device waits, so it may arrive in any pieces. */
  lemma PartialRequestWaits(s: Store, payload: Blob, k: nat, fixed: Fixed)
    requires Valid(s) && Admissible(payload) && k < |Envelope.Encode(payload)|
    ensures HandlePrimary(s, Envelope.Encode(payload)[..k], fixed) == Handled(s, Envelope.Encode(payload)[..k], None, false)
  {
    hide Crc, Be16, Be32, FromBe32, Envelope.Encode, Dispatch, Limits;
    AdmissibleLength(payload);
    EncodeParts(payload, []);
    assert Envelope.Encode(payload) + [] == Envelope.Encode(payload);
  }
}
