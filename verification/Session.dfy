/**
 One request in flight at a time: a framed command goes out, the reply comes back
 in arbitrary pieces and is decoded byte by byte.
 */
module Session {
  import opened Bytes
  import opened Envelope
  import Template
  import Device

  datatype Error =
    | Timeout
    | BadChecksum
    | EcuError(rc: Byte)
    | ShortResponse(expected: nat, got: nat)
    | BadTemplate(problem: Template.Problem)
    | NoSuchPage
    | Unsupported

  datatype Result<+T> = Ok(value: T) | Err(error: Error)

  function Concat(pieces: seq<Blob>): Blob {
    if pieces == [] then [] else pieces[0] + Concat(pieces[1..])
  }

  /** The first thing the decoder reports decides; silence is a timeout. */
  function Verdict(events: seq<Event>, ok: seq<Byte>): Result<Blob> {
    if events == [] then Err(Timeout)
    else
      match events[0]
      case CrcMismatch => Err(BadChecksum)
      case Frame(payload) =>
        if payload == [] then Err(Timeout)
        else if payload[0] in ok then Ok(payload)
        else Err(EcuError(payload[0]))
  }

  /** What a request does to the device and what the client makes of the reply. */
  function Exchange(s: Device.Store, payload: Blob, ok: seq<Byte>, fixed: Device.Fixed): (r: (Device.Store, Result<Blob>))
    requires Device.Valid(s)
    ensures Device.Valid(r.0)
  {
    var served := Device.Drain(s, s.buffer + Encode(payload), fixed);
    var full := Verdict(Events(Hunting([]), served.1), ok);
    (served.0, if full.Err? then full else Ok(if full.value == [] then [] else full.value[1..]))
  }

  /** Feed the pieces to a fresh decoder until it reports something. */
  method ReadEnveloped(pieces: seq<Blob>, ok: seq<Byte>) returns (r: Result<Blob>)
    ensures r == Verdict(Events(Hunting([]), Concat(pieces)), ok)
  {
    hide After, Events, Next, Emitted, Verdict;
    EventsOfNothing();
    var dec := new Decoder();
    ghost var start := Hunting([]);
    ghost var line := Concat(pieces);
    ghost var done: Blob := [];
    assert pieces[0..] == pieces;
    for i := 0 to |pieces|
      invariant dec.Valid() && fresh(dec) && fresh(dec.header)
      invariant line == done + Concat(pieces[i..])
      invariant dec.State() == After(start, done) && Events(start, done) == []
    {
      var chunk := pieces[i];
      assert pieces[i..][1..] == pieces[i + 1..];
      ghost var before := done;
      for j := 0 to |chunk|
        invariant dec.Valid() && fresh(dec) && fresh(dec.header)
        invariant done == before + chunk[..j]
        invariant dec.State() == After(start, done) && Events(start, done) == []
      {
        ghost var rest := chunk[j + 1..] + Concat(pieces[i + 1..]);
        assert line == done + [chunk[j]] + rest;
        PushOne(start, done, chunk[j], rest, ok);
        var event := dec.Push(chunk[j]);
        done := done + [chunk[j]];
        if event.Some? {
          return Verdict([event.value], ok);
        }
      }
      assert chunk[..|chunk|] == chunk;
    }
    assert line == done;
    r := Err(Timeout);
  }

  lemma EventsOfNothing()
    ensures After(Hunting([]), []) == Hunting([]) && Events(Hunting([]), []) == []
    ensures forall ok :: Verdict([], ok) == Err(Timeout)
  {
  }

  /** The byte after a silent stretch: silence continues, or this is the first report. */
  lemma PushOne(d: Progress, done: Blob, b: Byte, rest: Blob, ok: seq<Byte>)
    requires Sound(d) && Events(d, done) == []
    ensures After(d, done + [b]) == Next(After(d, done), b)
    ensures var e := Emitted(After(d, done), b);
      if e.None? then Events(d, done + [b]) == []
      else Verdict(Events(d, done + [b] + rest), ok) == Verdict([e.value], ok)
  {
    hide Next, Emitted;
    AfterConcat(d, done, [b]);
    assert [b][1..] == [];
    AfterConcat(d, done + [b], rest);
  }

  /** A framed reply of 1 to 2048 bytes is understood, however it is cut up. */
  lemma ReplyUnderstood(payload: Blob, ok: seq<Byte>)
    requires Deliverable(payload)
    ensures Verdict(Events(Hunting([]), Encode(payload)), ok) ==
      if payload[0] in ok then Ok(payload) else Err(EcuError(payload[0]))
  {
    FrameComesThrough([], payload);
  }

  /** The client's session, with the device at the other end of the line. */
  class Session {
    const ecu: Device.PageStore
    const canId: Byte
    // How many bytes successive transport reads return, at most 256 each.
    var cuts: seq<nat>

    constructor (ecu: Device.PageStore, canId: Byte, cuts: seq<nat>)
      ensures this.ecu == ecu && this.canId == canId && this.cuts == cuts
    {
      this.ecu, this.canId, this.cuts := ecu, canId, cuts;
    }

    /** The transport hands over `line` in pieces of its own choosing, possibly empty ones. */
    method Receive(line: Blob) returns (pieces: seq<Blob>)
      modifies this`cuts
      ensures Concat(pieces) == line
      ensures forall k :: 0 <= k < |pieces| ==> |pieces[k]| <= 256
    {
      pieces := [];
      var i := 0;
      while i < |line|
        invariant 0 <= i <= |line| && Concat(pieces) == line[..i]
        invariant forall k :: 0 <= k < |pieces| ==> |pieces[k]| <= 256
        decreases |line| - i, |cuts|
      {
        var n := 256;
        if cuts != [] {
          n, cuts := cuts[0] % 257, cuts[1..];
        }
        if n > |line| - i {
          n := |line| - i;
        }
        ConcatSnoc(pieces, line[i..i + n]);
        pieces := pieces + [line[i..i + n]];
        assert line[..i] + line[i..i + n] == line[..i + n];
        i := i + n;
      }
      assert line[..i] == line;
    }

    /** One framed request and its reply, return code stripped. */
    method Request(payload: Blob, ok: seq<Byte>) returns (r: Result<Blob>)
      requires Device.Valid(ecu.Value())
      modifies this`cuts, ecu
      ensures (ecu.Value(), r) == Exchange(old(ecu.Value()), payload, ok, ecu.fixed)
      ensures Device.Valid(ecu.Value())
    {
      hide Device.Drain, Encode, Events;
      var line := ecu.Serve(Encode(payload));
      var pieces := Receive(line);
      r := ReadEnveloped(pieces, ok);
      if r.Ok? {
        r := Ok(if r.value == [] then [] else r.value[1..]);
      }
    }
  }

  lemma {:induction false} ConcatSnoc(pieces: seq<Blob>, last: Blob)
    ensures Concat(pieces + [last]) == Concat(pieces) + last
  {
    if pieces == [] {
      assert [] + [last] == [last] && [last][1..] == [];
    } else {
      assert (pieces + [last])[1..] == pieces[1..] + [last];
      ConcatSnoc(pieces[1..], last);
    }
  }

  /**
   An admissible request to an idle device, whose reply frame carries 1 to 2048 bytes: the device
   dispatches it, and the client reads back exactly the reply, or its error code.
   */
  lemma ExchangeDispatches(s: Device.Store, payload: Blob, ok: seq<Byte>, fixed: Device.Fixed, body: Blob)
    requires Device.Ready(s) && Device.Admissible(payload) && Deliverable(body)
    requires Device.Dispatch(s, payload, fixed).1 == Encode(body)
    ensures Exchange(s, payload, ok, fixed) ==
      (Device.Dispatch(s, payload, fixed).0, if body[0] in ok then Ok(body[1..]) else Err(EcuError(body[0])))
  {
    hide Device.Drain, Device.Dispatch, Encode, Events;
    assert [] + Encode(payload) == Encode(payload);
    Device.RequestIsServed(s, payload, fixed);
    ReplyUnderstood(body, ok);
  }
}
