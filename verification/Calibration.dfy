/**
 The reference-table transfer: 1024 bytes in ordered big-endian chunks, of which
 the last makes the table current. All or nothing.
 */
module Calibration {
  import opened Bytes
  import opened Options
  import opened Crc32
  import Envelope
  import Template
  import Device
  import Pages
  import opened Session

  const SIZE: nat := 1024

  /** The layouts `write` accepts. */
  predicate Accepted(block: nat, data: Blob) {
    |data| == SIZE && 0 < block <= 256 && block % 32 == 0
  }

  /** 16-bit byte swap; with little-endian template fields it puts a number on the wire big-endian. */
  function SwapBytes(n: nat): (r: nat)
    requires n < 0x1_0000
    ensures r < 0x1_0000 && Le16(r) == Be16(n)
  {
    n % 256 * 256 + n / 256
  }

  /** The command for a chunk at `offset`. */
  function Command(canId: Byte, id: Byte, offset: nat, chunk: Blob): Blob
    requires offset < 0x1_0000 && |chunk| < 0x1_0000
  {
    [0x74, canId, id] + Be16(offset) + Be16(|chunk|) + chunk
  }

  /** All commands of the transfer from byte `from` on. */
  function Commands(canId: Byte, id: Byte, data: Blob, block: nat, from: nat): seq<Blob>
    requires block > 0 && |data| <= SIZE
    decreases |data| - from
  {
    if from >= |data| then []
    else
      var next := if from + block <= |data| then from + block else |data|;
      [Command(canId, id, from, data[from..next])] + Commands(canId, id, data, block, next)
  }

  const TABLE: seq<Template.Part> :=
    [Template.Literal([0x74]), Template.Var("tsCanId"), Template.PageId, Template.Offset, Template.Count, Template.Value]

  // ----- the device takes the chunks in order ----------------------------------

  /** The device state when the bytes below `from` of a transfer of `data` have arrived. */
  ghost predicate Arrived(s: Device.Store, data: Blob, from: nat, was: Device.Store) {
    && Device.Ready(s) && from <= |data| == SIZE
    && (from > 0 ==> s.offset == from && s.pending[..from] == data[..from])
    && s.working == was.working && s.burned == was.burned && was.buffer == []
    && s.calibration == if from == SIZE then data else was.calibration
  }

  lemma CommandFields(canId: Byte, id: Byte, offset: nat, chunk: Blob)
    requires offset < 0x1_0000 && 0 < |chunk| <= 256
    ensures var cmd := Command(canId, id, offset, chunk);
      && |cmd| == 7 + |chunk| && cmd[0] == 0x74 && cmd[2] == id && cmd[7..] == chunk
      && FromBe16(cmd[3], cmd[4]) == offset && FromBe16(cmd[5], cmd[6]) == |chunk|
      && Device.Admissible(cmd)
  {
    var cmd := Command(canId, id, offset, chunk);
    assert cmd[3] == Be16(offset)[0] && cmd[4] == Be16(offset)[1];
    assert cmd[5] == Be16(|chunk|)[0] && cmd[6] == Be16(|chunk|)[1];
  }

  /** The next chunk in order is stored; the last one makes the whole table current. */
  lemma ChunkArrives(s: Device.Store, canId: Byte, data: Blob, from: nat, next: nat, was: Device.Store, fixed: Device.Fixed)
    requires Arrived(s, data, from, was) && |data| == SIZE
    requires from < next <= SIZE && next - from <= 256 && (next - from) % 32 == 0
    ensures var cmd := Command(canId, 2, from, data[from..next]);
      && Device.Admissible(cmd)
      && Device.Dispatch(s, cmd, fixed).1 == Envelope.Encode([Envelope.RC_OK])
      && Arrived(Device.Dispatch(s, cmd, fixed).0, data, next, was)
  {
    hide Envelope.Encode, Command, FromBe16, Crc, Be16;
    var cmd := Command(canId, 2, from, data[from..next]);
    CommandFields(canId, 2, from, data[from..next]);
    var r := Device.WriteTable(s, cmd).0;
    assert r.pending[..next] == data[..next];
    if next == SIZE {
      assert r.pending[..next] == r.pending && data[..next] == data;
    }
  }

  /** The device after `commands` have reached it one after the other. */
  function Deliver(s: Device.Store, commands: seq<Blob>, fixed: Device.Fixed): (r: Device.Store)
    requires Device.Valid(s)
    ensures Device.Valid(r)
    decreases |commands|
  {
    if commands == [] then s
    else Deliver(if Device.Admissible(commands[0]) then Device.Dispatch(s, commands[0], fixed).0 else s, commands[1..], fixed)
  }

  lemma {:induction false} PrefixArrives(s: Device.Store, canId: Byte, data: Blob, block: nat, from: nat, k: nat,
                                         was: Device.Store, fixed: Device.Fixed)
    requires Device.Valid(s) && block > 0 && |data| == SIZE && Accepted(block, data)
    requires Arrived(s, data, from, was) && from % 32 == 0
    requires k <= |Commands(canId, 2, data, block, from)|
    ensures var t := Deliver(s, Commands(canId, 2, data, block, from)[..k], fixed);
      && t.working == was.working && t.burned == was.burned
      && t.calibration == if k == |Commands(canId, 2, data, block, from)| then data else was.calibration
    decreases k
  {
    hide Device.Dispatch, Device.Admissible, Device.Valid, Command, Commands, Deliver, Arrived, Accepted;
    var commands := Commands(canId, 2, data, block, from);
    CommandsFrom(canId, 2, data, block, from);
    if k == 0 {
      NothingDelivered(s, data, from, was, fixed);
      assert commands[..k] == [];
    } else {
      var next := if from + block <= SIZE then from + block else SIZE;
      NextBlock(block, data, from);
      var cmd, rest := Command(canId, 2, from, data[from..next]), Commands(canId, 2, data, block, next);
      ChunkArrives(s, canId, data, from, next, was, fixed);
      assert commands[..k] == [cmd] + rest[..k - 1];
      FirstDelivered(s, cmd, rest[..k - 1], fixed);
      PrefixArrives(Device.Dispatch(s, cmd, fixed).0, canId, data, block, next, k - 1, was, fixed);
    }
  }

  lemma NextBlock(block: nat, data: Blob, from: nat)
    requires Accepted(block, data) && from % 32 == 0 && from < SIZE
    ensures var next := if from + block <= SIZE then from + block else SIZE;
      from < next <= SIZE == |data| && next - from <= 256 && (next - from) % 32 == 0 && next % 32 == 0
  {}

  lemma CommandsFrom(canId: Byte, id: Byte, data: Blob, block: nat, from: nat)
    requires Accepted(block, data)
    ensures from >= SIZE ==> Commands(canId, id, data, block, from) == []
    ensures from < SIZE ==> var next := if from + block <= SIZE then from + block else SIZE;
        Commands(canId, id, data, block, from) == [Command(canId, id, from, data[from..next])] + Commands(canId, id, data, block, next)
  {
    hide Command;
  }

  lemma NothingDelivered(s: Device.Store, data: Blob, from: nat, was: Device.Store, fixed: Device.Fixed)
    requires Device.Valid(s) && Arrived(s, data, from, was)
    ensures Deliver(s, [], fixed) == s && from <= SIZE
    ensures s.working == was.working && s.burned == was.burned
    ensures s.calibration == if from == SIZE then data else was.calibration
  {
  }

  lemma FirstDelivered(s: Device.Store, cmd: Blob, rest: seq<Blob>, fixed: Device.Fixed)
    requires Device.Valid(s) && Device.Admissible(cmd)
    ensures Deliver(s, [cmd] + rest, fixed) == Deliver(Device.Dispatch(s, cmd, fixed).0, rest, fixed)
  {
    hide Device.Dispatch, Device.Admissible, Device.Valid;
    assert ([cmd] + rest)[1..] == rest;
  }

  /**
   All or nothing, from any device state whatever an earlier transfer left
   behind: the first `k` commands leave the current table as it was, unless they
   are all of them; then the table is exactly the data. Pages are never touched.
   */
  lemma AllOrNothing(s: Device.Store, canId: Byte, data: Blob, block: nat, k: nat, fixed: Device.Fixed)
    requires Device.Ready(s) && Accepted(block, data) && k <= |Commands(canId, 2, data, block, 0)|
    ensures var t := Deliver(s, Commands(canId, 2, data, block, 0)[..k], fixed);
      && t.working == s.working && t.burned == s.burned
      && t.calibration == if k == |Commands(canId, 2, data, block, 0)| then data else s.calibration
  {
    hide Deliver, Commands;
    StartArrived(s, data);
    PrefixArrives(s, canId, data, block, 0, k, s, fixed);
  }

  // ----- the client ----------------------------------------------------------

  /** The firmware's template text parses to the table command. */
  lemma TableText()
    ensures Template.ParseFrom(TABLE_TEXT, [], []) == Template.Ok(TABLE)
  {
    hide Template.ParseFrom, Template.Print;
    var tail := [Template.PageId, Template.Offset, Template.Count, Template.Value];
    Pages.PrintedTails();
    Pages.PrintCons(Template.Var("tsCanId"), tail);
    Pages.CommandText('t', [Template.Var("tsCanId")] + tail);
    assert ['t'] + (['\\', '$'] + "tsCanId" + "%2i%2o%2c%v") == "t\\$tsCanId%2i%2o%2c%v";
    assert [Template.Literal([Template.Low('t')])] + ([Template.Var("tsCanId")] + tail) == TABLE;
  }

  /** With swapped numbers the little-endian template yields the big-endian command. */
  lemma TableCommand(canId: Byte, id: Byte, offset: nat, chunk: Blob)
    requires offset < 0x1_0000 && |chunk| < 0x1_0000
    ensures Template.Built(TABLE, Template.Args(canId, Some([id]), Some(SwapBytes(offset)), Some(SwapBytes(|chunk|)), Some(chunk)))
      == Template.Ok(Command(canId, id, offset, chunk))
  {
    hide Template.Built, SwapBytes, Le16, Be16;
    var args := Template.Args(canId, Some([id]), Some(SwapBytes(offset)), Some(SwapBytes(|chunk|)), Some(chunk));
    var o, c := Be16(offset), Be16(|chunk|);
    NothingBuilt(args);
    Pages.BuiltCons(Template.Value, [], args, chunk, []);
    Pages.BuiltCons(Template.Count, [Template.Value] + [], args, c, chunk + []);
    Pages.BuiltCons(Template.Offset, [Template.Count] + ([Template.Value] + []), args, o, c + (chunk + []));
    var tail := [Template.PageId] + ([Template.Offset] + ([Template.Count] + ([Template.Value] + [])));
    Pages.BuiltCons(Template.PageId, tail[1..], args, [id], o + (c + (chunk + [])));
    Pages.BuiltCons(Template.Var("tsCanId"), tail, args, [canId], [id] + (o + (c + (chunk + []))));
    Pages.BuiltCons(Template.Literal([0x74]), [Template.Var("tsCanId")] + tail, args, [0x74], [canId] + ([id] + (o + (c + (chunk + [])))));
    assert [Template.Literal([0x74])] + ([Template.Var("tsCanId")] + tail) == TABLE;
    assert [0x74] + ([canId] + ([id] + (o + (c + (chunk + []))))) == [0x74, canId, id] + o + c + chunk;
  }

  lemma NothingBuilt(args: Template.Args)
    requires Template.Fits(args)
    ensures Template.Built([], args) == Template.Ok([])
  {
  }

  /** The arguments for the chunk at `from`. */
  function ChunkArgs(canId: Byte, id: Byte, from: nat, chunk: Blob): (args: Template.Args)
    requires from < 0x1_0000 && |chunk| < 0x1_0000
    ensures Template.Fits(args)
  {
    Template.Args(canId, Some([id]), Some(SwapBytes(from)), Some(SwapBytes(|chunk|)), Some(chunk))
  }

  /** All commands from byte `from` on, whatever the template, or the first problem. */
  function BuiltAll(parts: seq<Template.Part>, canId: Byte, id: Byte, data: Blob, block: nat, from: nat): Template.Result<seq<Blob>>
    requires 0 < block && |data| <= SIZE
    decreases |data| - from
  {
    if from >= |data| then Template.Ok([])
    else
      var next := if from + block <= |data| then from + block else |data|;
      match Template.Built(parts, ChunkArgs(canId, id, from, data[from..next]))
      case Err(problem) => Template.Err(problem)
      case Ok(cmd) => After([cmd], BuiltAll(parts, canId, id, data, block, next))
  }

  function After(front: seq<Blob>, r: Template.Result<seq<Blob>>): Template.Result<seq<Blob>> {
    match r
    case Err(problem) => Template.Err(problem)
    case Ok(rest) => Template.Ok(front + rest)
  }

  lemma AfterNothing(r: Template.Result<seq<Blob>>)
    ensures After([], r) == r
  {
    match r
    case Err(_) =>
    case Ok(rest) => assert [] + rest == rest;
  }

  lemma AfterTwice(a: seq<Blob>, b: seq<Blob>, r: Template.Result<seq<Blob>>)
    ensures After(a, After(b, r)) == After(a + b, r)
  {
    match r
    case Err(_) =>
    case Ok(rest) => assert a + (b + rest) == (a + b) + rest;
  }

  lemma ChunkBuilds(canId: Byte, id: Byte, from: nat, chunk: Blob)
    requires from < 0x1_0000 && |chunk| < 0x1_0000
    ensures Template.Built(TABLE, ChunkArgs(canId, id, from, chunk)) == Template.Ok(Command(canId, id, from, chunk))
  {
    hide Template.Built, SwapBytes, Command;
    TableCommand(canId, id, from, chunk);
  }

  /** With the table template nothing can go wrong. */
  lemma {:induction false} TableBuilds(canId: Byte, id: Byte, data: Blob, block: nat, from: nat)
    requires 0 < block && |data| <= SIZE
    ensures BuiltAll(TABLE, canId, id, data, block, from) == Template.Ok(Commands(canId, id, data, block, from))
    decreases |data| - from
  {
    hide Template.Built, Command, ChunkArgs;
    if from >= |data| {
    } else {
      var next := if from + block <= |data| then from + block else |data|;
      ChunkBuilds(canId, id, from, data[from..next]);
      TableBuilds(canId, id, data, block, next);
    }
  }

  /** Build every command before anything is sent. */
  method BuildAll(parts: seq<Template.Part>, canId: Byte, id: Byte, block: nat, data: Blob) returns (r: Template.Result<seq<Blob>>)
    requires Accepted(block, data)
    ensures r == BuiltAll(parts, canId, id, data, block, 0)
  {
    hide Template.Built, ChunkArgs, After;
    var commands: seq<Blob>, offset := [], 0;
    ghost var goal := BuiltAll(parts, canId, id, data, block, 0);
    AfterNothing(goal);
    while offset < |data|
      invariant 0 <= offset <= |data|
      invariant goal == After(commands, BuiltAll(parts, canId, id, data, block, offset))
      decreases |data| - offset
    {
      var next := if offset + block <= |data| then offset + block else |data|;
      var cmd := Template.Build(parts, ChunkArgs(canId, id, offset, data[offset..next]));
      if cmd.Err? {
        AfterProblem(commands, cmd.problem);
        return Template.Err(cmd.problem);
      }
      AfterTwice(commands, [cmd.value], BuiltAll(parts, canId, id, data, block, next));
      commands := commands + [cmd.value];
      offset := next;
    }
    AfterNoMore(commands);
    r := Template.Ok(commands);
  }

  lemma AfterProblem(front: seq<Blob>, problem: Template.Problem)
    ensures After(front, Template.Err(problem)) == Template.Err(problem)
  {
  }

  lemma AfterNoMore(front: seq<Blob>)
    ensures After(front, Template.Ok([])) == Template.Ok(front)
  {
    assert front + [] == front;
  }

  lemma ChunkExchange(s: Device.Store, canId: Byte, data: Blob, from: nat, next: nat, was: Device.Store, fixed: Device.Fixed)
    requires Arrived(s, data, from, was) && |data| == SIZE
    requires from < next <= SIZE && next - from <= 256 && (next - from) % 32 == 0
    ensures var r := Exchange(s, Command(canId, 2, from, data[from..next]), [0x00], fixed);
      r.1.Ok? && Arrived(r.0, data, next, was)
  {
    hide Device.Dispatch, Exchange, Envelope.Encode, Command, Arrived;
    ArrivedValid(s, data, from, was);
    ChunkArrives(s, canId, data, from, next, was, fixed);
    ExchangeDispatches(s, Command(canId, 2, from, data[from..next]), [0x00], fixed, [Envelope.RC_OK]);
  }

  lemma ArrivedValid(s: Device.Store, data: Blob, from: nat, was: Device.Store)
    requires Arrived(s, data, from, was)
    ensures Device.Ready(s)
  {
  }

  /** A chunk for another table is refused and changes nothing. */
  lemma OtherTableRefused(s: Device.Store, canId: Byte, id: Byte, from: nat, chunk: Blob, fixed: Device.Fixed)
    requires Device.Ready(s) && id != 2 && from < 0x1_0000 && 0 < |chunk| <= 256
    ensures Exchange(s, Command(canId, id, from, chunk), [0x00], fixed) == (s, Err(EcuError(Device.RC_RANGE)))
  {
    hide Exchange, Envelope.Encode, Command, FromBe16, Crc, Be16;
    CommandFields(canId, id, from, chunk);
    ExchangeDispatches(s, Command(canId, id, from, chunk), [0x00], fixed, [Device.RC_RANGE]);
  }

  /** Prepared commands sent one after the other, up to the first that fails. */
  function Sent(s: Device.Store, commands: seq<Blob>, fixed: Device.Fixed): (r: (Device.Store, Result<()>))
    requires Device.Valid(s)
    ensures Device.Valid(r.0)
    decreases |commands|
  {
    if commands == [] then (s, Ok(()))
    else
      var reply := Exchange(s, commands[0], [Envelope.RC_OK], fixed);
      if reply.1.Err? then (reply.0, Err(reply.1.error)) else Sent(reply.0, commands[1..], fixed)
  }

  /** The device after a completed transfer. */
  function Transferred(s: Device.Store, data: Blob): Device.Store {
    s.(calibration := data, pending := data, offset := SIZE)
  }

  lemma {:induction false} RestIsSent(s: Device.Store, canId: Byte, data: Blob, block: nat, from: nat, was: Device.Store,
                                      fixed: Device.Fixed)
    requires Device.Valid(s) && block > 0 && |data| == SIZE && Accepted(block, data)
    requires Arrived(s, data, from, was) && from % 32 == 0 && from <= SIZE
    ensures Sent(s, Commands(canId, 2, data, block, from), fixed) == if from == SIZE then (s, Ok(())) else (Transferred(was, data), Ok(()))
    decreases SIZE - from
  {
    hide Exchange, Command, Commands, Arrived, Accepted, Device.Valid, Transferred;
    CommandsFrom(canId, 2, data, block, from);
    if from < SIZE {
      var next := if from + block <= SIZE then from + block else SIZE;
      NextBlock(block, data, from);
      var cmd, rest := Command(canId, 2, from, data[from..next]), Commands(canId, 2, data, block, next);
      ChunkExchange(s, canId, data, from, next, was, fixed);
      assert ([cmd] + rest)[1..] == rest;
      var t := Exchange(s, cmd, [0x00], fixed).0;
      RestIsSent(t, canId, data, block, next, was, fixed);
      if next == SIZE { AllArrived(t, data, was); }
    }
  }

  lemma AllArrived(s: Device.Store, data: Blob, was: Device.Store)
    requires Arrived(s, data, SIZE, was) && |data| == SIZE
    ensures s == Transferred(was, data)
  {
    assert s.pending[..SIZE] == s.pending && data[..SIZE] == data;
  }

  /** From any device state a transfer for the AFR table completes, and one for another table fails at its first chunk. */
  lemma TransferIsSent(s: Device.Store, canId: Byte, id: Byte, data: Blob, block: nat, fixed: Device.Fixed)
    requires Device.Ready(s) && Accepted(block, data)
    ensures Sent(s, Commands(canId, id, data, block, 0), fixed) ==
      if id == 2 then (Transferred(s, data), Ok(())) else (s, Err(EcuError(Device.RC_RANGE)))
  {
    hide Exchange, Command, Commands, Arrived, Device.Valid, Transferred;
    if id == 2 {
      StartArrived(s, data);
      RestIsSent(s, canId, data, block, 0, s, fixed);
    } else {
      CommandsFrom(canId, id, data, block, 0);
      OtherTableRefused(s, canId, id, 0, data[0..block], fixed);
    }
  }

  /** The firmware's template text. */
  const TABLE_TEXT: string := "t\\$tsCanId%2i%2o%2c%v"

  /**
   The whole transfer over the wire. A layout that is not accepted, an identifier
   of more than a byte and any template error send nothing. With the firmware's
   template the AFR table's identifier 2 ends with exactly the data as the
   device's current table, and any other one with an error and nothing changed.
   */
  method Write(session: Session, template: string, id: nat, block: nat, data: Blob) returns (r: Result<()>)
    requires Device.Valid(session.ecu.Value())
    modifies session`cuts, session.ecu
    ensures !Accepted(block, data) || id > 255 ==> r == Err(Unsupported) && session.ecu.Value() == old(session.ecu.Value())
    ensures Template.ParseFrom(template, [], []).Err? ==> r.Err? && session.ecu.Value() == old(session.ecu.Value())
    ensures Accepted(block, data) && id <= 255 && Template.ParseFrom(template, [], []).Ok? ==>
      var commands := BuiltAll(Template.ParseFrom(template, [], []).value, session.canId, id, data, block, 0);
      (session.ecu.Value(), r) ==
        if commands.Err? then (old(session.ecu.Value()), Err(BadTemplate(commands.problem)))
        else Sent(old(session.ecu.Value()), commands.value, session.ecu.fixed)
    ensures template == TABLE_TEXT && Accepted(block, data) && id <= 255 && old(session.ecu.buffer) == [] ==>
      (session.ecu.Value(), r) ==
        if id == 2 then (Transferred(old(session.ecu.Value()), data), Ok(()))
        else (old(session.ecu.Value()), Err(EcuError(Device.RC_RANGE)))
  {
    hide Sent, Commands, BuiltAll, Template.ParseFrom, Device.Valid;
    TableText();
    if |data| != 1024 || block == 0 || block > 256 || block % 32 != 0 {
      return Err(Unsupported);
    }
    if id > 255 {
      return Err(Unsupported);
    }
    var parts := Template.Parse(template);
    if parts.Err? {
      return Err(BadTemplate(parts.problem));
    }
    TableBuilds(session.canId, id, data, block, 0);
    if session.ecu.buffer == [] {
      TransferIsSent(session.ecu.Value(), session.canId, id, data, block, session.ecu.fixed);
    }
    var commands := BuildAll(parts.value, session.canId, id, block, data);
    if commands.Err? {
      return Err(BadTemplate(commands.problem));
    }
    r := SendAll(session, commands.value);
  }

  /** Send the prepared commands, stopping at the first that fails. */
  method SendAll(session: Session, commands: seq<Blob>) returns (r: Result<()>)
    requires Device.Valid(session.ecu.Value())
    modifies session`cuts, session.ecu
    ensures (session.ecu.Value(), r) == Sent(old(session.ecu.Value()), commands, session.ecu.fixed)
  {
    hide Exchange, Device.Valid;
    ghost var goal := Sent(session.ecu.Value(), commands, session.ecu.fixed);
    assert commands[0..] == commands;
    for i := 0 to |commands|
      invariant Device.Valid(session.ecu.Value())
      invariant goal == Sent(session.ecu.Value(), commands[i..], session.ecu.fixed)
    {
      assert commands[i..][1..] == commands[i + 1..];
      var reply := session.Request(commands[i], [Envelope.RC_OK]);
      if reply.Err? {
        return Err(reply.error);
      }
    }
    r := Ok(());
  }

  lemma StartArrived(s: Device.Store, data: Blob)
    requires Device.Ready(s) && |data| == SIZE
    ensures Arrived(s, data, 0, s)
  {
  }
}
