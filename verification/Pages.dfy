/**
 Page commands built from INI templates: read, chunk write, checksum and burn,
 proved against the simulated device through framing, dispatch and decoding.
 */
module Pages {
  import opened Bytes
  import opened Options
  import opened Crc32
  import Envelope
  import Template
  import Device
  import DirtySpans
  import opened Session

  /** The INI texts of one page and its size. */
  datatype PageConfig = PageConfig(identifier: string, read: string, chunkWrite: string, crc: string, burn: string, size: nat)

  datatype PageDef = PageDef(
    identifier: Blob, read: seq<Template.Part>, chunkWrite: seq<Template.Part>,
    crc: seq<Template.Part>, burn: seq<Template.Part>, size: nat)

  /** A 16-bit blocking factor; 0 is raised to 1. */
  type BlockingFactor = n: nat | 0 < n < 0x1_0000 witness 1

  datatype PageCommands = PageCommands(pages: seq<PageDef>, blockingFactor: BlockingFactor, canId: Byte)

  /** Every text parsed, and the identifier built from nothing but the CAN id; the first problem otherwise. */
  function Defined(config: PageConfig, canId: Byte): Result<PageDef> {
    var id := Template.ParseFrom(config.identifier, [], []);
    if id.Err? then Err(BadTemplate(id.problem)) else
    var identifier := Template.Built(id.value, Template.Args(canId, None, None, None, None));
    if identifier.Err? then Err(BadTemplate(identifier.problem)) else
    var read := Template.ParseFrom(config.read, [], []);
    if read.Err? then Err(BadTemplate(read.problem)) else
    var chunkWrite := Template.ParseFrom(config.chunkWrite, [], []);
    if chunkWrite.Err? then Err(BadTemplate(chunkWrite.problem)) else
    var crc := Template.ParseFrom(config.crc, [], []);
    if crc.Err? then Err(BadTemplate(crc.problem)) else
    var burn := Template.ParseFrom(config.burn, [], []);
    if burn.Err? then Err(BadTemplate(burn.problem)) else
    Ok(PageDef(identifier.value, read.value, chunkWrite.value, crc.value, burn.value, config.size))
  }

  /** Parse one page's templates and pre-build its identifier. */
  method Define(config: PageConfig, canId: Byte) returns (r: Result<PageDef>)
    ensures r == Defined(config, canId)
  {
    hide Template.ParseFrom, Template.Built;
    var id := Template.Parse(config.identifier);
    if id.Err? { return Err(BadTemplate(id.problem)); }
    var identifier := Template.Build(id.value, Template.Args(canId, None, None, None, None));
    if identifier.Err? { return Err(BadTemplate(identifier.problem)); }
    var read := Template.Parse(config.read);
    if read.Err? { return Err(BadTemplate(read.problem)); }
    var chunkWrite := Template.Parse(config.chunkWrite);
    if chunkWrite.Err? { return Err(BadTemplate(chunkWrite.problem)); }
    var crc := Template.Parse(config.crc);
    if crc.Err? { return Err(BadTemplate(crc.problem)); }
    var burn := Template.Parse(config.burn);
    if burn.Err? { return Err(BadTemplate(burn.problem)); }
    r := Ok(PageDef(identifier.value, read.value, chunkWrite.value, crc.value, burn.value, config.size));
  }

  // ----- the standard command set --------------------------------------------

  const READ: seq<Template.Part> := [Template.Literal([0x70]), Template.PageId, Template.Offset, Template.Count]
  const WRITE: seq<Template.Part> := [Template.Literal([0x4D]), Template.PageId, Template.Offset, Template.Count, Template.Value]
  const CRC: seq<Template.Part> := [Template.Literal([0x64]), Template.PageId]
  const BURN: seq<Template.Part> := [Template.Literal([0x62]), Template.PageId]

  /** Page `n` of the device, spoken to with the firmware's templates. */
  predicate Standard(def: PageDef, canId: Byte, n: Byte) {
    && def.identifier == [canId, n]
    && def.read == READ && def.chunkWrite == WRITE && def.crc == CRC && def.burn == BURN
  }

  function CommandBytes(parts: seq<Template.Part>, def: PageDef, canId: Byte, offset: Option<nat>, count: Option<nat>, value: Option<Blob>)
    : Template.Result<Blob>
    requires offset.Some? ==> offset.value < 0x1_0000
    requires count.Some? ==> count.value < 0x1_0000
  {
    Template.Built(parts, Template.Args(canId, Some(def.identifier), offset, count, value))
  }

  /** The bytes of the four requests. */
  lemma StandardRequests(def: PageDef, canId: Byte, n: Byte, offset: nat, count: nat, value: Blob)
    requires Standard(def, canId, n) && offset < 0x1_0000 && count < 0x1_0000
    ensures CommandBytes(READ, def, canId, Some(offset), Some(count), None) == Template.Ok([0x70, canId, n] + Le16(offset) + Le16(count))
    ensures CommandBytes(WRITE, def, canId, Some(offset), Some(count), Some(value)) ==
      Template.Ok([0x4D, canId, n] + Le16(offset) + Le16(count) + value)
    ensures CommandBytes(CRC, def, canId, None, None, None) == Template.Ok([0x64, canId, n])
    ensures CommandBytes(BURN, def, canId, None, None, None) == Template.Ok([0x62, canId, n])
  {
    var id: Blob := [canId, n];
    var writing := Template.Args(canId, Some(id), Some(offset), Some(count), Some(value));
    var reading := Template.Args(canId, Some(id), Some(offset), Some(count), None);
    var bare := Template.Args(canId, Some(id), None, None, None);
    BuiltCons(Template.Value, [], writing, value, []);
    assert [Template.Value] + [] == [Template.Value] && value + [] == value;
    FourParts([0x4D], writing, [Template.Value], value);
    assert WRITE == [Template.Literal([0x4D]), Template.PageId, Template.Offset, Template.Count] + [Template.Value];
    FourParts([0x70], reading, [], []);
    assert READ == [Template.Literal([0x70]), Template.PageId, Template.Offset, Template.Count] + [];
    TwoParts([0x64], bare);
    TwoParts([0x62], bare);
    var o, c := Le16(offset), Le16(count);
    assert forall cmd: Byte :: [cmd] + id + o + c == [cmd, canId, n] + o + c;
    assert [0x70] + id + o + c + [] == [0x70, canId, n] + o + c;
    assert forall cmd: Byte :: [cmd] + id == [cmd, canId, n];
  }

  lemma BuiltCons(p: Template.Part, rest: seq<Template.Part>, args: Template.Args, head: Blob, tail: Blob)
    requires Template.Fits(args)
    requires Template.PartBytes(p, args) == Template.Ok(head) && Template.Built(rest, args) == Template.Ok(tail)
    ensures Template.Built([p] + rest, args) == Template.Ok(head + tail)
  {
    assert ([p] + rest)[1..] == rest;
  }

  lemma TwoParts(cmd: Blob, args: Template.Args)
    requires args.pageId.Some? && Template.Fits(args)
    ensures Template.Built([Template.Literal(cmd), Template.PageId], args) == Template.Ok(cmd + args.pageId.value)
  {
    BuiltCons(Template.PageId, [], args, args.pageId.value, []);
    assert [Template.PageId] + [] == [Template.PageId] && args.pageId.value + [] == args.pageId.value;
    BuiltCons(Template.Literal(cmd), [Template.PageId], args, cmd, args.pageId.value);
    assert [Template.Literal(cmd)] + [Template.PageId] == [Template.Literal(cmd), Template.PageId];
  }

  /** Command, page, offset and count in front of any tail. */
  lemma FourParts(cmd: Blob, args: Template.Args, rest: seq<Template.Part>, tail: Blob)
    requires args.pageId.Some? && args.offset.Some? && args.count.Some? && Template.Fits(args)
    requires Template.Built(rest, args) == Template.Ok(tail)
    ensures Template.Built([Template.Literal(cmd), Template.PageId, Template.Offset, Template.Count] + rest, args) ==
      Template.Ok(cmd + args.pageId.value + Le16(args.offset.value) + Le16(args.count.value) + tail)
  {
    hide Template.Built;
    var o, c := Le16(args.offset.value), Le16(args.count.value);
    BuiltCons(Template.Count, rest, args, c, tail);
    BuiltCons(Template.Offset, [Template.Count] + rest, args, o, c + tail);
    BuiltCons(Template.PageId, [Template.Offset] + ([Template.Count] + rest), args, args.pageId.value, o + (c + tail));
    BuiltCons(Template.Literal(cmd), [Template.PageId] + ([Template.Offset] + ([Template.Count] + rest)), args,
              cmd, args.pageId.value + (o + (c + tail)));
    assert [Template.Literal(cmd)] + ([Template.PageId] + ([Template.Offset] + ([Template.Count] + rest))) ==
      [Template.Literal(cmd), Template.PageId, Template.Offset, Template.Count] + rest;
    assert cmd + (args.pageId.value + (o + (c + tail))) == cmd + args.pageId.value + o + c + tail;
  }

  /** A plain command character followed by parts. */
  lemma CommandText(c: char, parts: seq<Template.Part>)
    requires c != '\\' && c != '%' && Template.Normal(parts) && parts != [] && !parts[0].Literal?
    ensures Template.ParseFrom([c] + Template.Print(parts), [], []) ==
      Template.Ok([Template.Literal([Template.Low(c)])] + parts)
  {
    hide Template.ParseFrom;
    var rest := Template.Print(parts);
    Template.PlainChar([c] + rest);
    Template.FrontParses([c], Template.One(Template.Low(c)), rest, [], []);
    assert [] + [Template.Low(c)] == [Template.Low(c)];
    Template.PrintedParses(parts, [Template.Low(c)], []);
    assert [] + [Template.Literal([Template.Low(c)])] == [Template.Literal([Template.Low(c)])];
  }

  lemma PrintCons(p: Template.Part, rest: seq<Template.Part>)
    ensures Template.Print([p] + rest) == Template.PrintPart(p) + Template.Print(rest)
  {
    assert ([p] + rest)[1..] == rest;
  }

  lemma PrintedTails()
    ensures Template.Print([Template.PageId]) == "%2i"
    ensures Template.Print([Template.PageId, Template.Offset, Template.Count]) == "%2i%2o%2c"
    ensures Template.Print([Template.PageId, Template.Offset, Template.Count, Template.Value]) == "%2i%2o%2c%v"
  {
    PrintCons(Template.Value, []);
    PrintCons(Template.Count, [Template.Value]);
    PrintCons(Template.Offset, [Template.Count] + [Template.Value]);
    PrintCons(Template.PageId, [Template.Offset] + ([Template.Count] + [Template.Value]));
    assert [Template.PageId] + ([Template.Offset] + ([Template.Count] + [Template.Value])) ==
      [Template.PageId, Template.Offset, Template.Count, Template.Value];
    PrintCons(Template.Count, []);
    PrintCons(Template.Offset, [Template.Count]);
    PrintCons(Template.PageId, [Template.Offset] + [Template.Count]);
    assert [Template.PageId] + ([Template.Offset] + [Template.Count]) == [Template.PageId, Template.Offset, Template.Count];
    PrintCons(Template.PageId, []);
  }

  /** The firmware's template texts parse to the standard command set. */
  lemma StandardTexts()
    ensures Template.ParseFrom("p%2i%2o%2c", [], []) == Template.Ok(READ)
    ensures Template.ParseFrom("M%2i%2o%2c%v", [], []) == Template.Ok(WRITE)
    ensures Template.ParseFrom("d%2i", [], []) == Template.Ok(CRC)
    ensures Template.ParseFrom("b%2i", [], []) == Template.Ok(BURN)
  {
    hide Template.ParseFrom, Template.Print;
    PrintedTails();
    CommandText('p', [Template.PageId, Template.Offset, Template.Count]);
    assert ['p'] + "%2i%2o%2c" == "p%2i%2o%2c" && [Template.Literal([Template.Low('p')])] + [Template.PageId, Template.Offset, Template.Count] == READ;
    CommandText('M', [Template.PageId, Template.Offset, Template.Count, Template.Value]);
    assert ['M'] + "%2i%2o%2c%v" == "M%2i%2o%2c%v" && [Template.Literal([Template.Low('M')])] + [Template.PageId, Template.Offset, Template.Count, Template.Value] == WRITE;
    CommandText('d', [Template.PageId]);
    assert ['d'] + "%2i" == "d%2i" && [Template.Literal([Template.Low('d')])] + [Template.PageId] == CRC;
    CommandText('b', [Template.PageId]);
    assert ['b'] + "%2i" == "b%2i" && [Template.Literal([Template.Low('b')])] + [Template.PageId] == BURN;
  }

  /** A page identifier is the CAN id and the page number. */
  lemma StandardIdentifier(canId: Byte, n: Byte)
    ensures var parts := [Template.Var("tsCanId"), Template.Literal([n])];
      && Template.ParseFrom(Template.Print(parts), [], []) == Template.Ok(parts)
      && Template.Built(parts, Template.Args(canId, None, None, None, None)) == Template.Ok([canId, n])
  {
    var parts := [Template.Var("tsCanId"), Template.Literal([n])];
    Template.PrintParse(parts);
    var args := Template.Args(canId, None, None, None, None);
    BuiltCons(Template.Literal([n]), [], args, [n], []);
    BuiltCons(Template.Var("tsCanId"), [Template.Literal([n])] + [], args, [canId], [n] + []);
    assert [Template.Var("tsCanId")] + ([Template.Literal([n])] + []) == parts && [canId] + ([n] + []) == [canId, n];
  }

  /** The firmware's texts for page `n`. */
  function StandardConfig(n: Byte, size: nat): PageConfig {
    PageConfig(['\\', '$'] + "tsCanId" + Template.PrintByte(n), "p%2i%2o%2c", "M%2i%2o%2c%v", "d%2i", "b%2i", size)
  }

  /** Parsing them gives the standard command set, so everything proved of that holds of the page they define. */
  lemma DefinedIsStandard(canId: Byte, n: Byte, size: nat)
    ensures var r := Defined(StandardConfig(n, size), canId);
      r.Ok? && Standard(r.value, canId, n) && r.value.size == size
  {
    hide Template.ParseFrom, Template.Built, Template.PrintByte;
    var parts := [Template.Var("tsCanId"), Template.Literal([n])];
    StandardTexts();
    StandardIdentifier(canId, n);
    IdentifierText(n);
  }

  lemma IdentifierText(n: Byte)
    ensures Template.Print([Template.Var("tsCanId"), Template.Literal([n])]) == ['\\', '$'] + "tsCanId" + Template.PrintByte(n)
  {
    hide Template.PrintByte;
    var id, literal := Template.Var("tsCanId"), Template.Literal([n]);
    PrintCons(literal, []);
    PrintCons(id, [literal] + []);
    assert [id] + ([literal] + []) == [id, literal];
    assert [n][1..] == [];
    assert Template.PrintBytes([n]) == Template.PrintByte(n) + "";
    assert Template.PrintByte(n) + "" == Template.PrintByte(n);
  }

  // ----- one request at a time ----------------------------------------------

  /** Build a command and make the request; a template that lacks something sends nothing. */
  function Ask(s: Device.Store, parts: seq<Template.Part>, def: PageDef, canId: Byte, offset: Option<nat>, count: Option<nat>,
               value: Option<Blob>, ok: seq<Byte>, fixed: Device.Fixed): (r: (Device.Store, Result<Blob>))
    requires Device.Valid(s)
    requires offset.Some? ==> offset.value < 0x1_0000
    requires count.Some? ==> count.value < 0x1_0000
    ensures Device.Valid(r.0)
  {
    match CommandBytes(parts, def, canId, offset, count, value)
    case Err(problem) => (s, Err(BadTemplate(problem)))
    case Ok(cmd) => Exchange(s, cmd, ok, fixed)
  }

  /** A decoded frame always carries 1 to 2048 bytes. */
  lemma {:induction false} FramesAreDeliverable(d: Envelope.Progress, line: Blob)
    requires Envelope.Sound(d)
    ensures forall k :: 0 <= k < |Envelope.Events(d, line)| && Envelope.Events(d, line)[k].Frame? ==>
      Envelope.Deliverable(Envelope.Events(d, line)[k].payload)
    decreases |line|
  {
    hide Crc;
    if line == [] {
    } else {
      FramesAreDeliverable(Envelope.Next(d, line[0]), line[1..]);
    }
  }

  /** Whatever the line carries, a successful reply has at most 2047 data bytes. */
  lemma ReplyIsShort(s: Device.Store, payload: Blob, ok: seq<Byte>, fixed: Device.Fixed)
    requires Device.Valid(s)
    ensures var r := Exchange(s, payload, ok, fixed).1;
      r.Ok? ==> |r.value| < Envelope.MAX_PAYLOAD
  {
    hide Device.Drain, Envelope.Encode, Envelope.Events;
    FramesAreDeliverable(Envelope.Hunting([]), Device.Drain(s, s.buffer + Envelope.Encode(payload), fixed).1);
  }

  function ReadCommand(canId: Byte, n: Byte, offset: nat, count: nat): Blob
    requires offset < 0x1_0000 && count < 0x1_0000
  {
    [0x70, canId, n] + Le16(offset) + Le16(count)
  }

  /** The device has page `n` and it reaches at least to `size`. */
  predicate Has(s: Device.Store, n: Byte, size: nat) {
    n in s.working && size <= |s.working[n]|
  }

  lemma ReadDispatch(s: Device.Store, canId: Byte, n: Byte, offset: nat, count: nat, fixed: Device.Fixed)
    requires Device.Valid(s) && offset < 0x1_0000 && count < 0x1_0000
    ensures Device.Admissible(ReadCommand(canId, n, offset, count))
    ensures Device.Dispatch(s, ReadCommand(canId, n, offset, count), fixed) ==
      (s, if Has(s, n, offset + count) then Envelope.Encode([0x00] + s.working[n][offset..offset + count])
          else Envelope.Encode([Device.RC_RANGE]))
  {
    hide Envelope.Encode, Device.WritePage;
    var cmd := ReadCommand(canId, n, offset, count);
    assert cmd[3..5] == Le16(offset) && cmd[5..7] == Le16(count);
    assert Device.Offset(cmd) == offset && Device.Count(cmd) == count;
  }

  /**
   One read request: the bytes asked for if the range exists and the reply fits
   a frame; an error, or not that many bytes, otherwise. Nothing is changed.
   */
  lemma ReadExchange(s: Device.Store, canId: Byte, n: Byte, offset: nat, count: nat, fixed: Device.Fixed)
    requires Device.Ready(s) && offset < 0x1_0000 && count < 0x1_0000
    ensures var r := Exchange(s, ReadCommand(canId, n, offset, count), [0x00], fixed);
      && r.0 == s
      && (Has(s, n, offset + count) && count < Envelope.MAX_PAYLOAD ==> r.1 == Ok(s.working[n][offset..offset + count]))
      && (!(Has(s, n, offset + count) && count < Envelope.MAX_PAYLOAD) ==> r.1.Err? || |r.1.value| != count)
  {
    hide Device.Drain, Device.Dispatch, Envelope.Encode, Envelope.Events, ReadCommand;
    var cmd := ReadCommand(canId, n, offset, count);
    ReadDispatch(s, canId, n, offset, count, fixed);
    ReplyIsShort(s, cmd, [0x00], fixed);
    Device.RequestIsServed(s, cmd, fixed);
    assert [] + Envelope.Encode(cmd) == Envelope.Encode(cmd);
    if !Has(s, n, offset + count) {
      ExchangeDispatches(s, cmd, [0x00], fixed, [Device.RC_RANGE]);
    } else if count < Envelope.MAX_PAYLOAD {
      var data := s.working[n][offset..offset + count];
      ExchangeDispatches(s, cmd, [0x00], fixed, [0x00] + data);
      assert ([0x00] + data)[1..] == data;
    }
  }

  // ----- whole pages ----------------------------------------------------------

  function Min(a: nat, b: nat): nat { if a <= b then a else b }

  /** The download from `offset` on, whatever the templates: requests in chunks, stopped by the first that fails. */
  function ReadAll(s: Device.Store, def: PageDef, block: BlockingFactor, canId: Byte, offset: nat, fixed: Device.Fixed)
    : (r: (Device.Store, Result<Blob>))
    requires Device.Valid(s)
    ensures Device.Valid(r.0)
    decreases def.size - offset
  {
    if offset >= def.size then (s, Ok([]))
    else
      var count := Min(def.size - offset, block);
      var data := Ask(s, def.read, def, canId, Some(offset % 0x1_0000), Some(count), None, [Envelope.RC_OK], fixed);
      if data.1.Err? then data
      else if |data.1.value| != count then (data.0, Err(ShortResponse(count, |data.1.value|)))
      else
        var rest := ReadAll(data.0, def, block, canId, offset + count, fixed);
        (rest.0, Joined(data.1.value, rest.1))
  }

  function Joined(head: Blob, tail: Result<Blob>): Result<Blob> {
    match tail
    case Err(error) => Err(error)
    case Ok(bytes) => Ok(head + bytes)
  }

  /**
   What a download of page `n` from `offset` on gives: it succeeds if and only if
   nothing is left to read, or the device has that much of the page and no chunk
   exceeds the 2047 data bytes of a frame; and then it is exactly the device's bytes.
   */
  ghost predicate IsDownload(r: Result<Blob>, s: Device.Store, n: Byte, block: BlockingFactor, offset: nat, size: nat)
    requires offset <= size
  {
    && (r.Ok? <==> offset == size || (Has(s, n, size) && Min(size - offset, block) < Envelope.MAX_PAYLOAD))
    && (r.Ok? ==> |r.value| == size - offset)
    && (r.Ok? && offset < size ==> r.value == s.working[n][offset..size])
  }

  /** Template building, framing, dispatch, reply decoding and the chunk loop compose to a download. */
  lemma {:induction false} StandardReadAll(s: Device.Store, def: PageDef, block: BlockingFactor, canId: Byte, n: Byte, offset: nat,
                                           fixed: Device.Fixed)
    requires Device.Ready(s) && Standard(def, canId, n) && offset <= def.size <= 0x1_0000
    ensures var r := ReadAll(s, def, block, canId, offset, fixed);
      r.0 == s && IsDownload(r.1, s, n, block, offset, def.size)
    decreases def.size - offset
  {
    hide Exchange, ReadCommand, Ask, Standard, Has;
    if offset < def.size {
      var count := Min(def.size - offset, block);
      AskRead(s, def, canId, n, offset, count, fixed);
      ReadExchange(s, canId, n, offset, count, fixed);
      StandardReadAll(s, def, block, canId, n, offset + count, fixed);
      HasLess(s, n, offset + count, def.size);
      if Has(s, n, def.size) {
        PageJoins(s, n, offset, offset + count, def.size, ReadAll(s, def, block, canId, offset + count, fixed).1);
      }
    }
  }

  lemma AskRead(s: Device.Store, def: PageDef, canId: Byte, n: Byte, offset: nat, count: nat, fixed: Device.Fixed)
    requires Device.Valid(s) && Standard(def, canId, n) && offset < 0x1_0000 && count < 0x1_0000
    ensures Ask(s, def.read, def, canId, Some(offset), Some(count), None, [Envelope.RC_OK], fixed) ==
      Exchange(s, ReadCommand(canId, n, offset, count), [0x00], fixed)
  {
    hide Exchange, Template.Built;
    StandardRequests(def, canId, n, offset, count, []);
  }

  lemma HasLess(s: Device.Store, n: Byte, less: nat, size: nat)
    requires less <= size
    ensures Has(s, n, size) ==> Has(s, n, less)
  {
  }

  lemma PageJoins(s: Device.Store, n: Byte, from: nat, middle: nat, size: nat, rest: Result<Blob>)
    requires from < middle <= size && Has(s, n, size)
    requires rest.Ok? ==> |rest.value| == size - middle && (middle < size ==> rest.value == s.working[n][middle..size])
    ensures rest.Ok? ==> s.working[n][from..middle] + rest.value == s.working[n][from..size]
  {
  }

  /**
   Download a page in chunks of the blocking factor; with the standard templates
   the result is a download of the device's page, which is left as it was.
   */
  method ReadPage(cfg: PageCommands, session: Session, i: nat) returns (r: Result<Blob>)
    requires Device.Valid(session.ecu.Value())
    modifies session`cuts, session.ecu
    ensures i >= |cfg.pages| ==> r == Err(NoSuchPage) && session.ecu.Value() == old(session.ecu.Value())
    ensures i < |cfg.pages| ==>
      (session.ecu.Value(), r) == ReadAll(old(session.ecu.Value()), cfg.pages[i], cfg.blockingFactor, cfg.canId, 0, session.ecu.fixed)
    ensures forall n: Byte :: i < |cfg.pages| && old(session.ecu.buffer) == [] && Standard(cfg.pages[i], cfg.canId, n) && cfg.pages[i].size <= 0x1_0000 ==>
      (session.ecu.Value() == old(session.ecu.Value()) &&
       IsDownload(r, session.ecu.Value(), n, cfg.blockingFactor, 0, cfg.pages[i].size))
  {
    hide Device.Dispatch, Exchange, Template.Built, IsDownload, Standard;
    if i >= |cfg.pages| {
      return Err(NoSuchPage);
    }
    var def := cfg.pages[i];
    var out: Blob, offset := [], 0;
    ghost var s := session.ecu.Value();
    ghost var goal := ReadAll(s, def, cfg.blockingFactor, cfg.canId, 0, session.ecu.fixed);
    forall n: Byte | session.ecu.buffer == [] && Standard(def, cfg.canId, n) && def.size <= 0x1_0000
      ensures goal.0 == s && IsDownload(goal.1, s, n, cfg.blockingFactor, 0, def.size)
    {
      StandardReadAll(s, def, cfg.blockingFactor, cfg.canId, n, 0, session.ecu.fixed);
    }
    JoinedNothing(goal.1);
    while offset < def.size
      invariant Device.Valid(session.ecu.Value()) && 0 <= offset <= def.size
      invariant var rest := ReadAll(session.ecu.Value(), def, cfg.blockingFactor, cfg.canId, offset, session.ecu.fixed);
        goal == (rest.0, Joined(out, rest.1))
      decreases def.size - offset
    {
      var count := Min(def.size - offset, cfg.blockingFactor);
      var args := Template.Args(cfg.canId, Some(def.identifier), Some(offset % 0x1_0000), Some(count), None);
      var cmd := Template.Build(def.read, args);
      if cmd.Err? {
        return Err(BadTemplate(cmd.problem));
      }
      var data := session.Request(cmd.value, [Envelope.RC_OK]);
      if data.Err? {
        return data;
      }
      if |data.value| != count {
        return Err(ShortResponse(count, |data.value|));
      }
      ghost var rest := ReadAll(session.ecu.Value(), def, cfg.blockingFactor, cfg.canId, offset + count, session.ecu.fixed);
      JoinedTwice(out, data.value, rest.1);
      out := out + data.value;
      offset := offset + count;
    }
    assert out + [] == out;
    r := Ok(out);
  }

  lemma JoinedNothing(r: Result<Blob>)
    ensures Joined([], r) == r
  {
    match r
    case Err(_) =>
    case Ok(bytes) => assert [] + bytes == bytes;
  }

  lemma JoinedTwice(a: Blob, b: Blob, r: Result<Blob>)
    ensures Joined(a, Joined(b, r)) == Joined(a + b, r)
  {
    match r
    case Err(_) =>
    case Ok(bytes) => assert a + (b + bytes) == (a + b) + bytes;
  }

  /** A page above 2047 bytes with a blocking factor above 2047 cannot be read, whatever the device holds. */
  lemma LongChunksNeverArrive(s: Device.Store, def: PageDef, block: BlockingFactor, canId: Byte, n: Byte, fixed: Device.Fixed)
    requires Device.Ready(s) && Standard(def, canId, n)
    requires 2047 < def.size <= 0x1_0000 && 2047 < block
    ensures ReadAll(s, def, block, canId, 0, fixed).1.Err?
  {
    StandardReadAll(s, def, block, canId, n, 0, fixed);
  }

  // ----- writes, checksums and burns -----------------------------------------

  function WriteCommand(canId: Byte, n: Byte, c: DirtySpans.Chunk): Blob
    requires |c.bytes| < 0x1_0000
  {
    [0x4D, canId, n] + Le16(DirtySpans.Address(c)) + Le16(|c.bytes|) + c.bytes
  }

  /** Page `n` after the device's reaction to chunk `c`. */
  function Written(s: Device.Store, n: Byte, c: DirtySpans.Chunk): Device.Store {
    if n in s.working then s.(working := s.working[n := DirtySpans.Store(s.working[n], c)]) else s
  }

  predicate Accepted(s: Device.Store, n: Byte, c: DirtySpans.Chunk) {
    n in s.working && DirtySpans.Accepts(s.working[n], c)
  }

  lemma WriteDispatch(s: Device.Store, canId: Byte, n: Byte, c: DirtySpans.Chunk, fixed: Device.Fixed)
    requires Device.Valid(s) && 0 < |c.bytes| <= Device.BLOCKING_FACTOR
    ensures Device.Admissible(WriteCommand(canId, n, c))
    ensures Device.Dispatch(s, WriteCommand(canId, n, c), fixed).1 ==
      Envelope.Encode([if Accepted(s, n, c) then Envelope.RC_OK else Device.RC_RANGE])
    ensures Device.Dispatch(s, WriteCommand(canId, n, c), fixed).0 == Written(s, n, c)
  {
    hide Envelope.Encode, Device.ReadPage;
    var cmd := WriteCommand(canId, n, c);
    assert cmd[3..5] == Le16(DirtySpans.Address(c)) && cmd[5..7] == Le16(|c.bytes|) && cmd[7..] == c.bytes;
    assert Device.Offset(cmd) == DirtySpans.Address(c) && Device.Count(cmd) == |c.bytes|;
    if n in s.working && !Accepted(s, n, c) {
      assert s.working[n := s.working[n]] == s.working;
    }
  }

  /** The chunk write, whatever the template. */
  function WriteOver(s: Device.Store, def: PageDef, canId: Byte, c: DirtySpans.Chunk, fixed: Device.Fixed)
    : (r: (Device.Store, Result<()>))
    requires Device.Valid(s)
  {
    var a := Ask(s, def.chunkWrite, def, canId, Some(DirtySpans.Address(c)), Some(|c.bytes| % 0x1_0000), Some(c.bytes),
                 [Envelope.RC_OK], fixed);
    (a.0, if a.1.Ok? then Ok(()) else Err(a.1.error))
  }

  /**
   What a chunk write does with the standard templates. Chunks of 1 to 251 bytes
   do to the device page exactly what the step system's chunk write does, and
   succeed exactly when that accepts them. The device takes no others whole: such
   a write changes nothing and times out, unless a request lies in its bytes.
   */
  ghost predicate IsWrite(r: (Device.Store, Result<()>), s: Device.Store, canId: Byte, n: Byte, c: DirtySpans.Chunk)
    requires |c.bytes| < 0x1_0000
  {
    if 0 < |c.bytes| <= Device.BLOCKING_FACTOR then r.0 == Written(s, n, c) && (r.1.Ok? <==> Accepted(s, n, c))
    else !Device.Answers(Envelope.Encode(WriteCommand(canId, n, c))) ==> r.1 == Err(Timeout) && r.0 == s.(buffer := r.0.buffer)
  }

  lemma StandardWrite(s: Device.Store, def: PageDef, canId: Byte, n: Byte, c: DirtySpans.Chunk, fixed: Device.Fixed)
    requires Device.Ready(s) && Standard(def, canId, n) && |c.bytes| < 0x1_0000
    ensures IsWrite(WriteOver(s, def, canId, c, fixed), s, canId, n, c)
  {
    hide Device.Dispatch, Exchange, Ask, Standard, Written, Accepted, WriteCommand, Envelope.Encode, Device.Answers;
    AskWrite(s, def, canId, n, c, fixed);
    if 0 < |c.bytes| <= Device.BLOCKING_FACTOR {
      WriteDispatch(s, canId, n, c, fixed);
      var body: Blob := [if Accepted(s, n, c) then Envelope.RC_OK else Device.RC_RANGE];
      ExchangeDispatches(s, WriteCommand(canId, n, c), [Envelope.RC_OK], fixed, body);
    } else if !Device.Answers(Envelope.Encode(WriteCommand(canId, n, c))) {
      SilentExchange(s, WriteCommand(canId, n, c), [Envelope.RC_OK], fixed);
    }
  }

  /** Bytes in which the device finds no request get no answer and change nothing. */
  lemma SilentExchange(s: Device.Store, payload: Blob, ok: seq<Byte>, fixed: Device.Fixed)
    requires Device.Ready(s) && !Device.Answers(Envelope.Encode(payload))
    ensures var r := Exchange(s, payload, ok, fixed); r.1 == Err(Timeout) && r.0 == s.(buffer := r.0.buffer)
  {
    hide Device.Drain, Envelope.Encode, Envelope.Next, Envelope.Emitted, Device.Answers;
    assert [] + Envelope.Encode(payload) == Envelope.Encode(payload);
    Device.SilentIff(s, Envelope.Encode(payload), fixed);
  }

  lemma AskWrite(s: Device.Store, def: PageDef, canId: Byte, n: Byte, c: DirtySpans.Chunk, fixed: Device.Fixed)
    requires Device.Valid(s) && Standard(def, canId, n) && |c.bytes| < 0x1_0000
    ensures Ask(s, def.chunkWrite, def, canId, Some(DirtySpans.Address(c)), Some(|c.bytes|), Some(c.bytes), [Envelope.RC_OK], fixed) ==
      Exchange(s, WriteCommand(canId, n, c), [Envelope.RC_OK], fixed)
  {
    hide Exchange, Template.Built;
    StandardRequests(def, canId, n, DirtySpans.Address(c), |c.bytes|, c.bytes);
  }

  /** A chunk of 252 bytes whose data begin with a framed signature query. */
  function QueryInside(): (c: DirtySpans.Chunk)
    ensures |c.bytes| == 252
  {
    QueryLength();
    DirtySpans.Chunk(0, Envelope.Encode([0x51]) + Device.Zeros(245))
  }

  lemma QueryLength()
    ensures |Envelope.Encode([0x51])| == 7
  {
    hide Crc;
  }

  lemma QueryServed(s: Device.Store, tail: Blob, fixed: Device.Fixed)
    requires Device.Ready(s) && |tail| == 4
    ensures var r := Device.Drain(s, Envelope.Encode([0x51]) + (Device.Zeros(245) + tail), fixed);
      r.1 == Envelope.Encode([0x00] + fixed.signature) && r.0 == s.(buffer := r.0.buffer)
  {
    hide Crc, Envelope.Encode, Device.Zeros, Device.Answers, Device.HandlePrimary, Device.Dispatch, Device.WithinLimits;
    var rest := Device.Zeros(245) + tail;
    QueryAnswered(s, fixed);
    Device.RequestIsDispatched(s, [0x51], rest, fixed);
    Device.ZerosAreSilent(245, tail);
    Device.SilentIff(s, rest, fixed);
    var reply := Device.Dispatch(s, [0x51], fixed).1;
    assert reply + [] == reply;
  }

  lemma QueryAnswered(s: Device.Store, fixed: Device.Fixed)
    requires Device.Valid(s)
    ensures Device.Admissible([0x51]) && Device.Dispatch(s, [0x51], fixed) == (s, Envelope.Encode([0x00] + fixed.signature))
  {
    hide Crc, Envelope.Encode;
  }

  /** The nine bytes before the data: length 259, `M`, CAN id, page 1, offset 0, count 252. */
  lemma HeaderDropped(s: Device.Store, rest: Blob, fixed: Device.Fixed)
    requires Device.Valid(s) && |rest| >= 2 && rest[0] == 0 && rest[1] == 1
    ensures Device.Drain(s, [1, 3, 0x4D, 0, 1, 0, 0, 252, 0] + rest, fixed) == Device.Drain(s, rest, fixed)
  {
    hide Device.Drain;
    Device.DropsByte(s, 0, rest, fixed);
    Device.DropsByte(s, 252, [0] + rest, fixed);
    Device.DropsByte(s, 0, [252] + ([0] + rest), fixed);
    Device.DropsByte(s, 0, [0] + ([252] + ([0] + rest)), fixed);
    Device.DropsByte(s, 1, [0] + ([0] + ([252] + ([0] + rest))), fixed);
    Device.DropsByte(s, 0, [1] + ([0] + ([0] + ([252] + ([0] + rest)))), fixed);
    Device.DropsByte(s, 0x4D, [0] + ([1] + ([0] + ([0] + ([252] + ([0] + rest))))), fixed);
    Device.DropsByte(s, 3, [0x4D] + ([0] + ([1] + ([0] + ([0] + ([252] + ([0] + rest)))))), fixed);
    Device.DropsByte(s, 1, [3] + ([0x4D] + ([0] + ([1] + ([0] + ([0] + ([252] + ([0] + rest))))))), fixed);
    assert [1] + ([3] + ([0x4D] + ([0] + ([1] + ([0] + ([0] + ([252] + ([0] + rest)))))))) ==
      [1, 3, 0x4D, 0, 1, 0, 0, 252, 0] + rest;
  }

  /**
   A write that is too long can come back as a success: the device drops its
   header, answers the query in its data, and has stored nothing.
   */
  lemma LongWriteCanSucceed(s: Device.Store, def: PageDef, fixed: Device.Fixed)
    requires Device.Ready(s) && Standard(def, 0, 1) && |fixed.signature| < 2048
    ensures var r := WriteOver(s, def, 0, QueryInside(), fixed); r.1 == Ok(()) && r.0 == s.(buffer := r.0.buffer)
  {
    hide Crc, Device.Drain, Envelope.Encode, Device.Zeros, Exchange, Ask, Standard, Envelope.Events, WriteCommand, QueryInside, Be32;
    var cmd := WriteCommand(0, 1, QueryInside());
    var tail := Be32(Crc(cmd));
    AskWrite(s, def, 0, 1, QueryInside(), fixed);
    QueryFramed();
    HeaderDropped(s, Envelope.Encode([0x51]) + (Device.Zeros(245) + tail), fixed);
    QueryServed(s, tail, fixed);
    LongExchange(s, fixed);
    QueryAddress();
  }

  lemma QueryAddress()
    ensures DirtySpans.Address(QueryInside()) == 0
  {
  }

  lemma QueryFramed()
    ensures |Envelope.Encode([0x51])| >= 2 && Envelope.Encode([0x51])[0] == 0 && Envelope.Encode([0x51])[1] == 1
    ensures var cmd := WriteCommand(0, 1, QueryInside());
      Envelope.Encode(cmd) ==
        [1, 3, 0x4D, 0, 1, 0, 0, 252, 0] + (Envelope.Encode([0x51]) + (Device.Zeros(245) + Be32(Crc(cmd))))
  {
    hide Crc, Be32, Device.Zeros, WriteCommand, Envelope.Encode;
    QueryHeader();
    QueryCommand();
    var data := Envelope.Encode([0x51]);
    var cmd, zeros := WriteCommand(0, 1, QueryInside()), Device.Zeros(245);
    FramedLong(cmd);
    assert [1, 3] + ([0x4D, 0, 1, 0, 0, 252, 0] + (data + zeros)) + Be32(Crc(cmd)) ==
      [1, 3, 0x4D, 0, 1, 0, 0, 252, 0] + (data + (zeros + Be32(Crc(cmd))));
  }

  lemma QueryHeader()
    ensures |Envelope.Encode([0x51])| >= 2 && Envelope.Encode([0x51])[0] == 0 && Envelope.Encode([0x51])[1] == 1
  {
    hide Crc, Be32;
    assert Be16(1) == [0, 1];
  }

  lemma QueryCommand()
    ensures WriteCommand(0, 1, QueryInside()) == [0x4D, 0, 1, 0, 0, 252, 0] + (Envelope.Encode([0x51]) + Device.Zeros(245))
  {
    hide Crc, Be32, Device.Zeros, Envelope.Encode, WriteCommand;
    WriteHeader(QueryInside());
  }

  lemma WriteHeader(c: DirtySpans.Chunk)
    requires c.off == 0 && |c.bytes| == 252
    ensures WriteCommand(0, 1, c) == [0x4D, 0, 1, 0, 0, 252, 0] + c.bytes
  {
    hide Le16;
    ZeroOnTheLine();
    CountOnTheLine();
    assert DirtySpans.Address(c) == 0;
    assert [0x4D, 0, 1] + [0, 0] + [252, 0] + c.bytes == [0x4D, 0, 1, 0, 0, 252, 0] + c.bytes;
  }

  lemma ZeroOnTheLine()
    ensures Le16(0) == [0, 0]
  {
  }

  lemma CountOnTheLine()
    ensures Le16(252) == [252, 0]
  {
  }

  lemma FramedLong(cmd: Blob)
    requires |cmd| == 259
    ensures Envelope.Encode(cmd) == [1, 3] + cmd + Be32(Crc(cmd))
  {
    hide Crc, Be32, Be16;
    LengthOnTheLine();
  }

  lemma LengthOnTheLine()
    ensures Be16(259) == [1, 3]
  {
  }

  lemma LongExchange(s: Device.Store, fixed: Device.Fixed)
    requires Device.Ready(s) && |fixed.signature| < 2048
    requires var d := Device.Drain(s, Envelope.Encode(WriteCommand(0, 1, QueryInside())), fixed);
      d.1 == Envelope.Encode([0x00] + fixed.signature) && d.0 == s.(buffer := d.0.buffer)
    ensures var r := Exchange(s, WriteCommand(0, 1, QueryInside()), [Envelope.RC_OK], fixed);
      r.1 == Ok(fixed.signature) && r.0 == s.(buffer := r.0.buffer)
  {
    hide Crc, Device.Drain, Envelope.Encode, Envelope.Events, WriteCommand, QueryInside;
    var line := Envelope.Encode(WriteCommand(0, 1, QueryInside()));
    assert [] + line == line;
    ReplyUnderstood([0x00] + fixed.signature, [Envelope.RC_OK]);
    assert ([0x00] + fixed.signature)[1..] == fixed.signature;
  }

  /** One chunk write over the wire. */
  method WriteChunk(cfg: PageCommands, session: Session, i: nat, c: DirtySpans.Chunk) returns (r: Result<()>)
    requires Device.Valid(session.ecu.Value()) && |c.bytes| < 0x1_0000
    modifies session`cuts, session.ecu
    ensures i >= |cfg.pages| ==> r == Err(NoSuchPage) && session.ecu.Value() == old(session.ecu.Value())
    ensures i < |cfg.pages| ==>
      (session.ecu.Value(), r) == WriteOver(old(session.ecu.Value()), cfg.pages[i], cfg.canId, c, session.ecu.fixed)
    ensures forall n: Byte :: i < |cfg.pages| && old(session.ecu.buffer) == [] && Standard(cfg.pages[i], cfg.canId, n) ==>
      IsWrite((session.ecu.Value(), r), old(session.ecu.Value()), cfg.canId, n, c)
  {
    hide Device.Dispatch, Exchange, Template.Built, IsWrite, Standard;
    if i >= |cfg.pages| {
      return Err(NoSuchPage);
    }
    var def := cfg.pages[i];
    forall n: Byte | session.ecu.buffer == [] && Standard(def, cfg.canId, n)
      ensures IsWrite(WriteOver(session.ecu.Value(), def, cfg.canId, c, session.ecu.fixed), session.ecu.Value(), cfg.canId, n, c)
    {
      StandardWrite(session.ecu.Value(), def, cfg.canId, n, c, session.ecu.fixed);
    }
    var args := Template.Args(cfg.canId, Some(def.identifier), Some(DirtySpans.Address(c)), Some(|c.bytes| % 0x1_0000), Some(c.bytes));
    var cmd := Template.Build(def.chunkWrite, args);
    if cmd.Err? {
      return Err(BadTemplate(cmd.problem));
    }
    var reply := session.Request(cmd.value, [Envelope.RC_OK]);
    r := if reply.Ok? then Ok(()) else Err(reply.error);
  }

  lemma ShortDispatch(s: Device.Store, canId: Byte, n: Byte, fixed: Device.Fixed)
    requires Device.Valid(s)
    ensures Device.Admissible([0x64, canId, n]) && Device.Admissible([0x62, canId, n])
    ensures Device.Dispatch(s, [0x64, canId, n], fixed) ==
      (s, Envelope.Encode(if n in s.working then [0x00] + Be32(Crc(s.working[n])) else [Device.RC_RANGE]))
    ensures Device.Dispatch(s, [0x62, canId, n], fixed) ==
      (if n in s.working then Device.Burn(s, n) else s,
       Envelope.Encode(if n in s.working then [Device.RC_BURN_OK] else [Device.RC_RANGE]))
  {
    hide Envelope.Encode, Device.ReadPage, Device.WritePage, Crc;
  }

  lemma CrcExchange(s: Device.Store, canId: Byte, n: Byte, fixed: Device.Fixed)
    requires Device.Ready(s)
    ensures Exchange(s, [0x64, canId, n], [0x00], fixed) ==
      (s, if n in s.working then Ok(Be32(Crc(s.working[n]))) else Err(EcuError(Device.RC_RANGE)))
  {
    hide Device.Dispatch, Exchange, Crc, Be32, Envelope.Encode;
    ShortDispatch(s, canId, n, fixed);
    var body: Blob := if n in s.working then [0x00] + Be32(Crc(s.working[n])) else [Device.RC_RANGE];
    ExchangeDispatches(s, [0x64, canId, n], [0x00], fixed, body);
    if n in s.working {
      assert body[1..] == Be32(Crc(s.working[n]));
    }
  }

  lemma BurnExchange(s: Device.Store, canId: Byte, n: Byte, fixed: Device.Fixed)
    requires Device.Ready(s)
    ensures Exchange(s, [0x62, canId, n], [0x00, 0x04], fixed) ==
      if n in s.working then (Device.Burn(s, n), Ok([])) else (s, Err(EcuError(Device.RC_RANGE)))
  {
    hide Device.Dispatch, Exchange, Envelope.Encode;
    ShortDispatch(s, canId, n, fixed);
    var body: Blob := if n in s.working then [Device.RC_BURN_OK] else [Device.RC_RANGE];
    ExchangeDispatches(s, [0x62, canId, n], [0x00, 0x04], fixed, body);
    assert body[1..] == [];
  }

  /** The checksum request, whatever the template; the number is big-endian on the wire. */
  function CrcOver(s: Device.Store, def: PageDef, canId: Byte, fixed: Device.Fixed): (r: (Device.Store, Result<nat>))
    requires Device.Valid(s)
  {
    var a := Ask(s, def.crc, def, canId, None, None, None, [Envelope.RC_OK], fixed);
    (a.0, if a.1.Err? then Err(a.1.error)
          else if |a.1.value| != 4 then Err(ShortResponse(4, |a.1.value|)) else Ok(FromBe32(a.1.value)))
  }

  lemma StandardCrc(s: Device.Store, def: PageDef, canId: Byte, n: Byte, fixed: Device.Fixed)
    requires Device.Ready(s) && Standard(def, canId, n)
    ensures CrcOver(s, def, canId, fixed) == (s, if n in s.working then Ok(Crc(s.working[n])) else Err(EcuError(Device.RC_RANGE)))
  {
    hide Device.Dispatch, Exchange, Template.Built, Crc, Be32, FromBe32;
    StandardRequests(def, canId, n, 0, 0, []);
    CrcExchange(s, canId, n, fixed);
  }

  /** The checksum of the device's working page. */
  method PageCrc(cfg: PageCommands, session: Session, i: nat) returns (r: Result<nat>)
    requires Device.Valid(session.ecu.Value())
    modifies session`cuts, session.ecu
    ensures i >= |cfg.pages| ==> r == Err(NoSuchPage) && session.ecu.Value() == old(session.ecu.Value())
    ensures i < |cfg.pages| ==>
      (session.ecu.Value(), r) == CrcOver(old(session.ecu.Value()), cfg.pages[i], cfg.canId, session.ecu.fixed)
    ensures forall n: Byte :: i < |cfg.pages| && old(session.ecu.buffer) == [] && Standard(cfg.pages[i], cfg.canId, n) ==>
      (session.ecu.Value() == old(session.ecu.Value()) &&
       r == if n in session.ecu.working then Ok(Crc(session.ecu.working[n])) else Err(EcuError(Device.RC_RANGE)))
  {
    hide Device.Dispatch, Exchange, Template.Built, Crc, Be32, FromBe32, Standard;
    if i >= |cfg.pages| {
      return Err(NoSuchPage);
    }
    var def := cfg.pages[i];
    ghost var s := session.ecu.Value();
    forall n: Byte | session.ecu.buffer == [] && Standard(def, cfg.canId, n)
      ensures CrcOver(s, def, cfg.canId, session.ecu.fixed) ==
        (s, if n in s.working then Ok(Crc(s.working[n])) else Err(EcuError(Device.RC_RANGE)))
    {
      StandardCrc(s, def, cfg.canId, n, session.ecu.fixed);
    }
    var cmd := Template.Build(def.crc, Template.Args(cfg.canId, Some(def.identifier), None, None, None));
    if cmd.Err? {
      return Err(BadTemplate(cmd.problem));
    }
    var data := session.Request(cmd.value, [Envelope.RC_OK]);
    if data.Err? {
      return Err(data.error);
    }
    if |data.value| != 4 {
      return Err(ShortResponse(4, |data.value|));
    }
    r := Ok(FromBe32(data.value));
  }

  /** The burn request, whatever the template; the burn's own success code counts. */
  function BurnOver(s: Device.Store, def: PageDef, canId: Byte, fixed: Device.Fixed): (r: (Device.Store, Result<()>))
    requires Device.Valid(s)
  {
    var a := Ask(s, def.burn, def, canId, None, None, None, [Envelope.RC_OK, Device.RC_BURN_OK], fixed);
    (a.0, if a.1.Ok? then Ok(()) else Err(a.1.error))
  }

  /** The working page is copied to EEPROM if the device has it, and that is when it succeeds. */
  ghost predicate IsBurn(r: (Device.Store, Result<()>), s: Device.Store, n: Byte) {
    (r.1.Ok? <==> n in s.working) && r.0 == if n in s.working then Device.Burn(s, n) else s
  }

  lemma StandardBurn(s: Device.Store, def: PageDef, canId: Byte, n: Byte, fixed: Device.Fixed)
    requires Device.Ready(s) && Standard(def, canId, n)
    ensures IsBurn(BurnOver(s, def, canId, fixed), s, n)
  {
    hide Device.Dispatch, Exchange, Template.Built;
    StandardRequests(def, canId, n, 0, 0, []);
    BurnExchange(s, canId, n, fixed);
  }

  /** Commit a page to EEPROM. */
  method BurnPage(cfg: PageCommands, session: Session, i: nat) returns (r: Result<()>)
    requires Device.Valid(session.ecu.Value())
    modifies session`cuts, session.ecu
    ensures i >= |cfg.pages| ==> r == Err(NoSuchPage) && session.ecu.Value() == old(session.ecu.Value())
    ensures i < |cfg.pages| ==>
      (session.ecu.Value(), r) == BurnOver(old(session.ecu.Value()), cfg.pages[i], cfg.canId, session.ecu.fixed)
    ensures forall n: Byte :: i < |cfg.pages| && old(session.ecu.buffer) == [] && Standard(cfg.pages[i], cfg.canId, n) ==>
      IsBurn((session.ecu.Value(), r), old(session.ecu.Value()), n)
  {
    hide Device.Dispatch, Exchange, Template.Built, IsBurn, Standard;
    if i >= |cfg.pages| {
      return Err(NoSuchPage);
    }
    var def := cfg.pages[i];
    forall n: Byte | session.ecu.buffer == [] && Standard(def, cfg.canId, n)
      ensures IsBurn(BurnOver(session.ecu.Value(), def, cfg.canId, session.ecu.fixed), session.ecu.Value(), n)
    {
      StandardBurn(session.ecu.Value(), def, cfg.canId, n, session.ecu.fixed);
    }
    var cmd := Template.Build(def.burn, Template.Args(cfg.canId, Some(def.identifier), None, None, None));
    if cmd.Err? {
      return Err(BadTemplate(cmd.problem));
    }
    var reply := session.Request(cmd.value, [Envelope.RC_OK, Device.RC_BURN_OK]);
    r := if reply.Ok? then Ok(()) else Err(reply.error);
  }
}
