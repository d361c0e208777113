/**
 Serial command templates from the INI: parsing their text into parts, building
 command bytes from parts and arguments, and the proof that parsing inverts printing.
 */
module Template {
  import opened Bytes
  import opened Options
  import opened Names

  datatype Part =
    | Literal(bytes: Blob)
    | Var(name: string)
    | PageId
    | Offset
    | Count
    | Value

  datatype Problem = TruncatedEscape | BadEscape | TrailingBackslash | UnknownSpec | Missing(what: Part)

  datatype Result<+T> = Ok(value: T) | Err(problem: Problem)

  // ----- characters -----------------------------------------------------------

  /** A character cast to a byte keeps the low eight bits of its code. */
  function Low(c: char): Byte { c as int % 256 }

  function HexDigit(c: char): Option<nat> {
    if '0' <= c <= '9' then Some(c as int - '0' as int)
    else if 'a' <= c <= 'f' then Some(c as int - 'a' as int + 10)
    else if 'A' <= c <= 'F' then Some(c as int - 'A' as int + 10)
    else None
  }

  /** Two characters read in base 16; like the standard parser this accepts a leading plus sign. */
  function HexByte(hi: char, lo: char): (r: Option<Byte>)
    ensures HexDigit(hi).Some? && HexDigit(lo).Some? ==> r == Some(16 * HexDigit(hi).value + HexDigit(lo).value)
  {
    var h, l := if hi == '+' then Some(0) else HexDigit(hi), HexDigit(lo);
    if h.Some? && l.Some? then Some(16 * h.value + l.value) else None
  }

  // ----- parsing ---------------------------------------------------------------

  function Flushed(literal: Blob, parts: seq<Part>): seq<Part> {
    if literal == [] then parts else parts + [Literal(literal)]
  }

  /** One step of the scan: a byte for the current literal, or a whole part. */
  datatype Piece = One(b: Byte) | Whole(part: Part)

  /** What stands at the front of `text` and how many characters it takes. */
  function Lex(text: string): (r: Result<(Piece, nat)>)
    requires text != []
    ensures r.Ok? ==> 0 < r.value.1 <= |text|
  {
    if text[0] == '\\' then LexEscape(text)
    else if text[0] == '%' then LexSpec(text)
    else Ok((One(Low(text[0])), 1))
  }

  function LexEscape(text: string): (r: Result<(Piece, nat)>)
    requires text != []
    ensures r.Ok? ==> 0 < r.value.1 <= |text|
  {
    if |text| == 1 then Err(TrailingBackslash)
    else if text[1] == 'x' then
      if |text| < 4 then Err(TruncatedEscape)
      else
        var b := HexByte(text[2], text[3]);
        if b.None? then Err(BadEscape) else Ok((One(b.value), 4))
    else if text[1] == '$' then
      var n := NameLength(text[2..]);
      Ok((Whole(Var(text[2..2 + n])), 2 + n))
    else Ok((One(Low(text[1])), 2))
  }

  function LexSpec(text: string): (r: Result<(Piece, nat)>)
    requires text != []
    ensures r.Ok? ==> 0 < r.value.1 <= |text|
  {
    if |text| > 1 && text[1] == 'v' then Ok((Whole(Value), 2))
    else if |text| > 2 && text[1] == '2' && text[2] == 'i' then Ok((Whole(PageId), 3))
    else if |text| > 2 && text[1] == '2' && text[2] == 'o' then Ok((Whole(Offset), 3))
    else if |text| > 2 && text[1] == '2' && text[2] == 'c' then Ok((Whole(Count), 3))
    else Err(UnknownSpec)
  }

  /** The parts of `text`, after `parts` and an unfinished literal. */
  function ParseFrom(text: string, literal: Blob, parts: seq<Part>): Result<seq<Part>>
    decreases |text|
  {
    if text == [] then Ok(Flushed(literal, parts))
    else
      var piece := Lex(text);
      if piece.Err? then Err(piece.problem)
      else
        var rest := text[piece.value.1..];
        match piece.value.0
        case One(b) => ParseFrom(rest, literal + [b], parts)
        case Whole(part) => ParseFrom(rest, [], Flushed(literal, parts) + [part])
  }

  method Parse(text: string) returns (r: Result<seq<Part>>)
    ensures r == ParseFrom(text, [], [])
  {
    var parts: seq<Part>, literal: Blob, i := [], [], 0;
    assert text[0..] == text;
    while i < |text|
      invariant 0 <= i <= |text|
      invariant ParseFrom(text, [], []) == ParseFrom(text[i..], literal, parts)
      decreases |text| - i
    {
      hide Lex;
      var c := text[i];
      if c == '\\' {
        var piece, next := ScanEscape(text, i);
        if piece.Err? {
          return Err(piece.problem);
        }
        assert text[i..][next - i..] == text[next..];
        if piece.value.Whole? {
          parts := Flushed(literal, parts);
          literal := [];
          parts := parts + [piece.value.part];
        } else {
          literal := literal + [piece.value.b];
        }
        i := next;
      } else if c == '%' {
        var piece, next := ScanSpec(text, i);
        if piece.Err? {
          return Err(piece.problem);
        }
        assert text[i..][next - i..] == text[next..];
        parts := Flushed(literal, parts);
        literal := [];
        parts := parts + [piece.value.part];
        i := next;
      } else {
        PlainChar(text[i..]);
        assert text[i..][1..] == text[i + 1..];
        literal := literal + [Low(c)];
        i := i + 1;
      }
    }
    assert text[i..] == [];
    r := Ok(Flushed(literal, parts));
  }

  lemma PlainChar(text: string)
    requires text != [] && text[0] != '\\' && text[0] != '%'
    ensures Lex(text) == Ok((One(Low(text[0])), 1))
  {
  }

  /** The backslash forms; a name is consumed character by character. */
  method ScanEscape(text: string, at: nat) returns (piece: Result<Piece>, next: nat)
    requires at < |text| && text[at] == '\\'
    ensures piece.Err? ==> Lex(text[at..]) == Err(piece.problem)
    ensures piece.Ok? ==> at < next <= |text| && Lex(text[at..]) == Ok((piece.value, next - at))
  {
    ghost var rest := text[at..];
    next := at + 1;
    if next == |text| {
      return Err(TrailingBackslash), next;
    }
    var d := text[next];
    next := next + 1;
    if d == 'x' {
      if |text| - next < 2 {
        return Err(TruncatedEscape), next;
      }
      var b := HexByte(text[next], text[next + 1]);
      if b.None? {
        return Err(BadEscape), next;
      }
      return Ok(One(b.value)), next + 2;
    } else if d == '$' {
      ghost var n := NameLength(text[next..]);
      while next < |text| && IsNameChar(text[next])
        invariant at + 2 <= next <= |text|
        invariant next - at - 2 + NameLength(text[next..]) == n
        decreases |text| - next
      {
        assert text[next..][1..] == text[next + 1..];
        next := next + 1;
      }
      assert rest[2..] == text[at + 2..] && rest[2..2 + n] == text[at + 2..next];
      return Ok(Whole(Var(text[at + 2..next]))), next;
    } else {
      return Ok(One(Low(d))), next;
    }
  }

  method ScanSpec(text: string, at: nat) returns (piece: Result<Piece>, next: nat)
    requires at < |text| && text[at] == '%'
    ensures piece.Err? ==> Lex(text[at..]) == Err(piece.problem)
    ensures piece.Ok? ==> piece.value.Whole? && at < next <= |text| && Lex(text[at..]) == Ok((piece.value, next - at))
  {
    next := at + 1;
    if next < |text| && text[next] == 'v' {
      return Ok(Whole(Value)), next + 1;
    }
    if next + 1 < |text| && text[next] == '2' {
      var c := text[next + 1];
      next := next + 2;
      if c == 'i' {
        return Ok(Whole(PageId)), next;
      } else if c == 'o' {
        return Ok(Whole(Offset)), next;
      } else if c == 'c' {
        return Ok(Whole(Count)), next;
      }
    }
    return Err(UnknownSpec), next;
  }

  // ----- building -------------------------------------------------------------

  datatype Args = Args(canId: Byte, pageId: Option<Blob>, offset: Option<nat>, count: Option<nat>, value: Option<Blob>)

  /** Offsets and counts are 16-bit. */
  predicate Fits(args: Args) {
    && (args.offset.Some? ==> args.offset.value < 0x1_0000)
    && (args.count.Some? ==> args.count.value < 0x1_0000)
  }

  function PartBytes(part: Part, args: Args): Result<Blob>
    requires Fits(args)
  {
    match part
    case Literal(bytes) => Ok(bytes)
    case Var(name) => if name == "tsCanId" then Ok([args.canId]) else Err(Missing(part))
    case PageId => if args.pageId.Some? then Ok(args.pageId.value) else Err(Missing(part))
    case Offset => if args.offset.Some? then Ok(Le16(args.offset.value)) else Err(Missing(part))
    case Count => if args.count.Some? then Ok(Le16(args.count.value)) else Err(Missing(part))
    case Value => if args.value.Some? then Ok(args.value.value) else Err(Missing(part))
  }

  /** The bytes of all parts in order, or the first problem. */
  function Built(parts: seq<Part>, args: Args): Result<Blob>
    requires Fits(args)
  {
    if parts == [] then Ok([])
    else
      var head := PartBytes(parts[0], args);
      if head.Err? then head
      else
        Prefixed(head.value, Built(parts[1..], args))
  }

  function Prefixed(out: Blob, tail: Result<Blob>): Result<Blob> {
    if tail.Err? then tail else Ok(out + tail.value)
  }

  method Build(parts: seq<Part>, args: Args) returns (r: Result<Blob>)
    requires Fits(args)
    ensures r == Built(parts, args)
  {
    var out: Blob := [];
    assert parts[0..] == parts;
    NothingBefore(Built(parts, args));
    for i := 0 to |parts|
      invariant Built(parts, args) == Prefixed(out, Built(parts[i..], args))
    {
      assert parts[i..][1..] == parts[i + 1..];
      var bytes := PartBytes(parts[i], args);
      if bytes.Err? {
        return bytes;
      }
      BuiltStep(parts[i..], args, out);
      out := out + bytes.value;
    }
    assert out + [] == out;
    r := Ok(out);
  }

  lemma NothingBefore(r: Result<Blob>)
    ensures Prefixed([], r) == r
  {
    if r.Ok? {
      assert [] + r.value == r.value;
    }
  }

  lemma BuiltStep(parts: seq<Part>, args: Args, out: Blob)
    requires Fits(args) && parts != [] && PartBytes(parts[0], args).Ok?
    ensures var head, tail := PartBytes(parts[0], args).value, Built(parts[1..], args);
      tail.Ok? ==> Built(parts, args).Ok? && out + Built(parts, args).value == (out + head) + tail.value
  {
  }

  // ----- parsing inverts printing -----------------------------------------------

  function HexChar(n: nat): (c: char)
    requires n < 16
    ensures HexDigit(c) == Some(n)
  {
    "0123456789abcdef"[n]
  }

  function PrintBytes(bytes: Blob): string {
    if bytes == [] then "" else PrintByte(bytes[0]) + PrintBytes(bytes[1..])
  }

  function PrintPart(part: Part): string {
    match part
    case Literal(bytes) => PrintBytes(bytes)
    case Var(name) => ['\\', '$'] + name
    case PageId => "%2i"
    case Offset => "%2o"
    case Count => "%2c"
    case Value => "%v"
  }

  function Print(parts: seq<Part>): string {
    if parts == [] then "" else PrintPart(parts[0]) + Print(parts[1..])
  }

  /** A template as `Parse` can produce it: literals are maximal and names are names. */
  ghost predicate Normal(parts: seq<Part>) {
    && (forall k :: 0 <= k < |parts| && parts[k].Literal? ==> parts[k].bytes != [])
    && (forall k :: 0 <= k < |parts| && parts[k].Var? ==> forall i :: 0 <= i < |parts[k].name| ==> IsNameChar(parts[k].name[i]))
    && (forall k {:trigger parts[k]} :: 0 <= k < |parts| - 1 ==> !(parts[k].Literal? && parts[k + 1].Literal?))
  }

  /** The front of `front + rest` is `piece`, spelled out as `front`. */
  lemma FrontParses(front: string, piece: Piece, rest: string, literal: Blob, parts: seq<Part>)
    requires front != "" && Lex(front + rest) == Ok((piece, |front|))
    ensures piece.One? ==> ParseFrom(front + rest, literal, parts) == ParseFrom(rest, literal + [piece.b], parts)
    ensures piece.Whole? ==> ParseFrom(front + rest, literal, parts) == ParseFrom(rest, [], Flushed(literal, parts) + [piece.part])
  {
    hide Lex;
    assert (front + rest)[|front|..] == rest;
  }

  function PrintByte(b: Byte): (s: string)
    ensures |s| == 4
  {
    ['\\', 'x', HexChar(b / 16), HexChar(b % 16)]
  }

  lemma ByteLexes(b: Byte, rest: string)
    ensures Lex(PrintByte(b) + rest) == Ok((One(b), 4))
  {
    var text := PrintByte(b) + rest;
    assert text[0] == '\\' && text[1] == 'x' && text[2] == HexChar(b / 16) && text[3] == HexChar(b % 16);
  }

  lemma {:induction false} PrintedBytesParse(bytes: Blob, rest: string, literal: Blob, parts: seq<Part>)
    ensures ParseFrom(PrintBytes(bytes) + rest, literal, parts) == ParseFrom(rest, literal + bytes, parts)
    decreases |bytes|
  {
    hide ParseFrom, Lex, PrintByte;
    if bytes == [] {
      assert PrintBytes(bytes) + rest == rest && literal + bytes == literal;
    } else {
      var tail := PrintBytes(bytes[1..]) + rest;
      assert PrintBytes(bytes) + rest == PrintByte(bytes[0]) + tail;
      ByteLexes(bytes[0], tail);
      FrontParses(PrintByte(bytes[0]), One(bytes[0]), tail, literal, parts);
      assert (literal + [bytes[0]]) + bytes[1..] == literal + bytes;
      PrintedBytesParse(bytes[1..], rest, literal + [bytes[0]], parts);
    }
  }

  /** Printed templates start with a backslash or a percent sign, never with a name character. */
  lemma PrintStarts(parts: seq<Part>)
    requires Normal(parts)
    ensures parts == [] || (Print(parts) != "" && !IsNameChar(Print(parts)[0]))
  {
  }

  /** One part that is not a literal, met after `literal` has been collected. */
  lemma PrintedPartParses(part: Part, rest: string, literal: Blob, parts: seq<Part>)
    requires !part.Literal?
    requires part.Var? ==> forall i :: 0 <= i < |part.name| ==> IsNameChar(part.name[i])
    requires rest == "" || !IsNameChar(rest[0])
    ensures ParseFrom(PrintPart(part) + rest, literal, parts) == ParseFrom(rest, [], Flushed(literal, parts) + [part])
  {
    PartLexes(part, rest);
    FrontParses(PrintPart(part), Whole(part), rest, literal, parts);
  }

  lemma PartLexes(part: Part, rest: string)
    requires !part.Literal?
    requires part.Var? ==> forall i :: 0 <= i < |part.name| ==> IsNameChar(part.name[i])
    requires rest == "" || !IsNameChar(rest[0])
    ensures PrintPart(part) != "" && Lex(PrintPart(part) + rest) == Ok((Whole(part), |PrintPart(part)|))
  {
    var text := PrintPart(part) + rest;
    if part.Var? {
      NameLengthOf(part.name, rest);
      assert text[2..] == part.name + rest && text[2..2 + |part.name|] == part.name;
    }
  }

  lemma NothingLeft(literal: Blob, before: seq<Part>)
    ensures ParseFrom("", literal, before) == Ok(Flushed(literal, before))
  {
  }

  lemma PrintedLiteral(part: Part)
    requires part.Literal?
    ensures PrintPart(part) == PrintBytes(part.bytes)
  {
  }

  lemma NormalTail(parts: seq<Part>)
    requires Normal(parts) && parts != []
    ensures Normal(parts[1..])
  {
    var t := parts[1..];
    forall k | 0 <= k < |t| - 1 ensures !(t[k].Literal? && t[k + 1].Literal?) {
      assert t[k] == parts[k + 1] && t[k + 1] == parts[k + 2];
    }
  }

  lemma {:induction false} PrintedParses(parts: seq<Part>, literal: Blob, before: seq<Part>)
    requires Normal(parts)
    requires literal == [] || parts == [] || !parts[0].Literal?
    ensures ParseFrom(Print(parts), literal, before) == Ok(Flushed(literal, before) + parts)
    decreases |parts|
  {
    hide PrintPart, Lex, ParseFrom, PrintBytes;
    if parts == [] {
      NothingLeft(literal, before);
      assert Flushed(literal, before) + parts == Flushed(literal, before);
    } else {
      NormalTail(parts);
      PrintStarts(parts[1..]);
      var p, rest := parts[0], Print(parts[1..]);
      if p.Literal? {
        assert parts[1..] == [] || !parts[1..][0].Literal?;
        PrintedLiteral(p);
        PrintedBytesParse(p.bytes, rest, literal, before);
        assert literal + p.bytes == p.bytes;
        PrintedParses(parts[1..], p.bytes, before);
        assert (before + [p]) + parts[1..] == before + parts;
      } else {
        PrintedPartParses(p, rest, literal, before);
        PrintedParses(parts[1..], [], Flushed(literal, before) + [p]);
        assert (Flushed(literal, before) + [p]) + parts[1..] == Flushed(literal, before) + parts;
      }
    }
  }

  /** Every template in normal form has a text that parses to exactly it. */
  lemma PrintParse(parts: seq<Part>)
    requires Normal(parts)
    ensures ParseFrom(Print(parts), [], []) == Ok(parts)
  {
    PrintedParses(parts, [], []);
    assert [] + parts == parts;
  }

  // ----- what parsing produces is normal -------------------------------------------

  /** Parts collected so far: normal, and not ending in a literal, which is kept apart until it is complete. */
  ghost predicate Collected(parts: seq<Part>) {
    Normal(parts) && (parts != [] ==> !parts[|parts| - 1].Literal?)
  }

  lemma CollectedMore(literal: Blob, parts: seq<Part>, part: Part)
    requires Collected(parts) && !part.Literal?
    requires part.Var? ==> forall i :: 0 <= i < |part.name| ==> IsNameChar(part.name[i])
    ensures Normal(Flushed(literal, parts)) && Collected(Flushed(literal, parts) + [part])
  {
  }

  lemma LexedName(text: string)
    requires text != [] && Lex(text).Ok? && Lex(text).value.0.Whole?
    ensures var part := Lex(text).value.0.part;
      !part.Literal? && (part.Var? ==> forall i :: 0 <= i < |part.name| ==> IsNameChar(part.name[i]))
  {
  }

  lemma {:induction false} ParsedFromIsNormal(text: string, literal: Blob, parts: seq<Part>)
    requires Collected(parts) && ParseFrom(text, literal, parts).Ok?
    ensures Normal(ParseFrom(text, literal, parts).value)
    decreases |text|
  {
    hide Lex, Collected, Normal;
    if text == [] {
      CollectedMore(literal, parts, PageId);
    } else {
      var piece := Lex(text).value;
      var rest := text[piece.1..];
      match piece.0
      case One(b) =>
        ParsedFromIsNormal(rest, literal + [b], parts);
      case Whole(part) =>
        LexedName(text);
        CollectedMore(literal, parts, part);
        ParsedFromIsNormal(rest, [], Flushed(literal, parts) + [part]);
    }
  }

  lemma NothingCollected()
    ensures Collected([])
  {
  }

  /** Normal templates are exactly what parsing can give. */
  lemma NormalIffParsed(parts: seq<Part>)
    ensures Normal(parts) <==> exists text :: ParseFrom(text, [], []) == Ok(parts)
  {
    hide ParseFrom, Print, Normal, Collected;
    if Normal(parts) {
      PrintParse(parts);
    }
    NothingCollected();
    forall text | ParseFrom(text, [], []) == Ok(parts) ensures Normal(parts) {
      ParsedFromIsNormal(text, [], []);
    }
  }
}
