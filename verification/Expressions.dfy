/**
 Expressions of the INI language: the precedence-climbing parser over a token list, a printer that
 writes the fewest parentheses, and evaluation with short circuits.
 */
module Expressions {

  /** Scanned numbers never carry a sign; `-` is an operator. */
  type Literal = x: real | 0.0 <= x

  datatype UnOp = Neg | Not

  datatype BinOp =
    | Add | Sub | Mul | Div | Rem
    | Lt | Gt | Le | Ge | Eq | Ne
    | And | Or | BitAnd | BitOr | BitXor | Shl | Shr

  datatype Expr =
    | Num(value: Literal)
    | Str(text: string)
    | Ident(name: string)
    | Unary(op: UnOp, operand: Expr)
    | Binary(bin: BinOp, left: Expr, right: Expr)
    | Ternary(cond: Expr, yes: Expr, no: Expr)
    | Call(function_: string, args: seq<Expr>)
    | Index(array_: string, index: Expr)

  datatype Op =
    | OrOr | AndAnd | Bar | Caret | Amp | EqEq | BangEq | Less | Greater | LessEq | GreaterEq
    | LessLess | GreaterGreater | Plus | Minus | Star | Slash | Percent
    | LeftParen | RightParen | Comma | Question | Colon | Bang | LeftBracket | RightBracket

  datatype Token = TNum(value: Literal) | TStr(text: string) | TIdent(name: string) | TOp(op: Op)

  datatype Fault = ExpectedValue | Expected(op: Op) | ExpectedCommaOrParen | TrailingInput

  datatype Result<+T> = Ok(value: T, rest: seq<Token>) | Err(fault: Fault)

  // ----- binding powers --------------------------------------------------------

  datatype Binding = Binds(power: nat, bin: BinOp) | Loose

  function Lbp(op: Op): (b: Binding)
    ensures b.Binds? ==> 1 <= b.power <= 10 && op == Sign(b.bin)
  {
    match op
    case OrOr => Binds(1, Or)
    case AndAnd => Binds(2, And)
    case Bar => Binds(3, BitOr)
    case Caret => Binds(4, BitXor)
    case Amp => Binds(5, BitAnd)
    case EqEq => Binds(6, Eq)
    case BangEq => Binds(6, Ne)
    case Less => Binds(7, Lt)
    case Greater => Binds(7, Gt)
    case LessEq => Binds(7, Le)
    case GreaterEq => Binds(7, Ge)
    case LessLess => Binds(8, Shl)
    case GreaterGreater => Binds(8, Shr)
    case Plus => Binds(9, Add)
    case Minus => Binds(9, Sub)
    case Star => Binds(10, Mul)
    case Slash => Binds(10, Div)
    case Percent => Binds(10, Rem)
    case _ => Loose
  }

  function Sign(b: BinOp): Op {
    match b
    case Or => OrOr
    case And => AndAnd
    case BitOr => Bar
    case BitXor => Caret
    case BitAnd => Amp
    case Eq => EqEq
    case Ne => BangEq
    case Lt => Less
    case Gt => Greater
    case Le => LessEq
    case Ge => GreaterEq
    case Shl => LessLess
    case Shr => GreaterGreater
    case Add => Plus
    case Sub => Minus
    case Mul => Star
    case Div => Slash
    case Rem => Percent
  }

  function Power(b: BinOp): (p: nat)
    ensures 1 <= p <= 10 && Lbp(Sign(b)) == Binds(p, b)
  {
    Lbp(Sign(b)).power
  }

  // ----- the parser, as a function ---------------------------------------------

  predicate At(toks: seq<Token>, op: Op) {
    0 < |toks| && toks[0] == TOp(op)
  }

  /** The loop of an expression with this minimal power does not go past this point. */
  predicate Stops(toks: seq<Token>, min: nat) {
    0 < |toks| && toks[0].TOp? ==>
      (toks[0].op == Question ==> 0 < min) &&
      (Lbp(toks[0].op).Binds? ==> Lbp(toks[0].op).power < min)
  }

  function Expression(toks: seq<Token>, min: nat): (r: Result<Expr>)
    ensures r.Ok? ==> |r.rest| < |toks| && Stops(r.rest, min)
    decreases |toks|, 1
  {
    match Primary(toks)
    case Err(f) => Err(f)
    case Ok(e, rest) => Climb(e, rest, min)
  }

  function Climb(lhs: Expr, toks: seq<Token>, min: nat): (r: Result<Expr>)
    ensures r.Ok? ==> |r.rest| <= |toks| && Stops(r.rest, min)
    decreases |toks|, 0
  {
    if Stops(toks, min) || |toks| == 0 || !toks[0].TOp? then Ok(lhs, toks)
    else if toks[0].op == Question then
      match Expression(toks[1..], 0)
      case Err(f) => Err(f)
      case Ok(yes, rest) =>
        if !At(rest, Colon) then Err(Expected(Colon)) else
        match Expression(rest[1..], 0)
        case Err(f) => Err(f)
        case Ok(no, rest') => Climb(Ternary(lhs, yes, no), rest', min)
    else
      var b := Lbp(toks[0].op);
      match Expression(toks[1..], b.power + 1)
      case Err(f) => Err(f)
      case Ok(rhs, rest) => Climb(Binary(b.bin, lhs, rhs), rest, min)
  }

  function Primary(toks: seq<Token>): (r: Result<Expr>)
    ensures r.Ok? ==> |r.rest| < |toks|
    decreases |toks|, 0
  {
    if |toks| == 0 then Err(ExpectedValue) else
    var rest := toks[1..];
    match toks[0]
    case TNum(v) => Ok(Num(v), rest)
    case TStr(s) => Ok(Str(s), rest)
    case TIdent(name) =>
      AfterName(name, rest)
    case TOp(op) =>
      if op == LeftParen then
        match Expression(rest, 0)
        case Err(f) => Err(f)
        case Ok(e, rest') => if At(rest', RightParen) then Ok(e, rest'[1..]) else Err(Expected(RightParen))
      else if op == Minus || op == Bang then
        match Primary(rest)
        case Err(f) => Err(f)
        case Ok(e, rest') => Ok(Unary(if op == Minus then Neg else Not, e), rest')
      else Err(ExpectedValue)
  }

  /** What a name turns out to be: an element, a call or a plain identifier. */
  function AfterName(name: string, toks: seq<Token>): (r: Result<Expr>)
    ensures r.Ok? ==> |r.rest| <= |toks|
    decreases |toks|, 3
  {
    if At(toks, LeftBracket) then
      match Expression(toks[1..], 0)
      case Err(f) => Err(f)
      case Ok(i, rest) =>
        if At(rest, RightBracket) then Ok(Index(name, i), rest[1..]) else Err(Expected(RightBracket))
    else if At(toks, LeftParen) then
      if At(toks[1..], RightParen) then Ok(Call(name, []), toks[2..]) else
      match Arguments(toks[1..])
      case Err(f) => Err(f)
      case Ok(args, rest) => Ok(Call(name, args), rest)
    else Ok(Ident(name), toks)
  }

  /** One or more arguments and the closing parenthesis. */
  function Arguments(toks: seq<Token>): (r: Result<seq<Expr>>)
    ensures r.Ok? ==> |r.rest| < |toks| && |r.value| > 0
    decreases |toks|, 2
  {
    match Expression(toks, 0)
    case Err(f) => Err(f)
    case Ok(e, rest) =>
      if At(rest, RightParen) then Ok([e], rest[1..])
      else if !At(rest, Comma) then Err(ExpectedCommaOrParen)
      else
        match Arguments(rest[1..])
        case Err(f) => Err(f)
        case Ok(es, rest') => Ok([e] + es, rest')
  }

  function Parse(toks: seq<Token>): Result<Expr> {
    match Expression(toks, 0)
    case Err(f) => Err(f)
    case Ok(e, rest) => if rest == [] then Ok(e, []) else Err(TrailingInput)
  }

  // ----- the parser, as the source runs it -------------------------------------

  class Parser {
    const tokens: seq<Token>
    var pos: nat

    constructor (toks: seq<Token>)
      ensures tokens == toks && pos == 0
    {
      tokens := toks;
      pos := 0;
    }

    ghost predicate Valid() reads this {
      pos <= |tokens|
    }

    ghost function Ahead(): seq<Token> reads this requires Valid() {
      tokens[pos..]
    }

    predicate Sees(op: Op) reads this {
      pos < |tokens| && tokens[pos] == TOp(op)
    }

    /** The outcome of a parsing method that should do what `r` says. */
    ghost predicate Did<T>(r: Result<T>, got: Result<T>)
      reads this
    {
      && pos <= |tokens|
      && (r.Err? ==> got == r)
      && (r.Ok? ==> got == r && r.rest == tokens[pos..])
    }

    method ParseExpression(min: nat) returns (r: Result<Expr>)
      requires Valid()
      modifies this`pos
      ensures Did(Expression(old(Ahead()), min), r)
      decreases |tokens| - pos, 1
    {
      hide Expression, Primary, Arguments, Lbp, Climb, Choice;
      ghost var goal := Expression(Ahead(), min);
      Starts(Ahead(), min);
      r := ParsePrimary();
      if r.Err? { return; }
      var lhs := r.value;
      while pos < |tokens| && tokens[pos].TOp?
        invariant old(pos) < pos <= |tokens|
        invariant goal == Climb(lhs, tokens[pos..], min)
        decreases |tokens| - pos
      {
        var op := tokens[pos].op;
        ghost var here := tokens[pos..];
        ClimbUnfolds(lhs, here, min);
        assert here[1..] == tokens[pos + 1..];
        if op == Question {
          if min > 0 { break; }
          pos := pos + 1;
          var choice := ParseBranches(lhs, min);
          if choice.Err? { return choice; }
          lhs := choice.value;
        } else {
          var b := Lbp(op);
          if b.Loose? || b.power < min { break; }
          pos := pos + 1;
          var rhs := ParseExpression(b.power + 1);
          if rhs.Err? { return rhs; }
          lhs := Binary(b.bin, lhs, rhs.value);
        }
      }
      ClimbUnfolds(lhs, tokens[pos..], min);
      r := Ok(lhs, tokens[pos..]);
    }

    /** After the question mark. */
    method ParseBranches(cond: Expr, min: nat) returns (r: Result<Expr>)
      requires Valid()
      modifies this`pos
      ensures pos <= |tokens| && (r.Ok? ==> old(pos) <= pos)
      ensures Choice(cond, old(Ahead()), min) == if r.Err? then r else Climb(r.value, Ahead(), min)
      decreases |tokens| - pos, 2
    {
      hide Expression, Climb;
      var yes := ParseExpression(0);
      if yes.Err? { return yes; }
      if !Sees(Colon) { return Err(Expected(Colon)); }
      assert yes.rest[1..] == tokens[pos + 1..];
      pos := pos + 1;
      var no := ParseExpression(0);
      if no.Err? { return no; }
      r := Ok(Ternary(cond, yes.value, no.value), tokens[pos..]);
    }

    method ParsePrimary() returns (r: Result<Expr>)
      requires Valid()
      modifies this`pos
      ensures Did(Primary(old(Ahead())), r)
      ensures r.Ok? ==> old(pos) < pos
      decreases |tokens| - pos, 0
    {
      hide Expression, Climb, Arguments, Lbp, AfterName;
      if pos == |tokens| { return Err(ExpectedValue); }
      var t := tokens[pos];
      pos := pos + 1;
      assert old(Ahead())[1..] == Ahead();
      match t {
        case TNum(v) => r := Ok(Num(v), tokens[pos..]);
        case TStr(s) => r := Ok(Str(s), tokens[pos..]);
        case TIdent(name) => r := ParseAfterName(name);
        case TOp(op) =>
          if op == LeftParen {
            r := ParseExpression(0);
            if r.Err? { return; }
            if !Sees(RightParen) { return Err(Expected(RightParen)); }
            assert Ahead()[1..] == tokens[pos + 1..];
            pos := pos + 1;
            r := Ok(r.value, tokens[pos..]);
          } else if op == Minus || op == Bang {
            r := ParsePrimary();
            if r.Err? { return; }
            r := Ok(Unary(if op == Minus then Neg else Not, r.value), tokens[pos..]);
          } else {
            r := Err(ExpectedValue);
          }
      }
    }

    method ParseAfterName(name: string) returns (r: Result<Expr>)
      requires Valid()
      modifies this`pos
      ensures Did(AfterName(name, old(Ahead())), r)
      decreases |tokens| - pos, 3
    {
      hide Expression, Climb, Arguments, Lbp, Primary;
      if Sees(LeftBracket) {
        assert Ahead()[1..] == tokens[pos + 1..];
        pos := pos + 1;
        r := ParseExpression(0);
        if r.Err? { return; }
        if !Sees(RightBracket) { return Err(Expected(RightBracket)); }
        assert Ahead()[1..] == tokens[pos + 1..];
        pos := pos + 1;
        r := Ok(Index(name, r.value), tokens[pos..]);
      } else if Sees(LeftParen) {
        assert Ahead()[1..] == tokens[pos + 1..];
        pos := pos + 1;
        if Sees(RightParen) {
          assert old(Ahead())[2..] == tokens[pos + 1..];
          pos := pos + 1;
          r := Ok(Call(name, []), tokens[pos..]);
        } else {
          var args := ParseArguments();
          match args {
            case Ok(es, rest) => r := Ok(Call(name, es), rest);
            case Err(f) => r := Err(f);
          }
        }
      } else {
        r := Ok(Ident(name), tokens[pos..]);
      }
    }

    method ParseArguments() returns (r: Result<seq<Expr>>)
      requires Valid()
      modifies this`pos
      ensures Did(Arguments(old(Ahead())), r)
      decreases |tokens| - pos, 2
    {
      hide Expression, Primary, Climb, Lbp;
      ghost var goal := Arguments(Ahead());
      Unprefixed(goal);
      var args: seq<Expr> := [];
      while true
        invariant old(pos) <= pos <= |tokens|
        invariant goal == Prefixed(args, Arguments(tokens[pos..]))
        decreases |tokens| - pos
      {
        var e := ParseExpression(0);
        if e.Err? { return Err(e.fault); }
        args := args + [e.value];
        if Sees(RightParen) {
          pos := pos + 1;
          return Ok(args, tokens[pos..]);
        } else if !Sees(Comma) {
          return Err(ExpectedCommaOrParen);
        }
        pos := pos + 1;
        PrefixedTwice(args[..|args| - 1], e.value, Arguments(tokens[pos..]));
      }
    }
  }

  /** One turn of the loop. */
  lemma ClimbUnfolds(lhs: Expr, toks: seq<Token>, min: nat)
    ensures Climb(lhs, toks, min) ==
      if Stops(toks, min) || |toks| == 0 || !toks[0].TOp? then Ok(lhs, toks)
      else if toks[0].op == Question then Choice(lhs, toks[1..], min)
      else
        var b, r := Lbp(toks[0].op), Expression(toks[1..], Lbp(toks[0].op).power + 1);
        if r.Err? then r else Climb(Binary(b.bin, lhs, r.value), r.rest, min)
  {
    hide Expression, Primary, Arguments, Lbp;
  }

  function Choice(cond: Expr, toks: seq<Token>, min: nat): Result<Expr> {
    var yes := Expression(toks, 0);
    if yes.Err? then yes else
    if !At(yes.rest, Colon) then Err(Expected(Colon)) else
    var no := Expression(yes.rest[1..], 0);
    if no.Err? then no else Climb(Ternary(cond, yes.value, no.value), no.rest, min)
  }

  lemma Starts(toks: seq<Token>, min: nat)
    ensures var p := Primary(toks);
      Expression(toks, min) == if p.Err? then Err(p.fault) else Climb(p.value, p.rest, min)
  {
    hide Primary, Climb;
  }

  function Prefixed(front: seq<Expr>, r: Result<seq<Expr>>): Result<seq<Expr>> {
    match r
    case Err(f) => Err(f)
    case Ok(es, rest) => Ok(front + es, rest)
  }

  lemma Unprefixed(r: Result<seq<Expr>>)
    ensures Prefixed([], r) == r
  {
    if r.Ok? { assert [] + r.value == r.value; }
  }

  lemma PrefixedTwice(front: seq<Expr>, e: Expr, r: Result<seq<Expr>>)
    ensures Prefixed(front + [e], r) == Prefixed(front, Prefixed([e], r))
  {
    if r.Ok? { assert front + [e] + r.value == front + ([e] + r.value); }
  }

  method ParseTokens(toks: seq<Token>) returns (r: Result<Expr>)
    ensures r == Parse(toks)
  {
    var p := new Parser(toks);
    r := p.ParseExpression(0);
    if r.Ok? && p.pos != |toks| {
      r := Err(TrailingInput);
    }
  }

  // ----- the printer -----------------------------------------------------------

  const TIGHT: nat := 11

  /** How tightly the outermost construct holds together. */
  function Level(e: Expr): (k: nat)
    ensures k <= TIGHT
  {
    match e
    case Binary(op, _, _) => Power(op)
    case Ternary(_, _, _) => 0
    case _ => TIGHT
  }

  /** Tokens of `e` where a construct looser than `context` needs parentheses. */
  function Print(e: Expr, context: nat): (s: seq<Token>)
    ensures |s| > 0
    decreases e, 1
  {
    if context <= Level(e) then Bare(e) else [TOp(LeftParen)] + Bare(e) + [TOp(RightParen)]
  }

  function Bare(e: Expr): (s: seq<Token>)
    ensures |s| > 0
    decreases e, 0
  {
    match e
    case Num(v) => [TNum(v)]
    case Str(s) => [TStr(s)]
    case Ident(n) => [TIdent(n)]
    case Unary(op, a) => [TOp(if op == Neg then Minus else Bang)] + Print(a, TIGHT)
    case Binary(op, a, b) => Print(a, Power(op)) + [TOp(Sign(op))] + Print(b, Power(op) + 1)
    case Ternary(c, y, n) => Print(c, 1) + [TOp(Question)] + Print(y, 0) + [TOp(Colon)] + Print(n, 0)
    case Call(f, args) => [TIdent(f), TOp(LeftParen)] + PrintArgs(args) + [TOp(RightParen)]
    case Index(a, i) => [TIdent(a), TOp(LeftBracket)] + Print(i, 0) + [TOp(RightBracket)]
  }

  function PrintArgs(args: seq<Expr>): (s: seq<Token>)
    ensures args != [] ==> |s| > 0
    decreases args
  {
    if args == [] then []
    else if |args| == 1 then Print(args[0], 0)
    else Print(args[0], 0) + [TOp(Comma)] + PrintArgs(args[1..])
  }

  // ----- parse after print -----------------------------------------------------

  /** What may come after an expression printed for this context. */
  predicate Follows(toks: seq<Token>, context: nat) {
    0 < |toks| && toks[0].TOp? ==>
      && toks[0].op != LeftBracket && toks[0].op != LeftParen
      && (toks[0].op == Question ==> 0 < context)
      && (Lbp(toks[0].op).Binds? ==> Lbp(toks[0].op).power <= context)
  }

  predicate Closing(op: Op) {
    op == RightParen || op == RightBracket || op == Comma || op == Colon
  }

  /** What was parsed up to a closing token is complete. */
  lemma Closed(e: Expr, op: Op, rest: seq<Token>, context: nat)
    requires Closing(op)
    ensures var toks := [TOp(op)] + rest;
      toks[1..] == rest && At(toks, op) && Follows(toks, context) && Climb(e, toks, context) == Ok(e, toks)
  {
    assert ([TOp(op)] + rest)[1..] == rest;
  }

  lemma {:induction false} TightParses(e: Expr, rest: seq<Token>)
    requires Level(e) == TIGHT && Follows(rest, TIGHT)
    ensures Primary(Bare(e) + rest) == Ok(e, rest)
    decreases e, 1
  {
    hide Climb, Expression, Arguments, Print, PrintArgs, Lbp, Primary, Bare, Follows;
    match e
    case Unary(op, a) => UnaryParses(op, a, rest);
    case Index(a, i) => IndexParses(a, i, rest);
    case Call(f, args) => CallParses(f, args, rest);
    case _ => LeafParses(e, rest);
  }

  lemma LeafParses(e: Expr, rest: seq<Token>)
    requires (e.Num? || e.Str? || e.Ident?) && Follows(rest, TIGHT)
    ensures Primary(Bare(e) + rest) == Ok(e, rest)
  {
    hide Climb, Expression, Arguments, Print, PrintArgs, Lbp;
    assert (Bare(e) + rest)[1..] == rest;
  }

  lemma {:induction false} UnaryParses(op: UnOp, a: Expr, rest: seq<Token>)
    requires Follows(rest, TIGHT)
    ensures Primary(Bare(Unary(op, a)) + rest) == Ok(Unary(op, a), rest)
    decreases a, 6
  {
    hide Climb, Expression, Arguments, Print, PrintArgs, Lbp, Follows;
    PrimaryParses(a, rest);
    assert (Bare(Unary(op, a)) + rest)[1..] == Print(a, TIGHT) + rest;
  }

  lemma {:induction false} IndexParses(a: string, i: Expr, rest: seq<Token>)
    ensures Primary(Bare(Index(a, i)) + rest) == Ok(Index(a, i), rest)
    decreases i, 6
  {
    hide Climb, Expression, Arguments, Print, PrintArgs, Lbp, Follows;
    var close := [TOp(RightBracket)] + rest;
    var all := Bare(Index(a, i)) + rest;
    Closed(i, RightBracket, rest, 0);
    PrintedParses(i, 0, close, 0);
    assert all[1..] == [TOp(LeftBracket)] + (Print(i, 0) + close);
    assert all[1..][1..] == Print(i, 0) + close;
  }

  lemma {:induction false} CallParses(f: string, args: seq<Expr>, rest: seq<Token>)
    ensures Primary(Bare(Call(f, args)) + rest) == Ok(Call(f, args), rest)
    decreases args, 1
  {
    hide Climb, Expression, Arguments, Print, PrintArgs, Lbp, Follows;
    var close := [TOp(RightParen)] + rest;
    var all := Bare(Call(f, args)) + rest;
    assert all[1..] == [TOp(LeftParen)] + (PrintArgs(args) + close);
    assert all[1..][1..] == PrintArgs(args) + close;
    if args == [] {
      NoArgs();
      assert all[1..][1..] == close && all[1..][2..] == rest;
    } else {
      ArgsParse(args, rest);
      NoLeadingParen(args, close);
    }
  }

  lemma NoArgs() ensures PrintArgs([]) == [] {}

  lemma {:induction false} ArgsParse(args: seq<Expr>, rest: seq<Token>)
    requires args != []
    ensures Arguments(PrintArgs(args) + ([TOp(RightParen)] + rest)) == Ok(args, rest)
    decreases args, 0
  {
    hide Climb, Expression, Print, Primary, Lbp, Follows;
    var close := [TOp(RightParen)] + rest;
    if |args| == 1 {
      Closed(args[0], RightParen, rest, 0);
      PrintedParses(args[0], 0, close, 0);
      assert args == [args[0]];
    } else {
      var more := PrintArgs(args[1..]) + close;
      var tail := [TOp(Comma)] + more;
      assert PrintArgs(args) + close == Print(args[0], 0) + tail;
      Closed(args[0], Comma, more, 0);
      PrintedParses(args[0], 0, tail, 0);
      ArgsParse(args[1..], rest);
      assert args == [args[0]] + args[1..];
    }
  }

  /** No expression starts with a closing parenthesis. */
  lemma {:induction false} StartsWell(e: Expr, context: nat)
    ensures !At(Print(e, context), RightParen) && !At(Bare(e), RightParen)
    decreases e
  {
    match e
    case Binary(op, a, b) => StartsWell(a, Power(op));
    case Ternary(c, _, _) => StartsWell(c, 1);
    case _ =>
  }

  lemma NoLeadingParen(args: seq<Expr>, rest: seq<Token>)
    requires args != []
    ensures !At(PrintArgs(args) + rest, RightParen)
  {
    StartsWell(args[0], 0);
  }

  lemma {:induction false} BareParses(e: Expr, rest: seq<Token>, min: nat)
    requires min <= Level(e) && Follows(rest, Level(e))
    ensures Expression(Bare(e) + rest, min) == Climb(e, rest, min)
    decreases e, 2
  {
    hide Climb, Primary, Arguments, Print, PrintArgs, Lbp, Bare;
    match e
    case Binary(op, a, b) =>
      BinaryParses(op, a, b, rest, min);
    case Ternary(c, y, n) =>
      TernaryParses(c, y, n, rest);
    case _ =>
      TightParses(e, rest);
  }

  lemma {:induction false} BinaryParses(op: BinOp, a: Expr, b: Expr, rest: seq<Token>, min: nat)
    requires min <= Power(op) && Follows(rest, Power(op))
    ensures Expression(Bare(Binary(op, a, b)) + rest, min) == Climb(Binary(op, a, b), rest, min)
    decreases Binary(op, a, b), 1
  {
    hide Expression, Climb, Primary, Arguments, Print, PrintArgs, Lbp;
    var e, p := Binary(op, a, b), Power(op);
    var right := Print(b, p + 1) + rest;
    var tail := [TOp(Sign(op))] + right;
    assert Bare(e) + rest == Print(a, p) + tail;
    SignFollows(op, right);
    PrintedParses(a, p, tail, min);
    PrintedParses(b, p + 1, rest, p + 1);
    Halts(b, rest, p);
    ClimbsOver(a, op, right, min);
  }

  lemma SignFollows(op: BinOp, rest: seq<Token>)
    ensures Follows([TOp(Sign(op))] + rest, Power(op))
  {}

  lemma ClimbsOver(lhs: Expr, op: BinOp, right: seq<Token>, min: nat)
    requires min <= Power(op) && Expression(right, Power(op) + 1).Ok?
    ensures var r := Expression(right, Power(op) + 1);
      Climb(lhs, [TOp(Sign(op))] + right, min) == Climb(Binary(op, lhs, r.value), r.rest, min)
  {
    hide Expression, Primary, Arguments, Lbp;
    var toks := [TOp(Sign(op))] + right;
    assert toks[1..] == right && toks[0].op == Sign(op) && Sign(op) != Question;
  }

  lemma Halts(e: Expr, rest: seq<Token>, p: nat)
    requires Follows(rest, p)
    ensures Climb(e, rest, p + 1) == Ok(e, rest)
  {
    hide Expression, Primary, Arguments, Lbp;
  }

  lemma {:induction false} TernaryParses(c: Expr, y: Expr, n: Expr, rest: seq<Token>)
    requires Follows(rest, 0)
    ensures Expression(Bare(Ternary(c, y, n)) + rest, 0) == Climb(Ternary(c, y, n), rest, 0)
    decreases Ternary(c, y, n), 1
  {
    hide Expression, Primary, Arguments, Print, PrintArgs, Lbp, Climb;
    var last := Print(n, 0) + rest;
    var colon := [TOp(Colon)] + last;
    var middle := Print(y, 0) + colon;
    var tail := [TOp(Question)] + middle;
    assert Bare(Ternary(c, y, n)) + rest == Print(c, 1) + tail;
    QuestionFollows(middle);
    PrintedParses(c, 1, tail, 0);
    Closed(y, Colon, last, 0);
    PrintedParses(y, 0, colon, 0);
    PrintedParses(n, 0, rest, 0);
    HaltsAtZero(n, rest);
    Chooses(c, middle);
  }

  lemma QuestionFollows(rest: seq<Token>)
    ensures Follows([TOp(Question)] + rest, 1)
  {}

  lemma Chooses(lhs: Expr, middle: seq<Token>)
    requires var yes := Expression(middle, 0); yes.Ok? && At(yes.rest, Colon) && Expression(yes.rest[1..], 0).Ok?
    ensures var yes := Expression(middle, 0); var no := Expression(yes.rest[1..], 0);
      Climb(lhs, [TOp(Question)] + middle, 0) == Climb(Ternary(lhs, yes.value, no.value), no.rest, 0)
  {
    hide Expression, Primary, Arguments, Lbp;
    var toks := [TOp(Question)] + middle;
    assert toks[1..] == middle;
  }

  lemma HaltsAtZero(e: Expr, rest: seq<Token>)
    requires Follows(rest, 0)
    ensures Climb(e, rest, 0) == Ok(e, rest)
  {
    hide Expression, Primary, Arguments;
  }

  /** Parentheses make anything a primary. */
  lemma {:induction false} PrimaryParses(e: Expr, rest: seq<Token>)
    requires Follows(rest, TIGHT)
    ensures Primary(Print(e, TIGHT) + rest) == Ok(e, rest)
    decreases e, 4
  {
    if Level(e) == TIGHT {
      TightParses(e, rest);
    } else {
      ParenthesesParse(e, rest);
    }
  }

  lemma {:induction false} ParenthesesParse(e: Expr, rest: seq<Token>)
    ensures Primary([TOp(LeftParen)] + Bare(e) + [TOp(RightParen)] + rest) == Ok(e, rest)
    decreases e, 3
  {
    var close := [TOp(RightParen)] + rest;
    var all := [TOp(LeftParen)] + Bare(e) + [TOp(RightParen)] + rest;
    assert all[1..] == Bare(e) + close;
    BareParses(e, close, 0);
    assert close[1..] == rest;
  }

  lemma {:induction false} PrintedParses(e: Expr, context: nat, rest: seq<Token>, min: nat)
    requires min <= context <= TIGHT && Follows(rest, context)
    ensures Expression(Print(e, context) + rest, min) == Climb(e, rest, min)
    decreases e, 5
  {
    if context <= Level(e) {
      BareParses(e, rest, min);
    } else {
      ParenthesesParse(e, rest);
    }
  }

  /**
   Every tree comes back from its printed tokens: precedence, left associativity, the ternary, calls,
   indexing and unary operators.
   */
  lemma {:induction false} ParsePrint(e: Expr)
    ensures Parse(Print(e, 0)) == Ok(e, [])
  {
    PrintedParses(e, 0, [], 0);
    assert Print(e, 0) + [] == Print(e, 0);
  }

  // ----- print after parse -----------------------------------------------------

  /** The context the next token asks of what stands before it. */
  function Demand(toks: seq<Token>): (k: nat)
    ensures k <= TIGHT
  {
    if 0 < |toks| && toks[0].TOp? then
      if toks[0].op == Question then 1
      else if Lbp(toks[0].op).Binds? then Lbp(toks[0].op).power else 0
    else 0
  }

  function Max(a: nat, b: nat): nat { if a < b then b else a }

  lemma {:induction false} ExpressionIsShort(toks: seq<Token>, min: nat)
    requires min <= TIGHT && Expression(toks, min).Ok?
    ensures var r := Expression(toks, min); |Print(r.value, min)| + |r.rest| <= |toks|
    decreases |toks|, 1
  {
    hide Primary, Climb, Print, Bare, Lbp;
    PrimaryIsShort(toks);
    var p := Primary(toks);
    Widths(p.value, Max(min, Demand(p.rest)), TIGHT);
    ClimbIsShort(p.value, p.rest, min, |toks| - |p.rest|);
  }

  lemma {:induction false} ClimbIsShort(lhs: Expr, toks: seq<Token>, min: nat, used: nat)
    requires min <= TIGHT && Climb(lhs, toks, min).Ok?
    requires |Print(lhs, Max(min, Demand(toks)))| <= used
    ensures var r := Climb(lhs, toks, min); |Print(r.value, min)| + |r.rest| <= used + |toks|
    decreases |toks|, 0
  {
    hide Expression, Primary, Arguments, Print, Bare, Lbp;
    Widths(lhs, min, Max(min, Demand(toks)));
    if Stops(toks, min) || |toks| == 0 || !toks[0].TOp? {
    } else if toks[0].op == Question {
      ExpressionIsShort(toks[1..], 0);
      var yes := Expression(toks[1..], 0);
      ExpressionIsShort(yes.rest[1..], 0);
      var no := Expression(yes.rest[1..], 0);
      var e := Ternary(lhs, yes.value, no.value);
      TernaryWidth(lhs, yes.value, no.value);
      ClimbIsShort(e, no.rest, min, used + |toks| - |no.rest|);
    } else {
      var b := Lbp(toks[0].op);
      ExpressionIsShort(toks[1..], b.power + 1);
      var rhs := Expression(toks[1..], b.power + 1);
      BinaryWidth(b.bin, lhs, rhs.value, Max(min, Demand(rhs.rest)));
      ClimbIsShort(Binary(b.bin, lhs, rhs.value), rhs.rest, min, used + |toks| - |rhs.rest|);
    }
  }

  /** A pair of parentheses is the most a tighter context costs. */
  lemma Widths(e: Expr, k: nat, k': nat)
    requires k <= k'
    ensures |Print(e, k)| <= |Print(e, k')| <= |Print(e, k)| + 2
  {
    hide Bare, Power;
  }

  lemma TernaryWidth(c: Expr, y: Expr, n: Expr)
    ensures |Print(Ternary(c, y, n), 0)| == |Print(c, 1)| + |Print(y, 0)| + |Print(n, 0)| + 2
  {
    hide Power;
  }

  lemma BinaryWidth(op: BinOp, a: Expr, b: Expr, k: nat)
    requires k <= Power(op)
    ensures |Print(Binary(op, a, b), k)| == |Print(a, Power(op))| + |Print(b, Power(op) + 1)| + 1
  {
    hide Power;
  }

  lemma {:induction false} PrimaryIsShort(toks: seq<Token>)
    requires Primary(toks).Ok?
    ensures var r := Primary(toks); |Print(r.value, TIGHT)| + |r.rest| <= |toks|
    decreases |toks|, 0
  {
    hide Expression, Climb, Arguments, Print, PrintArgs, Lbp, Power;
    var rest := toks[1..];
    var e := Primary(toks).value;
    if !e.Binary? && !e.Ternary? { TightWidth(e); }
    match toks[0]
    case TIdent(name) =>
      if At(rest, LeftBracket) {
        ExpressionIsShort(rest[1..], 0);
      } else if At(rest, LeftParen) {
        NoArgs();
        if !At(rest[1..], RightParen) { ArgumentsAreShort(rest[1..]); }
      }
    case TOp(op) =>
      if op == LeftParen {
        ExpressionIsShort(rest, 0);
        Widths(e, 0, TIGHT);
      } else {
        PrimaryIsShort(rest);
      }
    case _ =>
  }

  lemma TightWidth(e: Expr)
    requires !e.Binary? && !e.Ternary?
    ensures |Print(e, TIGHT)| ==
      match e
      case Unary(_, a) => 1 + |Print(a, TIGHT)|
      case Call(_, args) => 3 + |PrintArgs(args)|
      case Index(_, i) => 3 + |Print(i, 0)|
      case _ => 1
  {
    hide Power;
  }

  lemma {:induction false} ArgumentsAreShort(toks: seq<Token>)
    requires Arguments(toks).Ok?
    ensures var r := Arguments(toks); |PrintArgs(r.value)| + 1 + |r.rest| <= |toks|
    decreases |toks|, 2
  {
    hide Expression, Climb, Primary, Print, Bare, Lbp;
    ExpressionIsShort(toks, 0);
    var e := Expression(toks, 0);
    if At(e.rest, Comma) {
      ArgumentsAreShort(e.rest[1..]);
      var es := Arguments(e.rest[1..]).value;
      assert ([e.value] + es)[1..] == es;
    }
  }

  /** The printer writes the shortest text there is: whatever parses to `e` is at least as long. */
  lemma PrintIsShortest(toks: seq<Token>, e: Expr)
    requires Parse(toks) == Ok(e, [])
    ensures |Print(e, 0)| <= |toks|
  {
    hide Expression;
    ExpressionIsShort(toks, 0);
  }
}
