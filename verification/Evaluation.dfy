/**
 Evaluation of INI expressions against a caller-supplied symbol source.  Arithmetic on two numbers
 is a parameter; comparison is the ordinary one on reals.
 */
module Evaluation {
  import opened Options
  import opened Expressions

  datatype Value = Number(n: real) | Text(s: string)

  datatype Symbols = Symbols(
    value: string -> Option<Value>,
    bitString: (string, nat) -> Option<string>,
    arrayValue: (string, nat) -> Option<real>)

  datatype EvalFault =
    | UnknownIdentifier(name: string) | UnknownFunction(name: string) | NumberExpected | TextInArithmetic
    | NameExpected | MissingIndex | UnknownBits(list: string, index: nat) | UnknownArray(name: string, index: nat)

  datatype Evaluated = Val(value: Value) | Fail(fault: EvalFault)

  /** What was looked up on the way. */
  datatype Query = OfName(name: string) | OfBits(list: string, index: nat) | OfElement(name: string, index: nat)

  type Arithmetic = (BinOp, real, real) -> real

  predicate Truthy(v: Value) {
    match v
    case Number(n) => n != 0.0
    case Text(s) => s != []
  }

  function Flag(b: bool): Value {
    Number(if b then 1.0 else 0.0)
  }

  /** A number cast to an index: towards zero, and zero for anything negative. */
  function Slot(x: real): nat {
    if x < 0.0 then 0 else x.Floor
  }

  function Operate(op: BinOp, a: Value, b: Value, arith: Arithmetic): Evaluated {
    match (a, b)
    case (Text(x), Text(y)) =>
      if op == Eq then Val(Flag(x == y)) else if op == Ne then Val(Flag(x != y)) else Fail(TextInArithmetic)
    case (Number(x), Number(y)) =>
      Val(match op
          case Lt => Flag(x < y)
          case Gt => Flag(x > y)
          case Le => Flag(x <= y)
          case Ge => Flag(x >= y)
          case Eq => Flag(x == y)
          case Ne => Flag(x != y)
          case _ => Number(arith(op, x, y)))
    case _ => Fail(NumberExpected)
  }

  function Named(name: string, syms: Symbols, fault: EvalFault): Evaluated {
    match syms.value(name)
    case Some(v) => Val(v)
    case None => Fail(fault)
  }

  function Element(name: string, at: Value, syms: Symbols): Evaluated {
    match at
    case Text(_) => Fail(NumberExpected)
    case Number(x) =>
      match syms.arrayValue(name, Slot(x))
      case Some(v) => Val(Number(v))
      case None => Fail(UnknownArray(name, Slot(x)))
  }

  function Label(list: string, at: Value, syms: Symbols): Evaluated {
    match at
    case Text(_) => Fail(NumberExpected)
    case Number(x) =>
      match syms.bitString(list, Slot(x))
      case Some(s) => Val(Text(s))
      case None => Fail(UnknownBits(list, Slot(x)))
  }

  function Eval(e: Expr, syms: Symbols, arith: Arithmetic): Evaluated {
    match e
    case Num(v) => Val(Number(v))
    case Str(s) => Val(Text(s))
    case Ident(name) => Named(name, syms, UnknownIdentifier(name))
    case Unary(op, a) =>
      (match Eval(a, syms, arith)
       case Fail(f) => Fail(f)
       case Val(v) =>
         if op == Not then Val(Flag(!Truthy(v)))
         else if v.Text? then Fail(NumberExpected) else Val(Number(-v.n)))
    case Binary(op, a, b) =>
      (match Eval(a, syms, arith)
       case Fail(f) => Fail(f)
       case Val(x) =>
         if op == And && !Truthy(x) then Val(Flag(false))
         else if op == Or && Truthy(x) then Val(Flag(true)) else
         match Eval(b, syms, arith)
         case Fail(f) => Fail(f)
         case Val(y) => if op == And || op == Or then Val(Flag(Truthy(y))) else Operate(op, x, y, arith))
    case Ternary(c, y, n) =>
      (match Eval(c, syms, arith)
       case Fail(f) => Fail(f)
       case Val(v) => if Truthy(v) then Eval(y, syms, arith) else Eval(n, syms, arith))
    case Index(name, i) =>
      (match Eval(i, syms, arith)
       case Fail(f) => Fail(f)
       case Val(v) => Element(name, v, syms))
    case Call(name, args) =>
      if name == "bitStringValue" || name == "arrayValue" then
        if |args| == 0 || !args[0].Ident? then Fail(NameExpected)
        else if |args| == 1 then Fail(MissingIndex) else
        match Eval(args[1], syms, arith)
        case Fail(f) => Fail(f)
        case Val(v) =>
          if name == "arrayValue" then Element(args[0].name, v, syms) else Label(args[0].name, v, syms)
      else if args == [] then Named(name, syms, UnknownFunction(name))
      else Fail(UnknownFunction(name))
  }

  /** The lookups evaluation makes: operands cut off by a short circuit or an unchosen branch ask nothing. */
  function Asked(e: Expr, syms: Symbols, arith: Arithmetic): set<Query> {
    match e
    case Num(_) => {}
    case Str(_) => {}
    case Ident(name) => {OfName(name)}
    case Unary(_, a) => Asked(a, syms, arith)
    case Binary(op, a, b) =>
      Asked(a, syms, arith) +
      (match Eval(a, syms, arith)
       case Fail(_) => {}
       case Val(x) =>
         if (op == And && !Truthy(x)) || (op == Or && Truthy(x)) then {} else Asked(b, syms, arith))
    case Ternary(c, y, n) =>
      Asked(c, syms, arith) +
      (match Eval(c, syms, arith)
       case Fail(_) => {}
       case Val(v) => if Truthy(v) then Asked(y, syms, arith) else Asked(n, syms, arith))
    case Index(name, i) =>
      Asked(i, syms, arith) + ElementAsked(name, Eval(i, syms, arith))
    case Call(name, args) =>
      if name == "bitStringValue" || name == "arrayValue" then
        if |args| < 2 || !args[0].Ident? then {}
        else
          Asked(args[1], syms, arith) +
          (if name == "arrayValue" then ElementAsked(args[0].name, Eval(args[1], syms, arith))
           else LabelAsked(args[0].name, Eval(args[1], syms, arith)))
      else if args == [] then {OfName(name)} else {}
  }

  function ElementAsked(name: string, at: Evaluated): set<Query> {
    if at.Val? && at.value.Number? then {OfElement(name, Slot(at.value.n))} else {}
  }

  function LabelAsked(list: string, at: Evaluated): set<Query> {
    if at.Val? && at.value.Number? then {OfBits(list, Slot(at.value.n))} else {}
  }

  predicate Agree(s: Symbols, t: Symbols, q: Query) {
    match q
    case OfName(name) => s.value(name) == t.value(name)
    case OfBits(list, i) => s.bitString(list, i) == t.bitString(list, i)
    case OfElement(name, i) => s.arrayValue(name, i) == t.arrayValue(name, i)
  }

  lemma ElementAgrees(name: string, at: Evaluated, s: Symbols, t: Symbols)
    requires forall q <- ElementAsked(name, at) :: Agree(s, t, q)
    ensures at.Val? ==> Element(name, at.value, s) == Element(name, at.value, t)
  {
    if at.Val? && at.value.Number? { assert Agree(s, t, OfElement(name, Slot(at.value.n))); }
  }

  lemma LabelAgrees(list: string, at: Evaluated, s: Symbols, t: Symbols)
    requires forall q <- LabelAsked(list, at) :: Agree(s, t, q)
    ensures at.Val? ==> Label(list, at.value, s) == Label(list, at.value, t)
  {
    if at.Val? && at.value.Number? { assert Agree(s, t, OfBits(list, Slot(at.value.n))); }
  }

  /** Evaluation depends on nothing but the answers to the lookups it makes. */
  lemma {:induction false} OnlyAnswersMatter(e: Expr, s: Symbols, t: Symbols, arith: Arithmetic)
    requires forall q <- Asked(e, s, arith) :: Agree(s, t, q)
    ensures Eval(e, t, arith) == Eval(e, s, arith)
    ensures Asked(e, t, arith) == Asked(e, s, arith)
  {
    match e
    case Unary(_, a) =>
      OnlyAnswersMatter(a, s, t, arith);
    case Binary(op, a, b) =>
      OnlyAnswersMatter(a, s, t, arith);
      var r := Eval(a, s, arith);
      if r.Val? && !(op == And && !Truthy(r.value)) && !(op == Or && Truthy(r.value)) {
        OnlyAnswersMatter(b, s, t, arith);
      }
    case Ternary(c, y, n) =>
      OnlyAnswersMatter(c, s, t, arith);
      var r := Eval(c, s, arith);
      if r.Val? {
        OnlyAnswersMatter(if Truthy(r.value) then y else n, s, t, arith);
      }
    case Index(name, i) =>
      OnlyAnswersMatter(i, s, t, arith);
      ElementAgrees(name, Eval(i, s, arith), s, t);
    case Call(name, args) =>
      if (name == "bitStringValue" || name == "arrayValue") && |args| >= 2 && args[0].Ident? {
        OnlyAnswersMatter(args[1], s, t, arith);
        var at := Eval(args[1], s, arith);
        if name == "arrayValue" { ElementAgrees(args[0].name, at, s, t); } else { LabelAgrees(args[0].name, at, s, t); }
      } else if args == [] && name != "bitStringValue" && name != "arrayValue" {
        assert Agree(s, t, OfName(name));
      }
    case Ident(name) =>
      assert Agree(s, t, OfName(name));
    case _ =>
  }
}
