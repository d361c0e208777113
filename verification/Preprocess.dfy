/**
 The INI preprocessor: a line loop over a stack of open conditionals, against a meaning that recurses
 over nested chains.  Lines are given after comment stripping and splitting off the directive word.
 */
module Preprocess {
  import opened Names

  datatype Condition = Present(name: string) | Absent(name: string) | Missing

  datatype Line =
    | If(cond: Condition) | Elif(cond: Condition) | Else | Endif
    | Set(name: string) | Unset(name: string)
    | Define(name: string, body: string) | DefineWithoutEquals
    | Unknown(word: string)
    | Plain(text: string)
    | Blank

  datatype Fault =
    | EmptyCondition | ElifWithoutIf | ElseWithoutIf | EndifWithoutIf | MissingEquals
    | UnknownDirective(word: string) | Undefined(name: string) | UnterminatedIf

  datatype Result<+T> = Ok(value: T) | Err(num: nat, fault: Fault)

  datatype Numbered = Numbered(num: nat, text: string)

  /** What live lines read and change. */
  datatype Env = Env(symbols: set<string>, defines: map<string, string>, out: seq<Numbered>)

  datatype Frame = Frame(active: bool, taken: bool, parentActive: bool)

  datatype State = State(stack: seq<Frame>, env: Env)

  // ----- expansion of $name ----------------------------------------------------

  function Expansion(text: string, prev: char, defines: map<string, string>, num: nat): Result<string>
    decreases |text|
  {
    if text == [] then Ok("")
    else if text[0] == '$' && prev != '\\' then
      var n := NameLength(text[1..]);
      var name := text[1..1 + n];
      if n > 0 && name !in defines then Err(num, Undefined(name)) else
      After(if n == 0 then "$" else defines[name], Expansion(text[1 + n..], '\0', defines, num))
    else
      After([text[0]], Expansion(text[1..], text[0], defines, num))
  }

  function After(front: string, r: Result<string>): Result<string> {
    match r
    case Err(_, _) => r
    case Ok(s) => Ok(front + s)
  }

  function Expanded(text: string, defines: map<string, string>, num: nat): Result<string> {
    Expansion(text, '\0', defines, num)
  }

  lemma {:induction false} NothingToExpand(text: string, prev: char, defines: map<string, string>, num: nat)
    requires '$' !in text
    ensures Expansion(text, prev, defines, num) == Ok(text)
    decreases |text|
  {
    if text == [] {
    } else {
      assert text[0] in text && '$' !in text[1..];
      NothingToExpand(text[1..], text[0], defines, num);
      assert [text[0]] + text[1..] == text;
    }
  }

  lemma AfterTwice(a: string, b: string, r: Result<string>)
    ensures After(a, After(b, r)) == After(a + b, r)
  {
    match r
    case Err(_, _) =>
    case Ok(s) => assert a + (b + s) == (a + b) + s;
  }

  method Expand(text: string, defines: map<string, string>, num: nat) returns (r: Result<string>)
    ensures r == Expanded(text, defines, num)
  {
    hide Expansion, NameLength, After;
    if '$' !in text {
      NothingToExpand(text, '\0', defines, num);
      return Ok(text);
    }
    var out, prev, i := "", '\0', 0;
    assert text[0..] == text;
    AfterNothing(Expanded(text, defines, num));
    while i < |text|
      invariant i <= |text|
      invariant Expanded(text, defines, num) == After(out, Expansion(text[i..], prev, defines, num))
    {
      NextExpands(text, i, prev, defines, num);
      if text[i] == '$' && prev != '\\' {
        var name := NameAt(text, i + 1);
        var body := "$";
        if name != "" {
          if name !in defines {
            AfterError(out, num, Undefined(name));
            return Err(num, Undefined(name));
          }
          body := defines[name];
        }
        var end := i + 1 + |name|;
        AfterTwice(out, body, Expansion(text[end..], '\0', defines, num));
        out, prev, i := out + body, '\0', end;
      } else {
        AfterTwice(out, [text[i]], Expansion(text[i + 1..], text[i], defines, num));
        out, prev, i := out + [text[i]], text[i], i + 1;
      }
    }
    assert text[i..] == "";
    EmptyExpands(prev, defines, num);
    AfterEmpty(out);
    r := Ok(out);
  }

  lemma AfterError(out: string, num: nat, fault: Fault)
    ensures After(out, Err(num, fault)) == Err(num, fault)
  {}

  lemma AfterEmpty(out: string)
    ensures After(out, Ok("")) == Ok(out)
  {
    assert out + "" == out;
  }

  /** One turn of the loop. */
  lemma NextExpands(text: string, i: nat, prev: char, defines: map<string, string>, num: nat)
    requires i < |text|
    ensures var n := NameLength(text[i + 1..]); var name := text[i + 1..][..n];
      Expansion(text[i..], prev, defines, num) ==
        if text[i] == '$' && prev != '\\' then
          if n > 0 && name !in defines then Err(num, Undefined(name))
          else After(if n == 0 then "$" else defines[name], Expansion(text[i + 1 + n..], '\0', defines, num))
        else After([text[i]], Expansion(text[i + 1..], text[i], defines, num))
  {
    hide NameLength, After;
    var here, n := text[i..], NameLength(text[i + 1..]);
    assert here[1..] == text[i + 1..];
    assert here[1..1 + n] == text[i + 1..][..n];
    assert here[1 + n..] == text[i + 1 + n..];
  }

  /** The longest run of name characters from `start`. */
  method NameAt(text: string, start: nat) returns (name: string)
    requires start <= |text|
    ensures name == text[start..][..NameLength(text[start..])]
  {
    var end := start;
    while end < |text| && IsNameChar(text[end])
      invariant start <= end <= |text|
      invariant NameLength(text[start..]) == end - start + NameLength(text[end..])
    {
      assert text[end..][1..] == text[end + 1..];
      end := end + 1;
    }
    name := text[start..end];
  }

  lemma AfterNothing(r: Result<string>)
    ensures After("", r) == r
  {
    if r.Ok? { assert "" + r.value == r.value; }
  }

  /** A text as its writer means it: characters, and references to defines. */
  datatype Piece = Char(c: char) | Ref(name: string)

  function Spelled(p: Piece): string {
    match p
    case Char(c) => [c]
    case Ref(name) => "$" + name
  }

  function Spell(pieces: seq<Piece>): string {
    if pieces == [] then "" else Spelled(pieces[0]) + Spell(pieces[1..])
  }

  /**
   A reference is a name not run into by what follows and not escaped; a dollar sign that is no
   reference is escaped, or has no name after it.
   */
  predicate WellSpelled(pieces: seq<Piece>, prev: char) {
    pieces != [] ==>
      var more := Spell(pieces[1..]);
      match pieces[0]
      case Ref(name) =>
        prev != '\\' && name != "" && NameLength(name) == |name| && NameLength(more) == 0 && WellSpelled(pieces[1..], '\0')
      case Char(c) =>
        if c == '$' && prev != '\\' then NameLength(more) == 0 && WellSpelled(pieces[1..], '\0')
        else WellSpelled(pieces[1..], c)
  }

  function Substituted(pieces: seq<Piece>, defines: map<string, string>): string
    requires forall name :: Ref(name) in pieces ==> name in defines
  {
    if pieces == [] then "" else
    (match pieces[0] case Char(c) => [c] case Ref(name) => defines[name]) + Substituted(pieces[1..], defines)
  }

  lemma NameEnds(name: string, more: string)
    requires NameLength(name) == |name| && NameLength(more) == 0
    ensures NameLength(name + more) == |name|
  {
    NameLengthOf(name, more);
  }

  /** Expansion replaces every reference by its define and keeps every other character. */
  lemma {:induction false} ExpansionSubstitutes(pieces: seq<Piece>, prev: char, defines: map<string, string>, num: nat)
    requires WellSpelled(pieces, prev)
    requires forall name :: Ref(name) in pieces ==> name in defines
    ensures Expansion(Spell(pieces), prev, defines, num) == Ok(Substituted(pieces, defines))
    decreases |pieces|
  {
    hide Expansion, NameLength;
    if pieces == [] {
      EmptyExpands(prev, defines, num);
    } else {
      var rest, more := pieces[1..], Spell(pieces[1..]);
      match pieces[0]
      case Ref(name) =>
        ExpansionSubstitutes(rest, '\0', defines, num);
        ReferenceExpands(name, more, prev, defines, num);
      case Char(c) =>
        ExpansionSubstitutes(rest, if c == '$' && prev != '\\' then '\0' else c, defines, num);
        CharacterExpands(c, more, prev, defines, num);
    }
  }

  lemma EmptyExpands(prev: char, defines: map<string, string>, num: nat)
    ensures Expansion("", prev, defines, num) == Ok("")
  {}

  lemma ReferenceExpands(name: string, more: string, prev: char, defines: map<string, string>, num: nat)
    requires prev != '\\' && name != "" && NameLength(name) == |name| && NameLength(more) == 0 && name in defines
    ensures Expansion("$" + name + more, prev, defines, num) == After(defines[name], Expansion(more, '\0', defines, num))
  {
    hide NameLength;
    var text := "$" + name + more;
    NameEnds(name, more);
    assert text[1..] == name + more;
    assert text[1..1 + |name|] == name && text[1 + |name|..] == more;
  }

  lemma CharacterExpands(c: char, more: string, prev: char, defines: map<string, string>, num: nat)
    requires c == '$' && prev != '\\' ==> NameLength(more) == 0
    ensures Expansion([c] + more, prev, defines, num) ==
      After([c], Expansion(more, if c == '$' && prev != '\\' then '\0' else c, defines, num))
  {
    hide NameLength;
    var text := [c] + more;
    assert text[1..] == more;
    if c == '$' && prev != '\\' { assert text[1 + 0..] == more; }
  }

  // ----- the machine -----------------------------------------------------------

  function Holds(c: Condition, symbols: set<string>, num: nat): Result<bool> {
    match c
    case Present(name) => Ok(name in symbols)
    case Absent(name) => Ok(name !in symbols)
    case Missing => Err(num, EmptyCondition)
  }

  predicate AllActive(stack: seq<Frame>) {
    forall f <- stack :: f.active
  }

  /** A line that opens or closes nothing, where it is live. */
  function Live(line: Line, num: nat, env: Env): Result<Env>
    requires !Nests(line)
  {
    match line
    case Set(name) => Ok(env.(symbols := env.symbols + {name}))
    case Unset(name) => Ok(env.(symbols := env.symbols - {name}))
    case Define(name, body) =>
      (match Expanded(body, env.defines, num)
       case Err(n, f) => Err(n, f)
       case Ok(s) => Ok(env.(defines := env.defines[name := s])))
    case DefineWithoutEquals => Err(num, MissingEquals)
    case Unknown(word) => Err(num, UnknownDirective(word))
    case Plain(text) =>
      (match Expanded(text, env.defines, num)
       case Err(n, f) => Err(n, f)
       case Ok(s) => Ok(env.(out := env.out + [Numbered(num, s)])))
    case _ => Ok(env)
  }

  predicate Nests(line: Line) {
    line.If? || line.Elif? || line.Else? || line.Endif?
  }

  function Step(line: Line, num: nat, st: State): Result<State> {
    var active := AllActive(st.stack);
    var top := |st.stack| - 1;
    match line
    case If(cond) =>
      if !active then Ok(st.(stack := st.stack + [Frame(false, false, false)])) else
      (match Holds(cond, st.env.symbols, num)
       case Err(n, f) => Err(n, f)
       case Ok(b) => Ok(st.(stack := st.stack + [Frame(b, b, true)])))
    case Elif(cond) =>
      if top < 0 then Err(num, ElifWithoutIf) else
      var f := st.stack[top];
      if f.taken then Ok(st.(stack := st.stack[..top] + [f.(active := false)]))
      else if !f.parentActive then Ok(st.(stack := st.stack[..top] + [f.(active := false, taken := false)]))
      else
        (match Holds(cond, st.env.symbols, num)
         case Err(n, g) => Err(n, g)
         case Ok(b) => Ok(st.(stack := st.stack[..top] + [f.(active := b, taken := b)])))
    case Else =>
      if top < 0 then Err(num, ElseWithoutIf) else
      var f := st.stack[top];
      Ok(st.(stack := st.stack[..top] + [f.(active := f.parentActive && !f.taken, taken := true)]))
    case Endif =>
      if top < 0 then Err(num, EndifWithoutIf) else Ok(st.(stack := st.stack[..top]))
    case Unknown(word) => Err(num, UnknownDirective(word))
    case _ =>
      if !active then Ok(st) else
      match Live(line, num, st.env)
      case Err(n, f) => Err(n, f)
      case Ok(env) => Ok(st.(env := env))
  }

  function Run(lines: seq<Line>, num: nat, st: State): Result<State>
    decreases |lines|
  {
    if lines == [] then Ok(st) else
    match Step(lines[0], num, st)
    case Err(n, f) => Err(n, f)
    case Ok(st') => Run(lines[1..], num + 1, st')
  }

  /** The whole pass: the surviving lines, and the symbols as the directives left them. */
  function Preprocessed(lines: seq<Line>, symbols: set<string>): Result<Env> {
    match Run(lines, 1, State([], Env(symbols, map[], [])))
    case Err(n, f) => Err(n, f)
    case Ok(st) => if st.stack == [] then Ok(st.env) else Err(0, UnterminatedIf)
  }

  method PreprocessLines(lines: seq<Line>, symbols: set<string>) returns (r: Result<Env>)
    ensures r == Preprocessed(lines, symbols)
  {
    hide Expanded, AllActive;
    var stack: seq<Frame> := [];
    var known, defines: map<string, string>, out: seq<Numbered> := symbols, map[], [];
    ghost var goal := Run(lines, 1, State([], Env(symbols, map[], [])));
    for i := 0 to |lines|
      invariant goal == Run(lines[i..], i + 1, State(stack, Env(known, defines, out)))
    {
      var num := i + 1;
      var line := lines[i];
      assert lines[i..][1..] == lines[i + 1..];
      var active := AllActive(stack);
      var top := |stack| - 1;
      match line {
        case If(cond) =>
          var holds := false;
          if active {
            var h := Holds(cond, known, num);
            if h.Err? { return Err(h.num, h.fault); }
            holds := h.value;
          }
          stack := stack + [Frame(holds, holds, active)];
        case Elif(cond) =>
          if stack == [] { return Err(num, ElifWithoutIf); }
          var f := stack[top];
          if f.taken {
            f := f.(active := false);
          } else {
            var holds := false;
            if f.parentActive {
              var h := Holds(cond, known, num);
              if h.Err? { return Err(h.num, h.fault); }
              holds := h.value;
            }
            f := f.(active := holds, taken := holds);
          }
          stack := stack[..top] + [f];
        case Else =>
          if stack == [] { return Err(num, ElseWithoutIf); }
          var f := stack[top];
          stack := stack[..top] + [f.(active := f.parentActive && !f.taken, taken := true)];
        case Endif =>
          if stack == [] { return Err(num, EndifWithoutIf); }
          stack := stack[..top];
        case Set(name) =>
          if active { known := known + {name}; }
        case Unset(name) =>
          if active { known := known - {name}; }
        case Define(name, body) =>
          if active {
            var b := Expand(body, defines, num);
            if b.Err? { return Err(b.num, b.fault); }
            defines := defines[name := b.value];
          }
        case DefineWithoutEquals =>
          if active { return Err(num, MissingEquals); }
        case Unknown(word) =>
          return Err(num, UnknownDirective(word));
        case Plain(text) =>
          if active {
            var t := Expand(text, defines, num);
            if t.Err? { return Err(t.num, t.fault); }
            out := out + [Numbered(num, t.value)];
          }
        case Blank =>
      }
    }
    if stack != [] { return Err(0, UnterminatedIf); }
    r := Ok(Env(known, defines, out));
  }

  // ----- nested conditionals ---------------------------------------------------

  type Simple = line: Line | !Nests(line) witness Blank

  datatype Forest =
    | Nil
    | Leaf(line: Simple, rest: Forest)
    | Chain(cond: Condition, body: Forest, arms: Arms, rest: Forest)

  /** `#elif` and `#else` arms in whatever order they are written, up to the `#endif`. */
  datatype Arms = Fin | ElifArm(cond: Condition, body: Forest, more: Arms) | ElseArm(body: Forest, more: Arms)

  function Flatten(f: Forest): seq<Line> {
    match f
    case Nil => []
    case Leaf(line, rest) => [line] + Flatten(rest)
    case Chain(cond, body, arms, rest) => [If(cond)] + Flatten(body) + FlattenArms(arms) + Flatten(rest)
  }

  function FlattenArms(a: Arms): seq<Line> {
    match a
    case Fin => [Endif]
    case ElifArm(cond, body, more) => [Elif(cond)] + Flatten(body) + FlattenArms(more)
    case ElseArm(body, more) => [Else] + Flatten(body) + FlattenArms(more)
  }

  /** Text that is not selected is looked at only for unknown directives. */
  function Skip(f: Forest, num: nat, env: Env): Result<Env> {
    match f
    case Nil => Ok(env)
    case Leaf(line, rest) =>
      if line.Unknown? then Err(num, UnknownDirective(line.word)) else Skip(rest, num + 1, env)
    case Chain(_, body, arms, rest) =>
      match Skip(body, num + 1, env)
      case Err(n, e) => Err(n, e)
      case Ok(_) =>
        var at := num + 1 + |Flatten(body)|;
        match SkipArms(arms, at, env)
        case Err(n, e) => Err(n, e)
        case Ok(_) => Skip(rest, at + |FlattenArms(arms)|, env)
  }

  function SkipArms(a: Arms, num: nat, env: Env): Result<Env> {
    match a
    case Fin => Ok(env)
    case _ =>
      match Skip(a.body, num + 1, env)
      case Err(n, e) => Err(n, e)
      case Ok(_) => SkipArms(a.more, num + 1 + |Flatten(a.body)|, env)
  }

  /** A selected piece of text, with symbols, defines and output threaded in order. */
  function Meaning(f: Forest, num: nat, env: Env): Result<Env> {
    match f
    case Nil => Ok(env)
    case Leaf(line, rest) =>
      (match Live(line, num, env)
       case Err(n, e) => Err(n, e)
       case Ok(env') => Meaning(rest, num + 1, env'))
    case Chain(cond, body, arms, rest) =>
      var at := num + 1 + |Flatten(body)|;
      match Holds(cond, env.symbols, num)
      case Err(n, e) => Err(n, e)
      case Ok(holds) =>
        match (if holds then Meaning(body, num + 1, env) else Skip(body, num + 1, env))
        case Err(n, e) => Err(n, e)
        case Ok(env') =>
          match (if holds then SkipArms(arms, at, env') else FirstArm(arms, at, env))
          case Err(n, e) => Err(n, e)
          case Ok(env'') => Meaning(rest, at + |FlattenArms(arms)|, env'')
  }

  /** The first arm whose condition holds; everything after it is skipped, conditions included. */
  function FirstArm(a: Arms, num: nat, env: Env): Result<Env> {
    match a
    case Fin => Ok(env)
    case ElseArm(body, more) =>
      (match Meaning(body, num + 1, env)
       case Err(n, e) => Err(n, e)
       case Ok(env') => SkipArms(more, num + 1 + |Flatten(body)|, env'))
    case ElifArm(cond, body, more) =>
      var at := num + 1 + |Flatten(body)|;
      match Holds(cond, env.symbols, num)
      case Err(n, e) => Err(n, e)
      case Ok(true) =>
        (match Meaning(body, num + 1, env)
         case Err(n, e) => Err(n, e)
         case Ok(env') => SkipArms(more, at, env'))
      case Ok(false) =>
        match Skip(body, num + 1, env)
        case Err(n, e) => Err(n, e)
        case Ok(_) => FirstArm(more, at, env)
  }

  function With(stack: seq<Frame>, r: Result<Env>): Result<State> {
    match r
    case Err(n, f) => Err(n, f)
    case Ok(env) => Ok(State(stack, env))
  }

  // ----- the stack means the nesting -------------------------------------------

  lemma {:induction false} RunConcat(a: seq<Line>, b: seq<Line>, num: nat, st: State)
    ensures Run(a + b, num, st) ==
      match Run(a, num, st)
      case Err(n, f) => Err(n, f)
      case Ok(st') => Run(b, num + |a|, st')
    decreases |a|
  {
    if a == [] {
      assert a + b == b;
    } else {
      assert (a + b)[1..] == a[1..] + b;
      var s := Step(a[0], num, st);
      if s.Ok? { RunConcat(a[1..], b, num + 1, s.value); }
    }
  }

  lemma RunOne(line: Line, num: nat, st: State)
    ensures Run([line], num, st) == Step(line, num, st)
  {
    assert [line][1..] == [];
  }

  lemma OneMore(stack: seq<Frame>, f: Frame)
    ensures AllActive(stack + [f]) <==> AllActive(stack) && f.active
    ensures (stack + [f])[..|stack|] == stack && (stack + [f])[|stack|] == f
  {
    assert f in stack + [f];
    forall g | g in stack ensures g in stack + [f] {}
  }

  lemma {:induction false} DeadForest(f: Forest, num: nat, st: State)
    requires !AllActive(st.stack)
    ensures Run(Flatten(f), num, st) == With(st.stack, Skip(f, num, st.env))
    decreases f, 1
  {
    hide AllActive, FlattenArms, SkipArms, Live;
    match f
    case Nil =>
    case Leaf(line, rest) =>
      RunConcat([line], Flatten(rest), num, st);
      RunOne(line, num, st);
      DeadForest(rest, num + 1, st);
    case Chain(_, _, _, _) => DeadChain(f, num, st);
  }

  lemma {:induction false} DeadChain(f: Forest, num: nat, st: State)
    requires f.Chain? && !AllActive(st.stack)
    ensures Run(Flatten(f), num, st) == With(st.stack, Skip(f, num, st.env))
    decreases f, 0
  {
    hide AllActive, FlattenArms, SkipArms, Live, Run, Flatten;
    var at := num + 1 + |Flatten(f.body)|;
    var dead := Frame(false, false, false);
    ChainRuns(f.cond, f.body, f.arms, f.rest, num, st);
    OneMore(st.stack, dead);
    DeadForest(f.body, num + 1, State(st.stack + [dead], st.env));
    SkipKeeps(f.body, num + 1, st.env);
    ClosedArms(f.arms, at, st.stack, dead, st.env);
    SkipArmsKeeps(f.arms, at, st.env);
    DeadForest(f.rest, at + |FlattenArms(f.arms)|, st);
  }

  /** A chain is its `#if`, its body, its arms and what follows, one after the other. */
  lemma ChainRuns(cond: Condition, body: Forest, arms: Arms, rest: Forest, num: nat, st: State)
    ensures Run(Flatten(Chain(cond, body, arms, rest)), num, st) ==
      Then(Then(Then(Step(If(cond), num, st), Flatten(body), num + 1),
                FlattenArms(arms), num + 1 + |Flatten(body)|),
           Flatten(rest), num + 1 + |Flatten(body)| + |FlattenArms(arms)|)
  {
    hide Run, Step, FlattenArms;
    var a, b, c, d := [If(cond)], Flatten(body), FlattenArms(arms), Flatten(rest);
    RunConcat(a + b + c, d, num, st);
    RunConcat(a + b, c, num, st);
    RunConcat(a, b, num, st);
    RunOne(If(cond), num, st);
  }

  function Then(r: Result<State>, lines: seq<Line>, num: nat): Result<State> {
    match r
    case Err(n, f) => Err(n, f)
    case Ok(st) => Run(lines, num, st)
  }

  lemma ArmRuns(a: Arms, num: nat, st: State)
    requires !a.Fin?
    ensures Run(FlattenArms(a), num, st) ==
      Then(Then(Step(if a.ElifArm? then Elif(a.cond) else Else, num, st), Flatten(a.body), num + 1),
           FlattenArms(a.more), num + 1 + |Flatten(a.body)|)
  {
    hide Run, Step, Flatten;
    var head := if a.ElifArm? then Elif(a.cond) else Else;
    RunConcat([head] + Flatten(a.body), FlattenArms(a.more), num, st);
    RunConcat([head], Flatten(a.body), num, st);
    RunOne(head, num, st);
  }

  /** Arms none of which can be selected: an earlier branch was, or the whole chain is dead. */
  lemma {:induction false} ClosedArms(a: Arms, num: nat, below: seq<Frame>, f: Frame, env: Env)
    requires f.taken || (!f.parentActive && !AllActive(below))
    requires f.parentActive ==> AllActive(below)
    ensures Run(FlattenArms(a), num, State(below + [f], env)) == With(below, SkipArms(a, num, env))
    decreases a, 1
  {
    hide AllActive, Flatten, Skip, Run, Live;
    var st := State(below + [f], env);
    OneMore(below, f);
    match a
    case Fin => RunOne(Endif, num, st);
    case _ =>
      var f' := Frame(false, f.taken || a.ElseArm?, f.parentActive);
      ArmRuns(a, num, st);
      OneMore(below, f');
      DeadForest(a.body, num + 1, State(below + [f'], env));
      SkipKeeps(a.body, num + 1, env);
      ClosedArms(a.more, num + 1 + |Flatten(a.body)|, below, f', env);
  }

  lemma {:induction false} OpenArms(a: Arms, num: nat, below: seq<Frame>, active: bool, env: Env)
    requires AllActive(below)
    ensures Run(FlattenArms(a), num, State(below + [Frame(active, false, true)], env)) == With(below, FirstArm(a, num, env))
    decreases a, 1
  {
    hide AllActive, Flatten, Skip, Run, Live, Meaning, SkipArms;
    var st := State(below + [Frame(active, false, true)], env);
    OneMore(below, Frame(active, false, true));
    if a.Fin? {
      RunOne(Endif, num, st);
    } else {
      var at := num + 1 + |Flatten(a.body)|;
      ArmRuns(a, num, st);
      var holds := if a.ElifArm? then Holds(a.cond, env.symbols, num) else Ok(true);
      if holds.Ok? {
        var f := Frame(holds.value, holds.value, true);
        OneMore(below, f);
        if holds.value {
          LiveForest(a.body, num + 1, State(below + [f], env));
          var r := Meaning(a.body, num + 1, env);
          if r.Ok? { ClosedArms(a.more, at, below, f, r.value); }
        } else {
          DeadForest(a.body, num + 1, State(below + [f], env));
          SkipKeeps(a.body, num + 1, env);
          OpenArms(a.more, at, below, false, env);
        }
      }
    }
  }

  /** Nested text and the stack machine agree: same lines, same symbols and defines, same first error. */
  lemma {:induction false} LiveForest(f: Forest, num: nat, st: State)
    requires AllActive(st.stack)
    ensures Run(Flatten(f), num, st) == With(st.stack, Meaning(f, num, st.env))
    decreases f, 2
  {
    hide AllActive, FlattenArms, SkipArms, FirstArm, Skip;
    match f
    case Nil =>
    case Leaf(line, rest) =>
      RunConcat([line], Flatten(rest), num, st);
      RunOne(line, num, st);
      var r := Live(line, num, st.env);
      if r.Ok? { LiveForest(rest, num + 1, st.(env := r.value)); }
    case Chain(_, _, _, _) => LiveChain(f, num, st);
  }

  /** What a chain leaves once its condition is decided. */
  function Decided(f: Forest, holds: bool, num: nat, env: Env): Result<Env>
    requires f.Chain?
  {
    var at := num + 1 + |Flatten(f.body)|;
    var r := if holds then Meaning(f.body, num + 1, env) else Skip(f.body, num + 1, env);
    if r.Err? then r else if holds then SkipArms(f.arms, at, r.value) else FirstArm(f.arms, at, env)
  }

  lemma {:induction false} LiveChain(f: Forest, num: nat, st: State)
    requires f.Chain? && AllActive(st.stack)
    ensures Run(Flatten(f), num, st) == With(st.stack, Meaning(f, num, st.env))
    decreases f, 1
  {
    hide AllActive, FlattenArms, Live, Run, Flatten, Decided, SkipArms, FirstArm, Skip;
    var at := num + 1 + |Flatten(f.body)| + |FlattenArms(f.arms)|;
    ChainRuns(f.cond, f.body, f.arms, f.rest, num, st);
    ChainMeans(f, num, st.env);
    var h := Holds(f.cond, st.env.symbols, num);
    if h.Ok? {
      DecidedRuns(f, h.value, num, st);
      var q := Decided(f, h.value, num, st.env);
      if q.Ok? { LiveForest(f.rest, at, st.(env := q.value)); }
    }
  }

  lemma ChainMeans(f: Forest, num: nat, env: Env)
    requires f.Chain?
    ensures var h := Holds(f.cond, env.symbols, num);
      Meaning(f, num, env) ==
        if h.Err? then Err(h.num, h.fault) else
        var q := Decided(f, h.value, num, env);
        if q.Err? then q else Meaning(f.rest, num + 1 + |Flatten(f.body)| + |FlattenArms(f.arms)|, q.value)
  {
    hide Flatten, FlattenArms, Skip, SkipArms, FirstArm;
  }

  lemma {:induction false} DecidedRuns(f: Forest, holds: bool, num: nat, st: State)
    requires f.Chain? && AllActive(st.stack)
    ensures
      Then(Run(Flatten(f.body), num + 1, State(st.stack + [Frame(holds, holds, true)], st.env)),
           FlattenArms(f.arms), num + 1 + |Flatten(f.body)|)
      == With(st.stack, Decided(f, holds, num, st.env))
    decreases f, 0
  {
    hide AllActive, Flatten, FlattenArms, Live, Run, Meaning, SkipArms, FirstArm, Skip;
    var at := num + 1 + |Flatten(f.body)|;
    var frame := Frame(holds, holds, true);
    OneMore(st.stack, frame);
    if holds {
      LiveForest(f.body, num + 1, State(st.stack + [frame], st.env));
      var r := Meaning(f.body, num + 1, st.env);
      if r.Ok? { ClosedArms(f.arms, at, st.stack, frame, r.value); }
    } else {
      DeadForest(f.body, num + 1, State(st.stack + [frame], st.env));
      SkipKeeps(f.body, num + 1, st.env);
      OpenArms(f.arms, at, st.stack, false, st.env);
    }
  }

  /** Skipped text changes nothing. */
  lemma {:induction false} SkipKeeps(f: Forest, num: nat, env: Env)
    ensures Skip(f, num, env).Ok? ==> Skip(f, num, env).value == env
  {
    match f
    case Nil =>
    case Leaf(_, rest) => SkipKeeps(rest, num + 1, env);
    case Chain(_, body, arms, rest) => SkipKeeps(rest, num + 1 + |Flatten(body)| + |FlattenArms(arms)|, env);
  }

  lemma {:induction false} SkipArmsKeeps(a: Arms, num: nat, env: Env)
    ensures SkipArms(a, num, env).Ok? ==> SkipArms(a, num, env).value == env
  {
    if !a.Fin? { SkipArmsKeeps(a.more, num + 1 + |Flatten(a.body)|, env); }
  }

  // ----- what is accepted is nested --------------------------------------------

  function Net(lines: seq<Line>): int {
    if lines == [] then 0 else
    (if lines[0].If? then 1 else if lines[0].Endif? then -1 else 0) + Net(lines[1..])
  }

  lemma {:induction false} NetIsDepth(lines: seq<Line>, num: nat, st: State)
    ensures Run(lines, num, st).Ok? ==> |Run(lines, num, st).value.stack| == |st.stack| + Net(lines)
    decreases |lines|
  {
    if lines == [] {
    } else {
      var s := Step(lines[0], num, st);
      if s.Ok? { NetIsDepth(lines[1..], num + 1, s.value); }
    }
  }

  lemma {:induction false} NetConcat(a: seq<Line>, b: seq<Line>)
    ensures Net(a + b) == Net(a) + Net(b)
    decreases |a|
  {
    if a == [] {
      assert a + b == b;
    } else {
      assert (a + b)[1..] == a[1..] + b;
      NetConcat(a[1..], b);
    }
  }

  datatype Read<T> = Read(value: T, rest: seq<Line>) | Open

  predicate AtCloser(lines: seq<Line>) {
    lines == [] || lines[0].Elif? || lines[0].Else? || lines[0].Endif?
  }

  /** Reads nested lines up to a closer; `Open` when some `#if` has no `#endif`. */
  function Nest(lines: seq<Line>): (r: Read<Forest>)
    ensures r.Read? ==> AtCloser(r.rest) && |r.rest| <= |lines|
    decreases |lines|, 1
  {
    if AtCloser(lines) then Read(Nil, lines)
    else if lines[0].If? then
      match NestArm(lines[1..])
      case Open => Open
      case Read((body, arms), rest) =>
        (match Nest(rest)
         case Open => Open
         case Read(more, rest') => Read(Chain(lines[0].cond, body, arms, more), rest'))
    else
      match Nest(lines[1..])
      case Open => Open
      case Read(more, rest) => Read(Leaf(lines[0], more), rest)
  }

  function NestArm(lines: seq<Line>): (r: Read<(Forest, Arms)>)
    ensures r.Read? ==> |r.rest| < |lines|
    decreases |lines|, 2
  {
    match Nest(lines)
    case Open => Open
    case Read(body, rest) =>
      if rest == [] then Open
      else if rest[0].Endif? then Read((body, Fin), rest[1..])
      else
        match NestArm(rest[1..])
        case Open => Open
        case Read((next, more), rest') =>
          Read((body, if rest[0].Elif? then ElifArm(rest[0].cond, next, more) else ElseArm(next, more)), rest')
  }

  /** What was read flattens to what it was read from; what stays open has more `#if` than `#endif`. */
  lemma {:induction false} NestReads(lines: seq<Line>)
    ensures var r := Nest(lines);
      if r.Read? then Flatten(r.value) + r.rest == lines else Net(lines) > 0
    decreases |lines|, 1
  {
    hide Run, FlattenArms, NestArm;
    if !AtCloser(lines) {
      var tail := lines[1..];
      assert lines == [lines[0]] + tail;
      if lines[0].If? {
        ArmReads(tail);
        var r := NestArm(tail);
        if r.Read? {
          NestReads(r.rest);
          var part := [lines[0]] + Flatten(r.value.0) + FlattenArms(r.value.1);
          assert part + r.rest == lines;
          NetConcat(part, r.rest);
          NetOfForest(r.value.0);
          NetOfArms(r.value.1);
          NetOfChain(lines[0], r.value.0, r.value.1);
          var q := Nest(r.rest);
          if q.Read? { assert part + Flatten(q.value) + q.rest == lines; }
        }
      } else {
        NestReads(tail);
        var q := Nest(tail);
        if q.Read? { assert [lines[0]] + Flatten(q.value) + q.rest == lines; }
      }
    }
  }

  lemma {:induction false} ArmReads(lines: seq<Line>)
    ensures var r := NestArm(lines);
      if r.Read? then Flatten(r.value.0) + FlattenArms(r.value.1) + r.rest == lines else Net(lines) >= 0
    decreases |lines|, 2
  {
    hide Run, Flatten, FlattenArms, Nest, Net;
    NestReads(lines);
    var n := Nest(lines);
    if n.Read? {
      NetConcat(Flatten(n.value), n.rest);
      NetOfForest(n.value);
      if n.rest == [] {
        NetOfNone();
      } else {
        var head, tail := n.rest[0], n.rest[1..];
        assert n.rest == [head] + tail;
        if head.Endif? {
          ArmsEnd();
          assert Flatten(n.value) + [Endif] + tail == lines;
        } else {
          ArmReads(tail);
          NetConcat([head], tail);
          NetOfHead(head);
          var r := NestArm(tail);
          if r.Read? { ArmJoins(n.value, head, r.value.0, r.value.1, r.rest); }
        }
      }
    }
  }

  lemma NetOfNone() ensures Net([]) == 0 {}

  lemma ArmsEnd() ensures FlattenArms(Fin) == [Endif] {}

  lemma NetOfHead(head: Line)
    requires head.Elif? || head.Else?
    ensures Net([head]) == 0
  {}

  lemma ArmJoins(body: Forest, head: Line, next: Forest, more: Arms, rest: seq<Line>)
    requires head.Elif? || head.Else?
    ensures var arms := if head.Elif? then ElifArm(head.cond, next, more) else ElseArm(next, more);
      Flatten(body) + FlattenArms(arms) + rest == Flatten(body) + ([head] + (Flatten(next) + FlattenArms(more) + rest))
  {
    hide Flatten;
    var a, b, c := Flatten(body), Flatten(next), FlattenArms(more);
    assert a + ([head] + b + c) + rest == a + ([head] + (b + c + rest));
  }

  lemma {:induction false} NetOfForest(f: Forest)
    ensures Net(Flatten(f)) == 0
    decreases f, 1
  {
    match f
    case Nil =>
    case Leaf(line, rest) =>
      NetOfForest(rest);
      NetConcat([line], Flatten(rest));
      assert Net([line]) == 0;
    case Chain(cond, body, arms, rest) =>
      NetOfForest(body);
      NetOfArms(arms);
      NetOfForest(rest);
      NetConcat([If(cond)] + Flatten(body) + FlattenArms(arms), Flatten(rest));
      NetOfChain(If(cond), body, arms);
  }

  lemma NetOfChain(head: Line, body: Forest, arms: Arms)
    requires Net(Flatten(body)) == 0 && Net(FlattenArms(arms)) == -1
    ensures Net([head] + Flatten(body) + FlattenArms(arms)) == Net([head]) - 1
    ensures head.If? ==> Net([head]) == 1
    ensures head.Elif? || head.Else? ==> Net([head]) == 0
  {
    hide Flatten, FlattenArms;
    NetConcat([head] + Flatten(body), FlattenArms(arms));
    NetConcat([head], Flatten(body));
  }

  lemma {:induction false} NetOfArms(a: Arms)
    ensures Net(FlattenArms(a)) == -1
    decreases a, 1
  {
    if !a.Fin? {
      var head := if a.ElifArm? then Elif(a.cond) else Else;
      NetOfForest(a.body);
      NetOfArms(a.more);
      NetOfChain(head, a.body, a.more);
    }
  }

  /** A file made of nested chains means what its nesting says, errors and line numbers included. */
  lemma StackMeansNesting(f: Forest, symbols: set<string>)
    ensures Preprocessed(Flatten(f), symbols) == Meaning(f, 1, Env(symbols, map[], []))
  {
    LiveForest(f, 1, State([], Env(symbols, map[], [])));
  }

  /** Nothing else is accepted: unbalanced or misplaced directives are an error. */
  lemma AcceptedIsNested(lines: seq<Line>, symbols: set<string>) returns (f: Forest)
    requires Preprocessed(lines, symbols).Ok?
    ensures Flatten(f) == lines
  {
    hide Flatten, Net, Step;
    var st := State([], Env(symbols, map[], []));
    NetIsDepth(lines, 1, st);
    NestReads(lines);
    var r := Nest(lines);
    f := r.value;
    RunConcat(Flatten(f), r.rest, 1, st);
    LiveForest(f, 1, st);
    if r.rest != [] {
      NoCloserAtTop(r.rest, 1 + |Flatten(f)|, Meaning(f, 1, st.env).value);
    }
    assert Flatten(f) + [] == Flatten(f);
  }

  lemma NoCloserAtTop(lines: seq<Line>, num: nat, env: Env)
    requires lines != [] && AtCloser(lines)
    ensures Run(lines, num, State([], env)).Err?
  {}

  /** `#if A`, `x`, `#else`, `y`, `#elif B`, `z`, `#endif` is accepted; without `A` the `#else` arm wins, whatever `B`. */
  lemma ElifAfterElse(symbols: set<string>)
    requires "A" !in symbols
    ensures Preprocessed([If(Present("A")), Plain("x"), Else, Plain("y"), Elif(Present("B")), Plain("z"), Endif], symbols) ==
      Ok(Env(symbols, map[], [Numbered(4, "y")]))
  {
    hide Run, Meaning, Live, Expanded, Skip, SkipArms;
    var x, y, z := Leaf(Plain("x"), Nil), Leaf(Plain("y"), Nil), Leaf(Plain("z"), Nil);
    var later := ElifArm(Present("B"), z, Fin);
    var f := Chain(Present("A"), x, ElseArm(y, later), Nil);
    assert Flatten(f) == [If(Present("A")), Plain("x"), Else, Plain("y"), Elif(Present("B")), Plain("z"), Endif];
    StackMeansNesting(f, symbols);
    var env, done := Env(symbols, map[], []), Env(symbols, map[], [Numbered(4, "y")]);
    OneLine("y", 4, env);
    assert env.out + [Numbered(4, "y")] == done.out;
    SkippedLine("x", 2, env);
    SkippedArm(Present("B"), "z", 5, done);
    assert |Flatten(x)| == |Flatten(y)| == 1;
    assert FirstArm(ElseArm(y, later), 3, env) == Ok(done);
    ChainMeans(f, 1, env);
    assert Decided(f, false, 1, env) == Ok(done);
    NilMeans(1 + 1 + |Flatten(x)| + |FlattenArms(ElseArm(y, later))|, done);
  }

  lemma OneLine(text: string, num: nat, env: Env)
    requires '$' !in text
    ensures Meaning(Leaf(Plain(text), Nil), num, env) == Ok(env.(out := env.out + [Numbered(num, text)]))
  {
    NothingToExpand(text, '\0', env.defines, num);
  }

  lemma SkippedLine(text: string, num: nat, env: Env)
    ensures Skip(Leaf(Plain(text), Nil), num, env) == Ok(env)
  {
  }

  lemma SkippedArm(cond: Condition, text: string, num: nat, env: Env)
    ensures SkipArms(ElifArm(cond, Leaf(Plain(text), Nil), Fin), num, env) == Ok(env)
  {
    SkippedLine(text, num + 1, env);
  }

  lemma NilMeans(num: nat, env: Env)
    ensures Meaning(Nil, num, env) == Ok(env)
  {
  }
}
