/** Scales given as expressions over the tune. */
module ScaleExpressions {
  import opened Options
  import opened Expressions
  import opened Evaluation
  import TuneState
  import Msq

  /** The number an expression yields with the tune as its symbol source; a text or an error is no number. */
  function ScaleOf(e: Expr, symbols: TuneState.World -> Symbols, arith: Arithmetic): TuneState.Formula {
    w =>
      match Eval(e, symbols(w), arith)
      case Val(Number(n)) => Some(n)
      case _ => None
  }

  /** Two tunes that differ in some bits and variables only answer every lookup of the expression alike. */
  ghost predicate LookupsIgnore(e: Expr, symbols: TuneState.World -> Symbols, arith: Arithmetic,
                                slots: set<TuneState.Slot>, names: set<string>)
  {
    forall u, v :: TuneState.SameOutside(u, v, slots) && Msq.SamePc(u, v, names) ==>
      forall q <- Asked(e, symbols(u), arith) :: Agree(symbols(u), symbols(v), q)
  }

  /**
   A scale is steady as soon as the lookups it really makes are: operands and branches that evaluation
   skips do not count.
   */
  lemma ExpressionIgnores(e: Expr, symbols: TuneState.World -> Symbols, arith: Arithmetic,
                          slots: set<TuneState.Slot>, names: set<string>)
    requires LookupsIgnore(e, symbols, arith, slots, names)
    ensures Msq.Ignores(ScaleOf(e, symbols, arith), slots, names)
  {
    hide Eval, Asked, TuneState.SameOutside, Msq.SamePc;
    var f := ScaleOf(e, symbols, arith);
    forall u, v | TuneState.SameOutside(u, v, slots) && Msq.SamePc(u, v, names) ensures f(u) == f(v) {
      OnlyAnswersMatter(e, symbols(u), symbols(v), arith);
    }
  }
}
