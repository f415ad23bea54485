/**
 The state objects of `Function_State.h`: while the grammar matches, the actions of `Function_Actions.h` and
 the nested states change them, and they hand their tree on when their rule succeeds. The parser of module
 Parser builds the same trees.
 */
module ParserStates {
  import opened Options
  import opened Expressions
  import opened Parser

  /** The operands of a chain of one connective, combined from the left. */
  function Chain(connective: (Expr, Expr) -> Expr, operands: seq<Expr>): Expr
    requires operands != []
  {
    if |operands| == 1 then operands[0]
    else connective(Chain(connective, operands[..|operands| - 1]), operands[|operands| - 1])
  }

  function MakeOr(l: Expr, r: Expr): Expr {
    Or(l, r)
  }

  function MakeAnd(l: Expr, r: Expr): Expr {
    And(l, r)
  }

  class OrState {
    var func: Option<Expr>

    constructor ()
      ensures func == None
    {
      func := None;
    }

    method AddFunc(f: Expr)
      modifies this
      ensures func == Some(if old(func) == None then f else Or(old(func).value, f))
    {
      func := match func
        case None => Some(f)
        case Some(g) => Some(Or(g, f));
    }
  }

  class AndState {
    var func: Option<Expr>

    constructor ()
      ensures func == None
    {
      func := None;
    }

    method AddFunc(f: Expr)
      modifies this
      ensures func == Some(if old(func) == None then f else And(old(func).value, f))
    {
      func := match func
        case None => Some(f)
        case Some(g) => Some(And(g, f));
    }
  }

  /** All operands of a list that `or_expression` matches, as the list of the parser accumulates them. */
  method Disjunction(operands: seq<Expr>) returns (e: Expr)
    requires operands != []
    ensures e == Chain(MakeOr, operands)
    ensures |operands| > 1 ==>
      Build("OR", [Chain(MakeOr, operands[..|operands| - 1]), operands[|operands| - 1]], (name, args) => true) == Some(e)
  {
    var state := new OrState();
    for i := 0 to |operands|
      invariant state.func == if i == 0 then None else Some(Chain(MakeOr, operands[..i]))
      invariant fresh(state)
    {
      state.AddFunc(operands[i]);
      assert operands[..i + 1][..i] == operands[..i];
    }
    assert operands[..|operands|] == operands;
    e := state.func.value;
  }

  method Conjunction(operands: seq<Expr>) returns (e: Expr)
    requires operands != []
    ensures e == Chain(MakeAnd, operands)
    ensures |operands| > 1 ==>
      Build("AND", [Chain(MakeAnd, operands[..|operands| - 1]), operands[|operands| - 1]], (name, args) => true) == Some(e)
  {
    var state := new AndState();
    for i := 0 to |operands|
      invariant state.func == if i == 0 then None else Some(Chain(MakeAnd, operands[..i]))
      invariant fresh(state)
    {
      state.AddFunc(operands[i]);
      assert operands[..i + 1][..i] == operands[..i];
    }
    assert operands[..|operands|] == operands;
    e := state.func.value;
  }

  /** `negated` is set by the action of "!", which is matched before the expression. */
  class BoolState {
    var func: Option<Expr>
    var negated: bool

    constructor ()
      ensures func == None && !negated
    {
      func, negated := None, false;
    }

    method GetFunc() returns (f: Expr)
      requires func.Some?
      ensures f == if negated then Not(func.value) else func.value
    {
      f := if negated then Not(func.value) else func.value;
    }
  }

  class CompareState {
    var func: Option<Expr>
    var less: bool
    var equal: bool
    var comparison: bool

    constructor ()
      ensures func == None && less && !equal && !comparison
    {
      func, less, equal, comparison := None, true, false, false;
    }

    /** The operator that the flags stand for. */
    function Operator(): Op
      reads this
    {
      if comparison then
        (if less then (if equal then LessEq else Less) else if equal then GreaterEq else Greater)
      else if equal then Equal else Unequal
    }

    method AddFunc(f: Expr)
      modifies `func
      ensures func == Some(if old(func) == None then f else Compare(Operator(), old(func).value, f))
    {
      if func == None {
        func := Some(f);
      } else if comparison {
        if less {
          func := Some(Compare(if equal then LessEq else Less, func.value, f));
        } else {
          func := Some(Compare(if equal then GreaterEq else Greater, func.value, f));
        }
      } else {
        func := Some(Compare(if equal then Equal else Unequal, func.value, f));
      }
    }

    /** The actions that fire, in this order, when the rule `compare` matches the symbol of an operator. */
    method ReadSymbol(op: Op)
      requires less && !equal && !comparison
      modifies `less, `equal, `comparison
      ensures Operator() == op
    {
      match op {
        case Greater =>
          less, comparison := false, true;
        case GreaterEq =>
          equal := true;
          less, comparison := false, true;
        case Less =>
          less, comparison := true, true;
        case LessEq =>
          equal := true;
          less, comparison := true, true;
        case Unequal =>
          equal := false;
        case Equal =>
          equal := true;
      }
    }
  }

  /** A comparison: the left operand, the symbol and the right operand in the order of the text. */
  method Comparison(op: Op, l: Expr, r: Expr) returns (e: Expr)
    ensures e == Compare(op, l, r) && Build(OpName(op), [l, r], (name, args) => true) == Some(e)
  {
    var state := new CompareState();
    state.AddFunc(l);
    state.ReadSymbol(op);
    state.AddFunc(r);
    e := state.func.value;
  }
}
