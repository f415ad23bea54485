/** Query expressions and the text `toString` prints for them. */
module Expressions {
  datatype Op = Less | LessEq | Greater | GreaterEq | Equal | Unequal

  /**
   The providers by the form in which they print. Signed and unsigned numbers are different providers;
   every function without a symbol of its own is a Call.
   */
  datatype Expr =
    | Int(value: int)
    | UInt(value: int)
    | Str(text: string)
    | Bool(truth: bool)
    | Null
    | Pointer(path: string, prefixed: bool)
    | Call(name: string, args: seq<Expr>)
    | And(lhs: Expr, rhs: Expr)
    | Or(lhs: Expr, rhs: Expr)
    | Not(sub: Expr)
    | Compare(op: Op, lhs: Expr, rhs: Expr)

  const INT64_MIN := -0x8000_0000_0000_0000
  const INT64_MAX := 0x7fff_ffff_ffff_ffff
  const UINT64_MAX := 0xffff_ffff_ffff_ffff

  function Symbol(op: Op): string {
    match op
    case Less => "<"
    case LessEq => "<="
    case Greater => ">"
    case GreaterEq => ">="
    case Equal => "=="
    case Unequal => "!="
  }

  function Digit(n: nat): char
    requires n < 10
  {
    "0123456789"[n]
  }

  function Decimal(n: nat): string {
    if n < 10 then [Digit(n)] else Decimal(n / 10) + [Digit(n % 10)]
  }

  function PrintInt(i: int): string {
    if i < 0 then "-" + Decimal(-i) else Decimal(i)
  }

  function Print(e: Expr): string {
    match e
    case Int(i) => PrintInt(i)
    case UInt(i) => PrintInt(i)
    case Str(s) => "\"" + s + "\""
    case Bool(b) => if b then "true" else "false"
    case Null => "NULL()"
    case Pointer(path, prefixed) => (if prefixed then "$'" else "'") + path + "'"
    case Call(name, args) => name + "(" + PrintArgs(args) + ")"
    case And(l, r) => "(" + Print(l) + " && " + Print(r) + ")"
    case Or(l, r) => "(" + Print(l) + " || " + Print(r) + ")"
    case Not(s) => "!" + Print(s)
    case Compare(op, l, r) => Print(l) + " " + Symbol(op) + " " + Print(r)
  }

  function PrintArgs(args: seq<Expr>): string {
    if args == [] then "" else Print(args[0]) + PrintMoreArgs(args[1..])
  }

  function PrintMoreArgs(args: seq<Expr>): string {
    if args == [] then "" else ", " + Print(args[0]) + PrintMoreArgs(args[1..])
  }
}
