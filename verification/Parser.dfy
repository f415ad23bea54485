/**
 The grammar of expressions in `Literals.h` with the tree building of `Function_State.h` and the actions of
 `Function_Actions.h`, as a recursive-descent parser on the text that is left. Alternatives are tried in
 order and not revisited.
 */
module Parser {
  import opened Options
  import opened Expressions

  /** NoMatch is a local failure, which makes room for the next alternative; Error is a parse error. */
  datatype Parse<T> = Ok(value: T, rest: string) | NoMatch | Error

  /** The checks of argument counts and types that the factory of a function makes. */
  type Fits = (string, seq<Expr>) -> bool

  // ---------------------------------------------------------------------------------------------
  // Characters
  // ---------------------------------------------------------------------------------------------

  predicate IsSpace(c: char) {
    c == ' ' || '\t' <= c <= '\r'
  }

  predicate IsDigit(c: char) {
    '0' <= c <= '9'
  }

  predicate IsIdent(c: char) {
    IsDigit(c) || 'a' <= c <= 'z' || 'A' <= c <= 'Z' || c == '_'
  }

  /** The length of the longest beginning of which all characters are in the class. */
  function Span(s: string, inClass: char -> bool): (n: nat)
    ensures n <= |s|
  {
    if s != "" && inClass(s[0]) then 1 + Span(s[1..], inClass) else 0
  }

  function Skip(s: string): (r: string)
    ensures |r| <= |s|
  {
    if s != "" && IsSpace(s[0]) then Skip(s[1..]) else s
  }

  predicate At(s: string, token: string) {
    |token| <= |s| && s[..|token|] == token
  }

  /** The keyword rule: the word, and no further identifier character. */
  predicate AtKeyword(s: string, word: string) {
    s[..Span(s, IsIdent)] == word
  }

  // ---------------------------------------------------------------------------------------------
  // Atoms
  // ---------------------------------------------------------------------------------------------

  function DigitValue(c: char): nat
    requires IsDigit(c)
  {
    c as int - '0' as int
  }

  predicate AllDigits(s: string) {
    forall i | 0 <= i < |s| :: IsDigit(s[i])
  }

  function Value(s: string): nat
    requires AllDigits(s)
  {
    if s == "" then 0 else Value(s[..|s| - 1]) * 10 + DigitValue(s[|s| - 1])
  }

  lemma {:induction false} SpanIsInClass(s: string, inClass: char -> bool)
    ensures forall i | 0 <= i < Span(s, inClass) :: inClass(s[i])
  {
    if s != "" && inClass(s[0]) {
      SpanIsInClass(s[1..], inClass);
      assert forall i | 0 < i < Span(s, inClass) :: s[i] == s[1..][i - 1];
    }
  }

  /**
   The number behind a sign and digits. What does not fit into a signed word becomes an unsigned one, for a
   negative number that of the wrapped-around value; numbers beyond that become doubles, which are not modelled.
   */
  function Number(negative: bool, magnitude: nat): Option<Expr> {
    var i := if negative then 0 - magnitude else magnitude as int;
    if INT64_MIN <= i <= INT64_MAX then Some(Int(i))
    else if magnitude <= UINT64_MAX then Some(UInt(if negative then UINT64_MAX + 1 - magnitude else magnitude))
    else None
  }

  function ParseNumber(s: string): (r: Parse<Expr>)
    ensures r.Ok? ==> |r.rest| < |s|
  {
    if s != "" && (s[0] == '+' || s[0] == '-') then ParseDigits(s[1..], s[0] == '-') else ParseDigits(s, false)
  }

  function ParseDigits(t: string, negative: bool): (r: Parse<Expr>)
    ensures r.Ok? ==> |r.rest| < |t|
  {
    var n := Span(t, IsDigit);
    SpanIsInClass(t, IsDigit);
    if n == 0 || (|t| > n + 1 && t[n] == '.' && IsDigit(t[n + 1])) then NoMatch
    else match Number(negative, Value(t[..n]))
      case Some(e) => Ok(e, t[n..])
      case None => NoMatch
  }

  /** The characters of a string up to a quote that is not escaped, or to a backslash that escapes nothing. */
  function StringSpan(s: string): (n: nat)
    ensures n <= |s|
  {
    if s == "" || s[0] == '"' then 0
    else if s[0] != '\\' then 1 + StringSpan(s[1..])
    else if |s| > 1 && (s[1] == '"' || s[1] == '\\') then 2 + StringSpan(s[2..])
    else 0
  }

  function Unescape(s: string): string {
    if s == "" then ""
    else if s[0] == '\\' && |s| > 1 then
      (if s[1] == '\\' || s[1] == '"' then [s[1]] else "") + Unescape(s[2..])
    else [s[0]] + Unescape(s[1..])
  }

  /** The loop of `unescape`. */
  method UnescapeText(s: string) returns (res: string)
    ensures res == Unescape(s)
  {
    res := "";
    var it := 0;
    while it < |s|
      invariant 0 <= it <= |s|
      invariant res + Unescape(s[it..]) == Unescape(s)
    {
      var c := s[it];
      it := it + 1;
      if c == '\\' && it < |s| {
        var escaped := s[it];
        it := it + 1;
        assert s[it - 2..][2..] == s[it..];
        if escaped != '\\' && escaped != '"' {
          continue;
        }
        c := escaped;
      } else {
        assert s[it - 1..][1..] == s[it..];
      }
      res := res + [c];
    }
  }

  function ParseString(s: string): (r: Parse<Expr>)
    ensures r.Ok? ==> |r.rest| < |s|
  {
    if s == "" || s[0] != '"' then NoMatch
    else
      var t := s[1..];
      var n := StringSpan(t);
      if n < |t| && t[n] == '"' then Ok(Str(Unescape(t[..n])), t[n + 1..]) else Error
  }

  function ParseBoolAtom(s: string): (r: Parse<Expr>)
    ensures r.Ok? ==> |r.rest| < |s|
  {
    if AtKeyword(s, "true") then Ok(Bool(true), s[4..])
    else if AtKeyword(s, "false") then Ok(Bool(false), s[5..])
    else NoMatch
  }

  function ParseNull(s: string): (r: Parse<Expr>)
    ensures r.Ok? ==> |r.rest| < |s|
  {
    if AtKeyword(s, "null") || AtKeyword(s, "NULL") then Ok(Null, s[4..]) else NoMatch
  }

  /** The tokens of a JSON pointer (RFC 6901, section 3) up to a character that cannot belong to it. */
  function PointerSpan(s: string, inToken: bool): (n: nat)
    ensures n <= |s|
  {
    if s == "" || s[0] == '\'' then 0
    else if s[0] == '/' then 1 + PointerSpan(s[1..], true)
    else if !inToken then 0
    else if s[0] != '~' then 1 + PointerSpan(s[1..], true)
    else if |s| > 1 && (s[1] == '0' || s[1] == '1') then 2 + PointerSpan(s[2..], true)
    else 0
  }

  function ParsePointerText(s: string): (r: Parse<string>)
    ensures r.Ok? ==> |r.rest| < |s|
  {
    if s == "" || s[0] != '\'' then NoMatch
    else
      var t := s[1..];
      var n := PointerSpan(t, false);
      if n < |t| && t[n] == '\'' then Ok(t[..n], t[n + 1..]) else Error
  }

  function ParsePointer(s: string): (r: Parse<Expr>)
    ensures r.Ok? ==> |r.rest| < |s|
  {
    if s != "" && s[0] == '$' then
      match ParsePointerText(s[1..])
      case Ok(path, rest) => Ok(Pointer(path, true), rest)
      case NoMatch => Ok(Pointer("", true), s[1..])
      case Error => Error
    else
      match ParsePointerText(s)
      case Ok(path, rest) => Ok(Pointer(path, false), rest)
      case NoMatch => NoMatch
      case Error => Error
  }

  function ParseAtom(s: string): (r: Parse<Expr>)
    ensures r.Ok? ==> |r.rest| < |s|
  {
    var number := ParseNumber(s);
    if !number.NoMatch? then number
    else
      var text := ParseString(s);
      if !text.NoMatch? then text
      else
        var truth := ParseBoolAtom(s);
        if !truth.NoMatch? then truth
        else
          var null_ := ParseNull(s);
          if !null_.NoMatch? then null_ else ParsePointer(s)
  }

  // ---------------------------------------------------------------------------------------------
  // Functions and operators
  // ---------------------------------------------------------------------------------------------

  /** The functions with a keyword of their own; operators have a symbol as well. */
  const OPERATORS: seq<string> :=
    ["NOT", "AND", "OR", "EQUAL", "UNEQUAL", "LESS", "LESSEQ", "GREATER", "GREATEREQ"]

  const TEST_FUNCTIONS: seq<string> :=
    ["EXISTS", "ISARRAY", "ISOBJECT", "ISNUMBER", "ISBOOL", "ISSTRING", "ISNULL", "IN", "SCONTAINS", "STARTSWITH"]

  const DOCUMENT_FUNCTIONS: seq<string> :=
    ["SIZE", "ID", "FILENAME", "FILEPOSSTART", "FILEPOSEND", "SEQNUM", "LISTATTRIBUTES", "TYPE", "MEMCOUNT", "HASH"]

  const REGEX_FUNCTIONS: seq<string> :=
    ["REGEX", "REGEX_EXTRACT_FIRST", "REGEX_EXTRACT", "REGEX_REPLACE", "INT", "FLOAT", "STRING"]

  const NUMBER_FUNCTIONS: seq<string> :=
    ["SUM", "SUB", "PROD", "MOD", "POW", "ATAN2", "ABS", "ROUND", "SQRT", "CEIL", "FLOOR", "DIV", "NOW"]

  const ANGLE_FUNCTIONS: seq<string> :=
    ["DEGREES", "RADIANS", "ACOS", "ASIN", "ATAN", "COS", "SIN", "TAN", "TRUNC", "PI"]

  const STRING_FUNCTIONS: seq<string> :=
    ["LEN", "UPPER", "LOWER", "LTRIM", "RTRIM", "FINDSTR", "SPLIT", "SUBSTR", "CONCAT"]

  const LOGIC_FUNCTIONS: seq<string> :=
    ["XOR", "IMPLICATION", "TRUTHY", "FALSY", "ANY", "ALL", "FILTER", "MAP"]

  predicate IsFunction(name: string) {
    || name in TEST_FUNCTIONS || name in DOCUMENT_FUNCTIONS || name in REGEX_FUNCTIONS || name in NUMBER_FUNCTIONS
    || name in ANGLE_FUNCTIONS || name in STRING_FUNCTIONS || name in LOGIC_FUNCTIONS
  }

  function OpName(op: Op): string {
    match op
    case Less => "LESS"
    case LessEq => "LESSEQ"
    case Greater => "GREATER"
    case GreaterEq => "GREATEREQ"
    case Equal => "EQUAL"
    case Unequal => "UNEQUAL"
  }

  /** What the factory of a function makes of its arguments. */
  function Build(name: string, args: seq<Expr>, fits: Fits): Option<Expr> {
    if !fits(name, args) then None
    else if name == "NOT" then (if |args| == 1 then Some(Not(args[0])) else None)
    else if name in OPERATORS then (if |args| == 2 then Some(Operation(name, args[0], args[1])) else None)
    else Some(Call(name, args))
  }

  function Operation(name: string, l: Expr, r: Expr): Expr {
    if name == "AND" then And(l, r)
    else if name == "OR" then Or(l, r)
    else if name == "EQUAL" then Compare(Equal, l, r)
    else if name == "UNEQUAL" then Compare(Unequal, l, r)
    else if name == "LESS" then Compare(Less, l, r)
    else if name == "LESSEQ" then Compare(LessEq, l, r)
    else if name == "GREATER" then Compare(Greater, l, r)
    else Compare(GreaterEq, l, r)
  }

  function Finish(built: Option<Expr>, rest: string): Parse<Expr> {
    match built
    case Some(e) => Ok(e, rest)
    case None => Error
  }

  /** `compare`: the operators of one or two characters, the longer ones first. */
  function ParseOp(s: string): (r: Parse<Op>)
    ensures r.Ok? ==> |r.rest| < |s|
  {
    if At(s, ">") then (if At(s, ">=") then Ok(GreaterEq, s[2..]) else Ok(Greater, s[1..]))
    else if At(s, "<") then (if At(s, "<=") then Ok(LessEq, s[2..]) else Ok(Less, s[1..]))
    else if At(s, "!=") then Ok(Unequal, s[2..])
    else if At(s, "==") then Ok(Equal, s[2..])
    else NoMatch
  }

  /** A list joined by "||", from the left. */
  function ParseOr(s: string, fits: Fits): (r: Parse<Expr>)
    ensures r.Ok? ==> |r.rest| < |s|
    decreases |s|, 6
  {
    match ParseAnd(s, fits)
    case Ok(e, rest) => OrTail(e, rest, fits)
    case NoMatch => NoMatch
    case Error => Error
  }

  function OrTail(acc: Expr, s: string, fits: Fits): (r: Parse<Expr>)
    ensures r.Ok? ==> |r.rest| <= |s|
    decreases |s|, 5
  {
    var t := Skip(s);
    if !At(t, "||") then Ok(acc, s)
    else
      match ParseAnd(Skip(t[2..]), fits)
      case Ok(e, rest) =>
        (match Build("OR", [acc, e], fits)
         case Some(or_) => OrTail(or_, rest, fits)
         case None => Error)
      case NoMatch => Error
      case Error => Error
  }

  /** A list joined by "&&", from the left. */
  function ParseAnd(s: string, fits: Fits): (r: Parse<Expr>)
    ensures r.Ok? ==> |r.rest| < |s|
    decreases |s|, 4
  {
    match ParseBool(s, fits)
    case Ok(e, rest) => AndTail(e, rest, fits)
    case NoMatch => NoMatch
    case Error => Error
  }

  function AndTail(acc: Expr, s: string, fits: Fits): (r: Parse<Expr>)
    ensures r.Ok? ==> |r.rest| <= |s|
    decreases |s|, 5
  {
    var t := Skip(s);
    if !At(t, "&&") then Ok(acc, s)
    else
      match ParseBool(Skip(t[2..]), fits)
      case Ok(e, rest) =>
        (match Build("AND", [acc, e], fits)
         case Some(and_) => AndTail(and_, rest, fits)
         case None => Error)
      case NoMatch => Error
      case Error => Error
  }

  /** One optional "!" in front of an expression in brackets or a comparison. */
  function ParseBool(s: string, fits: Fits): (r: Parse<Expr>)
    ensures r.Ok? ==> |r.rest| < |s|
    decreases |s|, 3
  {
    var t := Skip(s);
    if !At(t, "!") then ParsePrimary(t, fits)
    else
      match ParsePrimary(Skip(t[1..]), fits)
      case Ok(e, rest) => Finish(Build("NOT", [e], fits), rest)
      case NoMatch => NoMatch
      case Error => Error
  }

  function ParsePrimary(s: string, fits: Fits): (r: Parse<Expr>)
    ensures r.Ok? ==> |r.rest| < |s|
    decreases |s|, 2
  {
    var t := Skip(s);
    if !At(t, "(") then ParseCompare(s, fits)
    else
      match ParseOr(Skip(Skip(t[1..])), fits)
      case Ok(e, rest) => if At(Skip(rest), ")") then Ok(e, Skip(Skip(rest)[1..])) else Error
      case NoMatch => Error
      case Error => Error
  }

  function ParseCompare(s: string, fits: Fits): (r: Parse<Expr>)
    ensures r.Ok? ==> |r.rest| < |s|
    decreases |s|, 1
  {
    match ParseOperand(s, fits)
    case Ok(l, rest) =>
      (match ParseOp(Skip(rest))
       case Ok(op, rest') =>
         (match ParseOperand(Skip(rest'), fits)
          case Ok(r, rest'') => Finish(Build(OpName(op), [l, r], fits), rest'')
          case NoMatch => Error
          case Error => Error)
       case NoMatch => Ok(l, rest)
       case Error => Error)
    case NoMatch => NoMatch
    case Error => Error
  }

  /** An atom or a function call with the spaces around it. */
  function ParseOperand(s: string, fits: Fits): (r: Parse<Expr>)
    ensures r.Ok? ==> |r.rest| < |s|
    decreases |s|, 0
  {
    var t := Skip(s);
    match ParseAtom(t)
    case Ok(e, rest) => Ok(e, Skip(rest))
    case Error => Error
    case NoMatch =>
      var n := Span(t, IsIdent);
      var name := t[..n];
      if name !in OPERATORS && !IsFunction(name) then NoMatch
      else if !At(t[n..], "(") then Error
      else
        match ParseArgs(t[n..][1..], fits)
        case Ok(args, rest) =>
          if At(Skip(rest), ")") then Finish(Build(name, args, fits), Skip(Skip(Skip(rest)[1..]))) else Error
        case NoMatch => Error
        case Error => Error
  }

  /** An optional list of expressions; a parameter that is no expression ends it before its comma. */
  function ParseArgs(s: string, fits: Fits): (r: Parse<seq<Expr>>)
    ensures r.Ok? ==> |r.rest| <= |s|
    decreases |s|, 7
  {
    match ParseOr(s, fits)
    case Ok(e, rest) => MoreArgs([e], rest, fits)
    case NoMatch => Ok([], s)
    case Error => Error
  }

  function MoreArgs(acc: seq<Expr>, s: string, fits: Fits): (r: Parse<seq<Expr>>)
    ensures r.Ok? ==> |r.rest| <= |s|
    decreases |s|, 7
  {
    var t := Skip(s);
    if !At(t, ",") then Ok(acc, s)
    else
      match ParseOr(Skip(t[1..]), fits)
      case Ok(e, rest) => MoreArgs(acc + [e], rest, fits)
      case NoMatch => Ok(acc, s)
      case Error => Error
  }
}
