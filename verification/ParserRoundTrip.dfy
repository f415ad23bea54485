/**
 Parsing what an expression prints gives the expression back, so that different expressions print
 differently. The text of a predicate is the key of the query cache.
 */
module ParserRoundTrip {
  import opened Options
  import opened Expressions
  import opened Parser

  // ---------------------------------------------------------------------------------------------
  // The fragment
  // ---------------------------------------------------------------------------------------------

  predicate PlainText(s: string) {
    forall i | 0 <= i < |s| :: s[i] != '"' && s[i] != '\\'
  }

  /** A JSON pointer without quotes: "/" begins each token, "~" only stands before "0" and "1". */
  predicate PointerText(s: string) {
    && (s != "" ==> s[0] == '/')
    && forall i: nat {:trigger PointerChar(s, i)} | i < |s| :: PointerChar(s, i)
  }

  predicate PointerChar(s: string, i: nat)
    requires i < |s|
  {
    s[i] != '\'' && (s[i] == '~' ==> i + 1 < |s| && (s[i + 1] == '0' || s[i + 1] == '1'))
  }

  /** Atoms and calls can be operands of a comparison. */
  predicate IsOperand(e: Expr) {
    !e.And? && !e.Or? && !e.Not? && !e.Compare?
  }

  /**
   The expressions that survive printing: negations of no negation, comparisons of atoms and calls only,
   strings without quote and backslash, and no null.
   */
  predicate Printable(e: Expr, fits: Fits) {
    match e
    case Int(i) => INT64_MIN <= i <= INT64_MAX
    case UInt(i) => INT64_MAX < i <= UINT64_MAX
    case Str(s) => PlainText(s)
    case Bool(_) => true
    case Null => false
    case Pointer(path, _) => PointerText(path)
    case Call(name, args) => IsFunction(name) && fits(name, args) && AllPrintable(args, fits)
    case And(l, r) => fits("AND", [l, r]) && Printable(l, fits) && Printable(r, fits)
    case Or(l, r) => fits("OR", [l, r]) && Printable(l, fits) && Printable(r, fits)
    case Not(s) => fits("NOT", [s]) && !s.Not? && Printable(s, fits)
    case Compare(op, l, r) =>
      fits(OpName(op), [l, r]) && IsOperand(l) && IsOperand(r) && Printable(l, fits) && Printable(r, fits)
  }

  predicate AllPrintable(args: seq<Expr>, fits: Fits) {
    args == [] || (Printable(args[0], fits) && AllPrintable(args[1..], fits))
  }

  function Size(e: Expr): (n: nat)
    ensures n > 0
  {
    match e
    case Call(_, args) => 1 + SizeAll(args)
    case And(l, r) => 1 + Size(l) + Size(r)
    case Or(l, r) => 1 + Size(l) + Size(r)
    case Not(s) => 1 + Size(s)
    case Compare(_, l, r) => 1 + Size(l) + Size(r)
    case _ => 1
  }

  function SizeAll(args: seq<Expr>): nat {
    if args == [] then 0 else Size(args[0]) + SizeAll(args[1..])
  }

  // ---------------------------------------------------------------------------------------------
  // Characters
  // ---------------------------------------------------------------------------------------------

  lemma {:induction false} SpanStops(a: string, k: string, inClass: char -> bool)
    requires (forall i | 0 <= i < |a| :: inClass(a[i])) && (k == "" || !inClass(k[0]))
    ensures Span(a + k, inClass) == |a| && (a + k)[..|a|] == a && (a + k)[|a|..] == k
  {
    if a == "" {
      assert a + k == k;
    } else {
      assert (a + k)[1..] == a[1..] + k;
      SpanStops(a[1..], k, inClass);
    }
  }

  lemma SkipNothing(s: string)
    requires s == "" || !IsSpace(s[0])
    ensures Skip(s) == s
  {
  }

  lemma SkipOne(s: string)
    requires s == "" || !IsSpace(s[0])
    ensures Skip(" " + s) == s
  {
    assert (" " + s)[1..] == s;
  }

  lemma {:induction false} SkipTwice(s: string)
    ensures Skip(Skip(s)) == Skip(s) && (Skip(s) != "" ==> !IsSpace(Skip(s)[0]))
  {
    if s != "" && IsSpace(s[0]) {
      SkipTwice(s[1..]);
    }
  }

  /** What may follow an operand. */
  predicate Ends(k: string) {
    k == "" || k[0] == ' ' || k[0] == ',' || k[0] == ')'
  }

  /** What may follow an expression within brackets or at the end, the other operand of a connective included. */
  predicate Bounds(k: string) {
    Ends(k) && (Skip(k) == "" || Skip(k)[0] in {',', ')', '&', '|'})
  }

  /** What may follow a whole expression. */
  predicate Closes(k: string) {
    Ends(k) && (Skip(k) == "" || Skip(k)[0] == ',' || Skip(k)[0] == ')')
  }

  // ---------------------------------------------------------------------------------------------
  // Numbers
  // ---------------------------------------------------------------------------------------------

  lemma {:induction false} DecimalDigits(n: nat)
    ensures Decimal(n) != "" && AllDigits(Decimal(n)) && Value(Decimal(n)) == n
  {
    if n >= 10 {
      DecimalDigits(n / 10);
      var d := Decimal(n / 10);
      assert Decimal(n) == d + [Digit(n % 10)];
      assert (d + [Digit(n % 10)])[..|d|] == d;
    } else {
      assert Decimal(n)[..0] == "";
    }
  }

  lemma DigitsRoundTrip(m: nat, k: string)
    requires Ends(k)
    ensures var d := Decimal(m);
            && d != "" && IsDigit(d[0]) && AllDigits(d) && Value(d) == m
            && Span(d + k, IsDigit) == |d| && (d + k)[..|d|] == d && (d + k)[|d|..] == k
  {
    DecimalDigits(m);
    SpanStops(Decimal(m), k, IsDigit);
  }

  lemma NumberIs(i: int)
    requires INT64_MIN <= i <= UINT64_MAX
    ensures Number(i < 0, if i < 0 then -i else i) == Some(if i <= INT64_MAX then Int(i) else UInt(i))
  {
  }

  lemma UnsignedRoundTrip(m: nat, k: string, negative: bool)
    requires Ends(k) && Number(negative, m).Some?
    ensures ParseDigits(Decimal(m) + k, negative) == Ok(Number(negative, m).value, k)
  {
    DigitsRoundTrip(m, k);
    var n := |Decimal(m)|;
    assert |Decimal(m) + k| > n ==> (Decimal(m) + k)[n] == k[0];
  }

  lemma NumberRoundTrip(i: int, k: string)
    requires INT64_MIN <= i <= UINT64_MAX && Ends(k)
    ensures ParseNumber(PrintInt(i) + k) == Ok(if i <= INT64_MAX then Int(i) else UInt(i), k)
  {
    var m: nat := if i < 0 then -i else i;
    NumberIs(i);
    UnsignedRoundTrip(m, k, i < 0);
    DecimalDigits(m);
    NumberText(i < 0, Decimal(m), k);
  }

  /** A minus before the digits is taken away; without one the digits are parsed as they are. */
  lemma NumberText(negative: bool, digits: string, k: string)
    requires digits != "" && IsDigit(digits[0])
    ensures ParseNumber((if negative then "-" + digits else digits) + k) == ParseDigits(digits + k, negative)
  {
    if negative {
      assert ("-" + digits + k)[1..] == digits + k;
    }
  }

  // ---------------------------------------------------------------------------------------------
  // Strings and pointers
  // ---------------------------------------------------------------------------------------------

  lemma {:induction false} PlainSpan(s: string, k: string)
    requires PlainText(s)
    ensures StringSpan(s + "\"" + k) == |s| && Unescape(s) == s
  {
    if s == "" {
      assert s + "\"" + k == "\"" + k;
    } else {
      assert (s + "\"" + k)[1..] == s[1..] + "\"" + k;
      PlainSpan(s[1..], k);
      assert s == [s[0]] + s[1..];
    }
  }

  lemma StringRoundTrip(s: string, k: string)
    requires PlainText(s)
    ensures ParseString(Print(Str(s)) + k) == Ok(Str(s), k)
  {
    PlainSpan(s, k);
    QuotedText(s, k);
  }

  lemma QuotedText(s: string, k: string)
    requires StringSpan(s + "\"" + k) == |s|
    ensures ParseString("\"" + s + "\"" + k) == Ok(Str(Unescape(s)), k)
  {
    var t := s + "\"" + k;
    assert ("\"" + s + "\"" + k)[1..] == t;
    assert t[..|s|] == s && t[|s| + 1..] == k && t[|s|] == '"';
  }

  lemma {:induction false} UnescapeShortens(s: string)
    ensures |Unescape(s)| <= |s| && (Unescape(s) == s && StringSpan(s) == |s| ==> PlainText(s))
  {
    if s == "" {
    } else if s[0] == '\\' && |s| > 1 {
      UnescapeShortens(s[2..]);
    } else {
      UnescapeShortens(s[1..]);
      if Unescape(s) == s {
        assert Unescape(s)[1..] == Unescape(s[1..]);
        assert s == [s[0]] + s[1..];
      }
    }
  }

  lemma {:induction false} SpanOfBeginning(s: string, k: string)
    requires StringSpan(s + "\"" + k) == |s|
    ensures StringSpan(s) == |s|
  {
    var t := s + "\"" + k;
    if s != "" {
      if s[0] != '\\' {
        assert t[1..] == s[1..] + "\"" + k;
        SpanOfBeginning(s[1..], k);
      } else if |s| > 1 {
        assert t[2..] == s[2..] + "\"" + k;
        SpanOfBeginning(s[2..], k);
      }
    }
  }

  /** A string atom is read back as itself if and only if it has neither quotes nor backslashes. */
  lemma StringReadBack(s: string)
    ensures ParseString(Print(Str(s))) == Ok(Str(s), "") <==> PlainText(s)
  {
    var t := s + "\"";
    assert Print(Str(s))[1..] == t && t == s + "\"" + "";
    if PlainText(s) {
      StringRoundTrip(s, "");
      assert Print(Str(s)) + "" == Print(Str(s));
    } else if ParseString(Print(Str(s))) == Ok(Str(s), "") {
      var n := StringSpan(t);
      assert n == |s| && t[..n] == s;
      SpanOfBeginning(s, "");
      UnescapeShortens(s);
    }
  }

  lemma {:induction false} PointerSpanIs(s: string, i: nat, k: string)
    requires PointerText(s) && i <= |s| && (i > 0 ==> s[i - 1] != '~')
    ensures PointerSpan(s[i..] + "'" + k, i > 0) == |s| - i
    decreases |s| - i
  {
    var t := s[i..] + "'" + k;
    assert i < |s| ==> PointerChar(s, i);
    if i == |s| {
      assert t == "'" + k;
    } else if s[i] != '~' {
      assert t[1..] == s[i + 1..] + "'" + k;
      PointerSpanIs(s, i + 1, k);
    } else {
      assert t[1] == s[i + 1];
      assert t[2..] == s[i + 2..] + "'" + k;
      PointerSpanIs(s, i + 2, k);
    }
  }

  lemma PointerTextRoundTrip(path: string, k: string)
    requires PointerText(path)
    ensures ParsePointerText("'" + (path + "'" + k)) == Ok(path, k)
  {
    var t := path + "'" + k;
    assert path[0..] == path;
    PointerSpanIs(path, 0, k);
    assert t[..|path|] == path && t[|path| + 1..] == k;
    assert ("'" + t)[1..] == t;
  }

  lemma PointerRoundTrip(path: string, prefixed: bool, k: string)
    requires PointerText(path)
    ensures ParsePointer(Print(Pointer(path, prefixed)) + k) == Ok(Pointer(path, prefixed), k)
  {
    PointerTextRoundTrip(path, k);
    var text := "'" + (path + "'" + k);
    var s := Print(Pointer(path, prefixed)) + k;
    if prefixed {
      assert s[1..] == text;
    } else {
      assert s == text;
    }
  }

  // ---------------------------------------------------------------------------------------------
  // Names
  // ---------------------------------------------------------------------------------------------

  predicate IsName(name: string) {
    name != "" && 'A' <= name[0] <= 'Z' && (forall i | 0 <= i < |name| :: IsIdent(name[i])) && name != "NULL"
  }

  lemma TestFunctionsAreNames(name: string)
    requires name in TEST_FUNCTIONS
    ensures IsName(name) && name !in OPERATORS
  {
  }

  lemma DocumentFunctionsAreNames(name: string)
    requires name in DOCUMENT_FUNCTIONS
    ensures IsName(name) && name !in OPERATORS
  {
  }

  lemma RegexFunctionsAreNames(name: string)
    requires name in REGEX_FUNCTIONS
    ensures IsName(name) && name !in OPERATORS
  {
  }

  lemma NumberFunctionsAreNames(name: string)
    requires name in NUMBER_FUNCTIONS
    ensures IsName(name) && name !in OPERATORS
  {
  }

  lemma AngleFunctionsAreNames(name: string)
    requires name in ANGLE_FUNCTIONS
    ensures IsName(name) && name !in OPERATORS
  {
  }

  lemma StringFunctionsAreNames(name: string)
    requires name in STRING_FUNCTIONS
    ensures IsName(name) && name !in OPERATORS
  {
  }

  lemma LogicFunctionsAreNames(name: string)
    requires name in LOGIC_FUNCTIONS
    ensures IsName(name) && name !in OPERATORS
  {
  }

  lemma FunctionIsName(name: string)
    requires IsFunction(name)
    ensures IsName(name) && name !in OPERATORS
  {
    if name in TEST_FUNCTIONS { TestFunctionsAreNames(name); }
    if name in DOCUMENT_FUNCTIONS { DocumentFunctionsAreNames(name); }
    if name in REGEX_FUNCTIONS { RegexFunctionsAreNames(name); }
    if name in NUMBER_FUNCTIONS { NumberFunctionsAreNames(name); }
    if name in ANGLE_FUNCTIONS { AngleFunctionsAreNames(name); }
    if name in STRING_FUNCTIONS { StringFunctionsAreNames(name); }
    if name in LOGIC_FUNCTIONS { LogicFunctionsAreNames(name); }
  }

  /** The first character tells the kind of an expression, and is no space. */
  lemma {:induction false} FirstChar(e: Expr, fits: Fits)
    requires Printable(e, fits)
    ensures var s := Print(e); s != "" && !IsSpace(s[0]) && (s[0] == '!' <==> e.Not?)
    ensures Print(e)[0] == '(' <==> e.And? || e.Or?
  {
    match e
    case Int(i) => FirstOfInt(i);
    case UInt(i) => FirstOfInt(i);
    case Call(name, args) => FunctionIsName(name);
    case Compare(_, l, r) => FirstChar(l, fits);
    case _ =>
  }

  lemma FirstOfInt(i: int)
    ensures PrintInt(i) != "" && (PrintInt(i)[0] == '-' || IsDigit(PrintInt(i)[0]))
  {
    DecimalDigits(if i < 0 then -i else i);
  }

  lemma SkipPrinted(e: Expr, k: string, fits: Fits)
    requires Printable(e, fits)
    ensures Skip(Print(e) + k) == Print(e) + k && Skip(" " + (Print(e) + k)) == Print(e) + k
  {
    FirstChar(e, fits);
    SkipNothing(Print(e) + k);
    SkipOne(Print(e) + k);
  }

  // ---------------------------------------------------------------------------------------------
  // Operands
  // ---------------------------------------------------------------------------------------------

  /** The rest of the text after an atom. */
  lemma AtomRoundTrip(e: Expr, k: string, fits: Fits)
    requires Printable(e, fits) && IsOperand(e) && !e.Call? && Ends(k)
    ensures ParseAtom(Print(e) + k) == Ok(e, k)
  {
    var s := Print(e) + k;
    match e
    case Int(i) => NumberRoundTrip(i, k);
    case UInt(i) => NumberRoundTrip(i, k);
    case Str(text) => StringRoundTrip(text, k); NotNumber(s);
    case Bool(b) => KeywordRoundTrip(b, k);
    case Pointer(path, prefixed) =>
      PointerRoundTrip(path, prefixed, k);
      NotNumber(s);
      NoKeyword(s);
  }

  lemma NotNumber(s: string)
    requires s != "" && !IsDigit(s[0]) && s[0] != '+' && s[0] != '-'
    ensures ParseNumber(s) == NoMatch
  {
  }

  lemma NoKeyword(s: string)
    requires s == "" || !IsIdent(s[0])
    ensures ParseBoolAtom(s) == NoMatch && ParseNull(s) == NoMatch
  {
    assert s[..Span(s, IsIdent)] == "";
  }

  lemma KeywordRoundTrip(b: bool, k: string)
    requires Ends(k)
    ensures ParseAtom(Print(Bool(b)) + k) == Ok(Bool(b), k)
  {
    var word := Print(Bool(b));
    var s := word + k;
    assert forall i | 0 <= i < |word| :: IsIdent(word[i]);
    SpanStops(word, k, IsIdent);
    NotNumber(s);
    assert AtKeyword(s, "true") <==> b;
  }

  /** A name with a bracket behind it is no atom. */
  lemma NameIsNoAtom(name: string, k: string)
    requires IsName(name) && k != "" && !IsIdent(k[0])
    ensures ParseAtom(name + k) == NoMatch
    ensures Span(name + k, IsIdent) == |name| && (name + k)[..|name|] == name && (name + k)[|name|..] == k
  {
    SpanStops(name, k, IsIdent);
    NotNumber(name + k);
    assert name != "true" && name != "false" && name != "null";
  }

  /** Brackets around nothing: there is no expression in front of a closing bracket. */
  lemma NothingBeforeBracket(k: string, fits: Fits)
    ensures ParseOr(")" + k, fits) == NoMatch
  {
    var s := ")" + k;
    SkipNothing(s);
    NotNumber(s);
    NoKeyword(s);
    assert ParseAtom(s) == NoMatch;
    assert s[..Span(s, IsIdent)] == "";
    assert ParseOperand(s, fits) == NoMatch;
    assert ParseCompare(s, fits) == NoMatch;
    assert ParsePrimary(s, fits) == NoMatch;
    assert ParseBool(s, fits) == NoMatch;
    assert ParseAnd(s, fits) == NoMatch;
  }

  // ---------------------------------------------------------------------------------------------
  // Expressions
  // ---------------------------------------------------------------------------------------------

  /** The text behind an operand is passed over up to its first character that is no space. */
  lemma EndsSkip(k: string)
    requires Ends(k)
    ensures Skip(Skip(k)) == Skip(k) && (Skip(k) != "" ==> !IsSpace(Skip(k)[0]))
  {
    SkipTwice(k);
  }

  lemma {:induction false} OperandRoundTrip(e: Expr, k: string, fits: Fits)
    requires Printable(e, fits) && IsOperand(e) && Ends(k)
    ensures ParseOperand(Print(e) + k, fits) == Ok(e, Skip(k))
    decreases Size(e), 0
  {
    SkipPrinted(e, k, fits);
    if e.Call? {
      CallRoundTrip(e.name, e.args, k, fits);
    } else {
      AtomRoundTrip(e, k, fits);
    }
  }

  /** A call, given what its argument list reads as. */
  lemma Called(name: string, inner: string, args: seq<Expr>, k: string, fits: Fits)
    requires IsFunction(name) && fits(name, args) && ParseArgs(inner, fits) == Ok(args, ")" + k)
    ensures ParseOperand(name + ("(" + inner), fits) == Ok(Call(name, args), Skip(k))
  {
    var s := name + ("(" + inner);
    FunctionIsName(name);
    SkipNothing(s);
    NameIsNoAtom(name, "(" + inner);
    assert ("(" + inner)[1..] == inner;
    SkipNothing(")" + k);
    assert (")" + k)[1..] == k;
    SkipTwice(k);
  }

  lemma CallText(name: string, args: string, k: string)
    ensures name + "(" + args + ")" + k == name + ("(" + (args + (")" + k)))
  {
  }

  lemma {:induction false} CallRoundTrip(name: string, args: seq<Expr>, k: string, fits: Fits)
    requires Printable(Call(name, args), fits)
    ensures ParseOperand(Print(Call(name, args)) + k, fits) == Ok(Call(name, args), Skip(k))
    decreases SizeAll(args), 6
  {
    CallText(name, PrintArgs(args), k);
    ArgsRoundTrip(args, k, fits);
    Called(name, PrintArgs(args) + (")" + k), args, k, fits);
  }

  lemma {:induction false} ArgsRoundTrip(args: seq<Expr>, k: string, fits: Fits)
    requires AllPrintable(args, fits)
    ensures ParseArgs(PrintArgs(args) + (")" + k), fits) == Ok(args, ")" + k)
    decreases SizeAll(args), 5
  {
    if args == [] {
      NothingBeforeBracket(k, fits);
      assert PrintArgs(args) + (")" + k) == ")" + k;
    } else {
      var rest := PrintMoreArgs(args[1..]) + (")" + k);
      assert PrintArgs(args) + (")" + k) == Print(args[0]) + rest;
      MoreArgsClose(args[1..], k);
      OrRoundTrip(args[0], rest, fits);
      MoreArgsRoundTrip([args[0]], args[1..], k, fits);
      assert [args[0]] + args[1..] == args;
    }
  }

  lemma MoreText(first: string, more: string, end: string)
    ensures ", " + first + more + end == "," + (" " + (first + (more + end)))
  {
  }

  lemma MoreArgsText(args: seq<Expr>, k: string)
    ensures var rest := PrintMoreArgs(args) + (")" + k);
            && (args != [] ==> rest == "," + (" " + (Print(args[0]) + (PrintMoreArgs(args[1..]) + (")" + k)))))
            && (args == [] ==> rest == ")" + k)
  {
    if args != [] {
      MoreText(Print(args[0]), PrintMoreArgs(args[1..]), ")" + k);
    }
  }

  lemma MoreArgsClose(args: seq<Expr>, k: string)
    ensures var rest := PrintMoreArgs(args) + (")" + k);
            Closes(rest) && Skip(rest) == rest && Skip(Skip(rest)) == rest
  {
    MoreArgsText(args, k);
    SkipNothing(PrintMoreArgs(args) + (")" + k));
  }

  lemma {:induction false} MoreArgsRoundTrip(acc: seq<Expr>, args: seq<Expr>, k: string, fits: Fits)
    requires AllPrintable(args, fits)
    ensures MoreArgs(acc, PrintMoreArgs(args) + (")" + k), fits) == Ok(acc + args, ")" + k)
    decreases SizeAll(args), 5
  {
    AppendOne(acc, args);
    if args == [] {
      MoreArgsText(args, k);
      NoMoreArgs(acc, k, fits);
    } else {
      var e, more := args[0], args[1..];
      MoreArgsClose(more, k);
      OrRoundTrip(e, PrintMoreArgs(more) + (")" + k), fits);
      NextArg(acc, args, k, fits);
      MoreArgsRoundTrip(acc + [e], more, k, fits);
    }
  }

  lemma AppendOne(acc: seq<Expr>, args: seq<Expr>)
    ensures args == [] ==> acc + args == acc
    ensures args != [] ==> acc + [args[0]] + args[1..] == acc + args
  {
  }

  lemma NextArg(acc: seq<Expr>, args: seq<Expr>, k: string, fits: Fits)
    requires args != [] && Printable(args[0], fits)
    requires var rest := PrintMoreArgs(args[1..]) + (")" + k); ParseOr(Print(args[0]) + rest, fits) == Ok(args[0], rest)
    ensures MoreArgs(acc, PrintMoreArgs(args) + (")" + k), fits) ==
            MoreArgs(acc + [args[0]], PrintMoreArgs(args[1..]) + (")" + k), fits)
  {
    var rest := PrintMoreArgs(args[1..]) + (")" + k);
    MoreArgsText(args, k);
    SkipPrinted(args[0], rest, fits);
    OneMoreArg(acc, args[0], Print(args[0]) + rest, rest, fits);
  }

  lemma NoMoreArgs(acc: seq<Expr>, k: string, fits: Fits)
    ensures MoreArgs(acc, ")" + k, fits) == Ok(acc, ")" + k)
  {
    SkipNothing(")" + k);
  }

  lemma OneMoreArg(acc: seq<Expr>, e: Expr, s: string, rest: string, fits: Fits)
    requires Skip(" " + s) == s && ParseOr(s, fits) == Ok(e, rest)
    ensures MoreArgs(acc, "," + (" " + s), fits) == MoreArgs(acc + [e], rest, fits)
  {
    var t := "," + (" " + s);
    SkipNothing(t);
    assert t[1..] == " " + s;
  }

  lemma CompareText(l: string, symbol: string, r: string, k: string)
    ensures l + " " + symbol + " " + r + k == l + (" " + (symbol + (" " + (r + k))))
  {
  }

  lemma {:induction false} ComparisonRoundTrip(op: Op, l: Expr, r: Expr, k: string, fits: Fits)
    requires Printable(Compare(op, l, r), fits) && Bounds(k)
    ensures ParseCompare(Print(Compare(op, l, r)) + k, fits) == Ok(Compare(op, l, r), Skip(k))
    decreases Size(l) + Size(r), 1
  {
    var right := Print(r) + k;
    var middle := Symbol(op) + (" " + right);
    CompareText(Print(l), Symbol(op), Print(r), k);
    OperandRoundTrip(l, " " + middle, fits);
    SymbolSkip(op, " " + right);
    OpRoundTrip(op, right);
    SkipPrinted(r, k, fits);
    OperandRoundTrip(r, k, fits);
    Compared(Print(l) + (" " + middle), l, middle, op, right, r, Skip(k), fits);
  }

  lemma SymbolSkip(op: Op, right: string)
    ensures var s := Symbol(op) + right; Skip(" " + s) == s && Skip(s) == s
  {
    SkipOne(Symbol(op) + right);
    SkipNothing(Symbol(op) + right);
  }

  lemma {:induction false} CompareRoundTrip(e: Expr, k: string, fits: Fits)
    requires Printable(e, fits) && (IsOperand(e) || e.Compare?) && Bounds(k)
    ensures ParseCompare(Print(e) + k, fits) == Ok(e, Skip(k))
    decreases Size(e), 1
  {
    if e.Compare? {
      ComparisonRoundTrip(e.op, e.lhs, e.rhs, k, fits);
    } else {
      EndsSkip(k);
      OperandRoundTrip(e, k, fits);
      NoOperator(Skip(k));
    }
  }

  lemma NoOperator(s: string)
    requires s == "" || s[0] in {',', ')', '&', '|'}
    ensures ParseOp(s) == NoMatch
  {
  }

  /** Two operands and an operator between them. */
  lemma Compared(s: string, l: Expr, middle: string, op: Op, right: string, r: Expr, rest: string, fits: Fits)
    requires ParseOperand(s, fits) == Ok(l, middle) && Skip(middle) == middle
    requires ParseOp(middle) == Ok(op, " " + right) && Skip(" " + right) == right
    requires ParseOperand(right, fits) == Ok(r, rest) && fits(OpName(op), [l, r])
    ensures ParseCompare(s, fits) == Ok(Compare(op, l, r), rest)
  {
  }

  lemma OpRoundTrip(op: Op, right: string)
    ensures ParseOp(Symbol(op) + (" " + right)) == Ok(op, " " + right)
  {
    var s := Symbol(op) + (" " + right);
    assert s[|Symbol(op)|..] == " " + right;
    assert s[..1] == [s[0]] && s[..2] == [s[0], s[1]];
  }

  lemma BracketText(l: string, symbol: string, r: string, k: string)
    ensures "(" + l + symbol + r + ")" + k == "(" + (l + (symbol + (r + (")" + k))))
  {
  }

  /** An expression in brackets. */
  lemma Bracketed(inner: string, e: Expr, k: string, fits: Fits)
    requires Skip(inner) == inner && ParseOr(inner, fits) == Ok(e, ")" + k)
    ensures ParsePrimary("(" + inner, fits) == Ok(e, Skip(k))
  {
    SkipNothing("(" + inner);
    SkipNothing(")" + k);
    assert ("(" + inner)[1..] == inner && (")" + k)[1..] == k;
  }

  lemma {:induction false} PrimaryRoundTrip(e: Expr, k: string, fits: Fits)
    requires Printable(e, fits) && !e.Not? && Bounds(k)
    ensures ParsePrimary(Print(e) + k, fits) == Ok(e, Skip(k))
    decreases Size(e), 2
  {
    if e.And? {
      BracketsRoundTrip(e.lhs, " && ", e.rhs, k, e, fits);
    } else if e.Or? {
      BracketsRoundTrip(e.lhs, " || ", e.rhs, k, e, fits);
    } else {
      CompareRoundTrip(e, k, fits);
      NoBracket(e, k, fits);
    }
  }

  lemma NoBracket(e: Expr, k: string, fits: Fits)
    requires Printable(e, fits) && !e.And? && !e.Or?
    ensures ParsePrimary(Print(e) + k, fits) == ParseCompare(Print(e) + k, fits)
  {
    FirstChar(e, fits);
    PrimaryIsCompare(Print(e) + k, fits);
  }

  lemma PrimaryIsCompare(s: string, fits: Fits)
    requires s != "" && !IsSpace(s[0]) && s[0] != '('
    ensures ParsePrimary(s, fits) == ParseCompare(s, fits)
  {
    NoBracketAhead(s);
  }

  lemma NoBracketAhead(s: string)
    requires s != "" && !IsSpace(s[0]) && s[0] != '('
    ensures !At(Skip(s), "(")
  {
    SkipNothing(s);
  }

  lemma {:induction false} BracketsRoundTrip(l: Expr, symbol: string, r: Expr, k: string, e: Expr, fits: Fits)
    requires Printable(e, fits) && ((e == And(l, r) && symbol == " && ") || (e == Or(l, r) && symbol == " || "))
    ensures ParsePrimary("(" + Print(l) + symbol + Print(r) + ")" + k, fits) == Ok(e, Skip(k))
    decreases Size(l) + Size(r), 6
  {
    BracketText(Print(l), symbol, Print(r), k);
    var inner := Print(l) + (symbol + (Print(r) + (")" + k)));
    SkipPrinted(l, symbol + (Print(r) + (")" + k)), fits);
    if e.And? { ConjunctionRoundTrip(l, r, k, fits); } else { DisjunctionRoundTrip(l, r, k, fits); }
    Bracketed(inner, e, k, fits);
  }

  lemma BracketBounds(k: string)
    ensures Bounds(")" + k) && Skip(")" + k) == ")" + k
  {
  }

  lemma ConnectiveBounds(symbol: string, right: string)
    requires symbol == "&&" || symbol == "||"
    ensures var s := " " + (symbol + (" " + right));
            && Bounds(s) && Skip(s) == symbol + (" " + right) && Skip(Skip(s)) == Skip(s)
            && At(Skip(s), symbol) && Skip(s)[2..] == " " + right
  {
    var t := symbol + (" " + right);
    SkipOne(t);
    SkipNothing(t);
    assert t[..2] == symbol && t[2..] == " " + right;
  }

  /** Two expressions joined by "&&", with a closing bracket behind them. */
  lemma Conjoined(s: string, l: Expr, right: string, r: Expr, k: string, fits: Fits)
    requires ParseBool(s, fits) == Ok(l, "&&" + (" " + right)) && Skip(" " + right) == right
    requires ParseBool(right, fits) == Ok(r, ")" + k) && fits("AND", [l, r])
    ensures ParseOr(s, fits) == Ok(And(l, r), ")" + k)
  {
    AndConjoined(s, l, right, r, k, fits);
    assert OrTail(And(l, r), ")" + k, fits) == Ok(And(l, r), ")" + k);
  }

  lemma AndConjoined(s: string, l: Expr, right: string, r: Expr, k: string, fits: Fits)
    requires ParseBool(s, fits) == Ok(l, "&&" + (" " + right)) && Skip(" " + right) == right
    requires ParseBool(right, fits) == Ok(r, ")" + k) && fits("AND", [l, r])
    ensures ParseAnd(s, fits) == Ok(And(l, r), ")" + k)
  {
    var t := "&&" + (" " + right);
    SkipNothing(t);
    assert t[..2] == "&&" && t[2..] == " " + right;
    assert AndTail(And(l, r), ")" + k, fits) == Ok(And(l, r), ")" + k);
    assert AndTail(l, t, fits) == Ok(And(l, r), ")" + k);
  }

  lemma {:induction false} ConjunctionRoundTrip(l: Expr, r: Expr, k: string, fits: Fits)
    requires Printable(And(l, r), fits)
    ensures ParseOr(Print(l) + (" && " + (Print(r) + (")" + k))), fits) == Ok(And(l, r), ")" + k)
    decreases Size(l) + Size(r), 5
  {
    var right := Print(r) + (")" + k);
    assert " && " + right == " " + ("&&" + (" " + right));
    ConnectiveBounds("&&", right);
    BoolRoundTrip(l, " && " + right, fits);
    SkipPrinted(r, ")" + k, fits);
    BracketBounds(k);
    BoolRoundTrip(r, ")" + k, fits);
    Conjoined(Print(l) + (" && " + right), l, right, r, k, fits);
  }

  /** Two expressions joined by "||", with a closing bracket behind them. */
  lemma Disjoined(s: string, l: Expr, right: string, r: Expr, k: string, fits: Fits)
    requires ParseBool(s, fits) == Ok(l, "||" + (" " + right)) && Skip(" " + right) == right
    requires ParseBool(right, fits) == Ok(r, ")" + k) && fits("OR", [l, r])
    ensures ParseOr(s, fits) == Ok(Or(l, r), ")" + k)
  {
    var t := "||" + (" " + right);
    SkipNothing(t);
    assert t[..2] == "||" && t[2..] == " " + right;
    assert AndTail(l, t, fits) == Ok(l, t);
    assert AndTail(r, ")" + k, fits) == Ok(r, ")" + k);
    assert ParseAnd(right, fits) == Ok(r, ")" + k);
    assert OrTail(Or(l, r), ")" + k, fits) == Ok(Or(l, r), ")" + k);
  }

  lemma {:induction false} DisjunctionRoundTrip(l: Expr, r: Expr, k: string, fits: Fits)
    requires Printable(Or(l, r), fits)
    ensures ParseOr(Print(l) + (" || " + (Print(r) + (")" + k))), fits) == Ok(Or(l, r), ")" + k)
    decreases Size(l) + Size(r), 5
  {
    var right := Print(r) + (")" + k);
    assert " || " + right == " " + ("||" + (" " + right));
    ConnectiveBounds("||", right);
    BoolRoundTrip(l, " || " + right, fits);
    SkipPrinted(r, ")" + k, fits);
    BracketBounds(k);
    BoolRoundTrip(r, ")" + k, fits);
    Disjoined(Print(l) + (" || " + right), l, right, r, k, fits);
  }

  lemma {:induction false} BoolRoundTrip(e: Expr, k: string, fits: Fits)
    requires Printable(e, fits) && Bounds(k)
    ensures ParseBool(Print(e) + k, fits) == Ok(e, Skip(k))
    decreases Size(e), 3
  {
    SkipPrinted(e, k, fits);
    FirstChar(e, fits);
    if e.Not? {
      assert (Print(e) + k)[1..] == Print(e.sub) + k;
      SkipPrinted(e.sub, k, fits);
      PrimaryRoundTrip(e.sub, k, fits);
    } else {
      PrimaryRoundTrip(e, k, fits);
    }
  }

  /** Parsing the printed text of an expression in front of anything that may follow it gives the expression. */
  lemma {:induction false} OrRoundTrip(e: Expr, k: string, fits: Fits)
    requires Printable(e, fits) && Closes(k)
    ensures ParseOr(Print(e) + k, fits) == Ok(e, Skip(k))
    decreases Size(e), 4
  {
    EndsSkip(k);
    BoolRoundTrip(e, k, fits);
    assert AndTail(e, Skip(k), fits) == Ok(e, Skip(k));
    assert OrTail(e, Skip(k), fits) == Ok(e, Skip(k));
  }

  /** The parser rebuilds every printable expression from its text. */
  lemma RoundTrip(e: Expr, fits: Fits)
    requires Printable(e, fits)
    ensures ParseOr(Print(e), fits) == Ok(e, "")
  {
    assert Print(e) + "" == Print(e);
    OrRoundTrip(e, "", fits);
  }

  /** Different printable expressions have different texts. */
  lemma PrintIsInjective(a: Expr, b: Expr, fits: Fits)
    requires Printable(a, fits) && Printable(b, fits) && Print(a) == Print(b)
    ensures a == b
  {
    RoundTrip(a, fits);
    RoundTrip(b, fits);
  }

  // ---------------------------------------------------------------------------------------------
  // What printing loses
  // ---------------------------------------------------------------------------------------------

  /** A comparison of a negation and the negation of a comparison have the same text. */
  lemma NegationIsAmbiguous(a: Expr, b: Expr)
    ensures Print(Compare(Equal, Not(a), b)) == Print(Not(Compare(Equal, a, b)))
  {
    assert "!" + Print(a) + " " + "==" + " " + Print(b) == "!" + (Print(a) + " " + "==" + " " + Print(b));
  }

  /** A quote in a string argument can make one argument look like two. */
  lemma QuotesAreAmbiguous(name: string)
    ensures Print(Call(name, [Str("a\", \"b")])) == Print(Call(name, [Str("a"), Str("b")]))
  {
    var one, two := [Str("a\", \"b")], [Str("a"), Str("b")];
    assert PrintMoreArgs(one[1..]) == "" && PrintMoreArgs(two[1..][1..]) == "";
    assert PrintArgs(one) == "\"a\", \"b\"";
    assert PrintMoreArgs(two[1..]) == ", \"b\"";
    assert PrintArgs(two) == "\"a\", \"b\"";
  }

  /** A negated negation is printed as a text that is no expression. */
  lemma DoubleNegationIsLost(e: Expr, fits: Fits)
    ensures ParseOr(Print(Not(Not(e))), fits) == NoMatch
  {
    var s := Print(Not(Not(e)));
    var t := "!" + Print(e);
    assert Print(Not(e)) == t && s == "!" + t && s[1..] == t;
    SkipNothing(s);
    SkipNothing(t);
    NotNumber(t);
    NoKeyword(t);
    assert t[..Span(t, IsIdent)] == "";
    assert ParseOperand(t, fits) == NoMatch;
    assert ParseCompare(t, fits) == NoMatch;
    assert ParsePrimary(t, fits) == NoMatch;
    assert ParseBool(s, fits) == NoMatch;
    assert ParseAnd(s, fits) == NoMatch;
  }

  /** An operand with a bracket behind it is a whole expression. */
  lemma OperandBeforeBracket(s: string, e: Expr, rest: string, fits: Fits)
    requires s != "" && !IsSpace(s[0]) && s[0] != '!' && s[0] != '(' && ParseAtom(s) == Ok(e, rest)
    requires rest != "" && rest[0] == '('
    ensures ParseOr(s, fits) == Ok(e, rest)
  {
    NoOperatorInBracket(rest);
    AtomIsOperand(s, e, rest, fits);
    OperandIsCompare(s, e, rest, fits);
    PrimaryIsCompare(s, fits);
    BoolIsPrimary(s, fits);
    BoolIsOr(s, e, rest, fits);
  }

  lemma NoOperatorInBracket(rest: string)
    requires rest != "" && rest[0] == '('
    ensures Skip(rest) == rest && ParseOp(rest) == NoMatch && !At(rest, "&&") && !At(rest, "||")
  {
    SkipNothing(rest);
  }

  lemma AtomIsOperand(s: string, e: Expr, rest: string, fits: Fits)
    requires s != "" && !IsSpace(s[0]) && ParseAtom(s) == Ok(e, rest) && Skip(rest) == rest
    ensures ParseOperand(s, fits) == Ok(e, rest)
  {
    SkipNothing(s);
  }

  lemma OperandIsCompare(s: string, e: Expr, rest: string, fits: Fits)
    requires ParseOperand(s, fits) == Ok(e, rest) && ParseOp(Skip(rest)) == NoMatch
    ensures ParseCompare(s, fits) == Ok(e, rest)
  {
  }

  lemma BoolIsPrimary(s: string, fits: Fits)
    requires s != "" && !IsSpace(s[0]) && s[0] != '!'
    ensures ParseBool(s, fits) == ParsePrimary(s, fits)
  {
    SkipNothing(s);
  }

  lemma BoolIsOr(s: string, e: Expr, rest: string, fits: Fits)
    requires ParseBool(s, fits) == Ok(e, rest) && !At(Skip(rest), "&&") && !At(Skip(rest), "||")
    ensures ParseOr(s, fits) == Ok(e, rest)
  {
    assert AndTail(e, rest, fits) == Ok(e, rest);
    assert OrTail(e, rest, fits) == Ok(e, rest);
  }

  /** null prints with brackets behind it, which the parser leaves over. */
  lemma NullLeavesBrackets(e: Expr, fits: Fits)
    requires e.Null?
    ensures ParseOr(Print(e), fits) == Ok(e, "()")
  {
    NullIsAtom(Print(e));
    OperandBeforeBracket(Print(e), e, "()", fits);
  }

  lemma NullIsAtom(s: string)
    requires s == "NULL()"
    ensures ParseAtom(s) == Ok(Null, "()")
  {
    assert s == "NULL" + "()" && s[..4] == "NULL" && s[4..] == "()";
    SpanStops("NULL", "()", IsIdent);
    NotNumber(s);
  }
}
