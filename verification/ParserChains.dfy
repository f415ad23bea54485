/**
 What the grammar of `Literals.h` makes of texts that `toString` does not print: strings with escaped characters, and
 chains of connectives without brackets, in which "&&" binds tighter than "||".
 */
module ParserChains {
  import opened Options
  import opened Expressions
  import opened Parser
  import opened ParserRoundTrip
  import opened ParserStates

  // ---------------------------------------------------------------------------------------------
  // Escaped characters
  // ---------------------------------------------------------------------------------------------

  /** A backslash in front of every quote and every backslash. */
  function Escape(s: string): string {
    if s == "" then "" else (if s[0] == '"' || s[0] == '\\' then ['\\', s[0]] else [s[0]]) + Escape(s[1..])
  }

  lemma {:induction false} EscapeSpan(s: string, k: string)
    ensures StringSpan(Escape(s) + "\"" + k) == |Escape(s)| && Unescape(Escape(s)) == s
  {
    var t := Escape(s) + "\"" + k;
    if s == "" {
      assert t == "\"" + k;
    } else {
      EscapeSpan(s[1..], k);
      var n := if s[0] == '"' || s[0] == '\\' then 2 else 1;
      assert t[n..] == Escape(s[1..]) + "\"" + k && Escape(s)[n..] == Escape(s[1..]);
      assert s == [s[0]] + s[1..];
    }
  }

  /** Between the quotes of a string that is matched, every quote and every backslash is escaped. */
  lemma {:induction false} SpanIsEscaped(s: string)
    requires StringSpan(s) == |s|
    ensures Escape(Unescape(s)) == s
  {
    if s == "" {
    } else if s[0] == '\\' {
      SpanIsEscaped(s[2..]);
      assert Unescape(s)[0] == s[1] && Unescape(s)[1..] == Unescape(s[2..]);
      assert s == [s[0], s[1]] + s[2..];
    } else {
      SpanIsEscaped(s[1..]);
      assert Unescape(s)[0] == s[0] && Unescape(s)[1..] == Unescape(s[1..]);
      assert s == [s[0]] + s[1..];
    }
  }

  /** Every string can be written, and in one way only: a text in quotes is read as s if and only if it escapes s. */
  lemma EscapedRoundTrip(s: string, text: string)
    ensures ParseString("\"" + text + "\"") == Ok(Str(s), "") <==> text == Escape(s)
  {
    assert ("\"" + text + "\"")[1..] == text + "\"" && text + "\"" == text + "\"" + "";
    assert "\"" + text + "\"" == "\"" + text + "\"" + "";
    if text == Escape(s) {
      EscapeSpan(s, "");
      QuotedText(text, "");
    } else if ParseString("\"" + text + "\"") == Ok(Str(s), "") {
      assert StringSpan(text + "\"") == |text| && (text + "\"")[..|text|] == text;
      SpanOfBeginning(text, "");
      SpanIsEscaped(text);
    }
  }

  // ---------------------------------------------------------------------------------------------
  // Numbers and spaces
  // ---------------------------------------------------------------------------------------------

  /** A plus sign changes nothing, and a negative number too small for a signed word wraps around to an unsigned one. */
  lemma SignedNumbers(m: nat, k: string)
    requires m <= UINT64_MAX && Ends(k)
    ensures ParseNumber("+" + Decimal(m) + k) == ParseNumber(Decimal(m) + k) == Ok(if m <= INT64_MAX then Int(m) else UInt(m), k)
    ensures ParseNumber("-" + Decimal(m) + k) == Ok(if m <= INT64_MAX + 1 then Int(0 - m) else UInt(UINT64_MAX + 1 - m), k)
  {
    DigitsRoundTrip(m, k);
    UnsignedRoundTrip(m, k, true);
    UnsignedRoundTrip(m, k, false);
    NumberText(true, Decimal(m), k);
    NumberText(false, Decimal(m), k);
    PlusText(Decimal(m), k);
  }

  lemma PlusText(digits: string, k: string)
    ensures ParseNumber("+" + digits + k) == ParseDigits(digits + k, false)
  {
    assert ("+" + digits + k)[1..] == digits + k;
  }

  /** Spaces, tabs and ends of lines in front of an expression are ignored. */
  lemma {:induction false} SpacesAreSkipped(spaces: string, s: string, fits: Fits)
    requires forall i | 0 <= i < |spaces| :: spaces[i] in " \t\n\r"
    ensures Skip(spaces + s) == Skip(s) && ParseOr(spaces + s, fits) == ParseOr(s, fits)
    decreases |spaces|
  {
    if spaces == "" {
      assert spaces + s == s;
    } else {
      assert (spaces + s)[1..] == spaces[1..] + s;
      SpacesAreSkipped(spaces[1..], s, fits);
    }
    assert ParseBool(spaces + s, fits) == ParseBool(s, fits);
    assert ParseAnd(spaces + s, fits) == ParseAnd(s, fits);
  }

  // ---------------------------------------------------------------------------------------------
  // Chains without brackets
  // ---------------------------------------------------------------------------------------------

  function MoreAnds(operands: seq<Expr>): string {
    if operands == [] then "" else " && " + (Print(operands[0]) + MoreAnds(operands[1..]))
  }

  /** a && b && c */
  function AndText(operands: seq<Expr>): string
    requires operands != []
  {
    Print(operands[0]) + MoreAnds(operands[1..])
  }

  predicate Groups(groups: seq<seq<Expr>>) {
    forall i | 0 <= i < |groups| :: groups[i] != []
  }

  function MoreOrs(groups: seq<seq<Expr>>): string
    requires Groups(groups)
  {
    if groups == [] then "" else " || " + (AndText(groups[0]) + MoreOrs(groups[1..]))
  }

  /** a && b || c || d && e */
  function OrText(groups: seq<seq<Expr>>): string
    requires groups != [] && Groups(groups)
  {
    AndText(groups[0]) + MoreOrs(groups[1..])
  }

  /** The operands are read as printed, and the checks let the connective join them from the left. */
  predicate AndFits(operands: seq<Expr>, fits: Fits)
    requires operands != []
  {
    && (forall i | 0 <= i < |operands| :: Printable(operands[i], fits))
    && (forall i | 0 < i < |operands| :: fits("AND", [Chain(MakeAnd, operands[..i]), operands[i]]))
  }

  function Conjunctions(groups: seq<seq<Expr>>): (c: seq<Expr>)
    requires Groups(groups)
    ensures |c| == |groups| && forall i | 0 <= i < |c| :: c[i] == Chain(MakeAnd, groups[i])
  {
    seq(|groups|, i requires 0 <= i < |groups| => Chain(MakeAnd, groups[i]))
  }

  predicate OrFits(groups: seq<seq<Expr>>, fits: Fits)
    requires groups != [] && Groups(groups)
  {
    && (forall i | 0 <= i < |groups| :: AndFits(groups[i], fits))
    && (forall i | 0 < i < |groups| :: fits("OR", [Chain(MakeOr, Conjunctions(groups)[..i]), Conjunctions(groups)[i]]))
  }

  /** What may follow a conjunction: anything that bounds an operand, but no further "&&". */
  predicate BoundsAnd(k: string) {
    Bounds(k) && !At(Skip(k), "&&")
  }

  lemma ChainOne(connective: (Expr, Expr) -> Expr, operands: seq<Expr>, i: nat)
    requires 0 < i < |operands|
    ensures Chain(connective, operands[..i + 1]) == connective(Chain(connective, operands[..i]), operands[i])
  {
    assert operands[..i + 1][..i] == operands[..i];
  }

  /** What follows an operand bounds it, be it a further connective. */
  lemma MoreBounds(symbol: string, right: string)
    requires symbol == "&&" || symbol == "||"
    ensures var s := " " + symbol + " " + right;
            Bounds(s) && Skip(s) == symbol + (" " + right) && Skip(Skip(s)) == Skip(s) && At(Skip(s), symbol) && Skip(s)[2..] == " " + right
  {
    assert " " + symbol + " " + right == " " + (symbol + (" " + right));
    ConnectiveBounds(symbol, right);
  }

  lemma MoreAndsBound(operands: seq<Expr>, k: string)
    requires BoundsAnd(k)
    ensures Bounds(MoreAnds(operands) + k)
  {
    if operands == [] {
      assert MoreAnds(operands) + k == k;
    } else {
      var right := Print(operands[0]) + MoreAnds(operands[1..]) + k;
      assert MoreAnds(operands) + k == " " + "&&" + " " + right;
      MoreBounds("&&", right);
    }
  }

  /** One more operand of a conjunction. */
  lemma AndStep(acc: Expr, e: Expr, right: string, rest: string, fits: Fits)
    requires right == Print(e) + rest && Printable(e, fits) && Bounds(rest) && fits("AND", [acc, e])
    ensures AndTail(acc, Skip(" && " + right), fits) == AndTail(And(acc, e), Skip(rest), fits)
  {
    assert " && " + right == " " + "&&" + " " + right;
    MoreBounds("&&", right);
    SkipPrinted(e, rest, fits);
    BoolRoundTrip(e, rest, fits);
  }

  lemma MoreAndsText(operands: seq<Expr>, i: nat, k: string)
    requires i < |operands|
    ensures MoreAnds(operands[i..]) + k == " && " + (Print(operands[i]) + (MoreAnds(operands[i + 1..]) + k))
  {
    assert operands[i..][1..] == operands[i + 1..];
  }

  lemma AndsEnd(acc: Expr, k: string, fits: Fits)
    requires BoundsAnd(k)
    ensures AndTail(acc, Skip(k), fits) == Ok(acc, Skip(k))
  {
    SkipTwice(k);
  }

  lemma {:induction false} AndsRoundTrip(operands: seq<Expr>, i: nat, k: string, fits: Fits)
    requires 0 < i <= |operands| && AndFits(operands, fits) && BoundsAnd(k)
    ensures AndTail(Chain(MakeAnd, operands[..i]), Skip(MoreAnds(operands[i..]) + k), fits) == Ok(Chain(MakeAnd, operands), Skip(k))
    decreases |operands| - i
  {
    if i == |operands| {
      assert MoreAnds(operands[i..]) + k == k && operands[..i] == operands;
      AndsEnd(Chain(MakeAnd, operands), k, fits);
    } else {
      AndsRoundTrip(operands, i + 1, k, fits);
      OneMoreAnd(operands, i, k, fits);
    }
  }

  lemma OneMoreAnd(operands: seq<Expr>, i: nat, k: string, fits: Fits)
    requires 0 < i < |operands| && AndFits(operands, fits) && BoundsAnd(k)
    ensures AndTail(Chain(MakeAnd, operands[..i]), Skip(MoreAnds(operands[i..]) + k), fits)
            == AndTail(Chain(MakeAnd, operands[..i + 1]), Skip(MoreAnds(operands[i + 1..]) + k), fits)
  {
    var rest := MoreAnds(operands[i + 1..]) + k;
    MoreAndsText(operands, i, k);
    MoreAndsBound(operands[i + 1..], k);
    AndStep(Chain(MakeAnd, operands[..i]), operands[i], Print(operands[i]) + rest, rest, fits);
    ChainOne(MakeAnd, operands, i);
  }

  lemma AndTextRoundTrip(operands: seq<Expr>, k: string, fits: Fits)
    requires operands != [] && AndFits(operands, fits) && BoundsAnd(k)
    ensures ParseAnd(AndText(operands) + k, fits) == Ok(Chain(MakeAnd, operands), Skip(k))
  {
    var rest := MoreAnds(operands[1..]) + k;
    assert AndText(operands) + k == Print(operands[0]) + rest;
    MoreAndsBound(operands[1..], k);
    BoolRoundTrip(operands[0], rest, fits);
    assert operands[..1] == [operands[0]];
    AndsRoundTrip(operands, 1, k, fits);
  }

  lemma MoreOrsText(groups: seq<seq<Expr>>, i: nat, k: string)
    requires i < |groups| && Groups(groups)
    ensures MoreOrs(groups[i..]) + k == " || " + (AndText(groups[i]) + (MoreOrs(groups[i + 1..]) + k))
  {
    assert groups[i..][1..] == groups[i + 1..];
  }

  lemma MoreOrsBound(groups: seq<seq<Expr>>, k: string)
    requires Groups(groups) && Closes(k)
    ensures BoundsAnd(MoreOrs(groups) + k)
  {
    if groups == [] {
      assert MoreOrs(groups) + k == k;
    } else {
      var right := AndText(groups[0]) + (MoreOrs(groups[1..]) + k);
      assert groups[0..] == groups;
      MoreOrsText(groups, 0, k);
      assert " || " + right == " " + "||" + " " + right;
      MoreBounds("||", right);
    }
  }

  lemma AndTextSkips(operands: seq<Expr>, rest: string, fits: Fits)
    requires operands != [] && AndFits(operands, fits)
    ensures Skip(" " + (AndText(operands) + rest)) == AndText(operands) + rest
  {
    assert AndText(operands) + rest == Print(operands[0]) + (MoreAnds(operands[1..]) + rest);
    SkipPrinted(operands[0], MoreAnds(operands[1..]) + rest, fits);
  }

  lemma SkipOr(right: string)
    ensures var s := Skip(" || " + right); Skip(s) == s && At(s, "||") && s[2..] == " " + right
  {
    assert " || " + right == " " + "||" + " " + right;
    MoreBounds("||", right);
  }

  lemma OrTailStep(acc: Expr, e: Expr, right: string, rest: string, fits: Fits)
    requires ParseAnd(right, fits) == Ok(e, rest) && Skip(" " + right) == right && fits("OR", [acc, e])
    ensures OrTail(acc, Skip(" || " + right), fits) == OrTail(Or(acc, e), rest, fits)
  {
    SkipOr(right);
    OrTailOnce(acc, e, Skip(" || " + right), right, rest, fits);
  }

  lemma OrTailOnce(acc: Expr, e: Expr, s: string, right: string, rest: string, fits: Fits)
    requires Skip(s) == s && At(s, "||") && s[2..] == " " + right && Skip(" " + right) == right
    requires ParseAnd(right, fits) == Ok(e, rest) && fits("OR", [acc, e])
    ensures OrTail(acc, s, fits) == OrTail(Or(acc, e), rest, fits)
  {
    assert Build("OR", [acc, e], fits) == Some(Or(acc, e));
  }

  lemma OrsEnd(acc: Expr, k: string, fits: Fits)
    requires Closes(k)
    ensures OrTail(acc, Skip(k), fits) == Ok(acc, Skip(k))
  {
    SkipTwice(k);
  }

  /** One more conjunction of a disjunction. */
  lemma OneMoreOr(groups: seq<seq<Expr>>, i: nat, k: string, fits: Fits)
    requires 0 < i < |groups| && Groups(groups) && OrFits(groups, fits) && Closes(k)
    ensures OrTail(Chain(MakeOr, Conjunctions(groups)[..i]), Skip(MoreOrs(groups[i..]) + k), fits)
            == OrTail(Chain(MakeOr, Conjunctions(groups)[..i + 1]), Skip(MoreOrs(groups[i + 1..]) + k), fits)
  {
    var rest := MoreOrs(groups[i + 1..]) + k;
    MoreOrsText(groups, i, k);
    MoreOrsBound(groups[i + 1..], k);
    AndTextRoundTrip(groups[i], rest, fits);
    AndTextSkips(groups[i], rest, fits);
    OrTailStep(Chain(MakeOr, Conjunctions(groups)[..i]), Chain(MakeAnd, groups[i]), AndText(groups[i]) + rest, Skip(rest), fits);
    ChainOne(MakeOr, Conjunctions(groups), i);
  }

  lemma {:induction false} OrsRoundTrip(groups: seq<seq<Expr>>, i: nat, k: string, fits: Fits)
    requires 0 < i <= |groups| && Groups(groups) && OrFits(groups, fits) && Closes(k)
    ensures OrTail(Chain(MakeOr, Conjunctions(groups)[..i]), Skip(MoreOrs(groups[i..]) + k), fits)
            == Ok(Chain(MakeOr, Conjunctions(groups)), Skip(k))
    decreases |groups| - i
  {
    if i == |groups| {
      assert MoreOrs(groups[i..]) + k == k && Conjunctions(groups)[..i] == Conjunctions(groups);
      OrsEnd(Chain(MakeOr, Conjunctions(groups)), k, fits);
    } else {
      OrsRoundTrip(groups, i + 1, k, fits);
      OneMoreOr(groups, i, k, fits);
    }
  }

  /** Chains of connectives without brackets are combined from the left, "&&" before "||". */
  lemma ChainsAreParsed(groups: seq<seq<Expr>>, k: string, fits: Fits)
    requires groups != [] && Groups(groups) && OrFits(groups, fits) && Closes(k)
    ensures ParseOr(OrText(groups) + k, fits) == Ok(Chain(MakeOr, Conjunctions(groups)), Skip(k))
  {
    var rest := MoreOrs(groups[1..]) + k;
    assert OrText(groups) + k == AndText(groups[0]) + rest;
    MoreOrsBound(groups[1..], k);
    AndTextRoundTrip(groups[0], rest, fits);
    assert Conjunctions(groups)[..1] == [Conjunctions(groups)[0]];
    OrsRoundTrip(groups, 1, k, fits);
  }
}
