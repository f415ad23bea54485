/**
 The mixed execution of `AdaptiveIndexExecutor.cpp`: a predicate of which some leaves can be answered by
 an index is expanded over one such leaf after the other, and the rest is checked document by document.
 */
module MixedExecutor {
  import opened Options

  /** The value of an expression on a document; NonBool stands for null and every other non-boolean value. */
  datatype Tri = True | False | NonBool

  /**
   A choose predicate. A leaf is any expression other than a connective; `id` tells different expressions
   apart, `indexable` says that an index query can be made for it.
   */
  datatype Pred =
    | Const(value: bool)
    | Leaf(id: nat, indexable: bool)
    | And(lhs: Pred, rhs: Pred)
    | Or(lhs: Pred, rhs: Pred)
    | Not(sub: Pred)

  /** The values of all leaves on one document. */
  type Valuation = nat -> Tri

  function FromBool(b: bool): Tri {
    if b then True else False
  }

  function Eval(p: Pred, v: Valuation): Tri {
    match p
    case Const(b) => FromBool(b)
    case Leaf(id, _) => v(id)
    case And(l, r) => FromBool(Eval(l, v) == True && Eval(r, v) == True)
    case Or(l, r) => FromBool(Eval(l, v) == True || Eval(r, v) == True)
    case Not(s) => if Eval(s, v) == NonBool then NonBool else FromBool(Eval(s, v) == False)
  }

  /** `Query::check` */
  predicate Check(p: Pred, v: Valuation) {
    Eval(p, v) == True
  }

  predicate IsConst(p: Pred) {
    match p
    case Const(_) => true
    case Leaf(_, _) => false
    case And(l, r) => IsConst(l) && IsConst(r)
    case Or(l, r) => IsConst(l) && IsConst(r)
    case Not(s) => IsConst(s)
  }

  /** The value of a constant expression. */
  function ConstValue(p: Pred): bool {
    match p
    case Const(b) => b
    case Leaf(_, _) => false
    case And(l, r) => ConstValue(l) && ConstValue(r)
    case Or(l, r) => ConstValue(l) || ConstValue(r)
    case Not(s) => !ConstValue(s)
  }

  // ---------------------------------------------------------------------------------------------
  // The visitors and the optimizer
  // ---------------------------------------------------------------------------------------------

  /** The indexable leaves in the order in which both visitors meet them. */
  function Indexable(p: Pred): seq<nat> {
    match p
    case Const(_) => []
    case Leaf(id, indexable) => if indexable then [id] else []
    case And(l, r) => Indexable(l) + Indexable(r)
    case Or(l, r) => Indexable(l) + Indexable(r)
    case Not(s) => Indexable(s)
  }

  /** The leaf that `NextPredicateVisitor` keeps: each one it meets replaces the one before. */
  function NextLeaf(p: Pred): nat
    requires Indexable(p) != []
  {
    Indexable(p)[|Indexable(p)| - 1]
  }

  /** Which leaf a constant is put for: the first one, as `SetPredicateVisitor` does, or the one that was asked. */
  datatype Target = FirstLeaf | AskedLeaf

  function Position(p: Pred, target: Target): nat
    requires Indexable(p) != []
  {
    if target.FirstLeaf? then 0 else |Indexable(p)| - 1
  }

  /** Puts a constant for the k-th indexable leaf. */
  function SetLeaf(p: Pred, k: nat, b: bool): Pred
    requires k < |Indexable(p)|
  {
    match p
    case Leaf(_, _) => Const(b)
    case And(l, r) =>
      if k < |Indexable(l)| then And(SetLeaf(l, k, b), r) else And(l, SetLeaf(r, k - |Indexable(l)|, b))
    case Or(l, r) =>
      if k < |Indexable(l)| then Or(SetLeaf(l, k, b), r) else Or(l, SetLeaf(r, k - |Indexable(l)|, b))
    case Not(s) => Not(SetLeaf(s, k, b))
  }

  /** An expression with all its parts optimized, itself included. */
  function Optimized(p: Pred): Pred {
    match p
    case Const(_) => p
    case Leaf(_, _) => p
    case And(l, r) =>
      var l', r' := Optimized(l), Optimized(r);
      if IsConst(l') then (if ConstValue(l') then r' else Const(false))
      else if IsConst(r') then (if ConstValue(r') then l' else Const(false))
      else And(l', r')
    case Or(l, r) =>
      var l', r' := Optimized(l), Optimized(r);
      if IsConst(l') then (if ConstValue(l') then Const(true) else r')
      else if IsConst(r') then (if ConstValue(r') then Const(true) else l')
      else Or(l', r')
    case Not(s) =>
      var s' := Optimized(s);
      if s'.Not? then s'.sub else Not(s')
  }

  /** `optimize` returns a replacement for the expression itself. */
  predicate HasReplacement(p: Pred) {
    match p
    case Const(_) => false
    case Leaf(_, _) => false
    case And(l, r) => IsConst(Optimized(l)) || IsConst(Optimized(r))
    case Or(l, r) => IsConst(Optimized(l)) || IsConst(Optimized(r))
    case Not(s) => Optimized(s).Not?
  }

  /** The executor optimizes a copy, and keeps it only if the expression itself was replaced. */
  function Simplified(p: Pred): Pred {
    if HasReplacement(p) then Optimized(p) else p
  }

  /** The predicate with which the expansion goes on after the asked leaf was found true or false. */
  function Continue(p: Pred, target: Target, b: bool): (q: Pred)
    requires Indexable(p) != []
  {
    Simplified(SetLeaf(p, Position(p, target), b))
  }

  // ---------------------------------------------------------------------------------------------
  // Termination
  // ---------------------------------------------------------------------------------------------

  lemma {:induction false} SetLeafRemovesOne(p: Pred, k: nat, b: bool)
    requires k < |Indexable(p)|
    ensures Indexable(SetLeaf(p, k, b)) == Indexable(p)[..k] + Indexable(p)[k + 1..]
  {
    match p
    case Leaf(_, _) =>
    case And(l, r) =>
      DropAt(Indexable(l), Indexable(r), k);
      if k < |Indexable(l)| { SetLeafRemovesOne(l, k, b); } else { SetLeafRemovesOne(r, k - |Indexable(l)|, b); }
    case Or(l, r) =>
      DropAt(Indexable(l), Indexable(r), k);
      if k < |Indexable(l)| { SetLeafRemovesOne(l, k, b); } else { SetLeafRemovesOne(r, k - |Indexable(l)|, b); }
    case Not(s) => SetLeafRemovesOne(s, k, b);
  }

  lemma DropAt(a: seq<nat>, b: seq<nat>, k: nat)
    requires k < |a| + |b|
    ensures k < |a| ==> (a + b)[..k] + (a + b)[k + 1..] == a[..k] + a[k + 1..] + b
    ensures k >= |a| ==> (a + b)[..k] + (a + b)[k + 1..] == a + (b[..k - |a|] + b[k - |a| + 1..])
  {
  }

  lemma {:induction false} OptimizedHasNoMore(p: Pred)
    ensures |Indexable(Optimized(p))| <= |Indexable(p)|
  {
    match p
    case Const(_) =>
    case Leaf(_, _) =>
    case And(l, r) => OptimizedHasNoMore(l); OptimizedHasNoMore(r);
    case Or(l, r) => OptimizedHasNoMore(l); OptimizedHasNoMore(r);
    case Not(s) => OptimizedHasNoMore(s);
  }

  /** Both branches have fewer indexable leaves left. */
  lemma ContinueHasLess(p: Pred, target: Target, b: bool)
    requires Indexable(p) != []
    ensures |Indexable(Continue(p, target, b))| < |Indexable(p)|
  {
    SetLeafRemovesOne(p, Position(p, target), b);
    OptimizedHasNoMore(SetLeaf(p, Position(p, target), b));
  }

  // ---------------------------------------------------------------------------------------------
  // The execution
  // ---------------------------------------------------------------------------------------------

  /** Whether the index answers the query made at a place of the expansion, given by the branches taken to it. */
  type Index = seq<bool> -> bool

  /** Whether the execution returns a document with the given leaf values. */
  predicate Returned(p: Pred, v: Valuation, index: Index, path: seq<bool>, target: Target)
    decreases |Indexable(p)|
  {
    if Indexable(p) == [] || !index(path) then Check(p, v)
    else
      var b := v(NextLeaf(p)) == True;
      ContinueHasLess(p, target, b);
      Returned(Continue(p, target, b), v, index, path + [b], target)
  }

  /** The choose predicate of the query object that the recursion overwrites. */
  class Query {
    var pred: Pred

    constructor (pred: Pred)
      ensures this.pred == pred
    {
      this.pred := pred;
    }
  }

  /** `constBoolCheck`: the constant expressions, but for the two literals. */
  predicate ConstBoolCheck(p: Pred) {
    IsConst(p) && !p.Const?
  }

  lemma {:induction false} ConstMeans(p: Pred, v: Valuation)
    requires IsConst(p)
    ensures Eval(p, v) == FromBool(ConstValue(p)) && Indexable(p) == []
  {
    match p
    case Const(_) =>
    case And(l, r) => ConstMeans(l, v); ConstMeans(r, v);
    case Or(l, r) => ConstMeans(l, v); ConstMeans(r, v);
    case Not(s) => ConstMeans(s, v);
  }

  ghost function ReturnedDocs(p: Pred, docs: seq<Valuation>, docIndex: set<nat>, index: Index, path: seq<bool>, target: Target): set<nat> {
    set d | d in docIndex && d < |docs| && Returned(p, docs[d], index, path, target)
  }

  /** `checkDocuments`: the documents of docIndex on which the predicate checks true. */
  method CheckDocuments(p: Pred, docs: seq<Valuation>, docIndex: set<nat>) returns (result: set<nat>)
    ensures result == set d | d in docIndex && d < |docs| && Check(p, docs[d])
  {
    result := {};
    for i := 0 to |docs|
      invariant result == set d | d in docIndex && d < i && Check(p, docs[d])
    {
      if i in docIndex && Check(p, docs[i]) {
        result := result + {i};
      }
    }
  }

  /** The bit set the index answers with, which is assumed to be the truth set of the leaf. */
  function IndexResult(leaf: nat, docs: seq<Valuation>): set<nat> {
    set d: nat | d < |docs| && docs[d](leaf) == True
  }

  /** All document numbers of a container. */
  function AllIds(size: nat): (ids: set<nat>)
    ensures forall d: nat :: d in ids <==> d < size
  {
    if size == 0 then {} else AllIds(size - 1) + {size - 1}
  }

  /**
   `executeNextMixedQuery`: the recursion goes down the true side with the documents the index found, then
   down the false side with the other ones, and joins the two results.
   */
  method ExecuteNextMixedQuery(q: Query, docs: seq<Valuation>, docIndex: set<nat>, index: Index, path: seq<bool>, target: Target)
    returns (result: set<nat>)
    requires docIndex <= AllIds(|docs|)
    modifies q
    ensures result == ReturnedDocs(old(q.pred), docs, docIndex, index, path, target)
    decreases |Indexable(q.pred)|
  {
    var choose := q.pred;
    if ConstBoolCheck(choose) {
      forall v: Valuation ensures Returned(choose, v, index, path, target) == ConstValue(choose) { ConstMeans(choose, v); }
      return if ConstValue(choose) then docIndex else {};
    }
    if Indexable(choose) == [] || !index(path) {
      result := CheckDocuments(choose, docs, docIndex);
      return;
    }
    var indexResult := IndexResult(NextLeaf(choose), docs);
    var relevantDocs := docIndex * indexResult;
    ContinueHasLess(choose, target, true);
    ContinueHasLess(choose, target, false);
    q.pred := Continue(choose, target, true);
    var resultT := ExecuteNextMixedQuery(q, docs, relevantDocs, index, path + [true], target);
    q.pred := Continue(choose, target, false);
    var indexPositives := AllIds(|docs|) - relevantDocs;
    var resultNeg := indexPositives * docIndex;
    var resultF := ExecuteNextMixedQuery(q, docs, resultNeg, index, path + [false], target);
    result := resultT + resultF;
  }

  // ---------------------------------------------------------------------------------------------
  // Two-valued meaning
  // ---------------------------------------------------------------------------------------------

  /** The meaning in which a leaf that is not true is false. */
  predicate Holds(p: Pred, v: Valuation) {
    match p
    case Const(b) => b
    case Leaf(id, _) => v(id) == True
    case And(l, r) => Holds(l, v) && Holds(r, v)
    case Or(l, r) => Holds(l, v) || Holds(r, v)
    case Not(s) => !Holds(s, v)
  }

  /** All leaves have boolean values. */
  predicate AllBoolean(p: Pred, v: Valuation) {
    match p
    case Const(_) => true
    case Leaf(id, _) => v(id) != NonBool
    case And(l, r) => AllBoolean(l, v) && AllBoolean(r, v)
    case Or(l, r) => AllBoolean(l, v) && AllBoolean(r, v)
    case Not(s) => AllBoolean(s, v)
  }

  /**
   An indexable leaf that is negated an odd number of times has a boolean value, and so have all leaves of a
   connective that is negated an odd number of times. The sides of a connective count as not negated.
   */
  predicate Clear(p: Pred, v: Valuation, negated: bool) {
    match p
    case Const(_) => true
    case Leaf(id, indexable) => negated && indexable ==> v(id) != NonBool
    case And(l, r) => Clear(l, v, false) && Clear(r, v, false) && (negated ==> AllBoolean(p, v))
    case Or(l, r) => Clear(l, v, false) && Clear(r, v, false) && (negated ==> AllBoolean(p, v))
    case Not(s) => Clear(s, v, !negated)
  }

  /** Two values are the same to a connective, or to a negation in front of one. */
  predicate Same(a: Tri, b: Tri, negated: bool) {
    if negated then a == False <==> b == False else a == True <==> b == True
  }

  lemma {:induction false} BooleanIsClear(p: Pred, v: Valuation, negated: bool)
    requires AllBoolean(p, v)
    ensures Clear(p, v, negated) && Eval(p, v) != NonBool && Check(p, v) == Holds(p, v)
  {
    match p
    case Const(_) =>
    case Leaf(_, _) =>
    case And(l, r) => BooleanIsClear(l, v, false); BooleanIsClear(r, v, false);
    case Or(l, r) => BooleanIsClear(l, v, false); BooleanIsClear(r, v, false);
    case Not(s) => BooleanIsClear(s, v, !negated);
  }

  /** The optimizer keeps what a clear predicate says. */
  lemma {:induction false} OptimizedSame(p: Pred, v: Valuation, negated: bool)
    requires Clear(p, v, negated)
    ensures Same(Eval(Optimized(p), v), Eval(p, v), negated) && Clear(Optimized(p), v, negated)
    ensures AllBoolean(p, v) ==> AllBoolean(Optimized(p), v)
    decreases Size(p)
  {
    match p
    case Const(_) =>
    case Leaf(_, _) =>
    case And(l, r) => OptimizedSides(l, r, v, negated);
    case Or(l, r) => OptimizedSides(l, r, v, negated);
    case Not(s) => OptimizedSame(s, v, !negated);
  }

  lemma {:induction false} OptimizedSides(l: Pred, r: Pred, v: Valuation, negated: bool)
    requires Clear(l, v, false) && Clear(r, v, false) && (negated ==> AllBoolean(l, v) && AllBoolean(r, v))
    ensures Same(Eval(Optimized(l), v), Eval(l, v), false) && Same(Eval(Optimized(r), v), Eval(r, v), false)
    ensures Clear(Optimized(l), v, false) && Clear(Optimized(r), v, false)
    ensures negated ==> Clear(Optimized(l), v, true) && Clear(Optimized(r), v, true)
    ensures negated ==> Eval(Optimized(l), v) != NonBool && Eval(Optimized(r), v) != NonBool
    ensures AllBoolean(l, v) ==> AllBoolean(Optimized(l), v)
    ensures AllBoolean(r, v) ==> AllBoolean(Optimized(r), v)
    ensures IsConst(Optimized(l)) ==> Eval(Optimized(l), v) == FromBool(ConstValue(Optimized(l)))
    ensures IsConst(Optimized(r)) ==> Eval(Optimized(r), v) == FromBool(ConstValue(Optimized(r)))
    decreases Size(l) + Size(r)
  {
    OptimizedSame(l, v, false);
    OptimizedSame(r, v, false);
    if negated {
      BooleanIsClear(Optimized(l), v, true);
      BooleanIsClear(Optimized(r), v, true);
    }
    if IsConst(Optimized(l)) { ConstMeans(Optimized(l), v); }
    if IsConst(Optimized(r)) { ConstMeans(Optimized(r), v); }
  }

  /** A constant in place of a leaf with that truth value keeps what a clear predicate says. */
  lemma {:induction false} SetLeafSame(p: Pred, k: nat, v: Valuation, negated: bool)
    requires k < |Indexable(p)| && Clear(p, v, negated)
    ensures var q := SetLeaf(p, k, v(Indexable(p)[k]) == True);
            Same(Eval(q, v), Eval(p, v), negated) && Clear(q, v, negated) && (AllBoolean(p, v) ==> AllBoolean(q, v))
  {
    match p
    case Leaf(_, _) =>
    case And(l, r) =>
      if k < |Indexable(l)| { SetLeafSame(l, k, v, false); } else { SetLeafSame(r, k - |Indexable(l)|, v, false); }
    case Or(l, r) =>
      if k < |Indexable(l)| { SetLeafSame(l, k, v, false); } else { SetLeafSame(r, k - |Indexable(l)|, v, false); }
    case Not(s) => SetLeafSame(s, k, v, !negated);
  }

  // ---------------------------------------------------------------------------------------------
  // When the execution is right
  // ---------------------------------------------------------------------------------------------

  /** The leaf that is replaced and the leaf that was asked stand for the same query. */
  predicate OneQuery(p: Pred) {
    forall i, j | 0 <= i < |Indexable(p)| && 0 <= j < |Indexable(p)| :: Indexable(p)[i] == Indexable(p)[j]
  }

  lemma {:induction false} OptimizedLeaves(p: Pred)
    ensures forall id | id in Indexable(Optimized(p)) :: id in Indexable(p)
  {
    match p
    case Const(_) =>
    case Leaf(_, _) =>
    case And(l, r) => OptimizedLeaves(l); OptimizedLeaves(r);
    case Or(l, r) => OptimizedLeaves(l); OptimizedLeaves(r);
    case Not(s) => OptimizedLeaves(s);
  }

  lemma ContinueLeaves(p: Pred, target: Target, b: bool)
    requires Indexable(p) != []
    ensures forall id | id in Indexable(Continue(p, target, b)) :: id in Indexable(p)
  {
    SetLeafRemovesOne(p, Position(p, target), b);
    OptimizedLeaves(SetLeaf(p, Position(p, target), b));
  }

  lemma StaysOneQuery(p: Pred, target: Target, b: bool)
    requires Indexable(p) != [] && OneQuery(p)
    ensures OneQuery(Continue(p, target, b))
  {
    ContinueLeaves(p, target, b);
    var q := Continue(p, target, b);
    forall i, j | 0 <= i < |Indexable(q)| && 0 <= j < |Indexable(q)| ensures Indexable(q)[i] == Indexable(q)[j] {
      assert Indexable(q)[i] in Indexable(p) && Indexable(q)[j] in Indexable(p);
    }
  }

  lemma ContinueSame(p: Pred, target: Target, v: Valuation)
    requires Indexable(p) != [] && (target.AskedLeaf? || OneQuery(p)) && Clear(p, v, false)
    ensures var q := Continue(p, target, v(NextLeaf(p)) == True); Check(q, v) == Check(p, v) && Clear(q, v, false)
  {
    var k, b := Position(p, target), v(NextLeaf(p)) == True;
    assert Indexable(p)[k] == NextLeaf(p);
    SetLeafSame(p, k, v, false);
    OptimizedSame(SetLeaf(p, k, b), v, false);
  }

  /**
   Where the replaced leaf stands for the query that was asked, the execution returns a document on which the
   predicate is clear if and only if the predicate checks true on it, whichever queries the index answers.
   */
  lemma {:induction false} ReturnsWhatChecks(p: Pred, v: Valuation, index: Index, path: seq<bool>, target: Target)
    requires (target.AskedLeaf? || OneQuery(p)) && Clear(p, v, false)
    ensures Returned(p, v, index, path, target) == Check(p, v)
    decreases |Indexable(p)|
  {
    if Indexable(p) != [] && index(path) {
      var b := v(NextLeaf(p)) == True;
      ContinueHasLess(p, target, b);
      ContinueSame(p, target, v);
      if target.FirstLeaf? { StaysOneQuery(p, target, b); }
      ReturnsWhatChecks(Continue(p, target, b), v, index, path + [b], target);
    }
  }

  /** The result of the execution is then that of a scan: the documents on which the predicate checks true. */
  lemma ResultIsScan(p: Pred, docs: seq<Valuation>, docIndex: set<nat>, index: Index, path: seq<bool>, target: Target)
    requires target.AskedLeaf? || OneQuery(p)
    requires forall d | d in docIndex && d < |docs| :: Clear(p, docs[d], false)
    ensures ReturnedDocs(p, docs, docIndex, index, path, target) == set d | d in docIndex && d < |docs| && Check(p, docs[d])
  {
    forall d | d in docIndex && d < |docs| ensures Returned(p, docs[d], index, path, target) == Check(p, docs[d]) {
      ReturnsWhatChecks(p, docs[d], index, path, target);
    }
  }

  // ---------------------------------------------------------------------------------------------
  // When it is not
  // ---------------------------------------------------------------------------------------------

  /** The expressions of all leaves. */
  function Ids(p: Pred): seq<nat> {
    match p
    case Const(_) => []
    case Leaf(id, _) => [id]
    case And(l, r) => Ids(l) + Ids(r)
    case Or(l, r) => Ids(l) + Ids(r)
    case Not(s) => Ids(s)
  }

  /** No expression occurs twice, and there are no constants. */
  predicate ReadOnce(p: Pred) {
    match p
    case Const(_) => false
    case Leaf(_, _) => true
    case And(l, r) => ReadOnce(l) && ReadOnce(r) && forall id | id in Ids(l) :: id !in Ids(r)
    case Or(l, r) => ReadOnce(l) && ReadOnce(r) && forall id | id in Ids(l) :: id !in Ids(r)
    case Not(s) => ReadOnce(s)
  }

  lemma {:induction false} IndexableAreIds(p: Pred)
    ensures forall id | id in Indexable(p) :: id in Ids(p)
  {
    match p
    case Const(_) =>
    case Leaf(_, _) =>
    case And(l, r) => IndexableAreIds(l); IndexableAreIds(r);
    case Or(l, r) => IndexableAreIds(l); IndexableAreIds(r);
    case Not(s) => IndexableAreIds(s);
  }

  ghost predicate Agree(ids: seq<nat>, v: Valuation, w: Valuation) {
    forall id | id in ids :: v(id) == w(id)
  }

  lemma {:induction false} EvalDependsOnIds(p: Pred, v: Valuation, w: Valuation)
    requires Agree(Ids(p), v, w)
    ensures Eval(p, v) == Eval(p, w) && Holds(p, v) == Holds(p, w)
  {
    match p
    case Const(_) =>
    case Leaf(_, _) =>
    case And(l, r) => EvalDependsOnIds(l, v, w); EvalDependsOnIds(r, v, w);
    case Or(l, r) => EvalDependsOnIds(l, v, w); EvalDependsOnIds(r, v, w);
    case Not(s) => EvalDependsOnIds(s, v, w);
  }

  lemma {:induction false} OptimizedIds(p: Pred)
    ensures forall id | id in Ids(Optimized(p)) :: id in Ids(p)
  {
    match p
    case Const(_) =>
    case Leaf(_, _) =>
    case And(l, r) => OptimizedIds(l); OptimizedIds(r);
    case Or(l, r) => OptimizedIds(l); OptimizedIds(r);
    case Not(s) => OptimizedIds(s);
  }

  lemma {:induction false} SetLeafIds(p: Pred, k: nat, b: bool)
    requires k < |Indexable(p)|
    ensures forall id | id in Ids(SetLeaf(p, k, b)) :: id in Ids(p)
    ensures ReadOnce(p) ==> Indexable(p)[k] !in Ids(SetLeaf(p, k, b))
  {
    IndexableAreIds(p);
    match p
    case Leaf(_, _) =>
    case And(l, r) =>
      IndexableAreIds(l); IndexableAreIds(r);
      if k < |Indexable(l)| { SetLeafIds(l, k, b); } else { SetLeafIds(r, k - |Indexable(l)|, b); }
    case Or(l, r) =>
      IndexableAreIds(l); IndexableAreIds(r);
      if k < |Indexable(l)| { SetLeafIds(l, k, b); } else { SetLeafIds(r, k - |Indexable(l)|, b); }
    case Not(s) => SetLeafIds(s, k, b);
  }

  lemma ContinueIds(p: Pred, b: bool)
    requires Indexable(p) != []
    ensures var q := Continue(p, FirstLeaf, b);
            (forall id | id in Ids(q) :: id in Ids(p)) && (ReadOnce(p) ==> Indexable(p)[0] !in Ids(q))
  {
    SetLeafIds(p, 0, b);
    OptimizedIds(SetLeaf(p, 0, b));
  }

  /** The outcome for a document depends on the leaves that are in the predicate only. */
  lemma {:induction false} ReturnedDependsOnIds(p: Pred, v: Valuation, w: Valuation, index: Index, path: seq<bool>)
    requires Agree(Ids(p), v, w)
    ensures Returned(p, v, index, path, FirstLeaf) == Returned(p, w, index, path, FirstLeaf)
    decreases |Indexable(p)|
  {
    EvalDependsOnIds(p, v, w);
    if Indexable(p) != [] && index(path) {
      IndexableAreIds(p);
      assert NextLeaf(p) in Indexable(p);
      var b := v(NextLeaf(p)) == True;
      ContinueHasLess(p, FirstLeaf, b);
      ContinueIds(p, b);
      ReturnedDependsOnIds(Continue(p, FirstLeaf, b), v, w, index, path + [b]);
    }
  }

  ghost predicate TwoValued(v: Valuation) {
    forall id :: v(id) != NonBool
  }

  /** One valuation on the leaves of l, another one elsewhere. */
  function Join(ids: seq<nat>, v: Valuation, w: Valuation): Valuation {
    (id: nat) => if id in ids then v(id) else w(id)
  }

  lemma {:induction false} TwoValuedIsBoolean(p: Pred, v: Valuation)
    requires TwoValued(v)
    ensures AllBoolean(p, v)
  {
    match p
    case Const(_) =>
    case Leaf(_, _) =>
    case And(l, r) => TwoValuedIsBoolean(l, v); TwoValuedIsBoolean(r, v);
    case Or(l, r) => TwoValuedIsBoolean(l, v); TwoValuedIsBoolean(r, v);
    case Not(s) => TwoValuedIsBoolean(s, v);
  }

  lemma TwoValuedIsClear(p: Pred, v: Valuation)
    requires TwoValued(v)
    ensures Clear(p, v, false) && Check(p, v) == Holds(p, v)
  {
    TwoValuedIsBoolean(p, v);
    BooleanIsClear(p, v, false);
  }

  /** A predicate that reads each of its leaves once can be made true and can be made false. */
  lemma {:induction false} CanBe(p: Pred, b: bool) returns (v: Valuation)
    requires ReadOnce(p)
    ensures TwoValued(v) && Holds(p, v) == b
  {
    match p
    case Leaf(_, _) => v := id => FromBool(b);
    case And(l, r) =>
      var x := CanBe(l, b);
      var y := CanBe(r, b);
      v := JoinHolds(l, r, x, y);
    case Or(l, r) =>
      var x := CanBe(l, b);
      var y := CanBe(r, b);
      v := JoinHolds(l, r, x, y);
    case Not(s) => v := CanBe(s, !b);
  }

  lemma JoinHolds(l: Pred, r: Pred, x: Valuation, y: Valuation) returns (v: Valuation)
    requires TwoValued(x) && TwoValued(y) && forall id | id in Ids(l) :: id !in Ids(r)
    ensures v == Join(Ids(l), x, y) && TwoValued(v) && Holds(l, v) == Holds(l, x) && Holds(r, v) == Holds(r, y)
  {
    v := Join(Ids(l), x, y);
    EvalDependsOnIds(l, v, x);
    EvalDependsOnIds(r, v, y);
  }

  function Size(p: Pred): (n: nat)
    ensures n > 0
  {
    match p
    case Const(_) => 1
    case Leaf(_, _) => 1
    case And(l, r) => 1 + Size(l) + Size(r)
    case Or(l, r) => 1 + Size(l) + Size(r)
    case Not(s) => 1 + Size(s)
  }

  function Flip(v: Valuation, f: nat): Valuation {
    (id: nat) => if id != f then v(id) else if v(f) == True then False else True
  }

  /** Such a predicate depends on each of its leaves: two documents that differ in one leaf tell it. */
  lemma {:induction false} DependsOnLeaf(p: Pred, f: nat) returns (v: Valuation)
    requires ReadOnce(p) && f in Ids(p)
    ensures TwoValued(v) && Holds(p, v) != Holds(p, Flip(v, f))
    decreases Size(p)
  {
    match p
    case Leaf(_, _) => v := id => True;
    case And(l, r) => v := PairDependsOnLeaf(l, r, f, true);
    case Or(l, r) => v := PairDependsOnLeaf(l, r, f, false);
    case Not(s) => v := DependsOnLeaf(s, f);
  }

  /** One side depends on the leaf while the other side has the value b. */
  lemma {:induction false} PairDependsOnLeaf(l: Pred, r: Pred, f: nat, b: bool) returns (v: Valuation)
    requires ReadOnce(l) && ReadOnce(r) && (forall id | id in Ids(l) :: id !in Ids(r)) && f in Ids(l) + Ids(r)
    ensures TwoValued(v)
    ensures f in Ids(l) ==> Holds(l, v) != Holds(l, Flip(v, f)) && Holds(r, v) == Holds(r, Flip(v, f)) == b
    ensures f !in Ids(l) ==> Holds(r, v) != Holds(r, Flip(v, f)) && Holds(l, v) == Holds(l, Flip(v, f)) == b
    decreases Size(l) + Size(r)
  {
    var x, y;
    if f in Ids(l) {
      x := DependsOnLeaf(l, f);
      y := CanBe(r, b);
    } else {
      x := CanBe(l, b);
      y := DependsOnLeaf(r, f);
    }
    v := JoinHolds(l, r, x, y);
    if f in Ids(l) {
      EvalDependsOnIds(l, Flip(v, f), Flip(x, f));
      EvalDependsOnIds(r, Flip(v, f), y);
    } else {
      EvalDependsOnIds(l, Flip(v, f), x);
      EvalDependsOnIds(r, Flip(v, f), Flip(y, f));
    }
  }

  lemma {:induction false} LeavesDiffer(p: Pred, i: nat, j: nat)
    requires ReadOnce(p) && i < j < |Indexable(p)|
    ensures Indexable(p)[i] != Indexable(p)[j]
    decreases Size(p)
  {
    match p
    case Leaf(_, _) =>
    case And(l, r) => PairLeavesDiffer(l, r, i, j);
    case Or(l, r) => PairLeavesDiffer(l, r, i, j);
    case Not(s) => LeavesDiffer(s, i, j);
  }

  lemma {:induction false} PairLeavesDiffer(l: Pred, r: Pred, i: nat, j: nat)
    requires ReadOnce(l) && ReadOnce(r) && (forall id | id in Ids(l) :: id !in Ids(r)) && i < j < |Indexable(l)| + |Indexable(r)|
    ensures (Indexable(l) + Indexable(r))[i] != (Indexable(l) + Indexable(r))[j]
    decreases Size(l) + Size(r)
  {
    IndexableAreIds(l);
    IndexableAreIds(r);
    if j < |Indexable(l)| {
      LeavesDiffer(l, i, j);
    } else if i >= |Indexable(l)| {
      LeavesDiffer(r, i - |Indexable(l)|, j - |Indexable(l)|);
    } else {
      assert Indexable(l)[i] in Ids(l) && Indexable(r)[j - |Indexable(l)|] in Ids(r);
    }
  }

  /** With two indexable leaves, the first one is never asked: some document gets the wrong answer. */
  lemma FirstLeafIsIgnored(p: Pred, index: Index, path: seq<bool>) returns (v: Valuation)
    requires ReadOnce(p) && |Indexable(p)| >= 2 && index(path)
    ensures TwoValued(v) && Returned(p, v, index, path, FirstLeaf) != Check(p, v)
  {
    var f := Indexable(p)[0];
    IndexableAreIds(p);
    LeavesDiffer(p, 0, |Indexable(p)| - 1);
    v := DependsOnLeaf(p, f);
    var w := Flip(v, f);
    var b := v(NextLeaf(p)) == True;
    ContinueIds(p, b);
    ContinueHasLess(p, FirstLeaf, b);
    ReturnedDependsOnIds(Continue(p, FirstLeaf, b), v, w, index, path + [b]);
    TwoValuedIsClear(p, v);
    TwoValuedIsClear(p, w);
    if Returned(p, v, index, path, FirstLeaf) == Check(p, v) {
      v := w;
    }
  }

  /**
   For predicates without constants and without repeated expressions, the execution of the source is right
   on all documents with boolean leaves if and only if there is at most one indexable leaf.
   */
  lemma RightIffOneLeaf(p: Pred, index: Index, path: seq<bool>)
    requires ReadOnce(p) && index(path)
    ensures (forall v: Valuation | TwoValued(v) :: Returned(p, v, index, path, FirstLeaf) == Check(p, v)) <==> |Indexable(p)| <= 1
  {
    if |Indexable(p)| <= 1 {
      forall v: Valuation | TwoValued(v) ensures Returned(p, v, index, path, FirstLeaf) == Check(p, v) {
        TwoValuedIsClear(p, v);
        ReturnsWhatChecks(p, v, index, path, FirstLeaf);
      }
    } else {
      var v := FirstLeafIsIgnored(p, index, path);
    }
  }

  /** (a && b) with a false and b true: the document is returned. */
  lemma ConjunctionReturnsTooMuch(index: Index)
    requires forall path :: index(path)
    ensures var p := And(And(Leaf(0, true), Leaf(1, true)), Leaf(2, false));
            var v: Valuation := id => if id == 0 then False else True;
            Returned(p, v, index, [], FirstLeaf) && !Check(p, v)
  {
    var v: Valuation := id => if id == 0 then False else True;
    var p := And(And(Leaf(0, true), Leaf(1, true)), Leaf(2, false));
    var q := And(And(Const(true), Leaf(1, true)), Leaf(2, false));
    assert Continue(p, FirstLeaf, true) == q;
    assert Continue(q, FirstLeaf, true) == Leaf(2, false);
    assert Returned(q, v, index, [true], FirstLeaf) == Returned(Leaf(2, false), v, index, [true] + [true], FirstLeaf);
    assert Returned(p, v, index, [], FirstLeaf) == Returned(q, v, index, [] + [true], FirstLeaf);
  }

  // ---------------------------------------------------------------------------------------------
  // Missing values
  // ---------------------------------------------------------------------------------------------

  /** The expressions of the leaves that are not indexable. */
  function Others(p: Pred): seq<nat> {
    match p
    case Const(_) => []
    case Leaf(id, indexable) => if indexable then [] else [id]
    case And(l, r) => Others(l) + Others(r)
    case Or(l, r) => Others(l) + Others(r)
    case Not(s) => Others(s)
  }

  /** Whether an expression is indexable does not depend on the place where it occurs. */
  predicate Consistent(p: Pred) {
    forall id | id in Indexable(p) :: id !in Others(p)
  }

  /** What the index knows: an indexable leaf without a boolean value is not found, as if it were false. */
  function Filled(leaves: seq<nat>, v: Valuation): Valuation {
    (id: nat) => if id in leaves then FromBool(v(id) == True) else v(id)
  }

  lemma {:induction false} IdsAreBoth(p: Pred)
    ensures forall id :: id in Ids(p) <==> id in Indexable(p) || id in Others(p)
  {
    match p
    case Const(_) =>
    case Leaf(_, _) =>
    case And(l, r) => IdsAreBoth(l); IdsAreBoth(r);
    case Or(l, r) => IdsAreBoth(l); IdsAreBoth(r);
    case Not(s) => IdsAreBoth(s);
  }

  lemma {:induction false} OptimizedOthers(p: Pred)
    ensures forall id | id in Others(Optimized(p)) :: id in Others(p)
  {
    match p
    case Const(_) =>
    case Leaf(_, _) =>
    case And(l, r) => OptimizedOthers(l); OptimizedOthers(r);
    case Or(l, r) => OptimizedOthers(l); OptimizedOthers(r);
    case Not(s) => OptimizedOthers(s);
  }

  lemma {:induction false} SetLeafOthers(p: Pred, k: nat, b: bool)
    requires k < |Indexable(p)|
    ensures Others(SetLeaf(p, k, b)) == Others(p)
  {
    match p
    case Leaf(_, _) =>
    case And(l, r) =>
      if k < |Indexable(l)| { SetLeafOthers(l, k, b); } else { SetLeafOthers(r, k - |Indexable(l)|, b); }
    case Or(l, r) =>
      if k < |Indexable(l)| { SetLeafOthers(l, k, b); } else { SetLeafOthers(r, k - |Indexable(l)|, b); }
    case Not(s) => SetLeafOthers(s, k, b);
  }

  /** The index answers every query. */
  ghost predicate AnswersAll(index: Index) {
    forall path :: index(path)
  }

  /** Once all queries are answered, the indexable leaves count as the index knows them. */
  lemma {:induction false} OnlyFilledMatters(p: Pred, leaves: seq<nat>, v: Valuation, index: Index, path: seq<bool>)
    requires AnswersAll(index)
    requires forall id | id in Others(p) :: id !in leaves
    ensures Returned(p, v, index, path, AskedLeaf) == Returned(p, Filled(leaves, v), index, path, AskedLeaf)
    decreases |Indexable(p)|
  {
    var w := Filled(leaves, v);
    if Indexable(p) == [] {
      IdsAreBoth(p);
      EvalDependsOnIds(p, v, w);
    } else {
      var k, b := Position(p, AskedLeaf), v(NextLeaf(p)) == True;
      ContinueHasLess(p, AskedLeaf, b);
      SetLeafOthers(p, k, b);
      OptimizedOthers(SetLeaf(p, k, b));
      OnlyFilledMatters(Continue(p, AskedLeaf, b), leaves, v, index, path + [b]);
    }
  }

  /**
   With an index that answers every query, and the asked leaf replaced, a document is returned if and only if the
   predicate checks true on it as the index knows it: so the answer is right exactly if filling in false for
   the missing values of indexable leaves does not change the truth of the predicate.
   */
  lemma ReturnedAsFilled(p: Pred, v: Valuation, index: Index, path: seq<bool>)
    requires Consistent(p) && AnswersAll(index) && Clear(p, Filled(Indexable(p), v), false)
    ensures Returned(p, v, index, path, AskedLeaf) == Check(p, Filled(Indexable(p), v))
  {
    OnlyFilledMatters(p, Indexable(p), v, index, path);
    ReturnsWhatChecks(p, Filled(Indexable(p), v), index, path, AskedLeaf);
  }

  /** No indexable leaf is negated an odd number of times, with no connective in between. */
  predicate NegatesNone(p: Pred, negated: bool) {
    match p
    case Const(_) => true
    case Leaf(_, indexable) => !(negated && indexable)
    case And(l, r) => NegatesNone(l, false) && NegatesNone(r, false)
    case Or(l, r) => NegatesNone(l, false) && NegatesNone(r, false)
    case Not(s) => NegatesNone(s, !negated)
  }

  /** The leaf f is such a leaf. */
  predicate Negates(p: Pred, f: nat, negated: bool) {
    match p
    case Const(_) => false
    case Leaf(id, indexable) => negated && indexable && id == f
    case And(l, r) => Negates(l, f, false) || Negates(r, f, false)
    case Or(l, r) => Negates(l, f, false) || Negates(r, f, false)
    case Not(s) => Negates(s, f, !negated)
  }

  lemma {:induction false} NegatedLeaf(p: Pred, negated: bool) returns (f: nat)
    requires !NegatesNone(p, negated)
    ensures Negates(p, f, negated)
  {
    match p
    case Leaf(id, _) => f := id;
    case And(l, r) => if NegatesNone(l, false) { f := NegatedLeaf(r, false); } else { f := NegatedLeaf(l, false); }
    case Or(l, r) => if NegatesNone(l, false) { f := NegatedLeaf(r, false); } else { f := NegatedLeaf(l, false); }
    case Not(s) => f := NegatedLeaf(s, !negated);
  }

  /** Where no indexable leaf is negated, filling in false changes nothing. */
  lemma {:induction false} FilledIsSame(p: Pred, leaves: seq<nat>, v: Valuation, negated: bool)
    requires NegatesNone(p, negated) && forall id | id in Others(p) :: id !in leaves
    ensures Same(Eval(p, Filled(leaves, v)), Eval(p, v), negated)
  {
    match p
    case Const(_) =>
    case Leaf(_, _) =>
    case And(l, r) => FilledIsSame(l, leaves, v, false); FilledIsSame(r, leaves, v, false);
    case Or(l, r) => FilledIsSame(l, leaves, v, false); FilledIsSame(r, leaves, v, false);
    case Not(s) => FilledIsSame(s, leaves, v, !negated);
  }

  function Put(v: Valuation, f: nat, value: Tri): Valuation {
    (id: nat) => if id == f then value else v(id)
  }

  lemma {:induction false} NegatedIsIndexable(p: Pred, f: nat, negated: bool)
    requires Negates(p, f, negated)
    ensures f in Indexable(p) && f in Ids(p)
  {
    match p
    case Leaf(_, _) =>
    case And(l, r) => if Negates(l, f, false) { NegatedIsIndexable(l, f, false); } else { NegatedIsIndexable(r, f, false); }
    case Or(l, r) => if Negates(l, f, false) { NegatedIsIndexable(l, f, false); } else { NegatedIsIndexable(r, f, false); }
    case Not(s) => NegatedIsIndexable(s, f, !negated);
  }

  /** To a connective around its negation, a leaf without a boolean value is as good as a true one. */
  lemma {:induction false} MissingActsAsTrue(p: Pred, f: nat, v: Valuation, negated: bool)
    requires ReadOnce(p) && Negates(p, f, negated)
    ensures Same(Eval(p, Put(v, f, NonBool)), Eval(p, Put(v, f, True)), negated)
    decreases Size(p)
  {
    var x, y := Put(v, f, NonBool), Put(v, f, True);
    match p
    case Leaf(_, _) =>
    case And(l, r) => OneSideActs(l, r, f, v);
    case Or(l, r) => OneSideActs(l, r, f, v);
    case Not(s) => MissingActsAsTrue(s, f, v, !negated);
  }

  lemma {:induction false} OneSideActs(l: Pred, r: Pred, f: nat, v: Valuation)
    requires ReadOnce(l) && ReadOnce(r) && (forall id | id in Ids(l) :: id !in Ids(r))
    requires Negates(l, f, false) || Negates(r, f, false)
    ensures Same(Eval(l, Put(v, f, NonBool)), Eval(l, Put(v, f, True)), false)
    ensures Same(Eval(r, Put(v, f, NonBool)), Eval(r, Put(v, f, True)), false)
    decreases Size(l) + Size(r)
  {
    if Negates(l, f, false) {
      NegatedIsIndexable(l, f, false);
      MissingActsAsTrue(l, f, v, false);
      EvalDependsOnIds(r, Put(v, f, NonBool), Put(v, f, True));
    } else {
      NegatedIsIndexable(r, f, false);
      MissingActsAsTrue(r, f, v, false);
      EvalDependsOnIds(l, Put(v, f, NonBool), Put(v, f, True));
    }
  }

  /** With a negated indexable leaf, some document without a value for it gets the wrong answer. */
  lemma MissingValueIsWrong(p: Pred, f: nat, index: Index, path: seq<bool>) returns (v: Valuation)
    requires ReadOnce(p) && Consistent(p) && AnswersAll(index) && Negates(p, f, false)
    ensures Clear(p, Filled(Indexable(p), v), false) && Returned(p, v, index, path, AskedLeaf) != Check(p, v)
  {
    NegatedIsIndexable(p, f, false);
    var base := DependsOnLeaf(p, f);
    v := Put(base, f, NonBool);
    var filled, missing := Filled(Indexable(p), v), Put(base, f, True);
    TwoValuedIsClear(p, filled);
    ReturnedAsFilled(p, v, index, path);
    MissingActsAsTrue(p, f, base, false);
    TwoValuedIsClear(p, missing);
    EvalDependsOnIds(p, missing, if base(f) == True then base else Flip(base, f));
    EvalDependsOnIds(p, filled, if base(f) == True then Flip(base, f) else base);
  }

  /**
   For predicates without constants and without repeated expressions, replacing the asked leaf is right on all
   documents that are clear to the index if and only if no indexable leaf is negated.
   */
  lemma RightIffNoneNegated(p: Pred, index: Index, path: seq<bool>)
    requires ReadOnce(p) && Consistent(p) && AnswersAll(index)
    ensures (forall v: Valuation | Clear(p, Filled(Indexable(p), v), false) :: Returned(p, v, index, path, AskedLeaf) == Check(p, v))
            <==> NegatesNone(p, false)
  {
    if !NegatesNone(p, false) {
      var f := NegatedLeaf(p, false);
      var v := MissingValueIsWrong(p, f, index, path);
    } else {
      forall v: Valuation | Clear(p, Filled(Indexable(p), v), false)
        ensures Returned(p, v, index, path, AskedLeaf) == Check(p, v)
      {
        ReturnedAsFilled(p, v, index, path);
        FilledIsSame(p, Indexable(p), v, false);
      }
    }
  }

  /** If there is but one leaf to ask for, the first one is the asked one. */
  lemma OneLeafIsAsked(p: Pred, v: Valuation, index: Index, path: seq<bool>)
    requires |Indexable(p)| <= 1
    ensures Returned(p, v, index, path, FirstLeaf) == Returned(p, v, index, path, AskedLeaf)
  {
    if Indexable(p) != [] {
      forall b: bool ensures Continue(p, FirstLeaf, b) == Continue(p, AskedLeaf, b) && Indexable(Continue(p, FirstLeaf, b)) == [] {
        ContinueHasLess(p, FirstLeaf, b);
      }
    }
  }

  // ---------------------------------------------------------------------------------------------
  // What the optimizer makes of one constant
  // ---------------------------------------------------------------------------------------------

  /** The constant that is left of the predicate when the one indexable leaf becomes b, if it becomes constant. */
  function Passed(p: Pred, b: bool): Option<bool>
    requires |Indexable(p)| == 1
  {
    match p
    case Leaf(_, _) => Some(b)
    case And(l, r) => Absorbed(if Indexable(l) != [] then Passed(l, b) else Passed(r, b), false)
    case Or(l, r) => Absorbed(if Indexable(l) != [] then Passed(l, b) else Passed(r, b), true)
    case Not(s) => if Passed(s, b).Some? then Some(!Passed(s, b).value) else None
  }

  function Absorbed(c: Option<bool>, absorbing: bool): Option<bool> {
    if c == Some(absorbing) then c else None
  }

  /** A leaf under any number of negations: what can have a value that is not boolean. */
  predicate IsBareLeaf(p: Pred) {
    match p
    case Leaf(_, _) => true
    case Not(s) => IsBareLeaf(s)
    case _ => false
  }

  /**
   The constant b makes a connective that is negated an odd number of times give way to a bare leaf: the connective
   took a missing value for false, the leaf passes it on.
   */
  predicate Exposes(p: Pred, b: bool, negated: bool)
    requires |Indexable(p)| == 1
    decreases p, 0
  {
    match p
    case Leaf(_, _) => false
    case And(l, r) => if Indexable(l) != [] then ExposesBeside(l, r, b, true, negated) else ExposesBeside(r, l, b, true, negated)
    case Or(l, r) => if Indexable(l) != [] then ExposesBeside(l, r, b, false, negated) else ExposesBeside(r, l, b, false, negated)
    case Not(s) => Exposes(s, b, !negated)
  }

  predicate ExposesBeside(side: Pred, other: Pred, b: bool, neutral: bool, negated: bool)
    requires |Indexable(side)| == 1
    decreases side, 1
  {
    Exposes(side, b, false) || (negated && Passed(side, b) == Some(neutral) && IsBareLeaf(other))
  }

  /** An odd number of negations stands in front. */
  predicate IsNegation(p: Pred) {
    p.Not? && !IsNegation(p.sub)
  }

  /** The part that stands below the negation is a negation itself once the one indexable leaf is b. */
  predicate BecomesNegation(p: Pred, b: bool)
    requires |Indexable(p)| == 1
  {
    match p
    case Leaf(_, _) => false
    case And(l, r) => if Indexable(l) != [] then Passed(l, b) == Some(true) && IsNegation(r) else Passed(r, b) == Some(true) && IsNegation(l)
    case Or(l, r) => if Indexable(l) != [] then Passed(l, b) == Some(false) && IsNegation(r) else Passed(r, b) == Some(false) && IsNegation(l)
    case Not(s) => !BecomesNegation(s, b)
  }

  /**
   The executor keeps the optimized copy: the constant b reaches the connective at the top, or there are two negations
   to take out at the top.
   */
  predicate KeepsCopy(p: Pred, b: bool)
    requires |Indexable(p)| == 1
  {
    match p
    case Leaf(_, _) => false
    case And(l, r) => if Indexable(l) != [] then Passed(l, b).Some? else Passed(r, b).Some?
    case Or(l, r) => if Indexable(l) != [] then Passed(l, b).Some? else Passed(r, b).Some?
    case Not(s) => BecomesNegation(s, b)
  }

  /** The executor keeps the optimized copy, and a bare leaf shows up in it. */
  predicate IsMisled(p: Pred, b: bool)
    requires |Indexable(p)| == 1
  {
    KeepsCopy(p, b) && Exposes(p, b, false)
  }

  /** Without constants there is nothing to optimize but pairs of negations. */
  lemma {:induction false} OptimizedEval(p: Pred, v: Valuation)
    requires ReadOnce(p)
    ensures Eval(Optimized(p), v) == Eval(p, v) && !IsConst(Optimized(p))
    ensures Eval(p, v) == NonBool ==> IsBareLeaf(p)
  {
    match p
    case Leaf(_, _) =>
    case And(l, r) => OptimizedEval(l, v); OptimizedEval(r, v);
    case Or(l, r) => OptimizedEval(l, v); OptimizedEval(r, v);
    case Not(s) => OptimizedEval(s, v);
  }

  lemma {:induction false} PassedIsConst(p: Pred, b: bool, v: Valuation)
    requires ReadOnce(p) && |Indexable(p)| == 1
    ensures var q := SetLeaf(p, 0, b);
            && (IsConst(Optimized(q)) <==> Passed(p, b).Some?)
            && (Passed(p, b).Some? ==> ConstValue(Optimized(q)) == Passed(p, b).value && Eval(q, v) == FromBool(Passed(p, b).value))
  {
    match p
    case Leaf(_, _) =>
    case And(l, r) =>
      if Indexable(l) != [] { PassedIsConst(l, b, v); OptimizedEval(r, v); } else { OptimizedEval(l, v); PassedIsConst(r, b, v); }
    case Or(l, r) =>
      if Indexable(l) != [] { PassedIsConst(l, b, v); OptimizedEval(r, v); } else { OptimizedEval(l, v); PassedIsConst(r, b, v); }
    case Not(s) => PassedIsConst(s, b, v);
  }

  /** Of the negations in front the optimizer leaves at most one. */
  lemma {:induction false} OptimizedNegation(p: Pred)
    requires ReadOnce(p)
    ensures Optimized(p).Not? <==> IsNegation(p)
    ensures Optimized(p).Not? ==> !Optimized(p).sub.Not?
    decreases Size(p)
  {
    match p
    case Leaf(_, _) =>
    case And(l, r) => OptimizedEval(l, id => True); OptimizedEval(r, id => True);
    case Or(l, r) => OptimizedEval(l, id => True); OptimizedEval(r, id => True);
    case Not(s) => OptimizedNegation(s);
  }

  lemma {:induction false} OptimizedBecomesNegation(p: Pred, b: bool)
    requires ReadOnce(p) && |Indexable(p)| == 1
    ensures var q := Optimized(SetLeaf(p, 0, b)); (q.Not? <==> BecomesNegation(p, b)) && (q.Not? ==> !q.sub.Not?)
    decreases Size(p)
  {
    match p
    case Leaf(_, _) =>
    case And(l, r) =>
      var side, other := if Indexable(l) != [] then l else r, if Indexable(l) != [] then r else l;
      PassedIsConst(side, b, id => True);
      OptimizedEval(other, id => True);
      OptimizedNegation(other);
    case Or(l, r) =>
      var side, other := if Indexable(l) != [] then l else r, if Indexable(l) != [] then r else l;
      PassedIsConst(side, b, id => True);
      OptimizedEval(other, id => True);
      OptimizedNegation(other);
    case Not(s) => OptimizedBecomesNegation(s, b);
  }

  /** What `optimize` returns for the expression itself decides as its form does whether the copy is kept. */
  lemma CopyIsKeptIff(p: Pred, b: bool)
    requires ReadOnce(p) && |Indexable(p)| == 1
    ensures HasReplacement(SetLeaf(p, 0, b)) <==> KeepsCopy(p, b)
  {
    match p
    case Leaf(_, _) =>
    case And(l, r) =>
      PassedIsConst(if Indexable(l) != [] then l else r, b, id => True);
      OptimizedEval(if Indexable(l) != [] then r else l, id => True);
    case Or(l, r) =>
      PassedIsConst(if Indexable(l) != [] then l else r, b, id => True);
      OptimizedEval(if Indexable(l) != [] then r else l, id => True);
    case Not(s) => OptimizedBecomesNegation(s, b);
  }

  /** A kept copy misleads only if the predicate is a negation: what reaches a connective at the top exposes nothing. */
  lemma OnlyNegationsMislead(p: Pred, b: bool)
    requires |Indexable(p)| == 1
    ensures IsMisled(p, b) <==> p.Not? && BecomesNegation(p.sub, b) && Exposes(p.sub, b, true)
  {
    match p
    case And(l, r) =>
      var side := if Indexable(l) != [] then l else r;
      assert Exposes(p, b, false) ==> ExposesBeside(side, if Indexable(l) != [] then r else l, b, true, false);
      if Exposes(side, b, false) { ExposedIsNotConst(side, b, false); }
    case Or(l, r) =>
      var side := if Indexable(l) != [] then l else r;
      assert Exposes(p, b, false) ==> ExposesBeside(side, if Indexable(l) != [] then r else l, b, false, false);
      if Exposes(side, b, false) { ExposedIsNotConst(side, b, false); }
    case _ =>
  }

  /** Where no bare leaf shows up, the optimizer keeps what the predicate says, on all documents. */
  lemma {:induction false} UnexposedIsSame(p: Pred, b: bool, v: Valuation, negated: bool)
    requires ReadOnce(p) && |Indexable(p)| == 1 && !Exposes(p, b, negated)
    ensures var q := SetLeaf(p, 0, b); Same(Eval(Optimized(q), v), Eval(q, v), negated)
  {
    match p
    case Leaf(_, _) =>
    case And(l, r) =>
      var side, other := if Indexable(l) != [] then l else r, if Indexable(l) != [] then r else l;
      UnexposedIsSame(side, b, v, false);
      PassedIsConst(side, b, v);
      OptimizedEval(other, v);
    case Or(l, r) =>
      var side, other := if Indexable(l) != [] then l else r, if Indexable(l) != [] then r else l;
      UnexposedIsSame(side, b, v, false);
      PassedIsConst(side, b, v);
      OptimizedEval(other, v);
    case Not(s) => UnexposedIsSame(s, b, v, !negated);
  }

  lemma {:induction false} ExposedIsNotConst(p: Pred, b: bool, negated: bool)
    requires |Indexable(p)| == 1 && Exposes(p, b, negated)
    ensures Passed(p, b) == None
  {
    match p
    case And(l, r) =>
      var side := if Indexable(l) != [] then l else r;
      if Exposes(side, b, false) { ExposedIsNotConst(side, b, false); }
    case Or(l, r) =>
      var side := if Indexable(l) != [] then l else r;
      if Exposes(side, b, false) { ExposedIsNotConst(side, b, false); }
    case Not(s) => ExposedIsNotConst(s, b, !negated);
  }

  /** Where a bare leaf shows up, some document without a value for it tells the optimized predicate from the other. */
  lemma {:induction false} ExposedIsSeen(p: Pred, b: bool, negated: bool) returns (v: Valuation)
    requires ReadOnce(p) && |Indexable(p)| == 1 && Exposes(p, b, negated)
    ensures var q := SetLeaf(p, 0, b); !Same(Eval(Optimized(q), v), Eval(q, v), negated)
    decreases Size(p), 0
  {
    match p
    case And(l, r) => v := SeenBeside(if Indexable(l) != [] then l else r, if Indexable(l) != [] then r else l, b, true, negated);
    case Or(l, r) => v := SeenBeside(if Indexable(l) != [] then l else r, if Indexable(l) != [] then r else l, b, false, negated);
    case Not(s) => v := ExposedIsSeen(s, b, !negated);
  }

  /** Either the difference is in the one side, and the other side lets it through, or the other side is the bare leaf. */
  lemma {:induction false} SeenBeside(side: Pred, other: Pred, b: bool, neutral: bool, negated: bool) returns (v: Valuation)
    requires ReadOnce(side) && ReadOnce(other) && |Indexable(side)| == 1 && forall id | id in Ids(side) :: id !in Ids(other)
    requires ExposesBeside(side, other, b, neutral, negated)
    ensures var q := SetLeaf(side, 0, b);
            && (IsConst(Optimized(q)) <==> Passed(side, b).Some?)
            && (Passed(side, b).Some? ==> ConstValue(Optimized(q)) == Passed(side, b).value && Eval(q, v) == FromBool(Passed(side, b).value))
            && Eval(Optimized(other), v) == Eval(other, v) && !IsConst(Optimized(other))
            && if Exposes(side, b, false)
               then Passed(side, b) == None && !Same(Eval(Optimized(q), v), Eval(q, v), false) && Eval(other, v) == FromBool(neutral)
               else Eval(other, v) == NonBool
    decreases Size(side), 1
  {
    var q := SetLeaf(side, 0, b);
    if Exposes(side, b, false) {
      ExposedIsNotConst(side, b, false);
      var x := ExposedIsSeen(side, b, false);
      var y := CanBe(other, neutral);
      v := Join(Ids(side), x, y);
      SetLeafIds(side, 0, b);
      OptimizedIds(q);
      EvalDependsOnIds(q, v, x);
      EvalDependsOnIds(Optimized(q), v, x);
      EvalDependsOnIds(other, v, y);
      TwoValuedIsBoolean(other, y);
      BooleanIsClear(other, y, false);
    } else {
      v := id => NonBool;
      BareLeafIsMissing(other, v);
    }
    PassedIsConst(side, b, v);
    OptimizedEval(other, v);
  }

  lemma {:induction false} BareLeafIsMissing(p: Pred, v: Valuation)
    requires IsBareLeaf(p) && forall id :: v(id) == NonBool
    ensures Eval(p, v) == NonBool
  {
    match p
    case Leaf(_, _) =>
    case Not(s) => BareLeafIsMissing(s, v);
  }

  /** With one leaf for the index, the execution replaces it by its truth and checks what is left. */
  lemma OneStep(p: Pred, v: Valuation, index: Index, path: seq<bool>)
    requires |Indexable(p)| == 1 && index(path)
    ensures Returned(p, v, index, path, FirstLeaf) == Check(Simplified(SetLeaf(p, 0, v(Indexable(p)[0]) == True)), v)
  {
    ContinueHasLess(p, FirstLeaf, v(Indexable(p)[0]) == True);
  }

  /** The constant says what the leaf says on a document on which the leaf has that value. */
  lemma {:induction false} SetLeafEval(p: Pred, b: bool, v: Valuation)
    requires ReadOnce(p) && |Indexable(p)| == 1
    ensures Eval(SetLeaf(p, 0, b), v) == Eval(p, Put(v, Indexable(p)[0], FromBool(b)))
    decreases Size(p)
  {
    match p
    case Leaf(_, _) =>
    case And(l, r) => SideEval(l, r, b, v);
    case Or(l, r) => SideEval(l, r, b, v);
    case Not(s) => SetLeafEval(s, b, v);
  }

  lemma {:induction false} SideEval(l: Pred, r: Pred, b: bool, v: Valuation)
    requires ReadOnce(l) && ReadOnce(r) && |Indexable(l) + Indexable(r)| == 1 && forall id | id in Ids(l) :: id !in Ids(r)
    ensures var w := Put(v, (Indexable(l) + Indexable(r))[0], FromBool(b));
            if Indexable(l) != [] then Eval(SetLeaf(l, 0, b), v) == Eval(l, w) && Eval(r, v) == Eval(r, w)
            else Eval(l, v) == Eval(l, w) && Eval(SetLeaf(r, 0, b), v) == Eval(r, w)
    decreases Size(l) + Size(r)
  {
    var w := Put(v, (Indexable(l) + Indexable(r))[0], FromBool(b));
    if Indexable(l) != [] {
      IndexableAreIds(l);
      SetLeafEval(l, b, v);
      EvalDependsOnIds(r, v, w);
    } else {
      IndexableAreIds(r);
      SetLeafEval(r, b, v);
      EvalDependsOnIds(l, v, w);
    }
  }

  /** An optimized copy that is kept and shows a bare leaf gives some document the wrong answer. */
  lemma MisledIsWrong(p: Pred, b: bool, index: Index, path: seq<bool>) returns (v: Valuation)
    requires ReadOnce(p) && |Indexable(p)| == 1 && index(path) && IsMisled(p, b)
    ensures Returned(p, v, index, path, FirstLeaf) != Check(p, v)
  {
    var q, f := SetLeaf(p, 0, b), Indexable(p)[0];
    var u := ExposedIsSeen(p, b, false);
    v := Put(u, f, FromBool(b));
    SetLeafIds(p, 0, b);
    OptimizedIds(q);
    EvalDependsOnIds(q, u, v);
    EvalDependsOnIds(Optimized(q), u, v);
    SetLeafEval(p, b, v);
    EvalDependsOnIds(p, v, Put(v, f, FromBool(b)));
    CopyIsKeptIff(p, b);
    OneStep(p, v, index, path);
  }

  lemma KeptCopyIsSame(p: Pred, b: bool, v: Valuation)
    requires ReadOnce(p) && |Indexable(p)| == 1 && !IsMisled(p, b)
    ensures Check(Simplified(SetLeaf(p, 0, b)), v) == Check(SetLeaf(p, 0, b), v)
  {
    CopyIsKeptIff(p, b);
    if KeepsCopy(p, b) {
      UnexposedIsSame(p, b, v, false);
    }
  }

  lemma FillOne(p: Pred, v: Valuation)
    requires Consistent(p) && |Indexable(p)| == 1 && NegatesNone(p, false)
    ensures var f := Indexable(p)[0]; Check(p, Put(v, f, FromBool(v(f) == True))) == Check(p, v)
  {
    var f := Indexable(p)[0];
    EvalDependsOnIds(p, Put(v, f, FromBool(v(f) == True)), Filled([f], v));
    FilledIsSame(p, [f], v, false);
  }

  /** Without a negation around the leaf and without a misleading copy the answer is right on every document. */
  lemma OneLeafIsRight(p: Pred, v: Valuation, index: Index, path: seq<bool>)
    requires ReadOnce(p) && Consistent(p) && |Indexable(p)| == 1 && index(path)
    requires NegatesNone(p, false) && !IsMisled(p, true) && !IsMisled(p, false)
    ensures Returned(p, v, index, path, FirstLeaf) == Check(p, v)
  {
    var f := Indexable(p)[0];
    var b := v(f) == True;
    OneStep(p, v, index, path);
    KeptCopyIsSame(p, b, v);
    SetLeafEval(p, b, v);
    FillOne(p, v);
  }

  /**
   The exact condition for the execution as it is. For predicates without constants and repeated expressions it is
   right on all documents, with and without values, if and only if there is at most one leaf for the index, this leaf
   is not negated, and neither of its truth values makes the executor keep a copy in which a bare leaf shows up.
   */
  lemma MixedExecutionIsRightIff(p: Pred, index: Index, path: seq<bool>)
    requires ReadOnce(p) && Consistent(p) && AnswersAll(index)
    ensures (forall v: Valuation :: Returned(p, v, index, path, FirstLeaf) == Check(p, v)) <==>
            |Indexable(p)| <= 1 && NegatesNone(p, false) && (|Indexable(p)| == 1 ==> !IsMisled(p, true) && !IsMisled(p, false))
  {
    if |Indexable(p)| >= 2 {
      var v := FirstLeafIsIgnored(p, index, path);
    } else if !NegatesNone(p, false) {
      var f := NegatedLeaf(p, false);
      var v := MissingValueIsWrong(p, f, index, path);
      OneLeafIsAsked(p, v, index, path);
    } else if |Indexable(p)| == 1 {
      if b: bool :| IsMisled(p, b) {
        var v := MisledIsWrong(p, b, index, path);
      } else {
        forall v: Valuation ensures Returned(p, v, index, path, FirstLeaf) == Check(p, v) {
          OneLeafIsRight(p, v, index, path);
        }
      }
    }
  }

  /** x && !a where a compares a missing attribute: the index takes it for false, so that the document is returned. */
  lemma NegatedNullIsReturned(index: Index)
    requires AnswersAll(index)
    ensures var p := And(Leaf(0, false), Not(Leaf(1, true)));
            var v: Valuation := id => if id == 0 then True else NonBool;
            Returned(p, v, index, [], FirstLeaf) && !Check(p, v)
  {
    var v: Valuation := id => if id == 0 then True else NonBool;
    var p := And(Leaf(0, false), Not(Leaf(1, true)));
    OneStep(p, v, index, []);
    assert Simplified(SetLeaf(p, 0, false)) == Leaf(0, false);
  }

  /**
   !(b && !x) where b is true and x compares a missing attribute: the optimizer takes the answered leaf and then the
   two negations out, and keeps x, which is not true, so that the document is not returned.
   */
  lemma OptimizerLosesDocument(index: Index)
    requires AnswersAll(index)
    ensures var p := Not(And(Leaf(0, true), Not(Leaf(1, false))));
            var v: Valuation := id => if id == 0 then True else NonBool;
            !Returned(p, v, index, [], FirstLeaf) && Check(p, v) && IsMisled(p, true)
  {
    var v: Valuation := id => if id == 0 then True else NonBool;
    var p := Not(And(Leaf(0, true), Not(Leaf(1, false))));
    OneStep(p, v, index, []);
    assert Simplified(SetLeaf(p, 0, true)) == Leaf(1, false);
  }

  /** Without the inner negation the optimized copy is dropped: !(b && x) is right on all documents. */
  lemma DroppedCopyIsRight(index: Index, v: Valuation)
    requires AnswersAll(index)
    ensures var p := Not(And(Leaf(0, true), Leaf(1, false)));
            Exposes(p, true, false) && !IsMisled(p, true) && Returned(p, v, index, [], FirstLeaf) == Check(p, v)
  {
    var p := Not(And(Leaf(0, true), Leaf(1, false)));
    assert Optimized(And(Const(true), Leaf(1, false))) == Leaf(1, false);
    assert Optimized(And(Const(false), Leaf(1, false))) == Const(false);
    OneLeafIsRight(p, v, index, []);
  }

  /**
   x && !(a && b) where a and x are true and b compares a missing attribute: the constant for a does not reach the
   conjunction at the top, so that the copy, which says x && !b, is dropped, and the document is returned.
   */
  lemma DroppedCopyKeepsDocument(index: Index)
    requires AnswersAll(index)
    ensures var p := And(Leaf(2, false), Not(And(Leaf(0, true), Leaf(1, false))));
            var v: Valuation := id => if id == 1 then NonBool else True;
            && Returned(p, v, index, [], FirstLeaf) && Check(p, v)
            && Exposes(p, true, false) && !KeepsCopy(p, true) && !Check(Optimized(SetLeaf(p, 0, true)), v)
  {
    var v: Valuation := id => if id == 1 then NonBool else True;
    var inner := And(Leaf(0, true), Leaf(1, false));
    var p := And(Leaf(2, false), Not(inner));
    assert Optimized(SetLeaf(inner, 0, true)) == Leaf(1, false);
    assert SetLeaf(p, 0, true) == And(Leaf(2, false), Not(SetLeaf(inner, 0, true)));
    assert Passed(Not(inner), true) == None;
    CopyIsKeptIff(p, true);
    OneStep(p, v, index, []);
  }
}
