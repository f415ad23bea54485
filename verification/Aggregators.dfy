/**
 The aggregators COUNT, DISTINCT, COLLECT and GROUP, nested to any depth. Worker threads accumulate batches of
 documents in aggregators of their own, and one thread merges these; the result must be that of one sequential fold.
 */
module Aggregators {
  import opened Options

  /** JSON values as far as the aggregators tell them apart; numbers are compared as reals. */
  datatype Json = Null | Bool(truth: bool) | Num(number: real) | Str(text: string) | Structure(id: nat)

  /** The values of all parameter expressions on one document; None is a null pointer. */
  type Doc = nat -> Option<Json>

  /** An aggregator as it is written in a query; a parameter is the number of its expression. */
  datatype Proto =
    | Count(counted: Option<nat>)
    | Distinct(param: nat, stringEnabled: bool, boolEnabled: bool, numEnabled: bool)
    | Collect(collected: nat)
    | Group(groupBy: nat, proto: Proto)

  /**
   What an aggregator has computed. The groups for strings, for numbers, for true and for false are one map
   whose keys are the JSON values.
   */
  datatype State =
    | CountState(count: nat)
    | DistinctState(strSet: set<string>, numSet: set<real>, hasTrue: bool, hasFalse: bool)
    | CollectState(list: seq<Json>)
    | GroupState(groups: map<Json, State>)

  /** The values that GROUP makes groups for. */
  predicate IsKey(value: Option<Json>) {
    value.Some? && (value.value.Str? || value.value.Num? || value.value.Bool?)
  }

  /** An aggregator that has seen no document. */
  function Fresh(p: Proto): State {
    match p
    case Count(_) => CountState(0)
    case Distinct(_, _, _, _) => DistinctState({}, {}, false, false)
    case Collect(_) => CollectState([])
    case Group(_, _) => GroupState(map[])
  }

  function GroupOf(p: Proto, groups: map<Json, State>, key: Json): State {
    if key in groups then groups[key] else Fresh(p)
  }

  function Accumulate(p: Proto, s: State, doc: Doc): State {
    match (p, s)
    case (Count(param), CountState(count)) =>
      CountState(if param == None || doc(param.value).Some? then count + 1 else count)
    case (Distinct(param, strings, bools, nums), DistinctState(strSet, numSet, hasTrue, hasFalse)) =>
      (match doc(param)
       case Some(Str(text)) => if strings then s.(strSet := strSet + {text}) else s
       case Some(Bool(truth)) =>
         if !bools then s else if truth then s.(hasTrue := true) else s.(hasFalse := true)
       case Some(Num(number)) => if nums then s.(numSet := numSet + {number}) else s
       case _ => s)
    case (Collect(param), CollectState(list)) => CollectState(list + [Collected(doc, param)])
    case (Group(key, inner), GroupState(groups)) =>
      if IsKey(doc(key)) then
        GroupState(groups[doc(key).value := Accumulate(inner, GroupOf(inner, groups, doc(key).value), doc)])
      else s
    case _ => s
  }

  function Collected(doc: Doc, param: nat): Json {
    if doc(param).Some? then doc(param).value else Null
  }

  /** a after taking in all of b. */
  function Merge(p: Proto, a: State, b: State): State
    decreases p
  {
    match (p, a, b)
    case (Count(_), CountState(m), CountState(n)) => CountState(m + n)
    case (Distinct(_, _, _, _), DistinctState(s0, n0, t0, f0), DistinctState(s1, n1, t1, f1)) =>
      DistinctState(s0 + s1, n0 + n1, t0 || t1, f0 || f1)
    case (Collect(_), CollectState(x), CollectState(y)) => CollectState(x + y)
    case (Group(_, inner), GroupState(g), GroupState(h)) =>
      GroupState(map k | k in g.Keys + h.Keys :: if k !in h then g[k] else if k !in g then h[k] else Merge(inner, g[k], h[k]))
    case _ => a
  }

  function Fold(p: Proto, docs: seq<Doc>): State {
    if docs == [] then Fresh(p) else Accumulate(p, Fold(p, docs[..|docs| - 1]), docs[|docs| - 1])
  }

  // ---------------------------------------------------------------------------------------------
  // What an aggregator computes
  // ---------------------------------------------------------------------------------------------

  /** The documents on which an expression has a given value. */
  function Having(docs: seq<Doc>, param: nat, value: Json): seq<Doc> {
    if docs == [] then []
    else Having(docs[..|docs| - 1], param, value) +
         if docs[|docs| - 1](param) == Some(value) then [docs[|docs| - 1]] else []
  }

  ghost predicate Occurs(docs: seq<Doc>, param: nat, value: Json) {
    exists i :: 0 <= i < |docs| && docs[i](param) == Some(value)
  }

  /** The number of documents that satisfy a condition. */
  ghost function Number(docs: seq<Doc>, condition: Doc -> bool): nat {
    if docs == [] then 0
    else Number(docs[..|docs| - 1], condition) + if condition(docs[|docs| - 1]) then 1 else 0
  }

  ghost predicate IsCounted(doc: Doc, param: Option<nat>) {
    param.Some? ==> doc(param.value).Some?
  }

  ghost function Texts(docs: seq<Doc>, param: nat): set<string> {
    set i | 0 <= i < |docs| && docs[i](param).Some? && docs[i](param).value.Str? :: docs[i](param).value.text
  }

  ghost function Numbers(docs: seq<Doc>, param: nat): set<real> {
    set i | 0 <= i < |docs| && docs[i](param).Some? && docs[i](param).value.Num? :: docs[i](param).value.number
  }

  ghost function Keys(docs: seq<Doc>, param: nat): set<Json> {
    set i | 0 <= i < |docs| && IsKey(docs[i](param)) :: docs[i](param).value
  }

  /**
   The result without reference to the order of accumulation: a count, the sets of values, the list of
   values, and for GROUP one inner result for each key, computed from the documents with that key.
   */
  ghost function Denote(p: Proto, docs: seq<Doc>): State {
    match p
    case Count(param) => CountState(Number(docs, doc => IsCounted(doc, param)))
    case Distinct(param, strings, bools, nums) =>
      DistinctState(if strings then Texts(docs, param) else {}, if nums then Numbers(docs, param) else {},
                    bools && Occurs(docs, param, Bool(true)), bools && Occurs(docs, param, Bool(false)))
    case Collect(param) =>
      CollectState(seq(|docs|, i requires 0 <= i < |docs| => Collected(docs[i], param)))
    case Group(key, inner) =>
      GroupState(map k | k in Keys(docs, key) :: Denote(inner, Having(docs, key, k)))
  }

  lemma {:induction false} HavingNone(docs: seq<Doc>, param: nat, value: Json)
    requires !Occurs(docs, param, value)
    ensures Having(docs, param, value) == []
  {
    if docs != [] {
      var front := docs[..|docs| - 1];
      assert forall i :: 0 <= i < |front| ==> front[i] == docs[i];
      HavingNone(front, param, value);
    }
  }

  lemma {:induction false} HavingAppend(a: seq<Doc>, b: seq<Doc>, param: nat, value: Json)
    ensures Having(a + b, param, value) == Having(a, param, value) + Having(b, param, value)
  {
    if b == [] {
      assert a + b == a;
    } else {
      assert (a + b)[..|a + b| - 1] == a + b[..|b| - 1];
      HavingAppend(a, b[..|b| - 1], param, value);
    }
  }

  lemma {:induction false} NumberAppend(a: seq<Doc>, b: seq<Doc>, condition: Doc -> bool)
    ensures Number(a + b, condition) == Number(a, condition) + Number(b, condition)
  {
    if b == [] {
      assert a + b == a;
    } else {
      assert (a + b)[..|a + b| - 1] == a + b[..|b| - 1];
      NumberAppend(a, b[..|b| - 1], condition);
    }
  }

  lemma OccursAppend(a: seq<Doc>, b: seq<Doc>, param: nat, value: Json)
    ensures Occurs(a + b, param, value) <==> Occurs(a, param, value) || Occurs(b, param, value)
  {
    if Occurs(b, param, value) {
      var i :| 0 <= i < |b| && b[i](param) == Some(value);
      assert (a + b)[|a| + i](param) == Some(value);
    }
    if Occurs(a, param, value) {
      var i :| 0 <= i < |a| && a[i](param) == Some(value);
      assert (a + b)[i](param) == Some(value);
    }
  }

  lemma KeysOccur(docs: seq<Doc>, param: nat)
    ensures forall k :: k in Keys(docs, param) <==> IsKey(Some(k)) && Occurs(docs, param, k)
  {
  }

  lemma KeysAppend(a: seq<Doc>, b: seq<Doc>, param: nat)
    ensures Keys(a + b, param) == Keys(a, param) + Keys(b, param)
  {
    KeysOccur(a, param);
    KeysOccur(b, param);
    KeysOccur(a + b, param);
    forall k ensures k in Keys(a + b, param) <==> k in Keys(a, param) || k in Keys(b, param) {
      OccursAppend(a, b, param, k);
    }
  }

  lemma TextsAppend(a: seq<Doc>, b: seq<Doc>, param: nat)
    ensures Texts(a + b, param) == Texts(a, param) + Texts(b, param)
    ensures Numbers(a + b, param) == Numbers(a, param) + Numbers(b, param)
  {
    forall ds: seq<Doc>, t: string ensures t in Texts(ds, param) <==> Occurs(ds, param, Str(t)) {
    }
    forall ds: seq<Doc>, n: real ensures n in Numbers(ds, param) <==> Occurs(ds, param, Num(n)) {
    }
    forall t: string ensures t in Texts(a + b, param) <==> t in Texts(a, param) || t in Texts(b, param) {
      OccursAppend(a, b, param, Str(t));
    }
    forall n: real ensures n in Numbers(a + b, param) <==> n in Numbers(a, param) || n in Numbers(b, param) {
      OccursAppend(a, b, param, Num(n));
    }
  }

  lemma OneDocument(d: Doc, param: nat)
    ensures Texts([d], param) == if d(param).Some? && d(param).value.Str? then {d(param).value.text} else {}
    ensures Numbers([d], param) == if d(param).Some? && d(param).value.Num? then {d(param).value.number} else {}
    ensures Keys([d], param) == if IsKey(d(param)) then {d(param).value} else {}
    ensures forall v :: Occurs([d], param, v) <==> d(param) == Some(v)
  {
    assert [d][0] == d;
  }

  lemma FreshIsEmpty(p: Proto)
    ensures Fresh(p) == Denote(p, [])
  {
    match p
    case Count(_) =>
    case Distinct(_, _, _, _) =>
    case Collect(_) =>
    case Group(key, _) =>
      KeysOccur([], key);
  }

  /** Merging the results on two sequences of documents gives the result on their concatenation. */
  lemma {:induction false} MergeIsConcatenation(p: Proto, a: seq<Doc>, b: seq<Doc>)
    ensures Merge(p, Denote(p, a), Denote(p, b)) == Denote(p, a + b)
    decreases p, 1
  {
    match p
    case Count(param) =>
      NumberAppend(a, b, doc => IsCounted(doc, param));
    case Distinct(param, _, _, _) =>
      TextsAppend(a, b, param);
      OccursAppend(a, b, param, Bool(true));
      OccursAppend(a, b, param, Bool(false));
    case Collect(_) =>
    case Group(key, inner) =>
      GroupMerge(key, inner, a, b);
  }

  lemma {:induction false} GroupMerge(key: nat, inner: Proto, a: seq<Doc>, b: seq<Doc>)
    ensures Merge(Group(key, inner), Denote(Group(key, inner), a), Denote(Group(key, inner), b)) == Denote(Group(key, inner), a + b)
    decreases inner, 3
  {
    var p := Group(key, inner);
    var g, h, merged := Denote(p, a).groups, Denote(p, b).groups, Denote(p, a + b).groups;
    KeysAppend(a, b, key);
    assert merged.Keys == g.Keys + h.Keys;
    forall k | k in merged
      ensures merged[k] == if k !in h then g[k] else if k !in g then h[k] else Merge(inner, g[k], h[k])
    {
      MergeOfGroup(inner, a, b, key, k);
    }
    assert Merge(p, GroupState(g), GroupState(h)).groups == merged;
  }

  lemma {:induction false} MergeOfGroup(inner: Proto, a: seq<Doc>, b: seq<Doc>, key: nat, k: Json)
    requires k in Keys(a + b, key)
    ensures Denote(inner, Having(a + b, key, k)) ==
            if k !in Keys(b, key) then Denote(inner, Having(a, key, k))
            else if k !in Keys(a, key) then Denote(inner, Having(b, key, k))
            else Merge(inner, Denote(inner, Having(a, key, k)), Denote(inner, Having(b, key, k)))
    decreases inner, 2
  {
    KeysOccur(a + b, key);
    KeysOccur(a, key);
    KeysOccur(b, key);
    HavingAppend(a, b, key, k);
    if !Occurs(b, key, k) {
      HavingNone(b, key, k);
      assert Having(a + b, key, k) == Having(a, key, k);
    } else if !Occurs(a, key, k) {
      HavingNone(a, key, k);
      assert Having(a + b, key, k) == Having(b, key, k);
    } else {
      MergeIsConcatenation(inner, Having(a, key, k), Having(b, key, k));
    }
  }

  /** Accumulating a document extends the sequence by it. */
  lemma {:induction false} AccumulateIsAppend(p: Proto, docs: seq<Doc>, d: Doc)
    ensures Accumulate(p, Denote(p, docs), d) == Denote(p, docs + [d])
    decreases p, 1
  {
    match p
    case Count(param) =>
      NumberAppend(docs, [d], doc => IsCounted(doc, param));
      assert [d][..0] == [];
    case Distinct(param, _, _, _) =>
      DistinctIsAppend(p, docs, d);
    case Collect(_) =>
    case Group(key, inner) =>
      GroupIsAppend(key, inner, docs, d);
  }

  lemma DistinctIsAppend(p: Proto, docs: seq<Doc>, d: Doc)
    requires p.Distinct?
    ensures Accumulate(p, Denote(p, docs), d) == Denote(p, docs + [d])
  {
    OneDocument(d, p.param);
    TextsAppend(docs, [d], p.param);
    OccursAppend(docs, [d], p.param, Bool(true));
    OccursAppend(docs, [d], p.param, Bool(false));
  }

  lemma {:induction false} GroupIsAppend(key: nat, inner: Proto, docs: seq<Doc>, d: Doc)
    ensures Accumulate(Group(key, inner), Denote(Group(key, inner), docs), d) == Denote(Group(key, inner), docs + [d])
    decreases inner, 3
  {
    var p := Group(key, inner);
    var groups, grown := Denote(p, docs).groups, Denote(p, docs + [d]).groups;
    KeysGrow(docs, d, key);
    assert grown.Keys == groups.Keys + if IsKey(d(key)) then {d(key).value} else {};
    forall k | k in grown
      ensures grown[k] == if d(key) == Some(k) then Accumulate(inner, GroupOf(inner, groups, k), d) else groups[k]
    {
      AccumulateInGroup(inner, docs, d, key, k);
    }
    if IsKey(d(key)) {
      assert Accumulate(p, GroupState(groups), d).groups == grown;
    } else {
      assert groups == grown;
    }
  }

  lemma KeysGrow(docs: seq<Doc>, d: Doc, key: nat)
    ensures Keys(docs + [d], key) == Keys(docs, key) + if IsKey(d(key)) then {d(key).value} else {}
  {
    OneDocument(d, key);
    KeysAppend(docs, [d], key);
  }

  lemma {:induction false} AccumulateInGroup(inner: Proto, docs: seq<Doc>, d: Doc, key: nat, k: Json)
    requires k in Keys(docs + [d], key)
    ensures d(key) != Some(k) ==> k in Keys(docs, key)
    ensures Denote(inner, Having(docs + [d], key, k)) ==
            if d(key) != Some(k) then Denote(inner, Having(docs, key, k))
            else Accumulate(inner, if k in Keys(docs, key) then Denote(inner, Having(docs, key, k)) else Fresh(inner), d)
    decreases inner, 2
  {
    OneDocument(d, key);
    KeysOccur(docs, key);
    KeysOccur(docs + [d], key);
    OccursAppend(docs, [d], key, k);
    HavingAppend(docs, [d], key, k);
    assert [d][..0] == [];
    assert Having([d], key, k) == if d(key) == Some(k) then [d] else [];
    if d(key) == Some(k) {
      AccumulateIsAppend(inner, Having(docs, key, k), d);
      if !Occurs(docs, key, k) {
        HavingNone(docs, key, k);
        FreshIsEmpty(inner);
      }
    } else {
      assert Having(docs + [d], key, k) == Having(docs, key, k);
    }
  }

  /** The sequential fold computes what the aggregator stands for. */
  lemma {:induction false} FoldIsDenote(p: Proto, docs: seq<Doc>)
    ensures Fold(p, docs) == Denote(p, docs)
  {
    if docs == [] {
      FreshIsEmpty(p);
    } else {
      var front := docs[..|docs| - 1];
      FoldIsDenote(p, front);
      AccumulateIsAppend(p, front, docs[|docs| - 1]);
      assert front + [docs[|docs| - 1]] == docs;
    }
  }

  /** Two batches accumulated separately and merged give the fold of their concatenation. */
  lemma MergeOfFolds(p: Proto, a: seq<Doc>, b: seq<Doc>)
    ensures Merge(p, Fold(p, a), Fold(p, b)) == Fold(p, a + b)
  {
    FoldIsDenote(p, a);
    FoldIsDenote(p, b);
    FoldIsDenote(p, a + b);
    MergeIsConcatenation(p, a, b);
  }

  // ---------------------------------------------------------------------------------------------
  // What the results are
  // ---------------------------------------------------------------------------------------------

  lemma {:induction false} NumberIsSize(docs: seq<Doc>, condition: Doc -> bool)
    ensures Number(docs, condition) == |set i | 0 <= i < |docs| && condition(docs[i])|
  {
    if docs != [] {
      var front, n := docs[..|docs| - 1], |docs| - 1;
      NumberIsSize(front, condition);
      var before, all := (set i | 0 <= i < |front| && condition(front[i])), set i | 0 <= i < |docs| && condition(docs[i]);
      assert all == if condition(docs[n]) then before + {n} else before;
    }
  }

  /** COUNT is the number of the documents on which the expression has a value, or of all documents. */
  lemma CountMeans(param: Option<nat>, docs: seq<Doc>)
    ensures Fold(Count(param), docs) ==
            CountState(|set i | 0 <= i < |docs| && (param == None || docs[i](param.value) != None)|)
  {
    FoldIsDenote(Count(param), docs);
    NumberIsSize(docs, doc => IsCounted(doc, param));
    assert (set i | 0 <= i < |docs| && (doc => IsCounted(doc, param))(docs[i])) ==
           set i | 0 <= i < |docs| && (param == None || docs[i](param.value) != None);
  }

  /** DISTINCT has exactly the values of the enabled kinds that occur. */
  lemma DistinctMeans(param: nat, strings: bool, bools: bool, nums: bool, docs: seq<Doc>)
    ensures var s := Fold(Distinct(param, strings, bools, nums), docs);
            && s.DistinctState?
            && (forall t :: t in s.strSet <==> strings && exists i :: 0 <= i < |docs| && docs[i](param) == Some(Str(t)))
            && (forall n :: n in s.numSet <==> nums && exists i :: 0 <= i < |docs| && docs[i](param) == Some(Num(n)))
            && (s.hasTrue <==> bools && exists i :: 0 <= i < |docs| && docs[i](param) == Some(Bool(true)))
            && (s.hasFalse <==> bools && exists i :: 0 <= i < |docs| && docs[i](param) == Some(Bool(false)))
  {
    FoldIsDenote(Distinct(param, strings, bools, nums), docs);
  }

  /** COLLECT has one value for each document, in their order: that of the expression, or null if it has none. */
  lemma CollectMeans(param: nat, docs: seq<Doc>)
    ensures var s := Fold(Collect(param), docs);
            && s.CollectState? && |s.list| == |docs|
            && forall i | 0 <= i < |docs| :: match docs[i](param) case Some(v) => s.list[i] == v case None => s.list[i] == Null
  {
    FoldIsDenote(Collect(param), docs);
  }

  /** GROUP has a group for each string, number and boolean that occurs, with the result on the documents that have it. */
  lemma GroupMeans(key: nat, inner: Proto, docs: seq<Doc>)
    ensures var s := Fold(Group(key, inner), docs);
            && s.GroupState?
            && (forall k :: k in s.groups <==> (k.Str? || k.Num? || k.Bool?) && exists i :: 0 <= i < |docs| && docs[i](key) == Some(k))
            && (forall k | k in s.groups :: s.groups[k] == Fold(inner, Having(docs, key, k)))
  {
    FoldIsDenote(Group(key, inner), docs);
    KeysOccur(docs, key);
    forall k | k in Keys(docs, key) ensures Denote(inner, Having(docs, key, k)) == Fold(inner, Having(docs, key, k)) {
      FoldIsDenote(inner, Having(docs, key, k));
    }
  }

  ghost function Flatten(batches: seq<seq<Doc>>): seq<Doc> {
    if batches == [] then [] else Flatten(batches[..|batches| - 1]) + batches[|batches| - 1]
  }

  // ---------------------------------------------------------------------------------------------
  // The order in which batches arrive
  // ---------------------------------------------------------------------------------------------

  /** COLLECT is the one aggregator whose result shows the order of the documents. */
  predicate HasCollect(p: Proto) {
    match p
    case Collect(_) => true
    case Group(_, inner) => HasCollect(inner)
    case _ => false
  }

  lemma {:induction false} MergeCommutes(p: Proto, a: State, b: State)
    requires !HasCollect(p)
    requires IsStateOf(p, a) && IsStateOf(p, b)
    ensures Merge(p, a, b) == Merge(p, b, a)
    decreases p
  {
    if p.Group? {
      forall k | k in a.groups.Keys * b.groups.Keys
        ensures Merge(p.proto, a.groups[k], b.groups[k]) == Merge(p.proto, b.groups[k], a.groups[k])
      {
        MergeCommutes(p.proto, a.groups[k], b.groups[k]);
      }
      assert Merge(p, a, b).groups == Merge(p, b, a).groups;
    }
  }

  ghost predicate IsStateOf(p: Proto, s: State) {
    match p
    case Count(_) => s.CountState?
    case Distinct(_, _, _, _) => s.DistinctState?
    case Collect(_) => s.CollectState?
    case Group(_, inner) => s.GroupState? && forall k | k in s.groups :: IsStateOf(inner, s.groups[k])
  }

  lemma {:induction false} DenoteIsState(p: Proto, docs: seq<Doc>)
    ensures IsStateOf(p, Denote(p, docs))
    decreases p
  {
    if p.Group? {
      forall k | k in Keys(docs, p.groupBy) ensures IsStateOf(p.proto, Denote(p.proto, Having(docs, p.groupBy, k))) {
        DenoteIsState(p.proto, Having(docs, p.groupBy, k));
      }
    }
  }

  lemma FoldsCommute(p: Proto, a: seq<Doc>, b: seq<Doc>)
    requires !HasCollect(p)
    ensures Fold(p, a + b) == Fold(p, b + a)
  {
    MergeOfFolds(p, a, b);
    MergeOfFolds(p, b, a);
    FoldIsDenote(p, a);
    FoldIsDenote(p, b);
    DenoteIsState(p, a);
    DenoteIsState(p, b);
    MergeCommutes(p, Fold(p, a), Fold(p, b));
  }

  ghost predicate SameDocs(docs: seq<Doc>, shuffled: seq<Doc>) {
    multiset(docs) == multiset(shuffled)
  }

  /** Without COLLECT the result does not depend on the order of the documents, so nor on the order of the batches. */
  lemma {:induction false} OrderDoesNotMatter(p: Proto, docs: seq<Doc>, shuffled: seq<Doc>)
    requires !HasCollect(p)
    requires SameDocs(docs, shuffled)
    ensures Fold(p, docs) == Fold(p, shuffled)
    decreases |docs|
  {
    if docs == [] {
      assert shuffled == [] by {
        assert |multiset(shuffled)| == 0;
      }
    } else {
      var front, d := docs[..|docs| - 1], docs[|docs| - 1];
      var u, v := SplitAt(docs, shuffled);
      OrderDoesNotMatter(p, front, u + v);
      MoveToEnd(p, u, d, v);
      MergeOfFolds(p, u + v, [d]);
      MergeOfFolds(p, front, [d]);
      assert docs == front + [d];
    }
  }

  /** The last element of one sequence is somewhere in its permutation. */
  lemma SplitAt(docs: seq<Doc>, shuffled: seq<Doc>) returns (u: seq<Doc>, v: seq<Doc>)
    requires docs != []
    requires SameDocs(docs, shuffled)
    ensures shuffled == u + [docs[|docs| - 1]] + v
    ensures SameDocs(docs[..|docs| - 1], u + v)
  {
    var front, d := docs[..|docs| - 1], docs[|docs| - 1];
    assert docs == front + [d];
    assert d in multiset(shuffled);
    var i :| 0 <= i < |shuffled| && shuffled[i] == d;
    u, v := shuffled[..i], shuffled[i + 1..];
    assert shuffled == u + [d] + v;
    var rest: seq<Doc> := u + v;
    assert multiset(rest) == multiset(u) + multiset(v);
    assert multiset(docs) == multiset(front) + multiset{d};
    assert multiset(shuffled) == multiset(u) + multiset{d} + multiset(v);
    assert multiset(front) == multiset(docs) - multiset{d};
    assert multiset(rest) == multiset(shuffled) - multiset{d};
  }

  lemma MoveToEnd(p: Proto, u: seq<Doc>, d: Doc, v: seq<Doc>)
    requires !HasCollect(p)
    ensures Fold(p, u + [d] + v) == Fold(p, u + v + [d])
  {
    FoldsCommute(p, [d], v);
    MergeOfFolds(p, u, [d] + v);
    MergeOfFolds(p, u, v + [d]);
    assert u + ([d] + v) == u + [d] + v;
    assert u + (v + [d]) == u + v + [d];
  }

  // ---------------------------------------------------------------------------------------------
  // Totals of GROUP COUNT
  // ---------------------------------------------------------------------------------------------

  ghost function CountIn(s: State): nat {
    if s.CountState? then s.count else 0
  }

  ghost function Total(groups: map<Json, State>): nat
    decreases |groups|
  {
    if groups == map[] then 0
    else
      var k :| k in groups;
      CountIn(groups[k]) + Total(groups - {k})
  }

  lemma {:induction false} TotalWithout(groups: map<Json, State>, k: Json)
    requires k in groups
    ensures Total(groups) == CountIn(groups[k]) + Total(groups - {k})
    decreases |groups|
  {
    var j :| j in groups && Total(groups) == CountIn(groups[j]) + Total(groups - {j});
    if j != k {
      TotalWithout(groups - {j}, k);
      TotalWithout(groups - {k}, j);
      assert groups - {j} - {k} == groups - {k} - {j};
    }
  }

  /** The counts of all groups add up to the number of counted documents with a string, number or bool as key. */
  lemma {:induction false} GroupCountsAddUp(key: nat, param: Option<nat>, docs: seq<Doc>)
    ensures Fold(Group(key, Count(param)), docs).GroupState?
    ensures Total(Fold(Group(key, Count(param)), docs).groups) ==
            Number(docs, (doc: Doc) => IsKey(doc(key)) && IsCounted(doc, param))
    ensures forall k | k in Fold(Group(key, Count(param)), docs).groups :: Fold(Group(key, Count(param)), docs).groups[k].CountState?
  {
    var p := Group(key, Count(param));
    if docs != [] {
      var front, d := docs[..|docs| - 1], docs[|docs| - 1];
      GroupCountsAddUp(key, param, front);
      var groups := Fold(p, front).groups;
      if IsKey(d(key)) {
        var k := d(key).value;
        var grown := groups[k := Accumulate(Count(param), GroupOf(Count(param), groups, k), d)];
        TotalWithout(grown, k);
        assert grown - {k} == groups - {k};
        if k in groups {
          TotalWithout(groups, k);
        } else {
          assert groups - {k} == groups;
        }
      }
    }
  }
}
