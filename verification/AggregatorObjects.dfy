/**
 The aggregators as objects that accumulate and merge change in place. A GROUP aggregator owns one object for
 each group, and merge moves the groups it does not have yet out of the other aggregator.
 */
module AggregatorObjects {
  import opened Aggregators
  import opened Options

  class Aggregator {
    const proto: Proto
    var count: nat
    var strSet: set<string>
    var numSet: set<real>
    var hasTrue: bool
    var hasFalse: bool
    var list: seq<Json>
    var groups: map<Json, Aggregator>
    ghost var Value: State
    ghost var Repr: set<object>

    /** The object of a group, and all objects below it, belong to this aggregator. */
    ghost predicate Owns(agg: Aggregator)
      reads this, agg
    {
      agg in Repr && agg.Repr <= Repr && this !in agg.Repr && proto.Group? && agg.proto == proto.proto
    }

    /** No object belongs to two groups. */
    ghost predicate Apart(j: Json, k: Json)
      requires j in groups && k in groups
      reads this, groups[j], groups[k]
    {
      j != k ==> groups[j].Repr !! groups[k].Repr
    }

    /** All groups but one are in order. */
    ghost predicate ValidBut(key: Option<Json>)
      reads this, Repr
      decreases proto, 0
    {
      && this in Repr
      && (forall k | k in groups && Some(k) != key :: groups[k] in Repr && Owns(groups[k]) && groups[k].Valid())
      && (forall j, k | j in groups && k in groups && Some(j) != key && Some(k) != key :: Apart(j, k))
    }

    /** Value is what the fields, and those of the objects of all groups, say. */
    ghost predicate IsValue()
      reads this, Repr
    {
      match proto
      case Count(_) => Value == CountState(count)
      case Distinct(_, _, _, _) => Value == DistinctState(strSet, numSet, hasTrue, hasFalse)
      case Collect(_) => Value == CollectState(list)
      case Group(_, _) =>
        && Value.GroupState? && Value.groups.Keys == groups.Keys
        && forall k | k in groups :: groups[k] in Repr && groups[k].Value == Value.groups[k]
    }

    ghost predicate Valid()
      reads this, Repr
      ensures Valid() ==> this in Repr
      decreases proto, 1
    {
      ValidBut(None) && IsValue()
    }

    /** An aggregator that has seen no document, as `duplicate` makes it. */
    constructor (proto: Proto)
      ensures Valid() && fresh(Repr) && this.proto == proto
      ensures Value == Fresh(proto)
    {
      this.proto := proto;
      count, strSet, numSet, hasTrue, hasFalse, list, groups := 0, {}, {}, false, false, [], map[];
      Value := Fresh(proto);
      Repr := {this};
    }

    method AccumulateOne(doc: Doc)
      requires Valid()
      modifies Repr
      ensures Valid() && fresh(Repr - old(Repr))
      ensures Value == Accumulate(proto, old(Value), doc)
      decreases proto, 2
    {
      ghost var after := Accumulate(proto, Value, doc);
      match proto
      case Count(param) =>
        if param == None {
          count := count + 1;
        } else if doc(param.value).Some? {
          count := count + 1;
        }
        Value := after;
      case Distinct(param, strings, bools, nums) =>
        var val := doc(param);
        if val.Some? {
          if strings && val.value.Str? {
            strSet := strSet + {val.value.text};
          } else if bools && val.value.Bool? {
            if val.value.truth {
              hasTrue := true;
            } else {
              hasFalse := true;
            }
          } else if nums && val.value.Num? {
            numSet := numSet + {val.value.number};
          }
        }
        Value := after;
      case Collect(param) =>
        var copy := Null;
        if doc(param).Some? {
          copy := doc(param).value;
        }
        list := list + [copy];
        Value := after;
      case Group(key, inner) =>
        if IsKey(doc(key)) {
          AccumulateKey(doc(key).value, doc);
        }
    }

    /** A document of a known group goes to its aggregator, that of a new one to a fresh aggregator. */
    method AccumulateKey(key: Json, doc: Doc)
      requires Valid() && proto.Group?
      modifies Repr
      ensures Valid() && fresh(Repr - old(Repr))
      ensures Value == GroupState(old(Value).groups[key :=
                Accumulate(proto.proto, GroupOf(proto.proto, old(Value).groups, key), doc)])
      decreases proto, 1
    {
      if key in groups {
        AccumulateKnown(key, doc);
      } else {
        var agg := new Aggregator(proto.proto);
        agg.AccumulateOne(doc);
        Install(key, agg);
      }
    }

    method AccumulateKnown(key: Json, doc: Doc)
      requires Valid() && proto.Group? && key in groups && key in Value.groups
      modifies Repr
      ensures Valid() && fresh(Repr - old(Repr))
      ensures Value == GroupState(old(Value).groups[key := Accumulate(proto.proto, old(Value).groups[key], doc)])
      decreases proto, 0
    {
      var agg := groups[key];
      assert forall k | k in groups && k != key :: groups[k].Repr !! agg.Repr by {
        assert forall k | k in groups :: Apart(k, key);
      }
      assert this !in agg.Repr;
      agg.AccumulateOne(doc);
      assert ValidBut(Some(key));
      Install(key, agg);
    }

    /** Enter an aggregator as that of a group. */
    method Install(key: Json, agg: Aggregator)
      requires ValidBut(Some(key)) && proto.Group? && Value.GroupState?
      requires Value.groups.Keys == groups.Keys
      requires forall k | k in groups && k != key :: groups[k].Value == Value.groups[k]
      requires agg.Valid() && agg.proto == proto.proto && this !in agg.Repr
      requires forall k | k in groups && k != key :: groups[k].Repr !! agg.Repr
      modifies this
      ensures Valid() && Repr == old(Repr) + agg.Repr
      ensures Value == GroupState(old(Value).groups[key := old(agg.Value)])
    {
      groups := groups[key := agg];
      Repr := Repr + agg.Repr;
      Value := GroupState(Value.groups[key := agg.Value]);
      forall j, k | j in groups && k in groups ensures Apart(j, k) {
        assert j != key && k != key ==> old(Apart(j, k));
      }
    }

    /** Take in all of another aggregator of the same form, whose objects are no longer used afterwards. */
    method MergeWith(o: Aggregator)
      requires Valid() && o.Valid() && o.proto == proto
      requires Repr !! o.Repr
      modifies Repr, o.Repr
      ensures Valid() && Repr <= old(Repr) + old(o.Repr)
      ensures Value == Merge(proto, old(Value), old(o.Value))
      decreases proto
    {
      ghost var after := Merge(proto, Value, o.Value);
      match proto
      case Count(_) =>
        count := count + o.count;
        Value := after;
      case Distinct(_, _, _, _) =>
        strSet := strSet + o.strSet;
        numSet := numSet + o.numSet;
        hasTrue := hasTrue || o.hasTrue;
        hasFalse := hasFalse || o.hasFalse;
        Value := after;
      case Collect(_) =>
        list := list + o.list;
        Value := after;
      case Group(_, inner) =>
        MergeGroups(o);
    }

    /** The groups of the other aggregator are merged into those with the same key, or moved. */
    method MergeGroups(o: Aggregator)
      requires Valid() && o.Valid() && o.proto == proto && proto.Group?
      requires Repr !! o.Repr
      modifies Repr, o.Repr
      ensures Valid() && Repr <= old(Repr) + old(o.Repr)
      ensures Value == Merge(proto, old(Value), old(o.Value))
      decreases proto, 4
    {
      MergedGroups(proto, Value, o.Value);
      assert IsWaiting(o.groups, o.groups.Keys, o.Value.groups, o.Repr) by {
        forall j, k | j in o.groups && k in o.groups && j != k ensures NothingShared(o.groups[j], o.groups[k]) {
          assert o.Apart(j, k);
        }
      }
      MoveGroups(o.groups, o.Value.groups, o.Repr);
    }

    method MoveGroups(moving: map<Json, Aggregator>, ghost theirs: map<Json, State>, ghost objects: set<object>)
      requires Valid() && proto.Group?
      requires moving.Keys == theirs.Keys && IsWaiting(moving, moving.Keys, theirs, objects)
      modifies Repr, objects
      ensures Valid() && Repr <= old(Repr) + objects
      ensures Value == GroupState(MergedSoFar(proto.proto, old(Value).groups, theirs, {}))
      decreases proto, 3
    {
      ghost var mine := Value.groups;
      var todo := moving.Keys;
      MergedStart(proto.proto, mine, theirs);
      while todo != {}
        invariant Valid() && Value.GroupState?
        invariant todo <= moving.Keys == theirs.Keys
        invariant Repr <= old(Repr) + objects
        invariant IsWaiting(moving, todo, theirs, objects)
        invariant Value.groups == MergedSoFar(proto.proto, mine, theirs, todo)
        decreases |todo|
      {
        var key :| key in todo;
        MergedStep(proto.proto, mine, theirs, todo, key);
        MoveOne(key, moving, todo, theirs, objects);
        todo := todo - {key};
      }
    }

    /** Groups of another aggregator that share no object with this one or each other. */
    ghost predicate IsWaiting(moving: map<Json, Aggregator>, todo: set<Json>, theirs: map<Json, State>, objects: set<object>)
      requires todo <= moving.Keys == theirs.Keys
      reads this, objects
    {
      && (forall k | k in todo :: moving[k] in objects && moving[k].Repr <= objects && Ready(moving[k], theirs[k]))
      && (forall k | k in todo :: moving[k].Repr !! Repr)
      && (forall j, k | j in todo && k in todo && j != k :: NothingShared(moving[j], moving[k]))
    }

    ghost predicate NothingShared(a: Aggregator, b: Aggregator)
      reads a, b
    {
      a.Repr !! b.Repr
    }

    /** The next group is merged or moved; the others stay as they are. */
    method MoveOne(key: Json, moving: map<Json, Aggregator>, ghost todo: set<Json>, ghost theirs: map<Json, State>, ghost objects: set<object>)
      requires Valid() && proto.Group?
      requires key in todo && todo <= moving.Keys == theirs.Keys && IsWaiting(moving, todo, theirs, objects)
      modifies Repr, moving[key].Repr
      ensures Valid() && Repr <= old(Repr) + objects
      ensures IsWaiting(moving, todo - {key}, theirs, objects)
      ensures Value == GroupState(old(Value).groups[key :=
                if key in old(Value).groups then Merge(proto.proto, old(Value).groups[key], theirs[key]) else theirs[key]])
      decreases proto, 2
    {
      ghost var agg := moving[key];
      assert forall k | k in todo && k != key :: NothingShared(moving[k], agg);
      MergeKey(key, moving[key]);
    }

    ghost predicate Ready(agg: Aggregator, s: State)
      reads agg, agg.Repr
    {
      proto.Group? && agg.proto == proto.proto && agg.Valid() && agg.Value == s
    }

    method MergeKey(key: Json, agg: Aggregator)
      requires Valid() && proto.Group? && agg.Valid() && agg.proto == proto.proto
      requires Repr !! agg.Repr
      modifies Repr, agg.Repr
      ensures Valid() && Repr <= old(Repr) + old(agg.Repr)
      ensures Value == GroupState(old(Value).groups[key :=
                if key in old(Value).groups then Merge(proto.proto, old(Value).groups[key], old(agg.Value))
                else old(agg.Value)])
      decreases proto, 1
    {
      if key in groups {
        MergeKnown(key, agg);
      } else {
        Install(key, agg);
      }
    }

    method MergeKnown(key: Json, agg: Aggregator)
      requires Valid() && proto.Group? && agg.Valid() && agg.proto == proto.proto
      requires Repr !! agg.Repr && key in groups && key in Value.groups
      modifies Repr, agg.Repr
      ensures Valid() && Repr <= old(Repr) + old(agg.Repr)
      ensures Value == GroupState(old(Value).groups[key := Merge(proto.proto, old(Value).groups[key], old(agg.Value))])
      decreases proto, 0
    {
      var kept := groups[key];
      assert forall k | k in groups && k != key :: groups[k].Repr !! kept.Repr by {
        assert forall k | k in groups :: Apart(k, key);
      }
      assert this !in kept.Repr;
      kept.MergeWith(agg);
      assert ValidBut(Some(key));
      Install(key, kept);
    }
  }

  /** The groups of an aggregator after those of another have been merged except for some keys. */
  ghost function MergedSoFar(inner: Proto, mine: map<Json, State>, theirs: map<Json, State>, todo: set<Json>): map<Json, State> {
    map k | k in mine.Keys + (theirs.Keys - todo) ::
      if k in todo || k !in theirs then mine[k] else if k !in mine then theirs[k] else Merge(inner, mine[k], theirs[k])
  }

  lemma MergedStart(inner: Proto, mine: map<Json, State>, theirs: map<Json, State>)
    ensures MergedSoFar(inner, mine, theirs, theirs.Keys) == mine
  {
  }

  lemma MergedStep(inner: Proto, mine: map<Json, State>, theirs: map<Json, State>, todo: set<Json>, key: Json)
    requires key in todo && todo <= theirs.Keys
    ensures MergedSoFar(inner, mine, theirs, todo - {key}) == MergedSoFar(inner, mine, theirs, todo)[key :=
              if key in MergedSoFar(inner, mine, theirs, todo)
              then Merge(inner, MergedSoFar(inner, mine, theirs, todo)[key], theirs[key]) else theirs[key]]
  {
  }

  lemma MergedGroups(p: Proto, a: State, b: State)
    requires p.Group? && a.GroupState? && b.GroupState?
    ensures GroupState(MergedSoFar(p.proto, a.groups, b.groups, {})) == Merge(p, a, b)
  {
    assert Merge(p, a, b).groups.Keys == a.groups.Keys + b.groups.Keys;
    assert Merge(p, a, b).groups == MergedSoFar(p.proto, a.groups, b.groups, {});
  }

  /** A worker passes the documents of a container to its aggregator one after the other. */
  method AccumulateAll(agg: Aggregator, docs: seq<Doc>, ghost before: seq<Doc>)
    requires agg.Valid() && agg.Value == Fold(agg.proto, before)
    modifies agg.Repr
    ensures agg.Valid() && fresh(agg.Repr - old(agg.Repr))
    ensures agg.Value == Fold(agg.proto, before + docs)
  {
    assert before + docs[..0] == before;
    for i := 0 to |docs|
      invariant agg.Valid() && fresh(agg.Repr - old(agg.Repr))
      invariant agg.Value == Fold(agg.proto, before + docs[..i])
    {
      agg.AccumulateOne(docs[i]);
      ghost var seen := before + docs[..i + 1];
      assert seen[..|seen| - 1] == before + docs[..i];
    }
    assert docs[..|docs|] == docs;
  }

  /** A worker has an aggregator of its own. */
  method AccumulateBatch(p: Proto, docs: seq<Doc>) returns (worker: Aggregator)
    ensures fresh(worker.Repr) && worker.Valid() && worker.proto == p
    ensures worker.Value == Fold(p, docs)
  {
    worker := new Aggregator(p);
    AccumulateAll(worker, docs, []);
    assert [] + docs == docs;
  }

  /**
   Every worker accumulates its own batch; the first aggregator to arrive is kept and the others are merged into
   it. The result is the sequential fold over the batches in the order of their arrival.
   */
  method AggregateBatches(p: Proto, batches: seq<seq<Doc>>) returns (result: Aggregator)
    requires batches != []
    ensures fresh(result.Repr) && result.Valid() && result.proto == p
    ensures result.Value == Fold(p, Flatten(batches))
  {
    result := AccumulateBatch(p, batches[0]);
    FlattenNext(batches, 0);
    assert [] + batches[0] == batches[0];
    for i := 1 to |batches|
      invariant fresh(result.Repr) && result.Valid() && result.proto == p
      invariant result.Value == Fold(p, Flatten(batches[..i]))
    {
      var worker := AccumulateBatch(p, batches[i]);
      result.MergeWith(worker);
      MergeOfFolds(p, Flatten(batches[..i]), batches[i]);
      FlattenNext(batches, i);
    }
    assert batches[..|batches|] == batches;
  }

  lemma FlattenNext(batches: seq<seq<Doc>>, i: nat)
    requires i < |batches|
    ensures Flatten(batches[..i + 1]) == Flatten(batches[..i]) + batches[i]
    ensures Flatten(batches[..0]) == []
  {
    assert batches[..i + 1][..i] == batches[..i];
  }
}
