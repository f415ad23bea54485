/**
 The adaptive trie of `AdaptiveTrie.cpp`: an index over the strings of the documents. A node starts out
 virtual, with the documents of its subtree in one list, and is split into children when a search first
 comes through it; a chain of single children is compressed into the node.
 */
module AdaptiveTrie {
  // ---------------------------------------------------------------------------------------------
  // Documents by their strings
  // ---------------------------------------------------------------------------------------------

  /** The string v begins with `path`. */
  predicate Starts(v: string, path: string) {
    |path| <= |v| && v[..|path|] == path
  }

  /** The string v begins with `path` and goes on. */
  predicate Below(v: string, path: string) {
    |path| < |v| && v[..|path|] == path
  }

  ghost function DocsAt(values: map<nat, string>, path: string): set<nat> {
    set d | d in values && values[d] == path
  }

  ghost function DocsBelow(values: map<nat, string>, path: string): set<nat> {
    set d | d in values && Below(values[d], path)
  }

  ghost function DocsFrom(values: map<nat, string>, path: string): set<nat> {
    set d | d in values && Starts(values[d], path)
  }

  /** A list holds each document of a set once and no other document. */
  ghost predicate Lists(list: seq<nat>, docs: set<nat>) {
    (forall d :: d in list <==> d in docs) && forall i, j | 0 <= i < j < |list| :: list[i] != list[j]
  }

  lemma ListsPush(list: seq<nat>, docs: set<nat>, d: nat)
    requires Lists(list, docs) && d !in docs
    ensures Lists(list + [d], docs + {d})
  {
    forall i, j | 0 <= i < j < |list| + 1 ensures (list + [d])[i] != (list + [d])[j] {
      if j == |list| { assert list[i] in list; }
    }
  }

  /** Two prefixes of one string are prefixes one of the other. */
  lemma Comparable(a: string, b: string, s: string)
    requires Starts(s, a) && Starts(s, b) && |a| <= |b|
    ensures Starts(b, a)
  {
    assert s[..|b|][..|a|] == s[..|a|];
  }

  class TrieNode {
    /** The characters from the root up to and including the first one of this node. */
    ghost const key: string
    const depth: nat
    var isVirtual: bool
    var chars: string
    var exact: seq<nat>
    var start: seq<nat>
    var children: seq<TrieNode>

    constructor Root()
      ensures key == "" && depth == 0 && !isVirtual && chars == "" && exact == [] && start == [] && children == []
    {
      key, depth, isVirtual, chars, exact, start, children := "", 0, false, "", [], [], [];
    }

    constructor (startingChar: char, depth: nat, ghost path: string)
      requires depth == |path| + 1
      ensures key == path + [startingChar] && this.depth == depth && isVirtual && chars == [startingChar]
      ensures exact == [] && start == [] && children == []
    {
      key := path + [startingChar];
      this.depth := depth;
      isVirtual, chars, exact, start, children := true, [startingChar], [], [], [];
    }

    /** The characters from the root to the end of this node, those of a compressed chain included. */
    ghost function Path(): string
      reads this
    {
      if chars == "" then key else key + chars[1..]
    }

    /** A node as a split makes it: virtual, with one character below `path`. */
    ghost predicate NewBelow(path: string)
      reads this
    {
      && isVirtual && children == [] && |chars| == 1 && depth == |key|
      && |key| == |path| + 1 && Below(key, path) && chars[0] == key[|path|]
    }

    method GetChild(c: char) returns (child: TrieNode?)
      requires forall i | 0 <= i < |children| :: children[i].chars != ""
      ensures child != null ==> child in children && child.chars[0] == c
      ensures child == null ==> forall i | 0 <= i < |children| :: children[i].chars[0] != c
    {
      for i := 0 to |children|
        invariant forall k | 0 <= k < i :: children[k].chars[0] != c
      {
        if children[i].chars[0] == c {
          return children[i];
        }
      }
      child := null;
    }
  }

  /** A child with those of the given documents that begin with its key. */
  ghost predicate IsPart(child: TrieNode, path: string, values: map<nat, string>)
    reads child
  {
    && child.NewBelow(path)
    && Lists(child.exact, DocsAt(values, child.key)) && Lists(child.start, DocsBelow(values, child.key))
  }

  ghost predicate AreParts(children: seq<TrieNode>, path: string, values: map<nat, string>)
    reads children
  {
    && (forall i {:trigger IsPart(children[i], path, values)} | 0 <= i < |children| :: IsPart(children[i], path, values))
    && (forall i, j | 0 <= i < j < |children| :: children[i].key != children[j].key)
  }

  /** The children are the split of the given documents, all of which lie below `path`. */
  ghost predicate IsSplit(children: seq<TrieNode>, path: string, values: map<nat, string>)
    reads children
  {
    && AreParts(children, path, values)
    && AllCovered(children, values) && NoneEmpty(children, values)
  }

  ghost predicate AllCovered(children: seq<TrieNode>, values: map<nat, string>) {
    forall d {:trigger Covers(children, values[d])} | d in values :: Covers(children, values[d])
  }

  ghost predicate NoneEmpty(children: seq<TrieNode>, values: map<nat, string>) {
    forall i | 0 <= i < |children| :: DocsFrom(values, children[i].key) != {}
  }

  ghost predicate AllBelow(values: map<nat, string>, path: string) {
    forall d | d in values :: Below(values[d], path)
  }

  ghost predicate Covers(children: seq<TrieNode>, v: string) {
    exists i :: 0 <= i < |children| && Starts(v, children[i].key)
  }

  /** Of the keys one longer than `path`, the prefix of a string is the one with its next character. */
  lemma NextChar(path: string, key: string, v: string)
    requires Below(key, path) && |key| == |path| + 1 && Below(v, path)
    ensures Starts(v, key) <==> key[|path|] == v[|path|]
  {
    assert key == path + [key[|path|]] && v[..|key|] == v[..|path|] + [v[|path|]];
  }

  /** One more document for a node that is not its own. */
  lemma OtherPart(child: TrieNode, path: string, values: map<nat, string>, d: nat, v: string)
    requires IsPart(child, path, values) && d !in values && !Starts(v, child.key)
    ensures IsPart(child, path, values[d := v])
  {
    assert DocsAt(values[d := v], child.key) == DocsAt(values, child.key);
    assert DocsBelow(values[d := v], child.key) == DocsBelow(values, child.key);
  }

  ghost predicate SameOrOneMore(before: seq<TrieNode>, children: seq<TrieNode>) {
    children == before || (children != [] && children[..|children| - 1] == before)
  }

  lemma OldOrLast(before: seq<TrieNode>, children: seq<TrieNode>, k: nat)
    requires SameOrOneMore(before, children) && k < |children|
    ensures (k < |before| && children[k] == before[k]) || (children != before && k == |children| - 1)
  {
    if children != before && k < |children| - 1 {
      assert children[..|children| - 1][k] == children[k];
    }
  }

  /** The child for the next character of a value; it is made if there is none. */
  method FindOrAdd(node: TrieNode, depth: nat, value: string, ghost path: string, ghost values: map<nat, string>)
    returns (child: TrieNode)
    requires depth == |path| && Below(value, path) && AreParts(node.children, path, values)
    requires AllBelow(values, path) && AllCovered(node.children, values)
    modifies node`children
    ensures AreParts(node.children, path, values) && child in node.children && Starts(value, child.key)
    ensures SameOrOneMore(old(node.children), node.children)
    ensures node.children != old(node.children) ==> fresh(child) && child == node.children[|node.children| - 1]
  {
    forall i | 0 <= i < |node.children| ensures node.children[i].chars != "" { assert IsPart(node.children[i], path, values); }
    var found := node.GetChild(value[depth]);
    if found != null {
      assert IsPart(found, path, values);
      NextChar(path, found.key, value);
      return found;
    }
    child := new TrieNode(value[depth], depth + 1, path);
    NextChar(path, child.key, value);
    NoPartNoDocs(node.children, path, values, child.key);
    forall i | 0 <= i < |node.children| ensures node.children[i].key != child.key { assert IsPart(node.children[i], path, values); }
    EmptyPart(child, path, values);
    forall i | 0 <= i < |node.children| ensures node.children[i] != node { assert IsPart(node.children[i], path, values); }
    node.children := node.children + [child];
  }

  lemma EmptyPart(child: TrieNode, path: string, values: map<nat, string>)
    requires child.NewBelow(path) && child.exact == [] && child.start == [] && DocsFrom(values, child.key) == {}
    ensures IsPart(child, path, values)
  {
    assert forall d | d in values :: d !in DocsFrom(values, child.key);
  }

  method Append(child: TrieNode, depth: nat, d: nat, value: string, ghost path: string, ghost values: map<nat, string>)
    requires depth == |path| && IsPart(child, path, values) && Starts(value, child.key) && d !in values
    modifies child`exact, child`start
    ensures IsPart(child, path, values[d := value])
  {
    PartGrows(child.key, values, d, value);
    if |value| == depth + 1 {
      ListsPush(child.exact, DocsAt(values, child.key), d);
      child.exact := child.exact + [d];
    } else {
      ListsPush(child.start, DocsBelow(values, child.key), d);
      child.start := child.start + [d];
    }
  }

  /** Puts a document into the child for its next character. */
  method Put(node: TrieNode, depth: nat, d: nat, value: string, ghost path: string, ghost values: map<nat, string>)
    requires depth == |path| && Below(value, path) && d !in values && IsSplit(node.children, path, values)
    requires node !in node.children && AllBelow(values, path)
    modifies node`children, node.children
    ensures IsSplit(node.children, path, values[d := value])
    ensures SameOrOneMore(old(node.children), node.children)
    ensures node.children != old(node.children) ==> fresh(node.children[|node.children| - 1])
  {
    ghost var before, after := node.children, values[d := value];
    var child := FindOrAdd(node, depth, value, path, values);
    AppendTo(node.children, child, depth, d, value, path, values);
    CoversGrow(before, node.children, values, after, d, child);
  }

  method AppendTo(ghost children: seq<TrieNode>, child: TrieNode, depth: nat, d: nat, value: string,
                  ghost path: string, ghost values: map<nat, string>)
    requires depth == |path| && AreParts(children, path, values) && child in children
    requires Starts(value, child.key) && d !in values
    modifies child`exact, child`start
    ensures AreParts(children, path, values[d := value])
  {
    ghost var at :| 0 <= at < |children| && children[at] == child;
    ghost var after := values[d := value];
    OthersGrow(children, at, path, values, after, d);
    label found:
    Append(child, depth, d, value, path, values);
    forall i | 0 <= i < |children| && i != at ensures IsPart(children[i], path, after) {
      assert old@found(IsPart(children[i], path, after));
    }
  }

  /** The children other than the one a document goes into do not notice it. */
  lemma OthersGrow(children: seq<TrieNode>, at: nat, path: string, values: map<nat, string>, after: map<nat, string>, d: nat)
    requires AreParts(children, path, values) && at < |children|
    requires d !in values && d in after && after == values[d := after[d]] && Starts(after[d], children[at].key)
    ensures forall i | 0 <= i < |children| && i != at :: IsPart(children[i], path, after) && children[i] != children[at]
  {
    forall i | 0 <= i < |children| && i != at ensures IsPart(children[i], path, after) && children[i] != children[at] {
      assert IsPart(children[i], path, values) && IsPart(children[at], path, values);
      assert children[i].key != children[at].key;
      OneCover(children[i].key, children[at].key, after[d]);
      OtherPart(children[i], path, values, d, after[d]);
    }
  }

  lemma OneCover(a: string, b: string, v: string)
    requires |a| == |b| && a != b && Starts(v, b)
    ensures !Starts(v, a)
  {
  }

  lemma DocsStay(values: map<nat, string>, after: map<nat, string>, d: nat, key: string)
    requires d !in values && d in after && after == values[d := after[d]]
    ensures DocsFrom(values, key) <= DocsFrom(after, key)
  {
  }

  lemma CoversGrow(before: seq<TrieNode>, children: seq<TrieNode>, values: map<nat, string>, after: map<nat, string>,
                   d: nat, child: TrieNode)
    requires d !in values && d in after && after == values[d := after[d]]
    requires child in children && Starts(after[d], child.key) && SameOrOneMore(before, children)
    requires children != before ==> children[|children| - 1] == child
    requires AllCovered(before, values) && NoneEmpty(before, values)
    ensures AllCovered(children, after) && NoneEmpty(children, after)
  {
    forall e | e in after ensures Covers(children, after[e]) {
      if e == d {
        var i :| 0 <= i < |children| && children[i] == child;
        assert Starts(after[d], children[i].key);
      } else {
        assert Covers(before, values[e]);
        var i :| 0 <= i < |before| && Starts(values[e], before[i].key);
        assert Starts(values[e], children[i].key);
      }
    }
    forall i | 0 <= i < |children| ensures DocsFrom(after, children[i].key) != {} {
      if children[i] == child {
        assert d in DocsFrom(after, child.key);
      } else {
        assert DocsFrom(values, before[i].key) != {};
        DocsStay(values, after, d, before[i].key);
      }
    }
  }

  lemma NoPartNoDocs(children: seq<TrieNode>, path: string, values: map<nat, string>, key: string)
    requires AreParts(children, path, values) && |key| == |path| + 1 && Below(key, path)
    requires AllBelow(values, path) && AllCovered(children, values)
    requires forall i | 0 <= i < |children| :: children[i].chars != "" && children[i].chars[0] != key[|path|]
    ensures DocsFrom(values, key) == {}
  {
    forall d | d in values ensures !Starts(values[d], key) {
      assert Covers(children, values[d]);
      var i :| 0 <= i < |children| && Starts(values[d], children[i].key);
      assert IsPart(children[i], path, values);
      NextChar(path, children[i].key, values[d]);
      if Starts(values[d], key) {
        NextChar(path, key, values[d]);
        assert false;
      }
    }
  }

  lemma PartGrows(key: string, values: map<nat, string>, d: nat, v: string)
    requires d !in values && Starts(v, key)
    ensures DocsAt(values[d := v], key) == DocsAt(values, key) + if v == key then {d} else {}
    ensures DocsBelow(values[d := v], key) == DocsBelow(values, key) + if v == key then {} else {d}
  {
  }

  // ---------------------------------------------------------------------------------------------
  // The extraction of one node
  // ---------------------------------------------------------------------------------------------

  ghost function Restrict(values: map<nat, string>, path: string): map<nat, string> {
    map d | d in values && Below(values[d], path) :: values[d]
  }

  ghost function Listed(values: map<nat, string>, list: seq<nat>): map<nat, string> {
    map d | d in list && d in values :: values[d]
  }

  lemma ListedPush(values: map<nat, string>, list: seq<nat>, i: nat, path: string)
    requires Lists(list, DocsBelow(values, path)) && i < |list|
    ensures list[i] in values && Below(values[list[i]], path)
    ensures list[i] !in Listed(values, list[..i])
    ensures Listed(values, list[..i + 1]) == Listed(values, list[..i])[list[i] := values[list[i]]]
    ensures AllBelow(Listed(values, list[..i]), path)
  {
    assert list[i] in list;
    assert forall d | d in list[..i] :: d in list;
    assert list[..i + 1] == list[..i] + [list[i]];
  }

  lemma ListedAll(values: map<nat, string>, list: seq<nat>, path: string)
    requires Lists(list, DocsBelow(values, path))
    ensures Listed(values, list[..|list|]) == Restrict(values, path)
  {
    assert list[..|list|] == list;
  }

  /** One split: every document of the start list goes into the child for its next character. */
  method Distribute(node: TrieNode, depth: nat, values: map<nat, string>, ghost path: string)
    requires depth == |path| && node.children == [] && Lists(node.start, DocsBelow(values, path))
    modifies node`children
    ensures IsSplit(node.children, path, Restrict(values, path))
    ensures forall i | 0 <= i < |node.children| :: fresh(node.children[i])
  {
    ghost var list := node.start;
    for i := 0 to |node.start|
      invariant node.start == list && IsSplit(node.children, path, Listed(values, list[..i]))
      invariant forall k | 0 <= k < |node.children| :: fresh(node.children[k])
    {
      var d := node.start[i];
      ListedPush(values, list, i, path);
      ghost var before := node.children;
      Put(node, depth, d, values[d], path, Listed(values, list[..i]));
      forall k | 0 <= k < |node.children| ensures fresh(node.children[k]) {
        OldOrLast(before, node.children, k);
      }
    }
    ListedAll(values, list, path);
  }

  /** The node's lists and characters tell the documents that begin with its key. */
  ghost predicate IsChain(node: TrieNode, values: map<nat, string>)
    reads node
  {
    && node.key != "" && node.chars != "" && node.chars[0] == node.key[|node.key| - 1]
    && SameDocs(values, node.key, node.Path())
    && Lists(node.exact, DocsAt(values, node.Path())) && Lists(node.start, DocsBelow(values, node.Path()))
  }

  /** No document leaves the path between a key and the end of its compressed chain. */
  ghost predicate SameDocs(values: map<nat, string>, key: string, path: string) {
    Starts(path, key) && forall d | d in values && Starts(values[d], key) :: Starts(values[d], path)
  }

  lemma RestrictedPart(child: TrieNode, path: string, values: map<nat, string>)
    requires IsPart(child, path, Restrict(values, path))
    ensures IsPart(child, path, values)
  {
    forall d | d in values && Starts(values[d], child.key) ensures Below(values[d], path) {
      Shorter(values[d], child.key, path);
    }
    assert DocsAt(Restrict(values, path), child.key) == DocsAt(values, child.key);
    assert DocsBelow(Restrict(values, path), child.key) == DocsBelow(values, child.key);
  }

  lemma OwnOrBelow(v: string, path: string)
    requires Starts(v, path)
    ensures v == path || Below(v, path)
  {
    assert v[..|v|] == v;
  }

  lemma Shorter(v: string, key: string, path: string)
    requires Starts(v, key) && Below(key, path)
    ensures Below(v, path)
  {
    assert v[..|key|][..|path|] == v[..|path|];
  }

  /** With a single child and no document of its own, all documents of a node go on into the child. */
  lemma OneChild(children: seq<TrieNode>, path: string, key: string, values: map<nat, string>)
    requires |children| == 1 && IsSplit(children, path, Restrict(values, path))
    requires SameDocs(values, key, path) && DocsAt(values, path) == {}
    ensures SameDocs(values, key, children[0].key)
  {
    assert IsPart(children[0], path, Restrict(values, path));
    assert children[0].key[..|path|][..|key|] == children[0].key[..|key|];
    forall d | d in values && Starts(values[d], key) ensures Starts(values[d], children[0].key) {
      assert d !in DocsAt(values, path);
      OwnOrBelow(values[d], path);
      assert d in Restrict(values, path);
      assert Covers(children, Restrict(values, path)[d]);
    }
  }

  /**
   Splits a virtual node; as long as the split gives a single child and the node has no document of its own,
   the child is compressed into the node and split in its place.
   */
  method Extract(node: TrieNode, values: map<nat, string>)
    requires IsChain(node, values) && node.Path() == node.key && node.depth == |node.key| && node.children == []
    requires DocsFrom(values, node.key) != {}
    modifies node
    ensures IsChain(node, values) && !node.isVirtual && IsSplit(node.children, node.Path(), Restrict(values, node.Path()))
    ensures forall i | 0 <= i < |node.children| :: fresh(node.children[i])
    ensures node.exact != [] || |node.children| >= 2
  {
    if |node.start| == 0 {
      node.isVirtual := false;
      NoneBelow(values, node.key);
      return;
    }
    var multiExtract := true;
    var depth := node.depth;
    ghost var some := node.start[0];
    assert some in node.start;
    assert some in DocsBelow(values, node.key);
    while multiExtract
      invariant IsChain(node, values) && Starts(values[some], node.Path())
      invariant multiExtract ==> depth == |node.Path()| && node.children == []
      invariant !multiExtract ==> IsSplit(node.children, node.Path(), Restrict(values, node.Path()))
      invariant forall i | 0 <= i < |node.children| :: fresh(node.children[i])
      invariant !multiExtract ==> node.exact != [] || |node.children| >= 2
      decreases |values[some]| - |node.Path()|, multiExtract
    {
      ghost var path := node.Path();
      Distribute(node, depth, values, path);
      if |node.children| == 1 && |node.exact| == 0 {
        Compress(node, values, path);
        depth := depth + 1;
      } else {
        multiExtract := false;
        if |node.exact| == 0 {
          TwoChildren(node, path, values, some);
        }
      }
    }
    node.isVirtual := false;
  }

  /** The only child becomes part of the node. */
  method Compress(node: TrieNode, values: map<nat, string>, ghost path: string)
    requires IsChain(node, values) && node.Path() == path && |node.children| == 1 && node.exact == []
    requires IsSplit(node.children, path, Restrict(values, path))
    modifies node`chars, node`exact, node`start, node`children
    ensures IsChain(node, values) && node.children == [] && |node.Path()| == |path| + 1
  {
    var child := node.children[0];
    NoneListed(node.exact, DocsAt(values, path));
    OneChild(node.children, path, node.key, values);
    assert IsPart(child, path, Restrict(values, path));
    RestrictedPart(child, path, values);
    node.chars := node.chars + [child.chars[0]];
    ChainPath(node, path, child.key);
    node.exact := child.exact;
    node.start := child.start;
    node.children := [];
  }

  lemma NoneListed(list: seq<nat>, docs: set<nat>)
    requires Lists(list, docs) && list == []
    ensures docs == {}
  {
  }

  lemma ChainPath(node: TrieNode, path: string, key: string)
    requires |node.chars| >= 2 && Below(key, path) && |key| == |path| + 1
    requires path == node.key + node.chars[1..|node.chars| - 1] && node.chars[|node.chars| - 1] == key[|path|]
    ensures node.Path() == key
  {
    assert key == path + [key[|path|]];
    assert node.chars[1..] == node.chars[1..|node.chars| - 1] + [node.chars[|node.chars| - 1]];
  }

  lemma NoneBelow(values: map<nat, string>, path: string)
    requires DocsBelow(values, path) == {}
    ensures Restrict(values, path) == map[]
  {
    assert forall d | d in values :: d !in DocsBelow(values, path);
  }

  lemma TwoChildren(node: TrieNode, path: string, values: map<nat, string>, d: nat)
    requires IsChain(node, values) && node.Path() == path && node.exact == [] && |node.children| != 1
    requires d in values && Starts(values[d], path) && AllCovered(node.children, Restrict(values, path))
    ensures |node.children| >= 2
  {
    NoneListed(node.exact, DocsAt(values, path));
    assert d !in DocsAt(values, path);
    OwnOrBelow(values[d], path);
    assert d in Restrict(values, path);
    assert Covers(node.children, Restrict(values, path)[d]);
  }

  // ---------------------------------------------------------------------------------------------
  // The whole trie
  // ---------------------------------------------------------------------------------------------

  /** The keys of the children are the next characters of the documents that go on below `path`. */
  ghost predicate Branches(children: seq<TrieNode>, path: string, values: map<nat, string>) {
    && (forall i | 0 <= i < |children| :: |children[i].key| == |path| + 1 && Below(children[i].key, path))
    && (forall i, j | 0 <= i < j < |children| :: children[i].key != children[j].key)
    && AllCovered(children, Restrict(values, path)) && NoneEmpty(children, values)
  }

  /** The string s branches off in its last character: some document has the part before it, but not all of s. */
  ghost predicate BranchesOff(values: map<nat, string>, s: string)
    requires s != ""
  {
    |s| == 1 || exists d :: d in values && Starts(values[d], s[..|s| - 1]) && !Starts(values[d], s)
  }

  /**
   A node knows exactly the documents at its path and, while it is virtual, those below; a split node has
   no chain left to compress.
   */
  ghost predicate NodeOk(n: TrieNode, values: map<nat, string>)
    reads n
  {
    && n.depth == |n.key|
    && SameDocs(values, n.key, n.Path())
    && Lists(n.exact, DocsAt(values, n.Path()))
    && Lists(n.start, if n.isVirtual then DocsBelow(values, n.Path()) else {})
    && (n.key == "" ==> n.chars == "" && !n.isVirtual)
    && (n.key != "" ==> n.chars != "" && n.chars[0] == n.key[|n.key| - 1] && DocsFrom(values, n.key) != {})
    && (n.key != "" ==> BranchesOff(values, n.key))
    && (n.isVirtual ==> n.children == [] && |n.chars| == 1)
    && (!n.isVirtual ==> Branches(n.children, n.Path(), values) && (n.key != "" ==> n.exact != [] || |n.children| >= 2))
  }

  /** A key that extends the key of a node belongs to the subtree of one of its children. */
  ghost predicate Apart(n: TrieNode, m: TrieNode)
    reads n
  {
    n != m && Starts(m.key, n.key) ==> !n.isVirtual && Below(m.key, n.Path())
  }

  ghost predicate ChildrenIn(n: TrieNode, nodes: set<TrieNode>)
    reads n
  {
    forall i | 0 <= i < |n.children| :: n.children[i] in nodes
  }

  lemma PartIsNode(child: TrieNode, path: string, values: map<nat, string>)
    requires IsPart(child, path, values) && DocsFrom(values, child.key) != {} && BranchesOff(values, child.key)
    ensures NodeOk(child, values)
  {
    assert child.chars[1..] == "";
    assert child.Path() == child.key;
    assert child.key[..|child.key|] == child.key;
  }

  lemma SplitIsBranches(children: seq<TrieNode>, path: string, values: map<nat, string>)
    requires IsSplit(children, path, Restrict(values, path))
    requires path == "" || DocsAt(values, path) != {} || |children| >= 2
    ensures Branches(children, path, values)
    ensures forall i | 0 <= i < |children| :: NodeOk(children[i], values) && IsPart(children[i], path, values)
  {
    forall i | 0 <= i < |children| ensures IsPart(children[i], path, values) && DocsFrom(values, children[i].key) != {} {
      assert IsPart(children[i], path, Restrict(values, path));
      RestrictedPart(children[i], path, values);
      assert DocsFrom(Restrict(values, path), children[i].key) <= DocsFrom(values, children[i].key);
    }
    forall i | 0 <= i < |children| ensures NodeOk(children[i], values) {
      ChildBranchesOff(children, i, path, values);
      PartIsNode(children[i], path, values);
    }
  }

  lemma ChildBranchesOff(children: seq<TrieNode>, i: nat, path: string, values: map<nat, string>)
    requires i < |children| && IsPart(children[i], path, values)
    requires forall j | 0 <= j < |children| :: IsPart(children[j], path, values) && DocsFrom(values, children[j].key) != {}
    requires forall j, k | 0 <= j < k < |children| :: children[j].key != children[k].key
    requires path == "" || DocsAt(values, path) != {} || |children| >= 2
    ensures BranchesOff(values, children[i].key)
  {
    var s := children[i].key;
    assert s[..|s| - 1] == path;
    if path == "" {
    } else if DocsAt(values, path) != {} {
      var d :| d in DocsAt(values, path);
      assert path[..|path|] == path;
    } else {
      var j := if i == 0 then 1 else 0;
      assert IsPart(children[j], path, values) && children[j].key != s;
      var d :| d in DocsFrom(values, children[j].key);
      OneCover(s, children[j].key, values[d]);
      Shorter(values[d], children[j].key, path);
    }
  }

  lemma NoSelf(n: TrieNode, values: map<nat, string>)
    requires !n.isVirtual && AreParts(n.children, n.key, values)
    ensures n !in n.children
  {
    forall i | 0 <= i < |n.children| ensures n.children[i] != n { assert IsPart(n.children[i], n.key, values); }
  }

  /** Nodes made by one split are apart from each other and from the node that was split. */
  lemma SplitIsApart(n: TrieNode, a: TrieNode, b: TrieNode, values: map<nat, string>)
    requires !n.isVirtual && Starts(n.Path(), n.key) && Branches(n.children, n.Path(), values)
    requires (a == n || a in n.children) && (b == n || b in n.children)
    ensures Apart(a, b)
  {
    if a in n.children && b in n.children && a != b {
      var i :| 0 <= i < |n.children| && n.children[i] == a;
      var j :| 0 <= j < |n.children| && n.children[j] == b;
      assert n.children[i].key != n.children[j].key;
      assert b.key[..|b.key|] == b.key;
      OneCover(a.key, b.key, b.key);
    }
  }

  lemma RootIsOk(root: TrieNode, values: map<nat, string>)
    requires root.key == "" && root.depth == 0 && !root.isVirtual && root.chars == "" && root.exact == [] && root.start == []
    requires Branches(root.children, "", values) && AllBelow(values, "")
    ensures NodeOk(root, values)
  {
    assert DocsAt(values, "") == {};
  }

  /** The nodes after a `Put` into the root. */
  lemma NodesGrow(before: seq<TrieNode>, children: seq<TrieNode>, root: TrieNode, nodes: set<TrieNode>)
    requires SameOrOneMore(before, children)
    requires forall i | 0 <= i < |before| :: before[i] in nodes
    requires forall n | n in nodes && n != root :: n in before
    ensures var nodes' := if children == before then nodes else nodes + {children[|children| - 1]};
            (forall i | 0 <= i < |children| :: children[i] in nodes') && forall n | n in nodes' && n != root :: n in children
  {
    forall i | 0 <= i < |children|
      ensures children[i] in nodes || (children != before && children[i] == children[|children| - 1])
    {
      OldOrLast(before, children, i);
    }
    forall n | n in before ensures n in children {
      var i :| 0 <= i < |before| && before[i] == n;
      assert children[i] == n;
    }
  }

  /** The strings are not empty and hold no zero character, which ends a string in the source. */
  predicate PlainString(v: string) {
    v != "" && 0 as char !in v
  }

  ghost predicate Plain(values: map<nat, string>) {
    forall d | d in values :: PlainString(values[d])
  }

  lemma PlainGrows(values: map<nat, string>, k: nat, v: string)
    requires Plain(values) && PlainString(v)
    ensures Plain(values[k := v]) && AllBelow(values, "")
  {
  }

  ghost predicate IsRootOf(root: TrieNode, nodes: set<TrieNode>)
    reads root
  {
    ChildrenIn(root, nodes) && forall n | n in nodes && n != root :: n in root.children
  }

  /** A trie no search has come through yet: the root has one virtual child for each first character. */
  ghost predicate Unsearched(root: TrieNode, values: map<nat, string>, nodes: set<TrieNode>)
    reads root, nodes
  {
    && root in nodes && root.key == "" && root.depth == 0 && !root.isVirtual
    && root.chars == "" && root.exact == [] && root.start == []
    && IsRootOf(root, nodes) && IsSplit(root.children, "", values) && Plain(values)
  }

  method Initialize() returns (root: TrieNode, ghost nodes: set<TrieNode>)
    ensures Unsearched(root, map[], nodes) && fresh(nodes)
  {
    root := new TrieNode.Root();
    nodes := {root};
  }

  /** Document k with the given string goes into the child of the root for its first character. */
  method InitializeByStep(root: TrieNode, value: string, k: nat, ghost values: map<nat, string>, ghost nodes: set<TrieNode>)
    returns (ghost nodes': set<TrieNode>)
    requires Unsearched(root, values, nodes) && k !in values && PlainString(value)
    modifies root`children, root.children
    ensures Unsearched(root, values[k := value], nodes') && nodes <= nodes' && fresh(nodes' - nodes)
  {
    ghost var before := root.children;
    PlainGrows(values, k, value);
    NoSelf(root, values);
    Put(root, 0, k, value, "", values);
    NodesGrow(before, root.children, root, nodes);
    nodes' := nodes + if root.children == before then {} else {root.children[|root.children| - 1]};
    assert nodes + {} == nodes;
  }

  // ---------------------------------------------------------------------------------------------
  // The invariant of all searches
  // ---------------------------------------------------------------------------------------------

  ghost predicate Valid(root: TrieNode, values: map<nat, string>, nodes: set<TrieNode>)
    reads nodes
  {
    && root in nodes && root.key == "" && Plain(values)
    && (forall n {:trigger NodeOk(n, values)} | n in nodes :: NodeOk(n, values))
    && (forall n {:trigger ChildrenIn(n, nodes)} | n in nodes :: ChildrenIn(n, nodes))
    && (forall n, m {:trigger Apart(n, m)} | n in nodes && m in nodes :: Apart(n, m))
  }

  lemma UnsearchedIsValid(root: TrieNode, values: map<nat, string>, nodes: set<TrieNode>)
    requires Unsearched(root, values, nodes)
    ensures Valid(root, values, nodes)
  {
    assert Restrict(values, "") == values;
    SplitIsBranches(root.children, "", values);
    RootIsOk(root, values);
    forall n | n in nodes ensures NodeOk(n, values) && ChildrenIn(n, nodes) {
      if n != root {
        var i :| 0 <= i < |root.children| && root.children[i] == n;
        assert IsPart(root.children[i], "", values);
      }
    }
    forall n, m | n in nodes && m in nodes ensures Apart(n, m) {
      SplitIsApart(root, n, m, values);
    }
  }

  // ---------------------------------------------------------------------------------------------
  // A search splits the virtual nodes it comes through
  // ---------------------------------------------------------------------------------------------

  lemma VirtualIsChain(node: TrieNode, values: map<nat, string>)
    requires NodeOk(node, values) && node.isVirtual
    ensures IsChain(node, values) && node.Path() == node.key && node.children == [] && DocsFrom(values, node.key) != {}
  {
    assert node.chars[1..] == "";
  }

  ghost predicate NewChild(c: TrieNode, values: map<nat, string>)
    reads c
  {
    NodeOk(c, values) && c.isVirtual && c.children == []
  }

  lemma ChainIsNode(node: TrieNode, values: map<nat, string>)
    requires !node.isVirtual && node.depth == |node.key| && node.key != "" && node.chars != ""
    requires node.chars[0] == node.key[|node.key| - 1] && DocsFrom(values, node.key) != {} && BranchesOff(values, node.key)
    requires SameDocs(values, node.key, node.Path()) && Lists(node.exact, DocsAt(values, node.Path())) && node.start == []
    requires IsSplit(node.children, node.Path(), Restrict(values, node.Path()))
    requires node.exact != [] || |node.children| >= 2
    ensures NodeOk(node, values)
    ensures forall c {:trigger NewChild(c, values)} | c in node.children :: NewChild(c, values)
  {
    if node.exact != [] { assert node.exact[0] in node.exact; }
    SplitIsBranches(node.children, node.Path(), values);
    forall c | c in node.children ensures NewChild(c, values) {
      var i :| 0 <= i < |node.children| && node.children[i] == c;
      assert IsPart(node.children[i], node.Path(), values);
    }
  }

  lemma BelowTrans(a: string, b: string, c: string)
    requires Starts(b, a) && Below(c, b)
    ensures Below(c, a)
  {
    assert c[..|b|][..|a|] == c[..|a|];
  }

  lemma BelowStarts(a: string, b: string, c: string)
    requires Below(b, a) && Starts(c, b)
    ensures Below(c, a)
  {
    assert c[..|b|][..|a|] == c[..|a|];
  }

  lemma StartsTrans(a: string, b: string, c: string)
    requires Starts(b, a) && Starts(c, b)
    ensures Starts(c, a)
  {
    assert c[..|b|][..|a|] == c[..|a|];
  }

  /** No key of another node begins with the key of this one. */
  ghost predicate Lonely(node: TrieNode, nodes: set<TrieNode>) {
    forall m {:trigger Starts(m.key, node.key)} | m in nodes && m != node :: !Starts(m.key, node.key)
  }

  lemma VirtualIsLonely(root: TrieNode, node: TrieNode, values: map<nat, string>, nodes: set<TrieNode>)
    requires Valid(root, values, nodes) && node in nodes && node.isVirtual
    ensures Lonely(node, nodes)
  {
    forall m | m in nodes && m != node ensures !Starts(m.key, node.key) {
      assert Apart(node, m);
    }
  }

  /** An old node and a new child of `node`. */
  lemma ChildApart(node: TrieNode, n: TrieNode, child: TrieNode)
    requires n != node && Apart(n, node) && !Starts(n.key, node.key) && Below(child.key, node.key)
    ensures Apart(n, child) && Apart(child, n)
  {
    if Starts(child.key, n.key) {
      if |n.key| <= |node.key| {
        Comparable(n.key, node.key, child.key);
        BelowStarts(n.Path(), node.key, child.key);
      } else {
        Comparable(node.key, n.key, child.key);
      }
    }
    if Starts(n.key, child.key) {
      BelowStarts(node.key, child.key, n.key);
    }
  }

  lemma ChildBelow(node: TrieNode, child: TrieNode, values: map<nat, string>)
    requires Starts(node.Path(), node.key) && Branches(node.children, node.Path(), values) && child in node.children
    ensures Below(child.key, node.key)
  {
    BelowTrans(node.key, node.Path(), child.key);
  }

  /** After the split of `node`, all nodes are apart again. */
  lemma OpenedPair(node: TrieNode, values: map<nat, string>, nodes: set<TrieNode>, n: TrieNode, m: TrieNode)
    requires node in nodes && Lonely(node, nodes) && !node.isVirtual
    requires Starts(node.Path(), node.key) && Branches(node.children, node.Path(), values)
    requires n in nodes || n in node.children
    requires m in nodes || m in node.children
    requires n in nodes && n != node ==> Apart(n, node) && (m in nodes ==> Apart(n, m))
    requires m in nodes && m != node ==> Apart(m, node)
    ensures Apart(n, m)
  {
    if (n == node || n !in nodes) && (m == node || m !in nodes) {
      SplitIsApart(node, n, m, values);
    } else if n !in nodes {
      ChildBelow(node, n, values);
      ChildApart(node, m, n);
    } else if m !in nodes {
      ChildBelow(node, m, values);
      ChildApart(node, n, m);
    }
  }

  /** Splits a virtual node for a search and drops its list, whose documents its children have now. */
  method Open(root: TrieNode, node: TrieNode, values: map<nat, string>, ghost nodes: set<TrieNode>)
    returns (ghost nodes': set<TrieNode>)
    requires Valid(root, values, nodes) && node in nodes && node.isVirtual
    modifies node
    ensures Valid(root, values, nodes') && nodes <= nodes' && fresh(nodes' - nodes) && !node.isVirtual
    ensures forall n | n in nodes' - nodes :: n.isVirtual
    ensures DocsFrom(values, node.Path()) == old(DocsFrom(values, node.Path()))
  {
    assert NodeOk(node, values);
    VirtualIsChain(node, values);
    VirtualIsLonely(root, node, values, nodes);
    Extract(node, values);
    node.start := [];
    ChainIsNode(node, values);
    SameDocsFrom(node, values);
    nodes' := nodes + set n | n in node.children;
    forall n | n in nodes' ensures NodeOk(n, values) && ChildrenIn(n, nodes') {
      if n in nodes && n != node {
        assert old(NodeOk(n, values)) && old(ChildrenIn(n, nodes));
      } else if n != node {
        assert NewChild(n, values);
      }
    }
    forall n | n in nodes' - nodes ensures n.isVirtual { assert NewChild(n, values); }
    forall n, m | n in nodes' && m in nodes' ensures Apart(n, m) {
      assert n in nodes && n != node ==> old(Apart(n, node)) && (m in nodes ==> old(Apart(n, m)));
      assert m in nodes && m != node ==> old(Apart(m, node));
      OpenedPair(node, values, nodes, n, m);
    }
  }

  // ---------------------------------------------------------------------------------------------
  // Searches
  // ---------------------------------------------------------------------------------------------

  /** A character of a search string; the one behind its end is zero. */
  function CharAt(s: string, i: nat): char
    requires i <= |s|
  {
    if i < |s| then s[i] else 0 as char
  }

  lemma PathIsPlain(n: TrieNode, values: map<nat, string>)
    requires NodeOk(n, values) && Plain(values)
    ensures 0 as char !in n.Path()
  {
    if n.key != "" {
      var d :| d in DocsFrom(values, n.key);
      assert values[d][..|n.Path()|] == n.Path();
      assert forall c | c in n.Path() :: c in values[d];
    }
  }

  /** Compares the compressed part of a node with a search string that begins with the node's key. */
  method MatchChain(node: TrieNode, cmpVal: string, start: nat) returns (matched: bool, depthIndex: nat)
    requires start == |node.key| <= |cmpVal| && Starts(cmpVal, node.key) && 0 as char !in node.Path()
    ensures depthIndex <= |cmpVal|
    ensures matched ==> depthIndex == |node.Path()| && Starts(cmpVal, node.Path())
    ensures !matched && depthIndex < |cmpVal| ==> !Starts(cmpVal, node.Path()) && !Starts(node.Path(), cmpVal)
    ensures !matched && depthIndex == |cmpVal| ==> Below(node.Path(), cmpVal)
  {
    ghost var path := node.Path();
    depthIndex := start;
    var i: nat := 1;
    while i < |node.chars|
      invariant 1 <= i && depthIndex == start + i - 1 <= |cmpVal| && (i <= |node.chars| || i == 1)
      invariant depthIndex <= |path| && cmpVal[..depthIndex] == path[..depthIndex]
    {
      assert path[depthIndex] == node.chars[i] && path[depthIndex] in path;
      if node.chars[i] != CharAt(cmpVal, depthIndex) {
        if depthIndex < |cmpVal| {
          FirstDifference(path, cmpVal, depthIndex);
        }
        return false, depthIndex;
      }
      assert cmpVal[..depthIndex + 1] == cmpVal[..depthIndex] + [cmpVal[depthIndex]];
      assert path[..depthIndex + 1] == path[..depthIndex] + [path[depthIndex]];
      depthIndex := depthIndex + 1;
      i := i + 1;
    }
    assert path[..|path|] == path;
    matched := true;
  }

  lemma FirstDifference(a: string, b: string, i: nat)
    requires i < |a| && i < |b| && a[i] != b[i]
    ensures !Starts(a, b) && !Starts(b, a)
  {
    assert |b| <= |a| ==> a[..|b|][i] == a[i];
    assert |a| <= |b| ==> b[..|a|][i] == b[i];
  }

  /** A node whose path and the search string part ways has no document that begins with that string. */
  lemma PartedNoDocs(n: TrieNode, values: map<nat, string>, s: string)
    requires NodeOk(n, values) && Starts(s, n.key) && !Starts(s, n.Path()) && !Starts(n.Path(), s)
    ensures DocsFrom(values, s) == {}
  {
    forall d | d in values ensures !Starts(values[d], s) {
      if Starts(values[d], s) {
        StartsTrans(n.key, s, values[d]);
        if |s| <= |n.Path()| { Comparable(s, n.Path(), values[d]); } else { Comparable(n.Path(), s, values[d]); }
      }
    }
  }

  /** A node whose path goes on behind the search string has no document that is that string. */
  lemma LongerNoDocs(n: TrieNode, values: map<nat, string>, s: string)
    requires NodeOk(n, values) && Starts(s, n.key) && Below(n.Path(), s)
    ensures DocsAt(values, s) == {}
  {
    forall d | d in values ensures values[d] != s {
      if Starts(values[d], n.key) { assert Starts(values[d], n.Path()); }
    }
  }

  lemma FromCoversAt(values: map<nat, string>, s: string)
    ensures DocsAt(values, s) <= DocsFrom(values, s)
  {
    assert s[..|s|] == s;
  }
  lemma MismatchNoDocs(n: TrieNode, values: map<nat, string>, s: string, startsWithSearch: bool)
    requires NodeOk(n, values) && Starts(s, n.key)
    requires (!Starts(s, n.Path()) && !Starts(n.Path(), s)) || (!startsWithSearch && Below(n.Path(), s))
    ensures if startsWithSearch then DocsFrom(values, s) == {} else DocsAt(values, s) == {}
  {
    if Below(n.Path(), s) {
      LongerNoDocs(n, values, s);
    } else {
      PartedNoDocs(n, values, s);
      FromCoversAt(values, s);
    }
  }

  /** Without a child for the next character no document begins with the search string. */
  lemma NoChildNoDocs(n: TrieNode, values: map<nat, string>, nodes: set<TrieNode>, s: string)
    requires NodeOk(n, values) && !n.isVirtual && Below(s, n.Path())
    requires forall c {:trigger NodeOk(c, values)} | c in n.children :: NodeOk(c, values) && c.chars != "" && c.chars[0] != s[|n.Path()|]
    ensures DocsFrom(values, s) == {} && DocsAt(values, s) == {}
  {
    FromCoversAt(values, s);
    var path := n.Path();
    forall d | d in values ensures !Starts(values[d], s) {
      if Starts(values[d], s) {
        BelowStarts(path, s, values[d]);
        assert values[d][|path|] == values[d][..|s|][|path|] == s[|path|];
        assert d in Restrict(values, path);
        assert Covers(n.children, Restrict(values, path)[d]);
        var i :| 0 <= i < |n.children| && Starts(values[d], n.children[i].key);
        var c := n.children[i];
        assert NodeOk(c, values);
        NextChar(path, c.key, values[d]);
      }
    }
  }

  lemma ChildKey(n: TrieNode, child: TrieNode, values: map<nat, string>, s: string)
    requires NodeOk(n, values) && !n.isVirtual && child in n.children && NodeOk(child, values)
    requires Below(s, n.Path()) && child.chars != "" && child.chars[0] == s[|n.Path()|]
    ensures child.key == s[..|n.Path()| + 1]
  {
    NextChar(n.Path(), child.key, s);
  }

  /** Where a search may end: at the node for the string, or inside the chain of a node that goes on behind it. */
  ghost predicate Reached(n: TrieNode, s: string, startsWithSearch: bool)
    reads n
  {
    || n.key == s
    || (!n.isVirtual && n.Path() == s)
    || (startsWithSearch && !n.isVirtual && Starts(s, n.key) && Below(n.Path(), s))
  }

  lemma ChildrenOk(n: TrieNode, root: TrieNode, values: map<nat, string>, nodes: set<TrieNode>)
    requires Valid(root, values, nodes) && n in nodes
    ensures NodeOk(n, values)
    ensures forall c | c in n.children :: c in nodes && NodeOk(c, values) && c.chars != ""
  {
    assert NodeOk(n, values) && ChildrenIn(n, nodes);
    forall c | c in n.children ensures c in nodes && NodeOk(c, values) && c.chars != "" {
      var i :| 0 <= i < |n.children| && n.children[i] == c;
      assert n.children[i] in nodes && NodeOk(c, values);
    }
  }

  ghost predicate NoNodeAt(nodes: set<TrieNode>, s: string) {
    forall n | n in nodes :: n.key != s
  }

  lemma NoDocsNoNode(root: TrieNode, values: map<nat, string>, nodes: set<TrieNode>, s: string)
    requires Valid(root, values, nodes) && DocsFrom(values, s) == {} && s != ""
    ensures NoNodeAt(nodes, s)
  {
    forall n | n in nodes ensures n.key != s { assert NodeOk(n, values); }
  }

  lemma MismatchNoNode(root: TrieNode, node: TrieNode, values: map<nat, string>, nodes: set<TrieNode>, s: string)
    requires Valid(root, values, nodes) && node in nodes && Below(s, node.key) && !Starts(s, node.Path())
    ensures NoNodeAt(nodes, s)
  {
    forall n | n in nodes ensures n.key != s {
      assert Apart(node, n);
    }
  }

  /** One round of the walk: splits a virtual node, compares its chain and goes to the child for the next character. */
  method VisitNode(root: TrieNode, node: TrieNode, cmpVal: string, depth: nat, startsWithSearch: bool,
                   values: map<nat, string>, ghost nodes: set<TrieNode>)
    returns (next: TrieNode?, depthIndex: nat, done: bool, ghost nodes': set<TrieNode>)
    requires Valid(root, values, nodes) && node in nodes && depth < |cmpVal| && node.key == cmpVal[..depth]
    modifies node
    ensures Valid(root, values, nodes') && nodes <= nodes' && fresh(nodes' - nodes)
    ensures next != null ==> next in nodes'
    ensures done && next != null ==> Reached(next, cmpVal, startsWithSearch)
    ensures done && next == null ==> if startsWithSearch then DocsFrom(values, cmpVal) == {} else DocsAt(values, cmpVal) == {}
    ensures done && next == null ==> NoNodeAt(nodes', cmpVal)
    ensures forall n | n in nodes' - nodes :: n.isVirtual
    ensures !old(node.isVirtual) ==> unchanged(node)
    ensures !done ==> next != null && depth < depthIndex <= |cmpVal| && next.key == cmpVal[..depthIndex]
  {
    nodes' := nodes;
    if node.isVirtual {
      nodes' := Open(root, node, values, nodes);
    }
    assert NodeOk(node, values);
    PathIsPlain(node, values);
    var matched;
    matched, depthIndex := MatchChain(node, cmpVal, depth);
    if !matched {
      if depthIndex >= |cmpVal| && startsWithSearch {
        return node, depthIndex, true, nodes';
      }
      MismatchNoDocs(node, values, cmpVal, startsWithSearch);
      MismatchNoNode(root, node, values, nodes', cmpVal);
      return null, depthIndex, true, nodes';
    }
    assert cmpVal[..|cmpVal|] == cmpVal;
    if depthIndex >= |cmpVal| {
      return node, depthIndex, true, nodes';
    }
    next := NextNode(root, node, cmpVal, depthIndex, values, nodes');
    done := next == null;
    depthIndex := depthIndex + 1;
  }

  /** The child of a split node for the next character of the search string. */
  method NextNode(root: TrieNode, node: TrieNode, cmpVal: string, depthIndex: nat, values: map<nat, string>, ghost nodes: set<TrieNode>)
    returns (child: TrieNode?)
    requires Valid(root, values, nodes) && node in nodes && !node.isVirtual
    requires depthIndex == |node.Path()| && Below(cmpVal, node.Path())
    ensures child != null ==> child in nodes && child.key == cmpVal[..depthIndex + 1]
    ensures child == null ==> DocsFrom(values, cmpVal) == {} && DocsAt(values, cmpVal) == {} && NoNodeAt(nodes, cmpVal)
  {
    ChildrenOk(node, root, values, nodes);
    child := node.GetChild(cmpVal[depthIndex]);
    if child == null {
      NoChildNoDocs(node, values, nodes, cmpVal);
      NoDocsNoNode(root, values, nodes, cmpVal);
    } else {
      ChildKey(node, child, values, cmpVal);
    }
  }

  /** The walk of all searches. */
  method FindMatchingNode(root: TrieNode, cmpVal: string, startsWithSearch: bool, values: map<nat, string>, ghost nodes: set<TrieNode>)
    returns (found: TrieNode?, ghost nodes': set<TrieNode>)
    requires Valid(root, values, nodes)
    modifies nodes
    ensures Valid(root, values, nodes') && nodes <= nodes' && fresh(nodes' - nodes)
    ensures found != null ==> found in nodes' && Reached(found, cmpVal, startsWithSearch)
    ensures found == null ==> if startsWithSearch then DocsFrom(values, cmpVal) == {} else DocsAt(values, cmpVal) == {}
    ensures found == null ==> NoNodeAt(nodes', cmpVal)
    ensures forall n | n in nodes && (|n.key| >= |cmpVal| || !old(n.isVirtual)) :: unchanged(n)
    ensures forall n | n in nodes' - nodes && |n.key| >= |cmpVal| :: n.isVirtual
  {
    nodes' := nodes;
    var currentNode := root;
    var depthIndex: nat := 0;
    while depthIndex < |cmpVal|
      invariant Valid(root, values, nodes') && nodes <= nodes' && fresh(nodes' - nodes)
      invariant currentNode in nodes' && depthIndex <= |cmpVal| && currentNode.key == cmpVal[..depthIndex]
      invariant forall n | n in nodes && (|n.key| >= |cmpVal| || !old(n.isVirtual)) :: unchanged(n)
      invariant forall n | n in nodes' - nodes && |n.key| >= |cmpVal| :: n.isVirtual
    {
      var next, depth, done;
      next, depth, done, nodes' := VisitNode(root, currentNode, cmpVal, depthIndex, startsWithSearch, values, nodes');
      if done {
        return next, nodes';
      }
      currentNode := next;
      depthIndex := depth;
    }
    assert cmpVal[..|cmpVal|] == cmpVal;
    found := currentNode;
  }

  // ---------------------------------------------------------------------------------------------
  // The results of searches
  // ---------------------------------------------------------------------------------------------

  ghost predicate Bounded(values: map<nat, string>, bound: nat) {
    forall d | d in values :: |values[d]| <= bound
  }

  method AddAll(list: seq<nat>, result: set<nat>, ghost docs: set<nat>) returns (result': set<nat>)
    requires Lists(list, docs)
    ensures result' == result + docs
  {
    result' := result;
    for i := 0 to |list|
      invariant forall d :: d in result' <==> d in result || d in list[..i]
    {
      result' := result' + {list[i]};
    }
    assert list[..|list|] == list;
  }

  ghost function FromChildren(children: seq<TrieNode>, values: map<nat, string>): set<nat> {
    if children == [] then {}
    else FromChildren(children[..|children| - 1], values) + DocsFrom(values, children[|children| - 1].key)
  }

  /** Adds all documents of a subtree to a result: those whose string begins with the path of the node. */
  method CollectDocuments(root: TrieNode, node: TrieNode, result: set<nat>, values: map<nat, string>,
                          ghost nodes: set<TrieNode>, ghost bound: nat)
    returns (result': set<nat>)
    requires Valid(root, values, nodes) && node in nodes
    requires Bounded(values, bound)
    ensures result' == result + DocsFrom(values, node.Path())
    decreases (if |node.key| <= bound then bound - |node.key| + 1 else 0), 1
  {
    assert NodeOk(node, values);
    OwnOrSub(node, values);
    result' := AddAll(node.exact, result, DocsAt(values, node.Path()));
    if |node.start| != 0 {
      StartIsBelow(node, values);
      result' := AddAll(node.start, result', DocsBelow(values, node.Path()));
    } else {
      NoStart(node, values);
      result' := CollectChildren(root, node, result', values, nodes, bound);
    }
  }

  method CollectChildren(root: TrieNode, node: TrieNode, result: set<nat>, values: map<nat, string>,
                         ghost nodes: set<TrieNode>, ghost bound: nat)
    returns (result': set<nat>)
    requires Valid(root, values, nodes) && node in nodes
    requires Bounded(values, bound)
    ensures result' == result + FromChildren(node.children, values)
    decreases (if |node.key| <= bound then bound - |node.key| + 1 else 0), 0
  {
    result' := result;
    for i := 0 to |node.children|
      invariant result' == result + FromChildren(node.children[..i], values)
    {
      ChildToCollect(root, node, i, values, nodes, bound);
      result' := CollectDocuments(root, node.children[i], result', values, nodes, bound);
    }
    assert node.children[..|node.children|] == node.children;
  }

  lemma ChildToCollect(root: TrieNode, node: TrieNode, i: nat, values: map<nat, string>, nodes: set<TrieNode>, bound: nat)
    requires Valid(root, values, nodes) && node in nodes && i < |node.children| && Bounded(values, bound)
    ensures var child := node.children[i];
            && child in nodes && |node.key| < |child.key| <= bound
            && FromChildren(node.children[..i + 1], values) == FromChildren(node.children[..i], values) + DocsFrom(values, child.Path())
  {
    var child := node.children[i];
    assert child in node.children;
    ChildrenOk(node, root, values, nodes);
    KeyIsShort(child, values, bound);
    ChildIsLonger(node, i, values);
    SameDocsFrom(child, values);
    assert node.children[..i + 1][..i] == node.children[..i];
  }

  lemma StartIsBelow(n: TrieNode, values: map<nat, string>)
    requires NodeOk(n, values) && n.start != []
    ensures Lists(n.start, DocsBelow(values, n.Path()))
  {
    assert n.start[0] in n.start;
  }

  lemma ChildIsLonger(n: TrieNode, i: nat, values: map<nat, string>)
    requires NodeOk(n, values) && i < |n.children|
    ensures |n.children[i].key| > |n.key|
  {
  }

  /** Without a start list, all documents below a node are in its children. */
  lemma NoStart(n: TrieNode, values: map<nat, string>)
    requires NodeOk(n, values) && n.start == []
    ensures n.children == [] || !n.isVirtual
    ensures FromChildren(n.children, values) == DocsBelow(values, n.Path())
  {
    if n.isVirtual {
      NoneListed(n.start, DocsBelow(values, n.Path()));
    } else {
      OwnOrSub(n, values);
      ChildrenUnion(n.children, values);
    }
  }

  lemma {:induction false} ChildrenUnion(children: seq<TrieNode>, values: map<nat, string>)
    ensures forall d :: d in FromChildren(children, values) <==>
      exists k :: 0 <= k < |children| && d in DocsFrom(values, children[k].key)
  {
    if children != [] {
      var init := children[..|children| - 1];
      ChildrenUnion(init, values);
      forall d | d in FromChildren(init, values) ensures exists k :: 0 <= k < |children| && d in DocsFrom(values, children[k].key) {
        var k :| 0 <= k < |init| && d in DocsFrom(values, init[k].key);
        assert children[k] == init[k];
      }
      forall d, k | 0 <= k < |children| && d in DocsFrom(values, children[k].key) ensures d in FromChildren(children, values) {
        if k < |init| { assert init[k] == children[k]; }
      }
    }
  }

  lemma SameDocsFrom(n: TrieNode, values: map<nat, string>)
    requires NodeOk(n, values)
    ensures DocsFrom(values, n.Path()) == DocsFrom(values, n.key)
  {
    forall d | d in values ensures Starts(values[d], n.Path()) <==> Starts(values[d], n.key) {
      if Starts(values[d], n.Path()) { StartsTrans(n.key, n.Path(), values[d]); }
    }
  }

  lemma KeyIsShort(n: TrieNode, values: map<nat, string>, bound: nat)
    requires NodeOk(n, values) && Bounded(values, bound)
    ensures n.key != "" ==> |n.key| <= bound
  {
    if n.key != "" {
      var d :| d in DocsFrom(values, n.key);
    }
  }

  /** The documents of a subtree are those of its node, and those of its list or its children. */
  lemma OwnOrSub(n: TrieNode, values: map<nat, string>)
    requires NodeOk(n, values)
    ensures DocsFrom(values, n.Path()) == DocsAt(values, n.Path()) + DocsBelow(values, n.Path())
    ensures !n.isVirtual ==> forall d ::
      d in DocsBelow(values, n.Path()) <==> exists k :: 0 <= k < |n.children| && d in DocsFrom(values, n.children[k].key)
  {
    var path := n.Path();
    assert path[..|path|] == path;
    forall d | d in DocsFrom(values, path) ensures d in DocsAt(values, path) + DocsBelow(values, path) {
      OwnOrBelow(values[d], path);
    }
    if !n.isVirtual {
      forall d | d in DocsBelow(values, path) ensures exists k :: 0 <= k < |n.children| && d in DocsFrom(values, n.children[k].key) {
        assert d in Restrict(values, path);
        assert Covers(n.children, Restrict(values, path)[d]);
        var i :| 0 <= i < |n.children| && Starts(values[d], n.children[i].key);
        assert d in DocsFrom(values, n.children[i].key);
      }
      forall d, k | 0 <= k < |n.children| && d in DocsFrom(values, n.children[k].key) ensures d in DocsBelow(values, path) {
        Shorter(values[d], n.children[k].key, path);
      }
    }
  }

  /** Two nodes never have the same key. */
  lemma KeysAreUnique(root: TrieNode, values: map<nat, string>, nodes: set<TrieNode>, n: TrieNode, m: TrieNode)
    requires Valid(root, values, nodes) && n in nodes && m in nodes && n.key == m.key
    ensures n == m
  {
    assert NodeOk(n, values) && Apart(n, m);
    assert m.key[..|m.key|] == m.key;
  }

  /** The node at which a search ended is the only one that may have the search string as its key. */
  lemma ReachedIsLast(root: TrieNode, values: map<nat, string>, nodes: set<TrieNode>, found: TrieNode, s: string, n: TrieNode)
    requires Valid(root, values, nodes) && found in nodes && Reached(found, s, true) && n in nodes && n.key == s
    ensures n == found
  {
    assert NodeOk(found, values) && Apart(found, n);
    assert s[..|s|] == s;
  }

  /** Every node on the way of a search that got to its end is split. */
  lemma OnTheWayIsSplit(root: TrieNode, values: map<nat, string>, nodes: set<TrieNode>, found: TrieNode, s: string, n: TrieNode)
    requires Valid(root, values, nodes) && found in nodes && Reached(found, s, true) && n in nodes && Below(s, n.key)
    ensures !n.isVirtual
  {
    assert NodeOk(found, values) && NodeOk(n, values) && Apart(found, n) && Apart(n, found);
    if found.key == s {
    } else if |found.key| <= |n.key| {
      Comparable(found.key, n.key, s);
    } else {
      Comparable(n.key, found.key, s);
    }
  }

  /** A node for the search string that an earlier, longer search has split and compressed. */
  ghost predicate Overshot(n: TrieNode, s: string)
    reads n
  {
    n.key == s && |n.chars| > 1 && n.exact != []
  }

  /**
   The documents whose string is the search string are never missed. The result has no other document
   unless an earlier search made the node for the string part of a longer chain that ends at documents.
   */
  method FindEq(root: TrieNode, cmpVal: string, values: map<nat, string>, ghost nodes: set<TrieNode>)
    returns (result: set<nat>, ghost nodes': set<TrieNode>)
    requires Valid(root, values, nodes)
    modifies nodes
    ensures Valid(root, values, nodes') && nodes <= nodes' && fresh(nodes' - nodes)
    ensures DocsAt(values, cmpVal) <= result <= values.Keys
    ensures result == DocsAt(values, cmpVal) <==> !exists n :: n in nodes && old(Overshot(n, cmpVal))
    ensures DocsAt(values, cmpVal) != {} ==> forall n | n in nodes' && Below(cmpVal, n.key) :: !n.isVirtual
  {
    var currentNode;
    currentNode, nodes' := FindMatchingNode(root, cmpVal, false, values, nodes);
    result := {};
    if currentNode != null {
      assert NodeOk(currentNode, values);
      result := AddAll(currentNode.exact, {}, DocsAt(values, currentNode.Path()));
      EqualDocs(currentNode, values, cmpVal);
      forall n | n in nodes && n.key == cmpVal ensures n == currentNode {
        ReachedIsLast(root, values, nodes', currentNode, cmpVal, n);
      }
      forall n | n in nodes' && Below(cmpVal, n.key) ensures !n.isVirtual {
        OnTheWayIsSplit(root, values, nodes', currentNode, cmpVal, n);
      }
    }
  }

  lemma EqualDocs(n: TrieNode, values: map<nat, string>, s: string)
    requires NodeOk(n, values) && Reached(n, s, false)
    ensures DocsAt(values, s) <= DocsAt(values, n.Path())
    ensures DocsAt(values, s) == DocsAt(values, n.Path()) <==> !Overshot(n, s)
  {
    if n.Path() != s {
      assert n.Path()[..|s|] == s;
      LongerNoDocs(n, values, s);
      if n.exact != [] { assert n.exact[0] in n.exact; } else { NoneListed(n.exact, DocsAt(values, n.Path())); }
    }
  }

  /** A virtual node for the search string below which there are no documents. */
  ghost predicate Skipped(n: TrieNode, s: string)
    reads n
  {
    n.key == s && n.isVirtual && n.start == []
  }

  /**
   The search ends at a virtual node that has documents of its own only: there is a document with the search string
   and none that goes on behind it, and the node is there already, or it will be split off one that is still virtual.
   */
  ghost predicate WillMiss(values: map<nat, string>, virtuals: set<TrieNode>, s: string) {
    && DocsAt(values, s) != {} && DocsBelow(values, s) == {} && s != ""
    && exists v :: v in virtuals && Starts(s, v.key) && (v.key == s || BranchesOff(values, s))
  }

  /**
   Only documents whose string begins with the search string are found, and all of them unless the search
   ends at a virtual node that has documents of its own only.
   */
  method FindStartsWith(root: TrieNode, cmpVal: string, values: map<nat, string>, ghost nodes: set<TrieNode>)
    returns (result: set<nat>, ghost nodes': set<TrieNode>)
    requires Valid(root, values, nodes)
    modifies nodes
    ensures Valid(root, values, nodes') && nodes <= nodes' && fresh(nodes' - nodes)
    ensures result <= DocsFrom(values, cmpVal)
    ensures result == DocsFrom(values, cmpVal) <==> !WillMiss(values, old(Virtuals(nodes)), cmpVal)
    ensures forall n | n in nodes && |n.key| >= |cmpVal| :: unchanged(n)
  {
    ghost var virtuals := Virtuals(nodes);
    ghost var home := HomeOf(root, values, nodes, cmpVal);
    VirtualsAreLonely(root, values, nodes);
    var currentNode;
    currentNode, nodes' := FindMatchingNode(root, cmpVal, true, values, nodes);
    result := {};
    if currentNode != null {
      forall n | n in nodes' && n.key == cmpVal ensures n == currentNode {
        ReachedIsLast(root, values, nodes', currentNode, cmpVal, n);
      }
      SkippedIff(root, values, nodes, nodes', currentNode, home, virtuals, cmpVal);
      assert NodeOk(currentNode, values);
      if !(currentNode.isVirtual && |currentNode.start| == 0) {
        ghost var bound := LongestValue(values);
        result := CollectDocuments(root, currentNode, {}, values, nodes', bound);
        PrefixDocs(currentNode, values, cmpVal);
      }
    } else {
      FromCoversAt(values, cmpVal);
    }
  }

  ghost function Virtuals(nodes: set<TrieNode>): set<TrieNode>
    reads nodes
  {
    set n | n in nodes && n.isVirtual
  }

  ghost predicate AreLonely(virtuals: set<TrieNode>, nodes: set<TrieNode>) {
    forall v, m {:trigger Starts(m.key, v.key)} | v in virtuals && m in nodes && m != v :: !Starts(m.key, v.key)
  }

  lemma VirtualsAreLonely(root: TrieNode, values: map<nat, string>, nodes: set<TrieNode>)
    requires Valid(root, values, nodes)
    ensures AreLonely(Virtuals(nodes), nodes)
  {
    forall v, m | v in Virtuals(nodes) && m in nodes && m != v ensures !Starts(m.key, v.key) {
      assert Apart(v, m);
    }
  }

  /** The node that has the documents with a string: virtual, or with just this path. */
  ghost predicate IsHome(home: TrieNode, nodes: set<TrieNode>, virtuals: set<TrieNode>, s: string)
    reads home
  {
    home in nodes && if home in virtuals then Starts(s, home.key) else !home.isVirtual && home.Path() == s && Starts(s, home.key)
  }

  lemma HomeOf(root: TrieNode, values: map<nat, string>, nodes: set<TrieNode>, s: string) returns (home: TrieNode)
    requires Valid(root, values, nodes)
    ensures DocsAt(values, s) != {} ==> IsHome(home, nodes, Virtuals(nodes), s)
  {
    home := root;
    if DocsAt(values, s) != {} {
      var d :| d in DocsAt(values, s);
      home := InSomeNode(root, values, nodes, root, d);
      PathOfDocument(root, values, nodes, home, d);
      assert NodeOk(home, values);
      StartsTrans(home.key, home.Path(), s);
    }
  }

  /** Whether the search meets such a node can be told from the trie before it. */
  lemma SkippedIff(root: TrieNode, values: map<nat, string>, nodes: set<TrieNode>, nodes': set<TrieNode>, found: TrieNode,
                   home: TrieNode, virtuals: set<TrieNode>, s: string)
    requires Valid(root, values, nodes') && nodes <= nodes' && virtuals <= nodes && AreLonely(virtuals, nodes)
    requires found in nodes' && Reached(found, s, true)
    requires forall n | n in nodes && |n.key| >= |s| :: n.isVirtual <==> n in virtuals
    requires forall n | n in nodes' - nodes && |n.key| >= |s| :: n.isVirtual
    requires DocsAt(values, s) != {} ==> IsHome(home, nodes, virtuals, s)
    ensures (exists n :: n in nodes' && Skipped(n, s)) <==> WillMiss(values, virtuals, s)
  {
    if n :| n in nodes' && Skipped(n, s) {
      SkippedMisses(root, values, nodes, nodes', n, home, virtuals, s);
    }
    if WillMiss(values, virtuals, s) {
      var v :| v in virtuals && Starts(s, v.key) && (v.key == s || BranchesOff(values, s));
      var n := MissedIsSkipped(root, values, nodes, nodes', found, v, virtuals, s);
    }
  }

  lemma SkippedMisses(root: TrieNode, values: map<nat, string>, nodes: set<TrieNode>, nodes': set<TrieNode>, n: TrieNode,
                      home: TrieNode, virtuals: set<TrieNode>, s: string)
    requires Valid(root, values, nodes') && nodes <= nodes' && n in nodes' && Skipped(n, s)
    requires forall n | n in nodes && |n.key| >= |s| :: n.isVirtual <==> n in virtuals
    requires DocsAt(values, s) != {} ==> IsHome(home, nodes, virtuals, s)
    ensures WillMiss(values, virtuals, s)
  {
    assert NodeOk(n, values);
    assert n.chars[1..] == "" && n.Path() == s;
    NoneListed(n.start, DocsBelow(values, s));
    OwnOrSub(n, values);
    assert home in nodes' ==> Apart(home, n);
  }

  lemma MissedIsSkipped(root: TrieNode, values: map<nat, string>, nodes: set<TrieNode>, nodes': set<TrieNode>, found: TrieNode,
                        v: TrieNode, virtuals: set<TrieNode>, s: string) returns (m: TrieNode)
    requires Valid(root, values, nodes') && nodes <= nodes' && virtuals <= nodes && AreLonely(virtuals, nodes)
    requires found in nodes' && Reached(found, s, true)
    requires forall n | n in nodes && |n.key| >= |s| :: n.isVirtual <==> n in virtuals
    requires forall n | n in nodes' - nodes && |n.key| >= |s| :: n.isVirtual
    requires DocsAt(values, s) != {} && DocsBelow(values, s) == {} && s != ""
    requires v in virtuals && Starts(s, v.key) && (v.key == s || BranchesOff(values, s))
    ensures m in nodes' && Skipped(m, s)
  {
    var d :| d in DocsAt(values, s);
    m := InSomeNode(root, values, nodes', root, d);
    PathOfDocument(root, values, nodes', m, d);
    assert NodeOk(m, values);
    StartsTrans(m.key, m.Path(), s);
    assert Apart(m, v);
    if m.key == s {
      assert m.isVirtual;
    } else if m.isVirtual {
      OnTheWayIsSplit(root, values, nodes', found, s, m);
    } else if v.key != s {
      ChainDoesNotBranch(m, values, s);
    }
    if m.start != [] { SomethingListed(m.start, DocsBelow(values, m.Path())); }
  }

  /** Within the chain of a node no string branches off. */
  lemma ChainDoesNotBranch(m: TrieNode, values: map<nat, string>, s: string)
    requires NodeOk(m, values) && Below(s, m.key) && m.Path() == s && m.key != ""
    ensures !BranchesOff(values, s)
  {
    forall d | d in values && Starts(values[d], s[..|s| - 1]) ensures Starts(values[d], s) {
      assert s[..|s| - 1][..|m.key|] == m.key;
      StartsTrans(m.key, s[..|s| - 1], values[d]);
    }
  }

  lemma PrefixDocs(n: TrieNode, values: map<nat, string>, s: string)
    requires NodeOk(n, values) && Reached(n, s, true)
    ensures DocsFrom(values, n.Path()) == DocsFrom(values, s)
  {
    SameDocsFrom(n, values);
    if n.key != s && n.Path() != s {
      forall d | d in values ensures Starts(values[d], n.Path()) <==> Starts(values[d], s) {
        if Starts(values[d], s) { StartsTrans(n.key, s, values[d]); }
        if Starts(values[d], n.Path()) { Shorter(values[d], n.Path(), s); }
      }
    }
  }

  lemma {:induction false} LongestValue(values: map<nat, string>) returns (bound: nat)
    ensures Bounded(values, bound)
    decreases |values|
  {
    if values == map[] {
      bound := 0;
    } else {
      var d :| d in values;
      var rest := LongestValue(values - {d});
      bound := if rest >= |values[d]| then rest else |values[d]|;
      forall e | e in values ensures |values[e]| <= bound {
        if e != d { assert e in values - {d} && (values - {d})[e] == values[e]; }
      }
    }
  }

  // ---------------------------------------------------------------------------------------------
  // Where the documents are
  // ---------------------------------------------------------------------------------------------

  ghost predicate Has(n: TrieNode, d: nat)
    reads n
  {
    d in n.exact || d in n.start
  }

  /** The path of a node is a prefix of the string of each of its documents, and the whole string of the exact ones. */
  lemma PathOfDocument(root: TrieNode, values: map<nat, string>, nodes: set<TrieNode>, n: TrieNode, d: nat)
    requires Valid(root, values, nodes) && n in nodes && Has(n, d)
    ensures d in values && Starts(values[d], n.Path()) && (d in n.exact <==> values[d] == n.Path())
    ensures !(d in n.exact && d in n.start)
  {
    assert NodeOk(n, values);
    assert n.Path()[..|n.Path()|] == n.Path();
  }

  /** A document is in the list of at most one node, and there only once. */
  lemma InOneNode(root: TrieNode, values: map<nat, string>, nodes: set<TrieNode>, n: TrieNode, m: TrieNode, d: nat)
    requires Valid(root, values, nodes) && n in nodes && m in nodes && Has(n, d) && Has(m, d)
    ensures n == m
  {
    PathOfDocument(root, values, nodes, n, d);
    PathOfDocument(root, values, nodes, m, d);
    assert NodeOk(n, values) && NodeOk(m, values);
    StartsTrans(n.key, n.Path(), values[d]);
    StartsTrans(m.key, m.Path(), values[d]);
    if |n.key| <= |m.key| {
      Comparable(n.key, m.key, values[d]);
      AncestorHasOnlyExact(root, values, nodes, n, m, d);
    } else {
      Comparable(m.key, n.key, values[d]);
      AncestorHasOnlyExact(root, values, nodes, m, n, d);
    }
  }

  lemma AncestorHasOnlyExact(root: TrieNode, values: map<nat, string>, nodes: set<TrieNode>, n: TrieNode, m: TrieNode, d: nat)
    requires Valid(root, values, nodes) && n in nodes && m in nodes && Starts(m.key, n.key)
    requires Has(n, d) && d in values && Starts(values[d], m.key) && (d in n.exact ==> values[d] == n.Path())
    ensures n == m
  {
    assert NodeOk(n, values) && Apart(n, m);
    assert d in n.start ==> n.start != [];
    if n != m {
      BelowStarts(n.Path(), m.key, values[d]);
    }
  }

  /** Every document is in the list of some node. */
  lemma {:induction false} InSomeNode(root: TrieNode, values: map<nat, string>, nodes: set<TrieNode>, n: TrieNode, d: nat) returns (m: TrieNode)
    requires Valid(root, values, nodes) && n in nodes && d in values && Starts(values[d], n.key)
    ensures m in nodes && Has(m, d)
    decreases |values[d]| - |n.key|
  {
    ChildrenOk(n, root, values, nodes);
    assert Starts(values[d], n.Path());
    OwnOrBelow(values[d], n.Path());
    if values[d] == n.Path() || n.isVirtual {
      m := n;
      assert d in DocsAt(values, n.Path()) || d in DocsBelow(values, n.Path());
    } else {
      assert d in Restrict(values, n.Path());
      assert Covers(n.children, Restrict(values, n.Path())[d]);
      var i :| 0 <= i < |n.children| && Starts(values[d], n.children[i].key);
      assert n.children[i] in n.children;
      ChildIsLonger(n, i, values);
      m := InSomeNode(root, values, nodes, n.children[i], d);
    }
  }

  // ---------------------------------------------------------------------------------------------
  // What the searches get wrong
  // ---------------------------------------------------------------------------------------------

  /** The only document is "ab"; after a search for "ab", the search for "a" returns it as well. */
  method LongerStringFound() returns (result: set<nat>, values: map<nat, string>)
    ensures values == map[0 := "ab"] && 0 in result && DocsAt(values, "a") == {}
  {
    var root; ghost var nodes;
    root, nodes := Initialize();
    nodes := InitializeByStep(root, "ab", 0, map[], nodes);
    values := map[0 := "ab"];
    UnsearchedIsValid(root, values, nodes);
    ghost var n := FirstChild(root, values, nodes, 0);
    result, nodes := FindEq(root, "ab", values, nodes);
    assert DocsAt(values, "ab") == {0};
    assert "ab"[..1] == "a" && Below("ab", n.key);
    SplitSingle(n, values, "ab");
    assert Overshot(n, "a");
    assert DocsAt(values, "a") == {};
    result, nodes := FindEq(root, "a", values, nodes);
    assert result != {};
    assert exists d :: d in result;
  }

  lemma FirstChild(root: TrieNode, values: map<nat, string>, nodes: set<TrieNode>, d: nat) returns (n: TrieNode)
    requires Unsearched(root, values, nodes) && d in values
    ensures n in nodes && n.isVirtual && n.key == values[d][..1]
    ensures Lists(n.start, DocsBelow(values, n.key))
  {
    assert PlainString(values[d]) && Covers(root.children, values[d]);
    var i :| 0 <= i < |root.children| && Starts(values[d], root.children[i].key);
    n := root.children[i];
    assert IsPart(n, "", values);
  }

  lemma SameKey(a: string, b: string, values: map<nat, string>, v: string)
    requires values == map[0 := v] && DocsFrom(values, a) != {} && DocsFrom(values, b) != {} && |a| == |b|
    ensures a == b
  {
    var d :| d in DocsFrom(values, a);
    var e :| e in DocsFrom(values, b);
  }

  lemma SomethingListed(list: seq<nat>, docs: set<nat>)
    requires Lists(list, docs) && list != []
    ensures docs != {}
  {
    assert list[0] in list;
  }

  /** With a single document, a split node has it. */
  lemma SplitSingle(n: TrieNode, values: map<nat, string>, v: string)
    requires NodeOk(n, values) && !n.isVirtual && n.key == "a" && values == map[0 := v] && |v| == 2
    ensures |n.chars| == 2 && n.exact != []
  {
    if |n.children| >= 2 {
      SameKey(n.children[0].key, n.children[1].key, values, v);
    }
    assert n.exact[0] in n.exact && n.exact[0] in DocsAt(values, n.Path());
  }

  /** The only document is "a"; the search for strings that start with "a" returns nothing. */
  method ExactMatchSkipped() returns (result: set<nat>, values: map<nat, string>)
    ensures result == {} && values == map[0 := "a"] && 0 in DocsFrom(values, "a")
  {
    var root; ghost var nodes;
    root, nodes := Initialize();
    nodes := InitializeByStep(root, "a", 0, map[], nodes);
    values := map[0 := "a"];
    UnsearchedIsValid(root, values, nodes);
    ghost var n := FirstChild(root, values, nodes, 0);
    assert n.key == "a" && DocsBelow(values, "a") == {};
    if n.start != [] { SomethingListed(n.start, DocsBelow(values, "a")); }
    result, nodes := FindStartsWith(root, "a", values, nodes);
    assert "a"[..1] == "a" && DocsFrom(values, "a") == {0};
  }
}
