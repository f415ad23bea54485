/**
 The reader that lists the paths of all object members of a JSON value from the events of a parser. Two stacks say
 where in the value the reader is.
 */
module PathsReader {
  import opened Options
  import opened Expressions

  datatype Json = Scalar | Array(elements: seq<Json>) | Object(members: seq<Member>)

  datatype Member = Member(name: string, value: Json)

  /** The events of a parser; the nine for null, booleans, numbers and strings are handled alike. */
  datatype Event = OnScalar | OnStartObject | OnKey(str: string) | OnEndObject | OnStartArray | OnEndArray

  datatype ReaderState = ReaderState(stack: seq<string>, arrStack: seq<int>, paths: seq<string>)

  function Events(v: Json): seq<Event> {
    match v
    case Scalar => [OnScalar]
    case Object(members) => [OnStartObject] + MemberEvents(members) + [OnEndObject]
    case Array(elements) => [OnStartArray] + ElementEvents(elements) + [OnEndArray]
  }

  function MemberEvents(members: seq<Member>): seq<Event> {
    if members == [] then []
    else [OnKey(members[0].name)] + Events(members[0].value) + MemberEvents(members[1..])
  }

  function ElementEvents(elements: seq<Json>): seq<Event> {
    if elements == [] then [] else Events(elements[0]) + ElementEvents(elements[1..])
  }

  // ---------------------------------------------------------------------------------------------
  // The reader
  // ---------------------------------------------------------------------------------------------

  function Pop(s: ReaderState): ReaderState {
    if s.stack == [] then s else s.(stack := s.stack[..|s.stack| - 1])
  }

  /** In an array, the next index takes the place of the last one. */
  function Inc(s: ReaderState): ReaderState {
    var top := |s.arrStack| - 1;
    if top < 0 || s.arrStack[top] < 0 then s
    else s.(arrStack := s.arrStack[top := s.arrStack[top] + 1], stack := s.stack + [Decimal(s.arrStack[top] + 1)])
  }

  /** The text of a path. */
  function Joined(tokens: seq<string>): string {
    if tokens == [] then "" else Joined(tokens[..|tokens| - 1]) + "/" + tokens[|tokens| - 1]
  }

  /** None: the event would remove an element of an empty vector. */
  function Step(s: ReaderState, e: Event): Option<ReaderState> {
    match e
    case OnScalar => Some(Inc(Pop(s)))
    case OnStartObject => Some(s.(arrStack := s.arrStack + [-1]))
    case OnKey(str) => Some(s.(stack := s.stack + [str], paths := s.paths + [Joined(s.stack + [str])]))
    case OnEndObject =>
      if s.arrStack == [] then None else Some(Inc(Pop(s.(arrStack := s.arrStack[..|s.arrStack| - 1]))))
    case OnStartArray => Some(s.(arrStack := s.arrStack + [0], stack := s.stack + [Decimal(0)]))
    case OnEndArray =>
      if s.arrStack == [] then None else Some(Inc(Pop(Pop(s.(arrStack := s.arrStack[..|s.arrStack| - 1])))))
  }

  function Run(s: ReaderState, events: seq<Event>): Option<ReaderState>
    decreases |events|
  {
    if events == [] then Some(s)
    else if Step(s, events[0]).None? then None
    else Run(Step(s, events[0]).value, events[1..])
  }

  class RJPathsReader {
    var stack: seq<string>
    var paths: seq<string>
    var arrStack: seq<int>

    ghost function Now(): ReaderState
      reads this
    {
      ReaderState(stack, arrStack, paths)
    }

    constructor ()
      ensures Now() == ReaderState([], [], [])
    {
      stack, paths, arrStack := [], [], [];
    }

    method Scalar()
      modifies this
      ensures Now() == Inc(Pop(old(Now())))
    {
      PopStack();
      IncArray();
    }

    method StartObject()
      modifies this
      ensures Step(old(Now()), OnStartObject) == Some(Now())
    {
      arrStack := arrStack + [-1];
    }

    method Key(str: string)
      modifies this
      ensures Step(old(Now()), OnKey(str)) == Some(Now())
    {
      AddStack(str);
      AddPath();
    }

    method EndObject()
      requires arrStack != []
      modifies this
      ensures Step(old(Now()), OnEndObject) == Some(Now())
    {
      PopStack();
      arrStack := arrStack[..|arrStack| - 1];
      IncArray();
    }

    method StartArray()
      modifies this
      ensures Step(old(Now()), OnStartArray) == Some(Now())
    {
      arrStack := arrStack + [0];
      AddStack(Decimal(0));
    }

    method EndArray()
      requires arrStack != []
      modifies this
      ensures Step(old(Now()), OnEndArray) == Some(Now())
    {
      arrStack := arrStack[..|arrStack| - 1];
      PopStack();
      PopStack();
      IncArray();
    }

    method AddStack(str: string)
      modifies `stack
      ensures stack == old(stack) + [str]
    {
      stack := stack + [str];
    }

    method PopStack()
      modifies `stack
      ensures Now() == Pop(old(Now()))
    {
      if stack == [] {
        return;
      }
      stack := stack[..|stack| - 1];
    }

    method IncArray()
      modifies `stack, `arrStack
      ensures Now() == Inc(old(Now()))
    {
      if arrStack != [] && arrStack[|arrStack| - 1] >= 0 {
        arrStack := arrStack[|arrStack| - 1 := arrStack[|arrStack| - 1] + 1];
        AddStack(Decimal(arrStack[|arrStack| - 1]));
      }
    }

    method AddPath()
      modifies `paths
      ensures paths == old(paths) + [Joined(stack)]
    {
      var stackStr := "";
      for i := 0 to |stack|
        invariant stackStr == Joined(stack[..i])
      {
        assert stack[..i + 1][..i] == stack[..i];
        stackStr := stackStr + "/" + stack[i];
      }
      assert stack[..|stack|] == stack;
      paths := paths + [stackStr];
    }

    /** The parser calls the handler of one event after the other. */
    method Read(events: seq<Event>)
      requires Run(Now(), events).Some?
      modifies this
      ensures Run(old(Now()), events) == Some(Now())
    {
      for i := 0 to |events|
        invariant Run(old(Now()), events) == Run(Now(), events[i..])
      {
        match events[i] {
          case OnScalar => Scalar();
          case OnStartObject => StartObject();
          case OnKey(str) => Key(str);
          case OnEndObject => EndObject();
          case OnStartArray => StartArray();
          case OnEndArray => EndArray();
        }
        assert events[i..][1..] == events[i + 1..];
      }
    }
  }

  // ---------------------------------------------------------------------------------------------
  // The paths of a value
  // ---------------------------------------------------------------------------------------------

  /** The positions of all object members, in the order of the document. */
  function Positions(v: Json): seq<seq<string>> {
    match v
    case Scalar => []
    case Object(members) => MemberPositions(members)
    case Array(elements) => ElementPositions(elements, 0)
  }

  function MemberPositions(members: seq<Member>): seq<seq<string>> {
    if members == [] then []
    else [[members[0].name]] + Below(members[0].name, Positions(members[0].value)) + MemberPositions(members[1..])
  }

  function ElementPositions(elements: seq<Json>, first: nat): seq<seq<string>> {
    if elements == [] then []
    else Below(Decimal(first), Positions(elements[0])) + ElementPositions(elements[1..], first + 1)
  }

  function Below(token: string, positions: seq<seq<string>>): seq<seq<string>> {
    if positions == [] then [] else [[token] + positions[0]] + Below(token, positions[1..])
  }

  /** The texts of positions below a given one. */
  function Texts(base: seq<string>, positions: seq<seq<string>>): seq<string> {
    if positions == [] then [] else [Joined(base + positions[0])] + Texts(base, positions[1..])
  }

  lemma {:induction false} TextsAppend(base: seq<string>, a: seq<seq<string>>, b: seq<seq<string>>)
    ensures Texts(base, a + b) == Texts(base, a) + Texts(base, b)
  {
    if a == [] {
      assert a + b == b;
    } else {
      assert (a + b)[1..] == a[1..] + b;
      TextsAppend(base, a[1..], b);
    }
  }

  lemma {:induction false} TextsBelow(base: seq<string>, token: string, positions: seq<seq<string>>)
    ensures Texts(base, Below(token, positions)) == Texts(base + [token], positions)
  {
    if positions != [] {
      assert base + ([token] + positions[0]) == base + [token] + positions[0];
      TextsBelow(base, token, positions[1..]);
      assert Below(token, positions)[1..] == Below(token, positions[1..]);
    }
  }

  lemma {:induction false} RunAppend(s: ReaderState, a: seq<Event>, middle: ReaderState, b: seq<Event>)
    requires Run(s, a) == Some(middle)
    ensures Run(s, a + b) == Run(middle, b)
    decreases |a|
  {
    if a == [] {
      assert a + b == b;
    } else {
      assert (a + b)[1..] == a[1..] + b;
      RunAppend(Step(s, a[0]).value, a[1..], middle, b);
    }
  }

  lemma RunOne(s: ReaderState, e: Event)
    ensures Run(s, [e]) == Step(s, e)
  {
    assert [e][1..] == [];
  }

  function Listed(s: ReaderState, positions: seq<seq<string>>): ReaderState {
    s.(paths := s.paths + Texts(s.stack, positions))
  }

  lemma ListedAppend(s: ReaderState, a: seq<seq<string>>, b: seq<seq<string>>)
    ensures Listed(Listed(s, a), b) == Listed(s, a + b)
    ensures Listed(s, []) == s
  {
    TextsAppend(s.stack, a, b);
    assert s.paths + Texts(s.stack, a) + Texts(s.stack, b) == s.paths + (Texts(s.stack, a) + Texts(s.stack, b));
    assert s.paths + [] == s.paths;
  }

  /**
   Reading a value appends the paths of its members, below the position of the value, and otherwise does what a
   scalar does: the slot of the value is taken from the stack and, in an array, replaced by that of the next one.
   */
  lemma {:induction false} ValueIsConsumed(s: ReaderState, v: Json)
    ensures Run(s, Events(v)) == Some(Inc(Pop(Listed(s, Positions(v)))))
    decreases v, 0
  {
    match v
    case Scalar =>
      RunOne(s, OnScalar);
      ListedAppend(s, [], []);
    case Object(members) =>
      var inside := s.(arrStack := s.arrStack + [-1]);
      var all := Listed(inside, Positions(v));
      RunOne(s, OnStartObject);
      MembersAreConsumed(inside, members);
      RunAppend(s, [OnStartObject], inside, MemberEvents(members));
      RunAppend(s, [OnStartObject] + MemberEvents(members), all, [OnEndObject]);
      RunOne(all, OnEndObject);
      assert all.arrStack[..|all.arrStack| - 1] == s.arrStack;
    case Array(elements) =>
      var inside := AtElement(s, 0);
      var all := AtElement(Listed(s, Positions(v)), |elements|);
      RunOne(s, OnStartArray);
      ElementsAreConsumed(s, elements, 0);
      RunAppend(s, [OnStartArray], inside, ElementEvents(elements));
      RunAppend(s, [OnStartArray] + ElementEvents(elements), all, [OnEndArray]);
      RunOne(all, OnEndArray);
      assert all.arrStack[..|all.arrStack| - 1] == s.arrStack;
      assert Pop(all).stack == s.stack;
  }

  lemma {:induction false} MembersAreConsumed(s: ReaderState, members: seq<Member>)
    requires s.arrStack != [] && s.arrStack[|s.arrStack| - 1] < 0
    ensures Run(s, MemberEvents(members)) == Some(Listed(s, MemberPositions(members)))
    decreases members
  {
    if members == [] {
      ListedAppend(s, [], []);
    } else {
      var name, value := members[0].name, members[0].value;
      var next := Listed(s, [[name]] + Below(name, Positions(value)));
      MemberIsConsumed(s, members[0]);
      MembersAreConsumed(next, members[1..]);
      RunAppend(s, [OnKey(name)] + Events(value), next, MemberEvents(members[1..]));
      ListedAppend(s, [[name]] + Below(name, Positions(value)), MemberPositions(members[1..]));
    }
  }

  lemma {:induction false} MemberIsConsumed(s: ReaderState, m: Member)
    requires s.arrStack != [] && s.arrStack[|s.arrStack| - 1] < 0
    ensures Run(s, [OnKey(m.name)] + Events(m.value)) == Some(Listed(s, [[m.name]] + Below(m.name, Positions(m.value))))
    decreases m
  {
    var atKey := Step(s, OnKey(m.name)).value;
    var below := Below(m.name, Positions(m.value));
    RunOne(s, OnKey(m.name));
    ValueIsConsumed(atKey, m.value);
    RunAppend(s, [OnKey(m.name)], atKey, Events(m.value));
    TextsBelow(s.stack, m.name, Positions(m.value));
    TextsAppend(s.stack, [[m.name]], below);
    assert Texts(s.stack, [[m.name]]) == [Joined(s.stack + [m.name])];
    assert Pop(Listed(atKey, Positions(m.value))) == Listed(s, [[m.name]] + below);
  }

  /** The reader in an array, before the element with the given index. */
  function AtElement(s: ReaderState, index: nat): ReaderState {
    s.(arrStack := s.arrStack + [index], stack := s.stack + [Decimal(index)])
  }

  lemma {:induction false} ElementsAreConsumed(s: ReaderState, elements: seq<Json>, first: nat)
    ensures Run(AtElement(s, first), ElementEvents(elements)) ==
            Some(AtElement(Listed(s, ElementPositions(elements, first)), first + |elements|))
    decreases elements
  {
    if elements == [] {
      ListedAppend(s, [], []);
    } else {
      var below := Below(Decimal(first), Positions(elements[0]));
      var next := Listed(s, below);
      ElementIsConsumed(s, elements[0], first);
      ElementsAreConsumed(next, elements[1..], first + 1);
      RunAppend(AtElement(s, first), Events(elements[0]), AtElement(next, first + 1), ElementEvents(elements[1..]));
      ListedAppend(s, below, ElementPositions(elements[1..], first + 1));
    }
  }

  lemma {:induction false} ElementIsConsumed(s: ReaderState, v: Json, index: nat)
    ensures Run(AtElement(s, index), Events(v)) ==
            Some(AtElement(Listed(s, Below(Decimal(index), Positions(v))), index + 1))
    decreases v, 1
  {
    var here := AtElement(s, index);
    ValueIsConsumed(here, v);
    TextsBelow(s.stack, Decimal(index), Positions(v));
    NextElement(Listed(s, Below(Decimal(index), Positions(v))), index);
  }

  lemma NextElement(s: ReaderState, index: nat)
    ensures Inc(Pop(AtElement(s, index))) == AtElement(s, index + 1)
  {
    var popped := Pop(AtElement(s, index));
    assert popped.stack == s.stack;
    assert popped.arrStack[|s.arrStack| := index + 1] == s.arrStack + [index + 1];
  }

  /** A whole document leaves both stacks empty and has its paths listed, after those of the documents before. */
  lemma DocumentIsListed(paths: seq<string>, v: Json)
    ensures Run(ReaderState([], [], paths), Events(v)) == Some(ReaderState([], [], paths + Texts([], Positions(v))))
  {
    ValueIsConsumed(ReaderState([], [], paths), v);
  }

  method ListPaths(v: Json) returns (paths: seq<string>)
    ensures paths == Texts([], Positions(v))
  {
    var reader := new RJPathsReader();
    DocumentIsListed([], v);
    assert [] + Texts([], Positions(v)) == Texts([], Positions(v));
    reader.Read(Events(v));
    paths := reader.paths;
  }

  // ---------------------------------------------------------------------------------------------
  // Which positions are listed
  // ---------------------------------------------------------------------------------------------

  /** The tokens lead from the value to a member of an object; array elements are named by their index. */
  ghost predicate IsMember(v: Json, tokens: seq<string>)
    decreases v
  {
    match v
    case Scalar => false
    case Object(members) => tokens != [] && exists i | 0 <= i < |members| :: LeadsInto(members[i], tokens)
    case Array(elements) =>
      tokens != [] && exists i | 0 <= i < |elements| :: tokens[0] == Decimal(i) && IsMember(elements[i], tokens[1..])
  }

  ghost predicate LeadsInto(m: Member, tokens: seq<string>)
    requires tokens != []
    decreases m
  {
    tokens[0] == m.name && (|tokens| == 1 || IsMember(m.value, tokens[1..]))
  }

  lemma {:induction false} BelowContains(token: string, positions: seq<seq<string>>, tokens: seq<string>)
    ensures tokens in Below(token, positions) <==> tokens != [] && tokens[0] == token && tokens[1..] in positions
  {
    if positions != [] {
      BelowContains(token, positions[1..], tokens);
      assert tokens == [token] + positions[0] <==> tokens != [] && tokens[0] == token && tokens[1..] == positions[0] by {
        if tokens != [] && tokens[0] == token && tokens[1..] == positions[0] {
          assert tokens == [tokens[0]] + tokens[1..];
        }
      }
    }
  }

  /** Listed are exactly the members of objects at any depth. */
  lemma {:induction false} PositionsAreMembers(v: Json, tokens: seq<string>)
    ensures tokens in Positions(v) <==> IsMember(v, tokens)
    decreases v
  {
    match v
    case Scalar =>
    case Object(members) =>
      MemberPositionsAre(members, tokens);
    case Array(elements) =>
      ElementPositionsAre(elements, 0, tokens);
  }

  lemma {:induction false} MemberPositionsAre(members: seq<Member>, tokens: seq<string>)
    ensures tokens in MemberPositions(members) <==>
            tokens != [] && exists i | 0 <= i < |members| :: LeadsInto(members[i], tokens)
    decreases members
  {
    if members != [] {
      var m, rest := members[0], members[1..];
      MemberPositionsAre(rest, tokens);
      BelowContains(m.name, Positions(m.value), tokens);
      if tokens != [] {
        PositionsAreMembers(m.value, tokens[1..]);
        assert tokens == [m.name] <==> |tokens| == 1 && tokens[0] == m.name;
        assert (exists i | 0 <= i < |members| :: LeadsInto(members[i], tokens)) <==>
               LeadsInto(m, tokens) || exists i | 0 <= i < |rest| :: LeadsInto(rest[i], tokens) by {
          if i :| 0 <= i < |rest| && LeadsInto(rest[i], tokens) {
            assert members[i + 1] == rest[i];
          }
          if i :| 0 < i < |members| && LeadsInto(members[i], tokens) {
            assert rest[i - 1] == members[i];
          }
        }
      }
    }
  }

  lemma {:induction false} ElementPositionsAre(elements: seq<Json>, first: nat, tokens: seq<string>)
    ensures tokens in ElementPositions(elements, first) <==> tokens != [] && InElement(elements, first, tokens)
    decreases elements
  {
    if elements != [] {
      var rest := elements[1..];
      ElementPositionsAre(rest, first + 1, tokens);
      BelowContains(Decimal(first), Positions(elements[0]), tokens);
      if tokens != [] {
        PositionsAreMembers(elements[0], tokens[1..]);
        if InElement(rest, first + 1, tokens) {
          var i :| 0 <= i < |rest| && tokens[0] == Decimal(first + 1 + i) && IsMember(rest[i], tokens[1..]);
          assert elements[i + 1] == rest[i];
        }
        if i :| 0 < i < |elements| && tokens[0] == Decimal(first + i) && IsMember(elements[i], tokens[1..]) {
          assert rest[i - 1] == elements[i] && first + 1 + (i - 1) == first + i;
        }
      }
    }
  }

  ghost predicate InElement(elements: seq<Json>, first: nat, tokens: seq<string>)
    requires tokens != []
  {
    exists i | 0 <= i < |elements| :: tokens[0] == Decimal(first + i) && IsMember(elements[i], tokens[1..])
  }

  // ---------------------------------------------------------------------------------------------
  // What the text of a path says
  // ---------------------------------------------------------------------------------------------

  predicate SlashFree(tokens: seq<string>) {
    forall i | 0 <= i < |tokens| :: '/' !in tokens[i]
  }

  lemma LastToken(u: string, x: string, w: string, y: string)
    requires '/' !in x && '/' !in y
    requires u + "/" + x == w + "/" + y
    ensures u == w && x == y
  {
    var s := u + "/" + x;
    assert s[|u|] == '/' && s[|w|] == '/';
    if |u| == |w| {
      assert u == s[..|u|] == w;
      assert x == s[|u| + 1..] == y;
    }
  }

  /** Names without slashes can be told from the text; the reader does not escape slashes. */
  lemma {:induction false} TextsAreDistinct(a: seq<string>, b: seq<string>)
    requires SlashFree(a) && SlashFree(b)
    ensures Joined(a) == Joined(b) <==> a == b
  {
    if a != [] && b != [] && Joined(a) == Joined(b) {
      var m, n := |a| - 1, |b| - 1;
      LastToken(Joined(a[..m]), a[m], Joined(b[..n]), b[n]);
      TextsAreDistinct(a[..m], b[..n]);
      assert a == a[..m] + [a[m]] && b == b[..n] + [b[n]];
    }
  }

  /** What is between the slashes of a name. */
  function Pieces(name: string): (pieces: seq<string>)
    ensures pieces != [] && SlashFree(pieces)
  {
    if name == "" then [""]
    else
      var pieces, last := Pieces(name[..|name| - 1]), name[|name| - 1];
      if last == '/' then pieces + [""] else pieces[..|pieces| - 1] + [pieces[|pieces| - 1] + [last]]
  }

  function AllPieces(tokens: seq<string>): (pieces: seq<string>)
    ensures SlashFree(pieces)
  {
    if tokens == [] then [] else AllPieces(tokens[..|tokens| - 1]) + Pieces(tokens[|tokens| - 1])
  }

  lemma JoinedNext(tokens: seq<string>, last: string)
    ensures Joined(tokens + [last]) == Joined(tokens) + "/" + last
  {
    assert (tokens + [last])[..|tokens|] == tokens;
  }

  lemma {:induction false} JoinedAppend(a: seq<string>, b: seq<string>)
    ensures Joined(a + b) == Joined(a) + Joined(b)
  {
    if b == [] {
      assert a + b == a;
    } else {
      var m := |b| - 1;
      JoinedAppend(a, b[..m]);
      JoinedNext(a + b[..m], b[m]);
      assert a + b[..m] + [b[m]] == a + b;
    }
  }

  lemma OneLonger(a: string, b: string, c: string, d: string, last: char)
    requires a + b == c + d
    ensures a + (b + [last]) == c + (d + [last])
  {
    assert a + (b + [last]) == (a + b) + [last];
    assert c + (d + [last]) == (c + d) + [last];
  }

  lemma LongerPiece(before: seq<string>, piece: string, front: string, last: char)
    requires Joined(before + [piece]) == "/" + front
    ensures Joined(before + [piece + [last]]) == "/" + (front + [last])
  {
    JoinedNext(before, piece);
    JoinedNext(before, piece + [last]);
    OneLonger(Joined(before) + "/", piece, "/", front, last);
  }

  lemma {:induction false} PiecesJoined(name: string)
    ensures Joined(Pieces(name)) == "/" + name
  {
    if name == "" {
      JoinedNext([], "");
    } else {
      var front, last := name[..|name| - 1], name[|name| - 1];
      var pieces := Pieces(front);
      var m := |pieces| - 1;
      PiecesJoined(front);
      assert name == front + [last];
      if last == '/' {
        JoinedNext(pieces, "");
      } else {
        assert pieces == pieces[..m] + [pieces[m]];
        LongerPiece(pieces[..m], pieces[m], front, last);
      }
    }
  }

  lemma {:induction false} AllPiecesJoined(tokens: seq<string>)
    ensures Joined(AllPieces(tokens)) == Joined(tokens)
  {
    if tokens != [] {
      var m := |tokens| - 1;
      AllPiecesJoined(tokens[..m]);
      PiecesJoined(tokens[m]);
      JoinedAppend(AllPieces(tokens[..m]), Pieces(tokens[m]));
    }
  }

  /** Two positions have the same text exactly if they are the same once their names are cut at the slashes. */
  lemma TextsAreEqualIff(a: seq<string>, b: seq<string>)
    ensures Joined(a) == Joined(b) <==> AllPieces(a) == AllPieces(b)
  {
    AllPiecesJoined(a);
    AllPiecesJoined(b);
    TextsAreDistinct(AllPieces(a), AllPieces(b));
  }

  /** A member named "a/b" and a member "b" below "a" have the same text. */
  lemma SlashesAreAmbiguous()
    ensures Texts([], Positions(Object([Member("a", Object([Member("b", Scalar)]))]))) == ["/a", "/a/b"]
    ensures Texts([], Positions(Object([Member("a", Scalar), Member("a/b", Scalar)]))) == ["/a", "/a/b"]
  {
    var inner, a, b := [Member("b", Scalar)], Member("a", Scalar), Member("a/b", Scalar);
    assert MemberPositions([b]) == [["a/b"]] && MemberPositions(inner) == [["b"]];
    assert [a, b][1..] == [b];
    assert MemberPositions([a, b]) == [["a"], ["a/b"]];
    assert Below("a", [["b"]]) == [["a", "b"]] by {
      assert ["a"] + ["b"] == ["a", "b"];
    }
    assert MemberPositions([Member("a", Object(inner))]) == [["a"], ["a", "b"]];
    assert Joined(["a"]) == "/a" && Joined(["a/b"]) == "/a/b";
    assert ["a", "b"][..1] == ["a"] && Joined(["a", "b"]) == "/a/b";
    assert [] + ["a", "b"] == ["a", "b"] && [] + ["a/b"] == ["a/b"];
    assert Texts([], [["a/b"]]) == ["/a/b"] && Texts([], [["a", "b"]]) == ["/a/b"];
  }
}
