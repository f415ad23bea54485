/**
 The cache of query results that every container keeps. Its keys are printed predicates; a query is answered by
 the cache when the whole predicate, or one side of a conjunction, has been asked before.
 */
module QueryCaching {
  import opened Options
  import opened Expressions
  import M = MixedExecutor
  import P = Parser
  import R = ParserRoundTrip

  /** A set of documents of a container, one bit for each. */
  type DocIndex = seq<bool>

  /** The values of the expressions on a document; only that of a conjunction is computed here. */
  datatype Document = Document(valid: bool, values: Expr -> M.Tri)

  datatype CacheEntry = CacheEntry(docs: DocIndex, asked: Expr)

  type Entries = map<string, CacheEntry>

  const NOT_APPLICABLE: nat := 0xffff_ffff_ffff_ffff

  function Value(e: Expr, d: Document): M.Tri {
    match e
    case And(l, r) => M.FromBool(Value(l, d) == M.True && Value(r, d) == M.True)
    case _ => d.values(e)
  }

  predicate Checks(e: Expr, d: Document) {
    Value(e, d) == M.True
  }

  /** The documents on which a predicate is true. */
  function Scan(docs: seq<Document>, e: Expr): DocIndex {
    seq(|docs|, i requires 0 <= i < |docs| => docs[i].valid && Checks(e, docs[i]))
  }

  function Count(ids: DocIndex): (n: nat)
    ensures n <= |ids|
  {
    if ids == [] then 0 else Count(ids[..|ids| - 1]) + if ids[|ids| - 1] then 1 else 0
  }

  // ---------------------------------------------------------------------------------------------
  // What the executors do, as functions
  // ---------------------------------------------------------------------------------------------

  /** The result kept for a predicate. */
  function Cached(e: Expr, entries: Entries): Option<DocIndex> {
    if Print(e) in entries then Some(entries[Print(e)].docs) else None
  }

  function CacheSize(e: Expr, entries: Entries): nat {
    if Cached(e, entries).Some? then Count(Cached(e, entries).value) else NOT_APPLICABLE
  }

  function Work(q: Expr, entries: Entries): nat {
    if Cached(q, entries).Some? then 0
    else if !q.And? then NOT_APPLICABLE
    else if CacheSize(q.lhs, entries) <= CacheSize(q.rhs, entries) then CacheSize(q.lhs, entries)
    else CacheSize(q.rhs, entries)
  }

  /** The documents of an index on which a predicate is true. */
  function Filtered(docs: seq<Document>, ids: DocIndex, e: Expr): DocIndex
    requires |ids| == |docs|
  {
    seq(|docs|, i requires 0 <= i < |docs| => ids[i] && docs[i].valid && Checks(e, docs[i]))
  }

  /** The cache holds results for this container. */
  predicate Fit(entries: Entries, docs: seq<Document>) {
    |docs| < NOT_APPLICABLE && forall k | k in entries :: |entries[k].docs| == |docs|
  }

  predicate Applicable(q: Expr, entries: Entries) {
    Cached(q, entries).Some? || (q.And? && (Cached(q.lhs, entries).Some? || Cached(q.rhs, entries).Some?))
  }

  function CachedAnswer(q: Expr, entries: Entries, docs: seq<Document>): DocIndex
    requires Fit(entries, docs) && Applicable(q, entries)
  {
    if Cached(q, entries).Some? then Cached(q, entries).value
    else if CacheSize(q.lhs, entries) <= CacheSize(q.rhs, entries) then
      Filtered(docs, Cached(q.lhs, entries).value, q.rhs)
    else Filtered(docs, Cached(q.rhs, entries).value, q.lhs)
  }

  function Answer(q: Expr, entries: Entries, docs: seq<Document>): DocIndex
    requires Fit(entries, docs)
  {
    if Work(q, entries) < |docs| then CachedAnswer(q, entries, docs) else Scan(docs, q)
  }

  function Added(entries: Entries, docs: DocIndex, q: Expr): Entries {
    if Print(q) in entries then entries else entries[Print(q) := CacheEntry(docs, q)]
  }

  /** The cache after a sequence of queries. */
  function After(queries: seq<Expr>, docs: seq<Document>): (entries: Entries)
    requires |docs| < NOT_APPLICABLE
    ensures Fit(entries, docs)
  {
    if queries == [] then map[]
    else
      var front, q := After(queries[..|queries| - 1], docs), queries[|queries| - 1];
      Added(front, Answer(q, front, docs), q)
  }

  // ---------------------------------------------------------------------------------------------
  // The objects
  // ---------------------------------------------------------------------------------------------

  class QueryCache {
    var queryMap: Entries

    constructor ()
      ensures queryMap == map[]
    {
      queryMap := map[];
    }

    method AddQueryResult(docs: DocIndex, asked: Expr)
      modifies this
      ensures queryMap == Added(old(queryMap), docs, asked)
    {
      var str := Print(asked);
      if str in queryMap {
        return;
      }
      queryMap := queryMap[str := CacheEntry(docs, asked)];
    }

    method GetBestCache(predStr: string) returns (ids: Option<DocIndex>)
      ensures ids == if predStr in queryMap then Some(queryMap[predStr].docs) else None
    {
      if predStr in queryMap {
        return Some(queryMap[predStr].docs);
      }
      return None;
    }

    method Reset()
      modifies this
      ensures queryMap == map[]
    {
      queryMap := map[];
    }
  }

  method CountBits(ids: DocIndex) returns (n: nat)
    ensures n == Count(ids)
  {
    n := 0;
    for i := 0 to |ids|
      invariant n == Count(ids[..i])
    {
      assert ids[..i + 1][..i] == ids[..i];
      if ids[i] {
        n := n + 1;
      }
    }
    assert ids[..|ids|] == ids;
  }

  class JSONContainer {
    const docs: seq<Document>
    const cache: QueryCache

    constructor (docs: seq<Document>)
      ensures this.docs == docs && fresh(cache) && cache.queryMap == map[]
    {
      this.docs := docs;
      cache := new QueryCache();
    }

    /** The plain scan. */
    method CheckDocuments(q: Expr) returns (ret: DocIndex)
      ensures ret == Scan(docs, q) && |ret| == |docs|
      ensures forall i | 0 <= i < |docs| :: ret[i] <==> docs[i].valid && Value(q, docs[i]) == M.True
    {
      ret := [];
      for i := 0 to |docs|
        invariant |ret| == i
        invariant forall j | 0 <= j < i :: ret[j] == Scan(docs, q)[j]
      {
        ret := ret + [docs[i].valid && Checks(q, docs[i])];
      }
    }

    /** The documents of an index that also satisfy a predicate. */
    method ForAll(q: Expr, ids: DocIndex) returns (ind: DocIndex)
      requires |ids| == |docs|
      ensures ind == Filtered(docs, ids, q) && |ind| == |docs|
      ensures forall i | 0 <= i < |docs| :: ind[i] <==> ids[i] && docs[i].valid && Value(q, docs[i]) == M.True
    {
      ind := seq(|docs|, _ => false);
      for i := 0 to |docs|
        invariant |ind| == |docs|
        invariant forall j | 0 <= j < i :: ind[j] == Filtered(docs, ids, q)[j]
        invariant forall j | i <= j < |docs| :: !ind[j]
      {
        if !ids[i] {
          continue;
        }
        if docs[i].valid {
          ind := ind[i := Checks(q, docs[i])];
        }
      }
    }
  }

  class CacheExecutor {
    const predStr: string

    constructor (q: Expr)
      ensures predStr == Print(q)
    {
      predStr := Print(q);
    }

    method EstimatedWork(q: Expr, cont: JSONContainer) returns (work: nat)
      requires predStr == Print(q)
      ensures work == Work(q, cont.cache.queryMap)
    {
      if predStr in cont.cache.queryMap {
        return 0;
      }
      if !q.And? {
        return NOT_APPLICABLE;
      }
      var lhsSize, rhsSize := NOT_APPLICABLE, NOT_APPLICABLE;
      var lhsCache := cont.cache.GetBestCache(Print(q.lhs));
      if lhsCache.Some? {
        lhsSize := CountBits(lhsCache.value);
      }
      var rhsCache := cont.cache.GetBestCache(Print(q.rhs));
      if rhsCache.Some? {
        rhsSize := CountBits(rhsCache.value);
      }
      if lhsSize <= rhsSize {
        return lhsSize;
      }
      return rhsSize;
    }

    method Execute(q: Expr, cont: JSONContainer) returns (ids: DocIndex)
      requires predStr == Print(q)
      requires Fit(cont.cache.queryMap, cont.docs)
      requires Work(q, cont.cache.queryMap) != NOT_APPLICABLE
      ensures Applicable(q, cont.cache.queryMap)
      ensures ids == CachedAnswer(q, cont.cache.queryMap, cont.docs)
    {
      var wholeCache := cont.cache.GetBestCache(predStr);
      if wholeCache.Some? {
        return wholeCache.value;
      }
      var lhsSize, rhsSize := NOT_APPLICABLE, NOT_APPLICABLE;
      var lhsCache := cont.cache.GetBestCache(Print(q.lhs));
      if lhsCache.Some? {
        lhsSize := CountBits(lhsCache.value);
      }
      var rhsCache := cont.cache.GetBestCache(Print(q.rhs));
      if rhsCache.Some? {
        rhsSize := CountBits(rhsCache.value);
      }
      if lhsSize <= rhsSize {
        ids := cont.ForAll(q.rhs, lhsCache.value);
      } else {
        ids := cont.ForAll(q.lhs, rhsCache.value);
      }
    }
  }

  /** The executor with the least work answers the query; its result goes into the cache. */
  method HandleOne(q: Expr, cont: JSONContainer) returns (selectResult: DocIndex)
    requires Fit(cont.cache.queryMap, cont.docs)
    modifies cont.cache
    ensures selectResult == Answer(q, old(cont.cache.queryMap), cont.docs)
    ensures cont.cache.queryMap == Added(old(cont.cache.queryMap), selectResult, q)
    ensures Fit(cont.cache.queryMap, cont.docs)
  {
    var executor := new CacheExecutor(q);
    var estSize := |cont.docs|;
    var s := executor.EstimatedWork(q, cont);
    if s < estSize {
      selectResult := executor.Execute(q, cont);
    } else {
      selectResult := cont.CheckDocuments(q);
    }
    cont.cache.AddQueryResult(selectResult, q);
  }

  /** The n-th answer is that of the executors with the cache that the queries before it have left. */
  ghost predicate IsAnswer(ids: DocIndex, queries: seq<Expr>, n: nat, docs: seq<Document>)
    requires |docs| < NOT_APPLICABLE && n < |queries|
  {
    ids == Answer(queries[n], After(queries[..n], docs), docs)
  }

  /** A sequence of queries on one container. */
  method RunQueries(docs: seq<Document>, queries: seq<Expr>) returns (answers: seq<DocIndex>)
    requires |docs| < NOT_APPLICABLE
    ensures |answers| == |queries|
    ensures forall i | 0 <= i < |queries| :: IsAnswer(answers[i], queries, i, docs)
  {
    var cont := new JSONContainer(docs);
    answers := [];
    for i := 0 to |queries|
      invariant |answers| == i && fresh(cont.cache) && cont.docs == docs
      invariant cont.cache.queryMap == After(queries[..i], docs)
      invariant forall j | 0 <= j < i :: IsAnswer(answers[j], queries, j, docs)
    {
      var ids := HandleOne(queries[i], cont);
      AfterNext(queries, i, docs);
      assert IsAnswer(ids, queries, i, docs);
      answers := answers + [ids];
    }
  }

  lemma {:induction false} CountIsSize(ids: DocIndex)
    ensures Count(ids) == |set i | 0 <= i < |ids| && ids[i]|
  {
    if ids != [] {
      var front, n := ids[..|ids| - 1], |ids| - 1;
      CountIsSize(front);
      var before, all := (set i | 0 <= i < |front| && front[i]), set i | 0 <= i < |ids| && ids[i];
      assert all == if ids[n] then before + {n} else before;
    }
  }

  /** The documents that the cache has to look at to answer a query: none if it has the result, else those of one side. */
  ghost function Candidates(q: Expr, entries: Entries): set<set<nat>> {
    if Print(q) in entries then {{}}
    else if !q.And? then {}
    else Found(q.lhs, entries) + Found(q.rhs, entries)
  }

  ghost function Found(e: Expr, entries: Entries): set<set<nat>> {
    if Print(e) in entries then {set i: nat | i < |entries[Print(e)].docs| && entries[Print(e)].docs[i]} else {}
  }

  /** The estimate is the size of the smaller side, so that the scan is left out only if there is less to look at. */
  lemma WorkIsLeast(q: Expr, entries: Entries, docs: seq<Document>)
    requires Fit(entries, docs)
    ensures Candidates(q, entries) == {} ==> Work(q, entries) == NOT_APPLICABLE
    ensures Candidates(q, entries) != {} ==> exists c :: c in Candidates(q, entries) && |c| == Work(q, entries)
    ensures forall c | c in Candidates(q, entries) :: Work(q, entries) <= |c| <= |docs|
  {
    forall e | Print(e) in entries ensures var c := set i: nat | i < |entries[Print(e)].docs| && entries[Print(e)].docs[i]; |c| == CacheSize(e, entries) <= |docs| {
      var ids := entries[Print(e)].docs;
      CountIsSize(ids);
      CountAsNat(ids);
    }
  }

  lemma CountAsNat(ids: DocIndex)
    ensures |set i: nat | i < |ids| && ids[i]| == Count(ids)
  {
    CountIsSize(ids);
    assert (set i: nat | i < |ids| && ids[i]) == set i | 0 <= i < |ids| && ids[i];
  }

  /** The results in the cache have no document that is not valid. */
  predicate HasValidOnly(entries: Entries, docs: seq<Document>) {
    Fit(entries, docs) && forall k, i | k in entries && 0 <= i < |docs| && entries[k].docs[i] :: docs[i].valid
  }

  lemma {:induction false} CacheHasValidOnly(queries: seq<Expr>, docs: seq<Document>)
    requires |docs| < NOT_APPLICABLE
    ensures HasValidOnly(After(queries, docs), docs)
  {
    if queries != [] {
      CacheHasValidOnly(queries[..|queries| - 1], docs);
    }
  }

  /** Whatever has been asked before, and whichever results are mistaken for others, a document that is not valid is in no answer. */
  lemma AnswersAreValid(queries: seq<Expr>, n: nat, ids: DocIndex, docs: seq<Document>)
    requires |docs| < NOT_APPLICABLE && n < |queries| && IsAnswer(ids, queries, n, docs)
    ensures |ids| == |docs| && forall i | 0 <= i < |docs| && ids[i] :: docs[i].valid
  {
    CacheHasValidOnly(queries[..n], docs);
  }

  // ---------------------------------------------------------------------------------------------
  // The cache agrees with the scan
  // ---------------------------------------------------------------------------------------------

  /** The expressions whose texts a query looks up. */
  function Looked(q: Expr): set<Expr> {
    {q} + if q.And? then {q.lhs, q.rhs} else {}
  }

  /** Two expressions are not mistaken for each other on these documents. */
  ghost predicate Apart(a: Expr, b: Expr, docs: seq<Document>) {
    Print(a) == Print(b) ==> Scan(docs, a) == Scan(docs, b)
  }

  /** Every cached result is the scan of its predicate, whose text is the key. */
  ghost predicate CacheIsScan(entries: Entries, docs: seq<Document>) {
    forall k | k in entries ::
      Print(entries[k].asked) == k && entries[k].docs == Scan(docs, entries[k].asked)
  }

  lemma HitIsScan(e: Expr, entries: Entries, docs: seq<Document>)
    requires CacheIsScan(entries, docs) && Cached(e, entries).Some?
    requires Apart(entries[Print(e)].asked, e, docs)
    ensures Cached(e, entries).value == Scan(docs, e)
  {
  }

  lemma FilteredIsScan(l: Expr, r: Expr, docs: seq<Document>)
    ensures Filtered(docs, Scan(docs, l), r) == Scan(docs, And(l, r))
    ensures Filtered(docs, Scan(docs, r), l) == Scan(docs, And(l, r))
  {
    forall i | 0 <= i < |docs|
      ensures Filtered(docs, Scan(docs, l), r)[i] == Scan(docs, And(l, r))[i]
      ensures Filtered(docs, Scan(docs, r), l)[i] == Scan(docs, And(l, r))[i]
    {
    }
  }

  /** Whenever the cache can answer a query, its answer is that of the plain scan. */
  lemma CachedAnswerIsScan(q: Expr, entries: Entries, docs: seq<Document>)
    requires Fit(entries, docs) && Applicable(q, entries) && CacheIsScan(entries, docs)
    requires forall e | e in Looked(q) && Print(e) in entries :: Apart(entries[Print(e)].asked, e, docs)
    ensures CachedAnswer(q, entries, docs) == Scan(docs, q)
  {
    if Cached(q, entries).Some? {
      HitIsScan(q, entries, docs);
    } else {
      FilteredIsScan(q.lhs, q.rhs, docs);
      if CacheSize(q.lhs, entries) <= CacheSize(q.rhs, entries) {
        HitIsScan(q.lhs, entries, docs);
      } else {
        HitIsScan(q.rhs, entries, docs);
      }
    }
  }

  ghost predicate NoneMistaken(queries: seq<Expr>, docs: seq<Document>) {
    forall i, j | 0 <= i < |queries| && 0 <= j < |queries| :: NotMistaken(queries[i], queries[j], docs)
  }

  ghost predicate NotMistaken(p: Expr, q: Expr, docs: seq<Document>) {
    forall e | e in Looked(q) :: Apart(p, e, docs)
  }

  /** The predicates under which results are kept are among those asked. */
  ghost predicate KeptFrom(entries: Entries, queries: seq<Expr>) {
    forall k | k in entries :: entries[k].asked in queries
  }

  lemma StepIsRight(queries: seq<Expr>, q: Expr, entries: Entries, docs: seq<Document>)
    requires Fit(entries, docs) && CacheIsScan(entries, docs) && KeptFrom(entries, queries)
    requires forall i | 0 <= i < |queries| :: NotMistaken(queries[i], q, docs)
    ensures Answer(q, entries, docs) == Scan(docs, q)
    ensures CacheIsScan(Added(entries, Scan(docs, q), q), docs)
    ensures KeptFrom(Added(entries, Scan(docs, q), q), queries + [q])
  {
    if Work(q, entries) < |docs| {
      forall e | e in Looked(q) && Print(e) in entries ensures Apart(entries[Print(e)].asked, e, docs) {
        var p := entries[Print(e)].asked;
        var i :| 0 <= i < |queries| && queries[i] == p;
        assert NotMistaken(queries[i], q, docs);
      }
      CachedAnswerIsScan(q, entries, docs);
    }
  }

  lemma {:induction false} CacheStaysScan(queries: seq<Expr>, n: nat, docs: seq<Document>)
    requires |docs| < NOT_APPLICABLE && NoneMistaken(queries, docs) && n <= |queries|
    ensures CacheIsScan(After(queries[..n], docs), docs)
    ensures KeptFrom(After(queries[..n], docs), queries[..n])
  {
    if n > 0 {
      CacheStaysScan(queries, n - 1, docs);
      var front, q := queries[..n - 1], queries[n - 1];
      forall i | 0 <= i < n - 1 ensures NotMistaken(front[i], q, docs) {
        assert NotMistaken(queries[i], queries[n - 1], docs);
      }
      StepIsRight(front, q, After(front, docs), docs);
      assert front + [q] == queries[..n];
      assert queries[..n][..n - 1] == front;
    }
  }

  /** After any history of queries the cache is right, and so is every answer. */
  lemma HistoryIsRight(queries: seq<Expr>, docs: seq<Document>)
    requires |docs| < NOT_APPLICABLE && NoneMistaken(queries, docs)
    ensures CacheIsScan(After(queries, docs), docs)
    ensures forall i | 0 <= i < |queries| :: Answer(queries[i], After(queries[..i], docs), docs) == Scan(docs, queries[i])
  {
    CacheStaysScan(queries, |queries|, docs);
    assert queries[..|queries|] == queries;
    forall n | 0 <= n < |queries|
      ensures Answer(queries[n], After(queries[..n], docs), docs) == Scan(docs, queries[n])
    {
      CacheStaysScan(queries, n, docs);
      forall i | 0 <= i < n ensures NotMistaken(queries[..n][i], queries[n], docs) {
        assert NotMistaken(queries[i], queries[n], docs);
      }
      StepIsRight(queries[..n], queries[n], After(queries[..n], docs), docs);
    }
  }

  /** All answers of a history are those of the plain scan. */
  ghost predicate AllRight(queries: seq<Expr>, docs: seq<Document>)
    requires |docs| < NOT_APPLICABLE
  {
    forall i | 0 <= i < |queries| :: Answer(queries[i], After(queries[..i], docs), docs) == Scan(docs, queries[i])
  }

  /** The first n predicates find their own scans under their texts. */
  ghost predicate FindOwnScans(entries: Entries, queries: seq<Expr>, n: nat, docs: seq<Document>)
    requires n <= |queries|
  {
    forall i | 0 <= i < n :: FindsOwnScan(entries, queries[i], docs)
  }

  ghost predicate FindsOwnScan(entries: Entries, q: Expr, docs: seq<Document>) {
    Print(q) in entries && entries[Print(q)].docs == Scan(docs, q)
  }

  lemma AddedFindsScan(entries: Entries, q: Expr, docs: seq<Document>)
    requires 0 < |docs| && Fit(entries, docs) && Answer(q, entries, docs) == Scan(docs, q)
    ensures FindsOwnScan(Added(entries, Answer(q, entries, docs), q), q, docs)
    ensures forall p | FindsOwnScan(entries, p, docs) :: FindsOwnScan(Added(entries, Answer(q, entries, docs), q), p, docs)
  {
  }

  /** In a history that is answered right, every predicate finds its own scan under its text. */
  lemma {:induction false} RightHistoryKeepsScans(queries: seq<Expr>, n: nat, docs: seq<Document>)
    requires 0 < |docs| < NOT_APPLICABLE && AllRight(queries, docs) && n <= |queries|
    ensures FindOwnScans(After(queries[..n], docs), queries, n, docs)
  {
    if n > 0 {
      RightHistoryKeepsScans(queries, n - 1, docs);
      AfterNext(queries, n - 1, docs);
      NextFindsScan(After(queries[..n - 1], docs), After(queries[..n], docs), queries, n - 1, docs);
    }
  }

  lemma AfterNext(queries: seq<Expr>, n: nat, docs: seq<Document>)
    requires |docs| < NOT_APPLICABLE && n < |queries|
    ensures var entries := After(queries[..n], docs);
            After(queries[..n + 1], docs) == Added(entries, Answer(queries[n], entries, docs), queries[n])
  {
    assert queries[..n + 1][..n] == queries[..n];
  }

  lemma NextFindsScan(entries: Entries, next: Entries, queries: seq<Expr>, n: nat, docs: seq<Document>)
    requires 0 < |docs| && Fit(entries, docs) && n < |queries| && FindOwnScans(entries, queries, n, docs)
    requires Answer(queries[n], entries, docs) == Scan(docs, queries[n])
    requires next == Added(entries, Answer(queries[n], entries, docs), queries[n])
    ensures FindOwnScans(next, queries, n + 1, docs)
  {
    AddedFindsScan(entries, queries[n], docs);
  }

  /** If all answers are right, no two predicates of the history are mistaken for each other. */
  lemma RightMeansApart(queries: seq<Expr>, docs: seq<Document>)
    requires 0 < |docs| < NOT_APPLICABLE && AllRight(queries, docs)
    ensures forall i, j | 0 <= i < |queries| && 0 <= j < |queries| :: Apart(queries[i], queries[j], docs)
  {
    RightHistoryKeepsScans(queries, |queries|, docs);
    forall i, j | 0 <= i < |queries| && 0 <= j < |queries| ensures Apart(queries[i], queries[j], docs) {
      var entries := After(queries[..|queries|], docs);
      assert FindsOwnScan(entries, queries[i], docs) && FindsOwnScan(entries, queries[j], docs);
    }
  }

  /** Without conjunctions a history is answered right exactly if no two of its predicates are mistaken for each other. */
  lemma SimpleHistoryIsRightIff(queries: seq<Expr>, docs: seq<Document>)
    requires 0 < |docs| < NOT_APPLICABLE && forall i | 0 <= i < |queries| :: !queries[i].And?
    ensures AllRight(queries, docs) <==>
            forall i, j | 0 <= i < |queries| && 0 <= j < |queries| :: Apart(queries[i], queries[j], docs)
  {
    if AllRight(queries, docs) {
      RightMeansApart(queries, docs);
    }
    if forall i, j | 0 <= i < |queries| && 0 <= j < |queries| :: Apart(queries[i], queries[j], docs) {
      forall i, j | 0 <= i < |queries| && 0 <= j < |queries| ensures NotMistaken(queries[i], queries[j], docs) {
        assert Looked(queries[j]) == {queries[j]};
      }
      HistoryIsRight(queries, docs);
    }
  }

  // ---------------------------------------------------------------------------------------------
  // What a query is taken for
  // ---------------------------------------------------------------------------------------------

  /** The first predicate with a given text. */
  function FirstWith(queries: seq<Expr>, text: string): Option<Expr> {
    if queries == [] then None
    else
      var earlier, last := FirstWith(queries[..|queries| - 1], text), queries[|queries| - 1];
      if earlier.Some? then earlier else if Print(last) == text then Some(last) else None
  }

  function Matches(p: Option<Expr>, docs: seq<Document>): nat {
    if p.Some? then Count(Scan(docs, p.value)) else NOT_APPLICABLE
  }

  /**
   The predicate as which a query is answered, after queries that were answered right: the first one with the same
   text, or the conjunction with the first one that has the text of the side with fewer documents.
   */
  function TakenFor(q: Expr, earlier: seq<Expr>, docs: seq<Document>): Expr {
    if FirstWith(earlier, Print(q)).Some? then FirstWith(earlier, Print(q)).value
    else if !q.And? then q
    else
      var l, r := FirstWith(earlier, Print(q.lhs)), FirstWith(earlier, Print(q.rhs));
      if l.Some? && Matches(l, docs) < |docs| && Matches(l, docs) <= Matches(r, docs) then And(l.value, q.rhs)
      else if r.Some? && Matches(r, docs) < |docs| && Matches(r, docs) < Matches(l, docs) then And(q.lhs, r.value)
      else q
  }

  /** The cache has, for each text, the scan of the first predicate with it. */
  ghost predicate IsKept(entries: Entries, queries: seq<Expr>, docs: seq<Document>) {
    forall text :: KeptFor(entries, queries, docs, text)
  }

  ghost predicate KeptFor(entries: Entries, queries: seq<Expr>, docs: seq<Document>, text: string) {
    match FirstWith(queries, text)
    case None => text !in entries
    case Some(p) => text in entries && entries[text].docs == Scan(docs, p)
  }

  lemma AnswerIsTaken(q: Expr, entries: Entries, earlier: seq<Expr>, docs: seq<Document>)
    requires Fit(entries, docs) && IsKept(entries, earlier, docs)
    ensures Answer(q, entries, docs) == Scan(docs, TakenFor(q, earlier, docs))
  {
    assert KeptFor(entries, earlier, docs, Print(q));
    if FirstWith(earlier, Print(q)).None? && q.And? {
      assert KeptFor(entries, earlier, docs, Print(q.lhs)) && KeptFor(entries, earlier, docs, Print(q.rhs));
      var l, r := FirstWith(earlier, Print(q.lhs)), FirstWith(earlier, Print(q.rhs));
      if l.Some? { FilteredIsScan(l.value, q.rhs, docs); }
      if r.Some? { FilteredIsScan(q.lhs, r.value, docs); }
    }
  }

  lemma RightAnswerIsKept(q: Expr, entries: Entries, earlier: seq<Expr>, docs: seq<Document>)
    requires Fit(entries, docs) && IsKept(entries, earlier, docs)
    ensures IsKept(Added(entries, Scan(docs, q), q), earlier + [q], docs)
  {
    assert (earlier + [q])[..|earlier|] == earlier;
    forall text ensures KeptFor(Added(entries, Scan(docs, q), q), earlier + [q], docs, text) {
      assert KeptFor(entries, earlier, docs, text);
    }
  }

  ghost predicate IsAnsweredRight(queries: seq<Expr>, n: nat, docs: seq<Document>)
    requires |docs| < NOT_APPLICABLE && n < |queries|
  {
    Answer(queries[n], After(queries[..n], docs), docs) == Scan(docs, queries[n])
  }

  ghost predicate AreAnsweredRight(queries: seq<Expr>, n: nat, docs: seq<Document>)
    requires |docs| < NOT_APPLICABLE && n <= |queries|
  {
    forall i: nat | i < n :: IsAnsweredRight(queries, i, docs)
  }

  ghost predicate IsKeptAfter(queries: seq<Expr>, n: nat, docs: seq<Document>)
    requires |docs| < NOT_APPLICABLE && n <= |queries|
  {
    IsKept(After(queries[..n], docs), queries[..n], docs)
  }

  lemma NextIsKept(q: Expr, entries: Entries, next: Entries, earlier: seq<Expr>, queries: seq<Expr>, docs: seq<Document>)
    requires Fit(entries, docs) && IsKept(entries, earlier, docs) && Answer(q, entries, docs) == Scan(docs, q)
    requires next == Added(entries, Answer(q, entries, docs), q) && queries == earlier + [q]
    ensures IsKept(next, queries, docs)
  {
    RightAnswerIsKept(q, entries, earlier, docs);
  }

  lemma NextIsKeptAfter(queries: seq<Expr>, n: nat, docs: seq<Document>)
    requires |docs| < NOT_APPLICABLE && n < |queries| && IsAnsweredRight(queries, n, docs) && IsKeptAfter(queries, n, docs)
    ensures IsKeptAfter(queries, n + 1, docs)
  {
    var entries, next, q := After(queries[..n], docs), After(queries[..n + 1], docs), queries[n];
    assert next == Added(entries, Answer(q, entries, docs), q) by {
      AfterNext(queries, n, docs);
    }
    assert queries[..n + 1] == queries[..n] + [q];
    NextIsKept(q, entries, next, queries[..n], queries[..n + 1], docs);
  }

  lemma NothingIsKept(queries: seq<Expr>, docs: seq<Document>)
    requires |docs| < NOT_APPLICABLE
    ensures IsKeptAfter(queries, 0, docs)
  {
    assert queries[..0] == [];
    forall text ensures KeptFor(After([], docs), [], docs, text) {
    }
  }

  lemma {:induction false} RightHistoryIsKept(queries: seq<Expr>, n: nat, docs: seq<Document>)
    requires |docs| < NOT_APPLICABLE && n <= |queries| && AreAnsweredRight(queries, n, docs)
    ensures IsKeptAfter(queries, n, docs)
  {
    if n == 0 {
      NothingIsKept(queries, docs);
    } else {
      RightHistoryIsKept(queries, n - 1, docs);
      NextIsKeptAfter(queries, n - 1, docs);
    }
  }

  /** The n-th query is taken for a predicate that is true on the same documents. */
  ghost predicate IsTakenRight(queries: seq<Expr>, n: nat, docs: seq<Document>)
    requires n < |queries|
  {
    Scan(docs, TakenFor(queries[n], queries[..n], docs)) == Scan(docs, queries[n])
  }

  lemma NextIsRight(queries: seq<Expr>, n: nat, docs: seq<Document>)
    requires |docs| < NOT_APPLICABLE && n < |queries| && IsKeptAfter(queries, n, docs)
    ensures IsAnsweredRight(queries, n, docs) <==> IsTakenRight(queries, n, docs)
  {
    AnswerIsTaken(queries[n], After(queries[..n], docs), queries[..n], docs);
  }

  ghost predicate AreTakenRight(queries: seq<Expr>, n: nat, docs: seq<Document>)
    requires n <= |queries|
  {
    forall i: nat | i < n :: IsTakenRight(queries, i, docs)
  }

  lemma OneMoreIsRight(queries: seq<Expr>, n: nat, docs: seq<Document>)
    requires |docs| < NOT_APPLICABLE && n < |queries| && AreAnsweredRight(queries, n, docs) && IsTakenRight(queries, n, docs)
    ensures AreAnsweredRight(queries, n + 1, docs)
  {
    RightHistoryIsKept(queries, n, docs);
    NextIsRight(queries, n, docs);
  }

  lemma {:induction false} TakenRightIsRight(queries: seq<Expr>, n: nat, docs: seq<Document>)
    requires |docs| < NOT_APPLICABLE && n <= |queries|
    requires AreTakenRight(queries, n, docs)
    ensures AreAnsweredRight(queries, n, docs)
  {
    if n > 0 {
      TakenRightIsRight(queries, n - 1, docs);
      OneMoreIsRight(queries, n - 1, docs);
    }
  }

  /** A history is answered right exactly if each query is taken for one that is true on the same documents. */
  lemma HistoryIsRightIff(queries: seq<Expr>, docs: seq<Document>)
    requires |docs| < NOT_APPLICABLE
    ensures AllRight(queries, docs) <==> AreTakenRight(queries, |queries|, docs)
  {
    AllRightMeans(queries, docs);
    if AreAnsweredRight(queries, |queries|, docs) {
      forall i: nat | i < |queries| ensures IsTakenRight(queries, i, docs) {
        assert forall j: nat | j < i :: IsAnsweredRight(queries, j, docs);
        RightHistoryIsKept(queries, i, docs);
        NextIsRight(queries, i, docs);
      }
    }
    if AreTakenRight(queries, |queries|, docs) {
      TakenRightIsRight(queries, |queries|, docs);
    }
  }

  lemma AllRightMeans(queries: seq<Expr>, docs: seq<Document>)
    requires |docs| < NOT_APPLICABLE
    ensures AllRight(queries, docs) <==> AreAnsweredRight(queries, |queries|, docs)
  {
    if AreAnsweredRight(queries, |queries|, docs) {
      forall i: nat | i < |queries| ensures Answer(queries[i], After(queries[..i], docs), docs) == Scan(docs, queries[i]) {
        assert IsAnsweredRight(queries, i, docs);
      }
    }
  }

  /** Printable predicates have unambiguous texts, so every history of them is answered as by the plain scan. */
  lemma PrintableHistoryIsRight(queries: seq<Expr>, docs: seq<Document>, fits: P.Fits)
    requires |docs| < NOT_APPLICABLE
    requires forall i | 0 <= i < |queries| :: R.Printable(queries[i], fits)
    ensures CacheIsScan(After(queries, docs), docs)
    ensures forall i | 0 <= i < |queries| :: Answer(queries[i], After(queries[..i], docs), docs) == Scan(docs, queries[i])
  {
    forall i, j | 0 <= i < |queries| && 0 <= j < |queries| ensures NotMistaken(queries[i], queries[j], docs) {
      forall e | e in Looked(queries[j]) ensures Apart(queries[i], e, docs) {
        if Print(queries[i]) == Print(e) {
          R.PrintIsInjective(queries[i], e, fits);
        }
      }
    }
    HistoryIsRight(queries, docs);
  }

  /** A repeated text is answered right exactly if both predicates hold on the same documents. */
  lemma SecondQueryRightIff(p: Expr, q: Expr, docs: seq<Document>)
    requires 0 < |docs| < NOT_APPLICABLE && Print(p) == Print(q)
    ensures Answer(q, After([p], docs), docs) == Scan(docs, q) <==> Scan(docs, p) == Scan(docs, q)
  {
    assert [p][..0] == [];
    assert After([p], docs) == map[Print(p) := CacheEntry(Scan(docs, p), p)];
  }

  /** A comparison with a negation is answered with the result of the negated comparison asked before. */
  lemma NegationIsMistaken(a: Expr, b: Expr, d: Document)
    requires d.valid && d.values(Not(Compare(Equal, a, b))) == M.True && d.values(Compare(Equal, Not(a), b)) == M.False
    ensures Answer(Compare(Equal, Not(a), b), After([Not(Compare(Equal, a, b))], [d]), [d]) == [true]
    ensures Scan([d], Compare(Equal, Not(a), b)) == [false]
  {
    var p, q := Not(Compare(Equal, a, b)), Compare(Equal, Not(a), b);
    R.NegationIsAmbiguous(a, b);
    assert [p][..0] == [];
    assert After([p], [d]) == map[Print(p) := CacheEntry(Scan([d], p), p)];
  }
}
