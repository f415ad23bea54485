/**
 Reading documents as text by ranges: from a container, from a storage of several containers, in the chunks of
 the server, and in the bulks of the exporter.
 */
module Pagination {
  import opened Options

  /** A removed document has no text. */
  datatype Document = Document(valid: bool, json: string)

  const TWO_64 := 0x1_0000_0000_0000_0000
  const INT64_MAX := 0x7fff_ffff_ffff_ffff
  const CHUNK_SIZE := 50
  const OUT_BULK := 512

  function Text(d: Document): string {
    if d.valid then d.json else ""
  }

  function Texts(docs: seq<Document>): seq<string> {
    seq(|docs|, i requires 0 <= i < |docs| => Text(docs[i]))
  }

  function Min(a: int, b: int): int {
    if a <= b then a else b
  }

  /** The elements from one position up to, but not including, another, as far as there are any. */
  function Slice<T>(s: seq<T>, from: nat, to: int): seq<T> {
    if from < Min(to, |s|) then s[from..Min(to, |s|)] else []
  }

  class JSONContainer {
    const docs: seq<Document>

    constructor (docs: seq<Document>)
      ensures this.docs == docs
    {
      this.docs := docs;
    }

    /** None: the length to reserve is negative and wraps around, which no vector can have. */
    method Stringify(start: nat, last: nat) returns (r: Option<seq<string>>)
      ensures docs != [] && start > |docs| ==> r == None
      ensures docs != [] && start <= |docs| && start > last + 1 ==> r == None
      ensures docs == [] || (start <= |docs| && start <= last + 1) ==> r == Some(Slice(Texts(docs), start, last + 1))
    {
      var ret: seq<string> := [];
      if docs == [] {
        return Some(ret);
      }
      var end := Min(last, |docs| - 1);
      if end - start + 1 < 0 {
        return None;
      }
      if start > end {
        return Some(ret);
      }
      for i := start to end + 1
        invariant ret == Texts(docs)[start..i]
      {
        ret := ret + [if docs[i].valid then docs[i].json else ""];
      }
      return Some(ret);
    }
  }

  // ---------------------------------------------------------------------------------------------
  // The storage
  // ---------------------------------------------------------------------------------------------

  /** All texts of a storage, container by container. */
  function All(containers: seq<JSONContainer>): seq<string> {
    if containers == [] then []
    else All(containers[..|containers| - 1]) + Texts(containers[|containers| - 1].docs)
  }

  function Offset(containers: seq<JSONContainer>, k: nat): nat
    requires k <= |containers|
  {
    |All(containers[..k])|
  }

  lemma {:induction false} AllBegins(containers: seq<JSONContainer>, k: nat)
    requires k <= |containers|
    ensures Offset(containers, k) <= |All(containers)|
    ensures All(containers)[..Offset(containers, k)] == All(containers[..k])
  {
    if k == |containers| {
      assert containers[..k] == containers;
    } else {
      var front := containers[..|containers| - 1];
      AllBegins(front, k);
      assert front[..k] == containers[..k];
    }
  }

  /** The texts of a container stand at its offset. */
  lemma ContainerAt(containers: seq<JSONContainer>, k: nat)
    requires k < |containers|
    ensures Offset(containers, k + 1) == Offset(containers, k) + |containers[k].docs| <= |All(containers)|
    ensures All(containers)[Offset(containers, k)..Offset(containers, k + 1)] == Texts(containers[k].docs)
  {
    assert containers[..k + 1][..k] == containers[..k];
    AllBegins(containers, k + 1);
    assert All(containers)[..Offset(containers, k + 1)] == All(containers[..k]) + Texts(containers[k].docs);
  }

  /** An empty container lies behind the first document of a range and not behind the last one. */
  ghost predicate Stuck(containers: seq<JSONContainer>, start: nat, last: nat) {
    exists k: nat {:trigger StuckAt(containers, k, start, last)} | k < |containers| :: StuckAt(containers, k, start, last)
  }

  ghost predicate StuckAt(containers: seq<JSONContainer>, k: nat, start: nat, last: nat)
    requires k < |containers|
  {
    containers[k].docs == [] && start < Offset(containers, k) <= last && Offset(containers, k) < |All(containers)|
  }

  /** The second of three containers is empty: a range over the other two comes to it. */
  lemma EmptyContainerIsStuck(a: JSONContainer, empty: JSONContainer, b: JSONContainer)
    requires |a.docs| == 1 && empty.docs == [] && |b.docs| == 1
    ensures Stuck([a, empty, b], 0, 1) && !Stuck([a, empty, b], 0, 0)
  {
    var containers := [a, empty, b];
    ThreeOffsets(a, empty, b);
    assert StuckAt(containers, 1, 0, 1);
  }

  lemma ThreeOffsets(a: JSONContainer, empty: JSONContainer, b: JSONContainer)
    requires |a.docs| == 1 && empty.docs == [] && |b.docs| == 1
    ensures Offset([a, empty, b], 1) == Offset([a, empty, b], 2) == 1 && Offset([a, empty, b], 3) == 2 <= |All([a, empty, b])|
  {
    ContainerAt([a, empty, b], 0);
    ContainerAt([a, empty, b], 1);
    ContainerAt([a, empty, b], 2);
  }

  datatype Outcome = Strings(strings: seq<string>) | Diverges

  class JSONStorage {
    var container: seq<JSONContainer>
    var docCount: nat

    ghost predicate Valid()
      reads this
    {
      docCount == |All(container)|
    }

    constructor ()
      ensures Valid() && container == []
    {
      container, docCount := [], 0;
    }

    method InsertDocuments(cont: Option<JSONContainer>)
      requires Valid()
      modifies this
      ensures Valid()
      ensures container == old(container) + if cont.Some? then [cont.value] else []
      ensures All(container) == old(All(container)) + if cont.Some? then Texts(cont.value.docs) else []
    {
      if cont == None {
        return;
      }
      docCount := docCount + |cont.value.docs|;
      container := container + [cont.value];
      assert container[..|container| - 1] == old(container);
    }

    /**
     The loop over the containers. At an empty container it changes nothing, so it never ends; otherwise the
     result is the range of the documents of all containers.
     */
    method Stringify(start: nat, last: nat) returns (r: Outcome)
      requires Valid()
      ensures Stuck(container, start, last) ==> r == Diverges
      ensures !Stuck(container, start, last) ==> r == Strings(Slice(All(container), start, last + 1))
    {
      var ret: seq<string> := [];
      if docCount == 0 {
        return Strings(ret);
      }
      var end := Min(last, docCount - 1);
      if start > end {
        return Strings(ret);
      }
      assert container[..|container|] == container;
      var it, skippedSize := SkipTo(start);
      r := Collect(start, end, it, skippedSize);
      assert Stuck(container, start, end) <==> Stuck(container, start, last) by {
        assert forall k | 0 <= k < |container| :: StuckAt(container, k, start, end) <==> StuckAt(container, k, start, last);
      }
    }

    /** Browse the containers until the one with the first document is reached. */
    method SkipTo(start: nat) returns (it: nat, skippedSize: nat)
      requires start < |All(container)|
      ensures it < |container| && skippedSize == Offset(container, it) <= start < |container[it].docs| + skippedSize
      ensures forall k | 0 <= k <= it :: Offset(container, k) <= start
    {
      it, skippedSize := 0, 0;
      assert container[..|container|] == container;
      while start >= |container[it].docs| + skippedSize
        invariant it < |container| && skippedSize == Offset(container, it) <= start
        invariant forall k | 0 <= k <= it :: Offset(container, k) <= start
        decreases |container| - it
      {
        ContainerAt(container, it);
        skippedSize := skippedSize + |container[it].docs|;
        it := it + 1;
      }
    }

    method Collect(start: nat, end: nat, first: nat, before: nat) returns (r: Outcome)
      requires start <= end < |All(container)|
      requires first < |container| && before == Offset(container, first) <= start < |container[first].docs| + before
      requires forall k | 0 <= k <= first :: Offset(container, k) <= start
      ensures Stuck(container, start, end) ==> r == Diverges
      ensures !Stuck(container, start, end) ==> r == Strings(Slice(All(container), start, end + 1))
    {
      var ret: seq<string> := [];
      var it, skippedSize := first, before;
      var count := end - start + 1;
      ghost var all := All(container);
      while |ret| < count
        invariant it <= |container| && skippedSize == Offset(container, it)
        invariant skippedSize <= start ==> it == first
        invariant ret == Slice(all, start, Min(skippedSize, end + 1))
        invariant forall k | 0 <= k < it :: !StuckAt(container, k, start, end)
        decreases |container| - it
      {
        var contStart := 0;
        if skippedSize < start {
          contStart := start - skippedSize;
        }
        var contEnd := contStart + count - |ret| - 1;
        assert container[..|container|] == container;
        if |container[it].docs| != 0 {
          var tmp := Part(start, end, it, skippedSize, contStart, contEnd);
          skippedSize := skippedSize + |container[it].docs|;
          ret := ret + tmp;
          it := it + 1;
        } else {
          assert StuckAt(container, it, start, end);
          return Diverges;
        }
      }
      forall k | it <= k < |container| ensures Offset(container, k) > end {
        OffsetsGrow(container, it, k);
      }
      return Strings(ret);
    }

    /** What one container contributes to the range. */
    method Part(start: nat, end: nat, it: nat, skippedSize: nat, contStart: nat, contEnd: int) returns (tmp: seq<string>)
      requires start <= end < |All(container)| && it < |container| && container[it].docs != []
      requires skippedSize == Offset(container, it) <= end && start < skippedSize + |container[it].docs|
      requires contStart == if skippedSize < start then start - skippedSize else 0
      requires contEnd == contStart + (end - start + 1) - |Slice(All(container), start, Min(skippedSize, end + 1))| - 1
      ensures Offset(container, it + 1) == skippedSize + |container[it].docs|
      ensures Slice(All(container), start, Min(skippedSize, end + 1)) + tmp ==
              Slice(All(container), start, Min(Offset(container, it + 1), end + 1))
    {
      ContainerAt(container, it);
      Extend(All(container), start, end, skippedSize, Texts(container[it].docs), contStart, contEnd);
      var part := container[it].Stringify(contStart, contEnd);
      tmp := part.value;
    }
  }

  lemma OffsetsGrow(containers: seq<JSONContainer>, j: nat, k: nat)
    requires j <= k <= |containers|
    ensures Offset(containers, j) <= Offset(containers, k)
  {
    AllBegins(containers[..k], j);
    assert containers[..k][..j] == containers[..j];
  }

  lemma SliceOfSlice(s: seq<string>, from: nat, n: nat, i: nat, j: nat)
    requires from + n <= |s| && i <= j <= n
    ensures s[from..from + n][i..j] == s[from + i..from + j]
  {
    var part := s[from..from + n];
    forall k | 0 <= k < j - i ensures part[i..j][k] == s[from + i..from + j][k] {
      assert part[i + k] == s[from + (i + k)];
    }
  }

  /** The part of the next container continues the range. */
  lemma Extend(all: seq<string>, start: nat, end: nat, skipped: nat, texts: seq<string>, contStart: nat, contEnd: int)
    requires start <= end < |all| && skipped <= end && texts != []
    requires skipped + |texts| <= |all| && all[skipped..skipped + |texts|] == texts
    requires start < skipped + |texts|
    requires contStart == if skipped < start then start - skipped else 0
    requires contEnd == contStart + (end - start + 1) - |Slice(all, start, Min(skipped, end + 1))| - 1
    ensures contEnd == end - skipped
    ensures Slice(all, start, Min(skipped, end + 1)) + Slice(texts, contStart, contEnd + 1) ==
            Slice(all, start, Min(skipped + |texts|, end + 1))
  {
    var low, high := skipped + contStart, Min(skipped + |texts|, end + 1);
    assert Slice(texts, contStart, contEnd + 1) == texts[contStart..high - skipped];
    SliceOfSlice(all, skipped, |texts|, contStart, high - skipped);
    if skipped > start {
      assert low == skipped && Slice(all, start, Min(skipped, end + 1)) == all[start..low];
      Joined(all, start, low, high);
    } else {
      assert low == start && Slice(all, start, Min(skipped, end + 1)) == all[low..low];
      Joined(all, low, low, high);
    }
  }

  lemma Joined(s: seq<string>, from: nat, middle: nat, to: nat)
    requires from <= middle <= to <= |s|
    ensures s[from..middle] + s[middle..to] == s[from..to]
  {
  }

  // ---------------------------------------------------------------------------------------------
  // The chunks of the server
  // ---------------------------------------------------------------------------------------------

  /** The conversion of a signed to an unsigned number of 64 bits. */
  function ToUnsigned(x: int): nat {
    x % TWO_64
  }

  function Commas(strings: seq<string>): string {
    if strings == [] then ""
    else if |strings| == 1 then strings[0]
    else Commas(strings[..|strings| - 1]) + "," + strings[|strings| - 1]
  }

  lemma CommasNext(strings: seq<string>, next: string)
    ensures Commas(strings + [next]) == (if strings == [] then "" else Commas(strings) + ",") + next
  {
    assert (strings + [next])[..|strings|] == strings;
  }

  /** The first document that is sent: chunks that begin at a negative position are lost. */
  function FirstSent(offset: int): (first: nat)
    ensures offset >= 0 ==> first == offset
    ensures offset < 0 ==> first < CHUNK_SIZE && IsChunkStart(first, offset)
  {
    if offset >= 0 then offset else offset % CHUNK_SIZE
  }

  /** An empty container lies within a chunk. */
  ghost predicate ChunkStuck(containers: seq<JSONContainer>, first: nat, end: int) {
    exists k: nat {:trigger ChunkStuckAt(containers, k, first, end)} | k < |containers| :: ChunkStuckAt(containers, k, first, end)
  }

  ghost predicate ChunkStuckAt(containers: seq<JSONContainer>, k: nat, first: nat, end: int)
    requires k < |containers|
  {
    && containers[k].docs == []
    && first < Offset(containers, k) < Min(end, |All(containers)|)
    && !IsChunkStart(first, Offset(containers, k))
  }

  lemma NextChunk(first: int, start: int, x: int)
    requires IsChunkStart(first, start)
    ensures IsChunkStart(first, start + CHUNK_SIZE)
    ensures start < x < start + CHUNK_SIZE ==> !IsChunkStart(first, x)
    ensures start < first ==> start + CHUNK_SIZE <= first
  {
    var q := (start - first) / CHUNK_SIZE;
    assert start - first == q * CHUNK_SIZE;
    assert start + CHUNK_SIZE - first == (q + 1) * CHUNK_SIZE;
    if start < x < start + CHUNK_SIZE {
      assert (x - first) / CHUNK_SIZE == q;
    }
  }

  /** A chunk of the storage, as far as it lies behind the first document sent. */
  method SendChunk(result: JSONStorage, start: int, size: nat, ghost first: nat) returns (r: Outcome)
    requires result.Valid() && result.docCount <= INT64_MAX
    requires -INT64_MAX <= start && start + size <= INT64_MAX && 0 < size
    requires start >= 0 ==> first <= start
    requires start < 0 ==> start + size <= first
    ensures r.Diverges? <==> start >= 0 && Stuck(result.container, start, start + size - 1)
    ensures r.Strings? ==> Slice(All(result.container), first, start) + r.strings == Slice(All(result.container), first, start + size)
  {
    r := result.Stringify(ToUnsigned(start), ToUnsigned(start + size - 1));
    if start < 0 {
      assert ToUnsigned(start) == start + TWO_64;
      assert !Stuck(result.container, ToUnsigned(start), ToUnsigned(start + size - 1));
    }
  }

  predicate IsWritten(out: string, prev: bool, sent: seq<string>) {
    prev == (sent != []) && out == RESULT_BEGIN + Commas(sent)
  }

  /** The position is a number of whole chunks away from the first one. */
  predicate IsChunkStart(first: int, start: int) {
    (start - first) % CHUNK_SIZE == 0
  }

  /** The strings of one chunk, with commas between all strings sent so far. */
  method WriteChunk(out: string, prev: bool, strings: seq<string>, ghost sent: seq<string>) returns (out': string, prev': bool)
    requires IsWritten(out, prev, sent)
    ensures IsWritten(out', prev', sent + strings)
  {
    out', prev' := out, prev;
    assert sent + strings[..0] == sent;
    for i := 0 to |strings|
      invariant IsWritten(out', prev', sent + strings[..i])
    {
      CommasNext(sent + strings[..i], strings[i]);
      assert sent + strings[..i] + [strings[i]] == sent + strings[..i + 1];
      if prev' {
        out' := out' + ",";
      } else {
        prev' := true;
      }
      out' := out' + strings[i];
    }
    assert strings[..|strings|] == strings;
  }

  /** All documents from the first one up to a position have been written, and no chunk before it is stuck. */
  ghost predicate HasSent(containers: seq<JSONContainer>, out: string, prev: bool, first: nat, start: int) {
    IsWritten(out, prev, Slice(All(containers), first, start)) && !ChunkStuck(containers, first, start)
  }

  /** The loop stands at the beginning of a chunk, or at the end of the request. */
  ghost predicate IsAt(offset: int, first: nat, start: int, end: int) {
    && first == FirstSent(offset) && offset <= start
    && (start <= end || start == offset)
    && (start < end ==> IsChunkStart(first, start))
  }

  /** One round of the loop: the next chunk is read and written, unless it is stuck. */
  method SendNext(result: JSONStorage, start: int, end: int, out: string, prev: bool, ghost offset: int, ghost first: nat)
    returns (ok: bool, start': int, out': string, prev': bool)
    requires result.Valid() && result.docCount <= INT64_MAX
    requires -INT64_MAX <= start < end <= INT64_MAX && end - start <= INT64_MAX && IsAt(offset, first, start, end)
    requires HasSent(result.container, out, prev, first, start)
    ensures !ok ==> ChunkStuck(result.container, first, end)
    ensures ok ==> start < start' && IsAt(offset, first, start', end)
    ensures ok ==> HasSent(result.container, out', prev', first, start')
  {
    var size := Min(CHUNK_SIZE, end - start);
    out', prev', start' := out, prev, start;
    NextChunk(first, start, start);
    StuckInChunk(result.container, first, start, size, end);
    var stringified := SendChunk(result, start, size, first);
    ok := stringified.Strings?;
    if ok {
      out', prev' := WriteChunk(out, prev, stringified.strings, Slice(All(result.container), first, start));
      start' := start + size;
    }
  }

  /**
   The reply is the list of all documents from the first one sent to the end of the request, without gaps. None:
   the storage does not get over an empty container in one of the chunks.
   */
  method SendResult(result: JSONStorage, offset: int, count: int) returns (r: Option<string>)
    requires result.Valid() && result.docCount <= INT64_MAX
    requires -INT64_MAX <= offset <= INT64_MAX && -INT64_MAX <= offset + count <= INT64_MAX
    requires RequestEnd(result.docCount, offset, count) - offset <= INT64_MAX
    ensures r.None? <==> ChunkStuck(result.container, FirstSent(offset), RequestEnd(result.docCount, offset, count))
    ensures r.Some? ==> r.value == Reply(Sent(All(result.container), offset, count))
  {
    var end := if count == 0 then result.docCount else offset + count;
    r := SendRange(result, offset, end);
  }

  method SendRange(result: JSONStorage, offset: int, end: int) returns (r: Option<string>)
    requires result.Valid() && result.docCount <= INT64_MAX
    requires -INT64_MAX <= offset <= INT64_MAX && -INT64_MAX <= end <= INT64_MAX && end - offset <= INT64_MAX
    ensures r.None? <==> ChunkStuck(result.container, FirstSent(offset), end)
    ensures r.Some? ==> r.value == Reply(Slice(All(result.container), FirstSent(offset), end))
  {
    ghost var first := FirstSent(offset);
    var out, start, prev := RESULT_BEGIN, offset, false;
    NothingSentYet(result.container, offset, first);
    while end > start
      invariant IsAt(offset, first, start, end)
      invariant HasSent(result.container, out, prev, first, start)
    {
      var ok;
      ok, start, out, prev := SendNext(result, start, end, out, prev, offset, first);
      if !ok {
        return None;
      }
    }
    AllIsSent(result.container, out, prev, offset, first, start, end);
    r := Some(out + RESULT_END);
  }

  lemma NothingSentYet(containers: seq<JSONContainer>, offset: int, first: nat)
    requires first == FirstSent(offset)
    ensures HasSent(containers, RESULT_BEGIN, false, first, offset) && IsChunkStart(first, offset)
  {
    assert Slice(All(containers), first, offset) == [];
    assert RESULT_BEGIN + "" == RESULT_BEGIN;
  }

  lemma AllIsSent(containers: seq<JSONContainer>, out: string, prev: bool, offset: int, first: nat, start: int, end: int)
    requires first == FirstSent(offset) && end <= start && (start <= end || start == offset)
    requires HasSent(containers, out, prev, first, start)
    ensures out + RESULT_END == Reply(Slice(All(containers), first, end)) && !ChunkStuck(containers, first, end)
  {
    if start != end {
      assert Slice(All(containers), first, start) == [] == Slice(All(containers), first, end);
    }
  }

  const RESULT_BEGIN := "{\"result\":["
  const RESULT_END := "]}"

  function Reply(strings: seq<string>): string {
    RESULT_BEGIN + Commas(strings) + RESULT_END
  }

  /** The position behind the last document of a request; no count stands for all documents. */
  function RequestEnd(docCount: nat, offset: int, count: int): int {
    if count == 0 then docCount else offset + count
  }

  function Sent(all: seq<string>, offset: int, count: int): seq<string> {
    Slice(all, FirstSent(offset), RequestEnd(|all|, offset, count))
  }

  /** The texts of a container: that of each document, and nothing for one that is removed. */
  lemma TextsMean(docs: seq<Document>, i: nat)
    requires i < |docs|
    ensures |Texts(docs)| == |docs| && Texts(docs)[i] == match docs[i] case Document(true, json) => json case Document(false, _) => ""
  {
    assert Texts(docs)[i] == Text(docs[i]);
  }

  /** Without a count a request asks for all documents behind the offset, with one for no more than so many. */
  lemma RequestMeans(all: seq<string>, offset: nat, count: int)
    requires offset <= |all|
    ensures count == 0 ==> Sent(all, offset, count) == all[offset..]
    ensures 0 < count <= |all| - offset ==> Sent(all, offset, count) == all[offset..][..count]
    ensures count > |all| - offset ==> Sent(all, offset, count) == all[offset..]
    ensures count < 0 ==> Sent(all, offset, count) == []
  {
  }

  /** The text of a reply: an object with the list under "result". */
  lemma ReplyMeans(strings: seq<string>, last: string)
    ensures Reply([]) == "{\"result\":[" + "]}"
    ensures Reply(strings + [last]) == "{\"result\":[" + ((if strings == [] then "" else Commas(strings) + ",") + last) + "]}"
  {
    CommasNext(strings, last);
    assert RESULT_BEGIN + Commas([]) == RESULT_BEGIN;
  }

  /** A chunk is stuck exactly if an empty container lies within it. */
  lemma StuckInChunk(containers: seq<JSONContainer>, first: nat, start: int, size: nat, end: int)
    requires IsChunkStart(first, start) && start < end && size == Min(CHUNK_SIZE, end - start)
    requires !ChunkStuck(containers, first, start)
    ensures start >= first && Stuck(containers, start, start + size - 1) ==> ChunkStuck(containers, first, end)
    ensures start < first || !Stuck(containers, start, start + size - 1) ==> !ChunkStuck(containers, first, start + size)
  {
    var last := start + size - 1;
    if start >= first && Stuck(containers, start, last) {
      var k: nat :| k < |containers| && StuckAt(containers, k, start, last);
      NextChunk(first, start, Offset(containers, k));
      assert ChunkStuckAt(containers, k, first, end);
    }
    if ChunkStuck(containers, first, start + size) {
      var k: nat :| k < |containers| && ChunkStuckAt(containers, k, first, start + size);
      NextChunk(first, start, Offset(containers, k));
      assert !ChunkStuckAt(containers, k, first, start);
      assert start >= first && StuckAt(containers, k, start, last);
    }
  }

  /** The whole request is sent exactly if its chunks do not begin at negative positions beside document 0. */
  lemma NegativeOffsetLosesDocuments(all: seq<string>, offset: int, count: int)
    ensures Sent(all, offset, count) == Slice(all, if offset < 0 then 0 else offset, RequestEnd(|all|, offset, count)) <==>
            offset >= 0 || offset % CHUNK_SIZE == 0 || RequestEnd(|all|, offset, count) <= 0 || all == []
    ensures -50 < offset < 0 ==> Sent(all, offset, count) == Slice(all, offset + 50, if count == 0 then |all| else offset + count)
  {
    var end := RequestEnd(|all|, offset, count);
    if offset < 0 && offset % CHUNK_SIZE != 0 && end > 0 && all != [] {
      assert |Slice(all, 0, end)| == Min(end, |all|) > |Slice(all, FirstSent(offset), end)|;
    }
  }

  // ---------------------------------------------------------------------------------------------
  // The bulks of the exporter
  // ---------------------------------------------------------------------------------------------

  function Flatten(bulks: seq<seq<string>>): seq<string> {
    if bulks == [] then [] else Flatten(bulks[..|bulks| - 1]) + bulks[|bulks| - 1]
  }

  /** All bulks but the last one are full; together they are the container. */
  method FillBuffer(cont: JSONContainer) returns (bulks: seq<seq<string>>)
    ensures Flatten(bulks) == Texts(cont.docs)
    ensures bulks != [] && |bulks[|bulks| - 1]| < OUT_BULK
    ensures forall i | 0 <= i < |bulks| - 1 :: |bulks[i]| == OUT_BULK
  {
    bulks := [];
    var start := 0;
    while true
      invariant start <= |cont.docs|
      invariant Flatten(bulks) == Texts(cont.docs)[..start]
      invariant forall i | 0 <= i < |bulks| :: |bulks[i]| == OUT_BULK
      decreases |cont.docs| - start
    {
      var strings := cont.Stringify(start, start + OUT_BULK - 1);
      assert (bulks + [strings.value])[..|bulks|] == bulks;
      bulks := bulks + [strings.value];
      start := start + OUT_BULK;
      if |strings.value| < OUT_BULK {
        return;
      }
    }
  }
}
