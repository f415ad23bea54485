/**
 The adaptive histogram of `AdaptiveHistogram.cpp`: documents with integer values in buckets of equal width,
 where a crowded bucket is split into buckets of its own when a search first looks into it. Buckets are
 nested values, as in the source; the searches return the changed bucket.
 */
module AdaptiveHistogram {
  import opened Options
  import opened Doubles

  /** A bucket without sub-buckets keeps its values and document numbers, any other one only their count. */
  datatype Bucket =
    | Leaf(min: int, max: int, values: seq<int>, indexes: seq<nat>)
    | Inner(min: int, max: int, docCount: nat, bucketSize: int, subs: seq<Bucket>)
  {
    function DocCount(): nat {
      if Leaf? then |values| else docCount
    }
  }

  const INT64_MAX := 0x7fff_ffff_ffff_ffff
  const INT64_MIN := -0x8000_0000_0000_0000

  function EmptyBucket(): Bucket {
    Leaf(INT64_MAX, INT64_MIN, [], [])
  }

  /** Division of the source, which rounds towards zero. */
  function Quotient(a: int, b: int): int
    requires b > 0
  {
    if a >= 0 then a / b else -((-a) / b)
  }

  /** The low 32 bits as a signed number: a bucket number is an `int`. */
  function ToInt32(x: int): int {
    var low := x % 0x1_0000_0000;
    if low < 0x8000_0000 then low else low - 0x1_0000_0000
  }

  function BucketNum(value: int, min: int, bucketSize: int): int
    requires bucketSize > 0
  {
    ToInt32(Quotient(value - min, bucketSize))
  }

  /** The lookup of a sub-bucket. None: the subtraction overflows, or the number is out of range. */
  function Num(value: int, min: int, bucketSize: int, count: nat): (k: Option<nat>)
    requires bucketSize > 0
    ensures k.Some? ==> k.value < count
  {
    if IsInt64(value - min) && 0 <= BucketNum(value, min, bucketSize) < count then Some(BucketNum(value, min, bucketSize))
    else None
  }

  predicate IsInt64(value: int) {
    INT64_MIN <= value <= INT64_MAX
  }

  // ---------------------------------------------------------------------------------------------
  // The widths of buckets
  // ---------------------------------------------------------------------------------------------

  /** The number of sub-buckets of a split: not more than there are integers between the bounds. */
  function PartCount(min: int, max: int, splitCount: nat): nat
    requires min <= max
  {
    if max - min + 1 < splitCount then max - min + 1 else splitCount
  }

  function PartSize(min: int, max: int, splitCount: nat): (size: nat)
    requires min <= max && splitCount > 0
    ensures size > 0
  {
    if max - min + 1 < splitCount then 1
    else
      WidthIsNear(max - min + 1, splitCount);
      Width(max - min + 1, splitCount)
  }

  /** The range of the values and the width of a bucket do not overflow. */
  predicate Fits(min: int, max: int, width: nat) {
    max - min + 1 <= INT64_MAX && width <= INT64_MAX
  }

  /** A split stays in range: the sub-buckets reach up to the greatest value. */
  predicate Splittable(min: int, max: int, splitCount: nat) {
    && min <= max && splitCount > 0
    && Fits(min, max, PartSize(min, max, splitCount))
    && max - min + 1 <= PartCount(min, max, splitCount) * PartSize(min, max, splitCount)
  }

  /** Rounding loses no value of a range of at most 2 to the power of 53. */
  lemma SmallRangeIsSplittable(min: int, max: int, splitCount: nat)
    requires min <= max && max - min + 1 <= TWO_53 && splitCount > 0
    ensures Splittable(min, max, splitCount)
  {
    SmallRangeIsCovered(max - min + 1, splitCount);
  }

  /** One more value than a hundred buckets of the rounded width hold; the number of the last one is 100. */
  lemma LargeRangeIsNotSplittable()
    ensures !Splittable(0, 9007199254741000, 100)
    ensures Num(9007199254741000, 0, PartSize(0, 9007199254741000, 100), 100) == None
  {
    RoundingLosesARange();
    assert 9007199254741000 / 90071992547410 == 100;
  }

  /** A bucket number that is too large does not wrap around to one in range. */
  lemma WideEnough(min: int, max: int, splitCount: nat)
    requires min <= max && 0 < splitCount < 0x8000_0000
    ensures max - min + 1 <= 0x1_0000_0000 * PartSize(min, max, splitCount)
    ensures max - min + 1 <= 0x1_0000_0000 * Width(max - min + 1, splitCount)
    ensures Width(max - min + 1, splitCount) > 0
  {
    WidthIsNear(max - min + 1, splitCount);
    Bounded(max - min + 1, splitCount, Width(max - min + 1, splitCount));
  }

  lemma Bounded(range: nat, n: nat, width: nat)
    requires 81 * (n * width) >= 64 * range && n <= 0x8000_0000
    ensures range <= 0x1_0000_0000 * width
  {
    Monotone(n, 0x8000_0000, width);
  }

  // ---------------------------------------------------------------------------------------------
  // Contents
  // ---------------------------------------------------------------------------------------------

  type Doc = (nat, int)

  ghost function Zip(indexes: seq<nat>, values: seq<int>): multiset<Doc> {
    if indexes == [] || values == [] then multiset{}
    else Zip(indexes[..|indexes| - 1], values[..|values| - 1]) + multiset{(indexes[|indexes| - 1], values[|values| - 1])}
  }

  /** The documents of a bucket with their values. */
  ghost function Content(b: Bucket): multiset<Doc> {
    match b
    case Leaf(_, _, values, indexes) => Zip(indexes, values)
    case Inner(_, _, _, _, subs) => Contents(subs)
  }

  ghost function Contents(subs: seq<Bucket>): multiset<Doc> {
    if subs == [] then multiset{} else Contents(subs[..|subs| - 1]) + Content(subs[|subs| - 1])
  }

  /** The documents of a bucket lie between its bounds; those of the i-th sub-bucket have that bucket number. */
  ghost predicate Valid(b: Bucket) {
    && (b.Leaf? ==> |b.indexes| == |b.values| && (b.values != [] ==> b.min in b.values && b.max in b.values))
    && (forall p | p in Content(b) :: b.min <= p.1 <= b.max)
    && |Content(b)| == b.DocCount() && (b.DocCount() > 0 ==> INT64_MIN <= b.min <= b.max <= INT64_MAX)
    && (b.Inner? ==>
          && b.bucketSize > 0 && 0 < |b.subs| < 0x8000_0000 && b.max - b.min < |b.subs| * b.bucketSize && b.max - b.min < INT64_MAX
          && (forall i {:trigger Valid(b.subs[i])} | 0 <= i < |b.subs| :: Valid(b.subs[i]))
          && (forall i {:trigger InSlice(b, i)} | 0 <= i < |b.subs| :: InSlice(b, i)))
  }

  ghost predicate InSlice(b: Bucket, i: nat)
    requires b.Inner? && b.bucketSize > 0 && i < |b.subs|
  {
    var sub, low, high := b.subs[i], b.min + i * b.bucketSize, b.min + (i + 1) * b.bucketSize;
    && (forall p | p in Content(sub) :: low <= p.1 < high)
    && (sub.DocCount() > 0 ==> low <= sub.min && sub.max < high && sub.max <= b.max)
    && (sub.Inner? ==> sub.DocCount() > 0)
  }

  lemma {:induction false} ContentsHas(subs: seq<Bucket>, p: Doc)
    ensures p in Contents(subs) <==> exists i :: 0 <= i < |subs| && p in Content(subs[i])
  {
    if subs != [] {
      var n := |subs| - 1;
      ContentsHas(subs[..n], p);
      assert Contents(subs) == Contents(subs[..n]) + Content(subs[n]);
      assert forall i | 0 <= i < n :: subs[..n][i] == subs[i];
    }
  }

  lemma Exchange(a: multiset<Doc>, b: multiset<Doc>, c: multiset<Doc>, x: multiset<Doc>, y: multiset<Doc>)
    requires a + x == b + y
    ensures (a + c) + x == (b + c) + y
  {
    forall p ensures ((a + c) + x)[p] == ((b + c) + y)[p] {
      assert (a + x)[p] == (b + y)[p];
    }
  }

  lemma {:induction false} ContentsUpdate(subs: seq<Bucket>, k: nat, b: Bucket)
    requires k < |subs|
    ensures Contents(subs[k := b]) + Content(subs[k]) == Contents(subs) + Content(b)
  {
    var n := |subs| - 1;
    var after := subs[k := b];
    if k == n {
      assert after[..n] == subs[..n];
      Swap(Contents(subs[..n]), Content(b), Content(subs[n]));
    } else {
      assert after[..n] == subs[..n][k := b] && after[n] == subs[n];
      ContentsUpdate(subs[..n], k, b);
      Exchange(Contents(after[..n]), Contents(subs[..n]), Content(subs[n]), Content(subs[k]), Content(b));
    }
  }

  lemma Swap(a: multiset<Doc>, x: multiset<Doc>, y: multiset<Doc>)
    ensures (a + x) + y == (a + y) + x
  {
  }

  lemma {:induction false} EmptyContents(subs: seq<Bucket>)
    requires forall i | 0 <= i < |subs| :: subs[i] == EmptyBucket()
    ensures Contents(subs) == multiset{}
  {
    if subs != [] {
      EmptyContents(subs[..|subs| - 1]);
    }
  }

  /** A value with a bucket number in range belongs to that bucket. */
  lemma SliceOf(value: int, min: int, size: int, i: int)
    requires size > 0 && i >= 0
    ensures min + i * size <= value < min + (i + 1) * size <==> value >= min && (value - min) / size == i
  {
    var d := value - min;
    if d >= 0 {
      assert d == (d / size) * size + d % size;
      if d / size < i { assert (d / size + 1) * size <= i * size; }
      if d / size > i { assert (i + 1) * size <= (d / size) * size; }
    } else {
      assert i * size >= 0;
    }
  }

  lemma NumInRange(value: int, min: int, max: int, size: int, count: nat)
    requires min <= value <= max && size > 0 && max - min < count * size && count < 0x8000_0000 && max - min <= INT64_MAX
    ensures Num(value, min, size, count) == Some((value - min) / size)
  {
    var d := value - min;
    assert d == (d / size) * size + d % size;
    if d / size >= count {
      Monotone(count, d / size, size);
    }
    FitsInt(d / size);
    assert Quotient(d, size) == d / size;
    assert BucketNum(value, min, size) == d / size;
  }

  lemma FitsInt(x: int)
    requires 0 <= x < 0x8000_0000
    ensures ToInt32(x) == x
  {
  }

  /** The lookup of a value that is not far behind the last bucket fails exactly if it is behind. */
  lemma NumFails(value: int, min: int, size: int, count: nat, limit: int)
    requires limit == count * size && min <= value && IsInt64(value - min) && size > 0 && count < 0x8000_0000 && value - min < 0x1_0000_0000 * size
    ensures Num(value, min, size, count) == None <==> value - min >= limit
    ensures Num(value, min, size, count).Some? ==> Num(value, min, size, count).value == (value - min) / size
  {
    var d := value - min;
    assert d == (d / size) * size + d % size;
    if d / size >= 0x1_0000_0000 { Monotone(0x1_0000_0000, d / size, size); }
    if d >= count * size {
      if d / size < count { Monotone(d / size + 1, count, size); }
    } else {
      NumInRange(value, min, value, size, count);
    }
  }

  lemma Monotone(a: int, b: int, c: int)
    requires a <= b && c >= 0
    ensures a * c <= b * c
  {
  }

  // ---------------------------------------------------------------------------------------------
  // Splits
  // ---------------------------------------------------------------------------------------------

  function Push(b: Bucket, value: int, index: nat): Bucket
    requires b.Leaf?
  {
    Leaf(if value < b.min then value else b.min, if value > b.max then value else b.max,
         b.values + [value], b.indexes + [index])
  }

  /** A bucket without sub-buckets whose documents lie between its bounds and in the half-open range given. */
  ghost predicate IsSlice(b: Bucket, low: int, high: int) {
    && b.Leaf? && |b.indexes| == |b.values| && (forall p | p in Content(b) :: b.min <= p.1 <= b.max && low <= p.1 < high)
    && (if b.values == [] then b == EmptyBucket() else low <= b.min <= b.max < high && IsInt64(b.min) && IsInt64(b.max) && b.min in b.values && b.max in b.values)
  }

  lemma PushZip(b: Bucket, value: int, index: nat)
    requires b.Leaf? && |b.indexes| == |b.values|
    ensures Content(Push(b, value, index)) == Content(b) + multiset{(index, value)}
  {
    assert (b.values + [value])[..|b.values|] == b.values && (b.indexes + [index])[..|b.indexes|] == b.indexes;
  }

  lemma PushContent(b: Bucket, value: int, index: nat, low: int, high: int)
    requires IsSlice(b, low, high) && low <= value < high && IsInt64(value)
    ensures IsSlice(Push(b, value, index), low, high)
    ensures Content(Push(b, value, index)) == Content(b) + multiset{(index, value)}
  {
    PushZip(b, value, index);
    var b' := Push(b, value, index);
    forall p | p in Content(b') ensures b'.min <= p.1 <= b'.max && low <= p.1 < high {
      assert p in Content(b) || p == (index, value);
    }
  }

  /** The i-th of the buckets that a split makes. */
  ghost predicate IsPart(subs: seq<Bucket>, i: nat, min: int, size: int)
    requires i < |subs|
  {
    IsSlice(subs[i], min + i * size, min + (i + 1) * size)
  }

  ghost predicate AreParts(subs: seq<Bucket>, min: int, size: int) {
    (forall i {:trigger IsPart(subs, i, min, size)} | 0 <= i < |subs| :: IsPart(subs, i, min, size))
  }

  /** One document more, in the bucket with its number. */
  lemma FillOne(subs: seq<Bucket>, k: nat, min: int, size: int, value: int, index: nat)
    requires AreParts(subs, min, size) && size > 0 && k < |subs| && value >= min && (value - min) / size == k
    requires IsInt64(value)
    ensures subs[k].Leaf?
    ensures var subs' := subs[k := Push(subs[k], value, index)];
            AreParts(subs', min, size) && Contents(subs') == Contents(subs) + multiset{(index, value)}
  {
    assert IsPart(subs, k, min, size);
    SliceOf(value, min, size, k);
    var b := Push(subs[k], value, index);
    PushContent(subs[k], value, index, min + k * size, min + (k + 1) * size);
    ContentsUpdate(subs, k, b);
    OtherParts(subs, k, b, min, size);
    Cancel(Contents(subs[k := b]), Content(subs[k]), Contents(subs), multiset{(index, value)});
  }

  lemma Cancel(a: multiset<Doc>, c: multiset<Doc>, b: multiset<Doc>, d: multiset<Doc>)
    requires a + c == b + (c + d)
    ensures a == b + d
  {
    forall p ensures a[p] == b[p] + d[p] {
      assert (a + c)[p] == (b + (c + d))[p];
    }
  }

  lemma OtherParts(subs: seq<Bucket>, k: nat, b: Bucket, min: int, size: int)
    requires AreParts(subs, min, size) && k < |subs| && IsSlice(b, min + k * size, min + (k + 1) * size)
    ensures AreParts(subs[k := b], min, size)
  {
    var after := subs[k := b];
    forall i: nat | i < |subs| ensures IsPart(after, i, min, size) {
      assert IsPart(subs, i, min, size);
    }
  }

  lemma FillStep(indexes: seq<nat>, values: seq<int>, j: nat, subs: seq<Bucket>, min: int, size: int, k: nat)
    requires |indexes| == |values| && j < |indexes| && size > 0 && AreParts(subs, min, size) && k < |subs|
    requires min <= values[j] && (values[j] - min) / size == k && IsInt64(values[j])
    requires Contents(subs) == Zip(indexes[..j], values[..j])
    ensures subs[k].Leaf?
    ensures var subs' := subs[k := Push(subs[k], values[j], indexes[j])];
            AreParts(subs', min, size) && Contents(subs') == Zip(indexes[..j + 1], values[..j + 1])
  {
    FillOne(subs, k, min, size, values[j], indexes[j]);
    ZipPush(indexes, values, j);
  }

  lemma EmptyParts(subs: seq<Bucket>, min: int, size: int)
    requires forall i | 0 <= i < |subs| :: subs[i] == EmptyBucket()
    ensures AreParts(subs, min, size) && Contents(subs) == multiset{}
  {
    forall i: nat | i < |subs| ensures IsPart(subs, i, min, size) {}
    EmptyContents(subs);
  }

  /** A value whose lookup can be checked before it is made. */
  predicate IsNear(value: int, min: int, size: int) {
    IsInt64(value) && min <= value && IsInt64(value - min) && value - min < 0x1_0000_0000 * size
  }

  /** The buckets hold the first n documents. */
  ghost predicate IsFilled(subs: seq<Bucket>, indexes: seq<nat>, values: seq<int>, n: nat, min: int, size: int)
    requires n <= |indexes| == |values|
  {
    AreParts(subs, min, size) && Contents(subs) == Zip(indexes[..n], values[..n])
  }

  predicate IsBehind(value: int, min: int, limit: int) {
    value - min >= limit
  }

  /** The loop of all splits: every document goes into the bucket with its number, which may be out of range. */
  method Fill(indexes: seq<nat>, values: seq<int>, min: int, size: int, count: nat, ghost limit: int)
    returns (filled: Option<seq<Bucket>>)
    requires |indexes| == |values| && size > 0 && count < 0x8000_0000 && limit == count * size
    requires forall j | 0 <= j < |values| :: IsNear(values[j], min, size)
    ensures filled == None <==> exists j :: 0 <= j < |values| && IsBehind(values[j], min, limit)
    ensures filled.Some? ==>
      |filled.value| == count && AreParts(filled.value, min, size) && Contents(filled.value) == Zip(indexes, values)
  {
    var subs := seq(count, i => EmptyBucket());
    EmptyParts(subs, min, size);
    for j := 0 to |indexes|
      invariant |subs| == count && IsFilled(subs, indexes, values, j, min, size)
      invariant forall i | 0 <= i < j :: !IsBehind(values[i], min, limit)
    {
      assert IsNear(values[j], min, size);
      var next := FillNext(indexes, values, min, size, j, subs, limit);
      if next == None {
        return None;
      }
      subs := next.value;
    }
    assert indexes[..|indexes|] == indexes && values[..|values|] == values;
    filled := Some(subs);
  }

  method FillNext(indexes: seq<nat>, values: seq<int>, min: int, size: int, j: nat, subs: seq<Bucket>, ghost limit: int)
    returns (next: Option<seq<Bucket>>)
    requires |indexes| == |values| && j < |values| && size > 0 && |subs| < 0x8000_0000 && limit == |subs| * size
    requires IsNear(values[j], min, size) && IsFilled(subs, indexes, values, j, min, size)
    ensures next == None <==> IsBehind(values[j], min, limit)
    ensures next.Some? ==> |next.value| == |subs| && IsFilled(next.value, indexes, values, j + 1, min, size)
  {
    NumFails(values[j], min, size, |subs|, limit);
    var k := Num(values[j], min, size, |subs|);
    if k == None {
      return None;
    }
    FillStep(indexes, values, j, subs, min, size, k.value);
    next := Some(subs[k.value := Push(subs[k.value], values[j], indexes[j])]);
  }

  lemma ZipPush(indexes: seq<nat>, values: seq<int>, j: nat)
    requires |indexes| == |values| && j < |indexes|
    ensures Zip(indexes[..j + 1], values[..j + 1]) == Zip(indexes[..j], values[..j]) + multiset{(indexes[j], values[j])}
  {
    assert indexes[..j + 1][..j] == indexes[..j] && values[..j + 1][..j] == values[..j];
  }

  lemma {:induction false} ZipHas(indexes: seq<nat>, values: seq<int>, p: Doc)
    requires |indexes| == |values|
    ensures p in Zip(indexes, values) <==> exists j :: 0 <= j < |indexes| && indexes[j] == p.0 && values[j] == p.1
    ensures |Zip(indexes, values)| == |values|
  {
    if indexes != [] {
      var n := |indexes| - 1;
      ZipHas(indexes[..n], values[..n], p);
      if p in Zip(indexes[..n], values[..n]) {
        var j :| 0 <= j < n && indexes[..n][j] == p.0 && values[..n][j] == p.1;
        assert indexes[j] == p.0 && values[j] == p.1;
      }
      if exists j :: 0 <= j < |indexes| && indexes[j] == p.0 && values[j] == p.1 {
        var j :| 0 <= j < |indexes| && indexes[j] == p.0 && values[j] == p.1;
        if j < n { assert indexes[..n][j] == p.0 && values[..n][j] == p.1; }
      }
    }
  }

  lemma PartIsValid(subs: seq<Bucket>, i: nat, min: int, size: int)
    requires i < |subs| && IsPart(subs, i, min, size)
    ensures Valid(subs[i]) && |Content(subs[i])| == subs[i].DocCount()
  {
    ZipHas(subs[i].indexes, subs[i].values, (0, 0));
  }

  lemma MaxIsAttained(b: Bucket, i: nat)
    requires b.Inner? && i < |b.subs| && b.subs[i].Leaf? && b.subs[i].max in b.subs[i].values
    requires |b.subs[i].indexes| == |b.subs[i].values| && forall p | p in Contents(b.subs) :: p.1 <= b.max
    ensures b.subs[i].max <= b.max
  {
    var sub := b.subs[i];
    var j :| 0 <= j < |sub.values| && sub.values[j] == sub.max;
    var p: Doc := (sub.indexes[j], sub.max);
    ZipHas(sub.indexes, sub.values, p);
    ContentsHas(b.subs, p);
    assert p in Content(b.subs[i]);
  }

  /** A bucket made of the parts of a split is valid. */
  lemma PartsAreValid(b: Bucket, content: multiset<Doc>)
    requires b.Inner? && b.bucketSize > 0 && 0 < |b.subs| < 0x8000_0000 && b.max - b.min < |b.subs| * b.bucketSize && b.max - b.min < INT64_MAX
    requires AreParts(b.subs, b.min, b.bucketSize)
    requires b.docCount > 0 ==> INT64_MIN <= b.min <= b.max <= INT64_MAX
    requires Contents(b.subs) == content && |content| == b.docCount && forall p | p in content :: b.min <= p.1 <= b.max
    ensures Valid(b) && Content(b) == content
  {
    forall i: nat | i < |b.subs| ensures Valid(b.subs[i]) && InSlice(b, i) {
      assert IsPart(b.subs, i, b.min, b.bucketSize);
      PartIsValid(b.subs, i, b.min, b.bucketSize);
      if b.subs[i].DocCount() > 0 { MaxIsAttained(b, i); }
    }
  }

  /**
   Splits a bucket: the same documents, within the same bounds, in sub-buckets of their own. None: the greatest
   value lies behind the last sub-bucket, or the arithmetic overflows.
   */
  method Split(b: Bucket, splitCount: nat) returns (b': Option<Bucket>)
    requires b.Leaf? && Valid(b) && b.DocCount() > 0 && 0 < splitCount < 0x8000_0000
    ensures b' == None <==> !Splittable(b.min, b.max, splitCount)
    ensures b'.Some? ==> b'.value.Inner? && SameDocs(b, b'.value)
    ensures b'.Some? ==> b'.value.bucketSize == PartSize(b.min, b.max, splitCount)
    ensures b'.Some? ==> |b'.value.subs| == PartCount(b.min, b.max, splitCount)
    ensures b'.Some? ==> forall i | 0 <= i < |b'.value.subs| :: b'.value.subs[i].Leaf?
  {
    LeafBounds(b);
    var splitSize := splitCount;
    var valueRange := b.max - b.min + 1;
    var bucketSize: int;
    if valueRange < splitSize {
      splitSize := valueRange;
      bucketSize := 1;
    } else {
      bucketSize := Width(valueRange, splitSize);
    }
    if !Fits(b.min, b.max, bucketSize) {
      return None;
    }
    WideEnough(b.min, b.max, splitCount);
    var subs := Fill(b.indexes, b.values, b.min, bucketSize, splitSize, splitSize * bucketSize);
    if subs == None {
      return None;
    }
    b' := Some(Inner(b.min, b.max, |b.values|, bucketSize, subs.value));
    PartsAreValid(b'.value, Content(b));
    forall i: nat | i < |subs.value| ensures subs.value[i].Leaf? { assert IsPart(subs.value, i, b.min, bucketSize); }
  }

  lemma LeafBounds(b: Bucket)
    requires b.Leaf? && Valid(b)
    ensures forall j | 0 <= j < |b.values| :: b.min <= b.values[j] <= b.max
  {
    forall j | 0 <= j < |b.values| ensures b.min <= b.values[j] <= b.max {
      var p: Doc := (b.indexes[j], b.values[j]);
      ZipHas(b.indexes, b.values, p);
      assert p in Content(b);
    }
  }

  // ---------------------------------------------------------------------------------------------
  // Searches
  // ---------------------------------------------------------------------------------------------

  /** The numbers of the documents with values that pass a test. */
  ghost function Hits(content: multiset<Doc>, test: int -> bool): set<nat> {
    set p | p in content && test(p.1) :: p.0
  }

  lemma HitsOf(content: multiset<Doc>, test: int -> bool, d: nat)
    ensures d in Hits(content, test) <==> exists v :: (d, v) in content && test(v)
  {
    if d in Hits(content, test) {
      var p :| p in content && test(p.1) && p.0 == d;
      assert (d, p.1) in content;
    }
    if exists v :: (d, v) in content && test(v) {
      var v :| (d, v) in content && test(v);
      assert (d, v).0 == d;
    }
  }

  /** The loop over the documents of a bucket without sub-buckets. */
  method Select(b: Bucket, test: int -> bool) returns (found: set<nat>)
    requires b.Leaf? && |b.indexes| == |b.values|
    ensures found == Hits(Content(b), test)
  {
    found := {};
    for i := 0 to |b.values|
      invariant found == Hits(Zip(b.indexes[..i], b.values[..i]), test)
    {
      ZipPush(b.indexes, b.values, i);
      HitsPush(Zip(b.indexes[..i], b.values[..i]), (b.indexes[i], b.values[i]), test);
      if test(b.values[i]) {
        found := found + {b.indexes[i]};
      }
    }
    assert b.indexes[..|b.values|] == b.indexes && b.values[..|b.values|] == b.values;
  }

  lemma HitsPush(content: multiset<Doc>, p: Doc, test: int -> bool)
    ensures Hits(content + multiset{p}, test) == Hits(content, test) + if test(p.1) then {p.0} else {}
  {
    forall d ensures d in Hits(content + multiset{p}, test) <==> d in Hits(content, test) || (test(p.1) && d == p.0) {
      HitsOf(content, test, d);
      HitsOf(content + multiset{p}, test, d);
    }
  }

  function Any(): int -> bool {
    v => true
  }

  function EqualTo(value: int): int -> bool {
    v => v == value
  }

  function LessThan(value: int, inclusive: bool): int -> bool {
    v => v < value || (inclusive && v == value)
  }

  function MoreThan(value: int, inclusive: bool): int -> bool {
    v => v > value || (inclusive && v == value)
  }

  lemma JoinNext(b: Bucket, i: nat)
    requires Valid(b) && b.Inner? && i < |b.subs|
    ensures Valid(b.subs[i]) && Hits(Contents(b.subs[..i + 1]), Any()) ==
                                Hits(Contents(b.subs[..i]), Any()) + Hits(Content(b.subs[i]), Any())
    ensures b.subs[i].DocCount() == 0 ==> Hits(Content(b.subs[i]), Any()) == {}
  {
    assert Valid(b.subs[i]);
    assert b.subs[..i + 1][..i] == b.subs[..i];
    HitsJoin(Contents(b.subs[..i]), Content(b.subs[i]), Any());
    if b.subs[i].DocCount() == 0 { assert Content(b.subs[i]) == multiset{}; }
  }

  /** Every document of the bucket. */
  method SetAll(b: Bucket) returns (found: set<nat>)
    requires Valid(b)
    ensures found == Hits(Content(b), Any())
    decreases b
  {
    if b.Inner? {
      found := {};
      for i := 0 to |b.subs|
        invariant found == Hits(Contents(b.subs[..i]), Any())
      {
        JoinNext(b, i);
        if b.subs[i].DocCount() == 0 {
          continue;
        }
        var more := SetAll(b.subs[i]);
        found := found + more;
      }
      assert b.subs[..|b.subs|] == b.subs;
    } else {
      found := Select(b, Any());
    }
  }

  lemma HitsJoin(a: multiset<Doc>, b: multiset<Doc>, test: int -> bool)
    ensures Hits(a + b, test) == Hits(a, test) + Hits(b, test)
  {
    forall d ensures d in Hits(a + b, test) <==> d in Hits(a, test) || d in Hits(b, test) {
      HitsOf(a, test, d);
      HitsOf(b, test, d);
      HitsOf(a + b, test, d);
      if exists v :: (d, v) in a + b && test(v) {
        var v :| (d, v) in a + b && test(v);
        assert (d, v) in a || (d, v) in b;
      }
      if d in Hits(a, test) {
        var v :| (d, v) in a && test(v);
        assert (d, v) in a + b;
      }
      if d in Hits(b, test) {
        var v :| (d, v) in b && test(v);
        assert (d, v) in a + b;
      }
    }
  }

  /** Nothing changes about a bucket but how its documents are divided. */
  ghost predicate SameDocs(b: Bucket, b': Bucket) {
    Valid(b) && Valid(b') && Content(b') == Content(b) && b'.min == b.min && b'.max == b.max && b'.DocCount() == b.DocCount()
  }

  lemma SubContents(b: Bucket, k: nat, sub: Bucket)
    requires Valid(b) && b.Inner? && k < |b.subs| && Content(sub) == Content(b.subs[k])
    ensures Contents(b.subs[k := sub]) == Contents(b.subs)
  {
    ContentsUpdate(b.subs, k, sub);
    Equal(Contents(b.subs[k := sub]), Contents(b.subs), Content(sub));
  }

  lemma SliceStays(b: Bucket, b': Bucket, i: nat)
    requires b.Inner? && b'.Inner? && b.bucketSize > 0 && i < |b.subs| == |b'.subs|
    requires b'.min == b.min && b'.max == b.max && b'.bucketSize == b.bucketSize && InSlice(b, i)
    requires Content(b'.subs[i]) == Content(b.subs[i]) && b'.subs[i].min == b.subs[i].min && b'.subs[i].max == b.subs[i].max
    requires b'.subs[i].DocCount() == b.subs[i].DocCount() && (b'.subs[i].Inner? ==> b'.subs[i].DocCount() > 0)
    ensures InSlice(b', i)
  {
  }

  lemma SubsStayValid(b: Bucket, k: nat, sub: Bucket)
    requires Valid(b) && b.Inner? && k < |b.subs| && SameDocs(b.subs[k], sub) && (sub.Inner? ==> sub.DocCount() > 0)
    ensures var b' := b.(subs := b.subs[k := sub]);
            && (forall i {:trigger Valid(b'.subs[i])} | 0 <= i < |b'.subs| :: Valid(b'.subs[i]))
            && (forall i {:trigger InSlice(b', i)} | 0 <= i < |b'.subs| :: InSlice(b', i))
  {
    var b' := b.(subs := b.subs[k := sub]);
    forall i: nat | i < |b'.subs| ensures Valid(b'.subs[i]) && InSlice(b', i) {
      assert Valid(b.subs[i]) && InSlice(b, i);
      SliceStays(b, b', i);
    }
  }

  /** A sub-bucket that a search has split still holds the same documents. */
  lemma SubReplaced(b: Bucket, k: nat, sub: Bucket)
    requires Valid(b) && b.Inner? && k < |b.subs| && SameDocs(b.subs[k], sub) && (sub.Inner? ==> sub.DocCount() > 0)
    ensures SameDocs(b, b.(subs := b.subs[k := sub]))
  {
    SubContents(b, k, sub);
    SubsStayValid(b, k, sub);
    ValidFromSubs(b, b.(subs := b.subs[k := sub]));
  }

  lemma ValidFromSubs(b: Bucket, b': Bucket)
    requires Valid(b) && b.Inner? && b'.Inner? && b' == b.(subs := b'.subs) && |b'.subs| == |b.subs|
    requires Contents(b'.subs) == Contents(b.subs)
    requires forall i {:trigger Valid(b'.subs[i])} | 0 <= i < |b'.subs| :: Valid(b'.subs[i])
    requires forall i {:trigger InSlice(b', i)} | 0 <= i < |b'.subs| :: InSlice(b', i)
    ensures Valid(b') && Content(b') == Content(b)
  {
    assert Content(b') == Contents(b'.subs) && Content(b) == Contents(b.subs);
  }

  lemma Equal(a: multiset<Doc>, b: multiset<Doc>, c: multiset<Doc>)
    requires a + c == b + c
    ensures a == b
  {
    forall p ensures a[p] == b[p] {
      assert (a + c)[p] == (b + c)[p];
    }
  }

  lemma Sliced(b: Bucket, p: Doc) returns (i: nat)
    requires Valid(b) && b.Inner? && p in Content(b)
    ensures i < |b.subs| && p in Content(b.subs[i]) && b.min + i * b.bucketSize <= p.1 < b.min + (i + 1) * b.bucketSize
    ensures p.1 >= b.min && (p.1 - b.min) / b.bucketSize == i
  {
    ContentsHas(b.subs, p);
    i :| 0 <= i < |b.subs| && p in Content(b.subs[i]);
    assert InSlice(b, i);
    SliceOf(p.1, b.min, b.bucketSize, i);
  }

  lemma HitsWithin(a: multiset<Doc>, b: multiset<Doc>, test: int -> bool)
    requires forall p | p in a && test(p.1) :: p in b
    ensures Hits(a, test) <= Hits(b, test)
  {
    forall d | d in Hits(a, test) ensures d in Hits(b, test) {
      HitsOf(a, test, d);
      HitsOf(b, test, d);
    }
  }

  lemma SubWithin(b: Bucket, k: nat)
    requires Valid(b) && b.Inner? && k < |b.subs|
    ensures forall p | p in Content(b.subs[k]) :: p in Content(b)
  {
    forall p | p in Content(b.subs[k]) ensures p in Content(b) {
      ContentsHas(b.subs, p);
    }
  }

  /** The documents with one value are in one sub-bucket. */
  lemma EqualInSub(b: Bucket, value: int)
    requires Valid(b) && b.Inner? && b.min <= value <= b.max
    ensures var k := Num(value, b.min, b.bucketSize, |b.subs|);
            k.Some? && Hits(Content(b), EqualTo(value)) == Hits(Content(b.subs[k.value]), EqualTo(value))
  {
    NumInRange(value, b.min, b.max, b.bucketSize, |b.subs|);
    var k := Num(value, b.min, b.bucketSize, |b.subs|).value;
    SubWithin(b, k);
    HitsWithin(Content(b.subs[k]), Content(b), EqualTo(value));
    forall p | p in Content(b) && EqualTo(value)(p.1) ensures p in Content(b.subs[k]) {
      var i := Sliced(b, p);
    }
    HitsWithin(Content(b), Content(b.subs[k]), EqualTo(value));
  }

  lemma NoHits(b: Bucket, test: int -> bool)
    requires Valid(b) && (b.DocCount() == 0 || forall v | b.min <= v <= b.max :: !test(v))
    ensures Hits(Content(b), test) == {}
  {
    if b.DocCount() == 0 { assert Content(b) == multiset{}; }
  }

  /** The settings of a histogram that a search reads. */
  datatype Settings = Settings(splitCount: nat, bucketThreshold: real)

  predicate SettingsOk(s: Settings) {
    0 < s.splitCount < 0x8000_0000 && s.bucketThreshold >= 0.0
  }

  /** A bucket is split at most once in a search, and only when it is crowded by different values. */
  predicate ToSplit(b: Bucket, s: Settings, splitted: bool) {
    b.DocCount() as real > s.bucketThreshold && !splitted && b.min != b.max
  }

  /** The values a search is for: the given one, those below it, those above it. */
  datatype Search = ForEqual | ForLess | ForMore

  /** A search looks into a bucket unless its bounds, or its emptiness, rule out all matches. */
  predicate Enters(b: Bucket, value: int, search: Search) {
    match search
    case ForEqual => b.DocCount() > 0 && b.min <= value <= b.max
    case ForLess => value >= b.min
    case ForMore => value <= b.max
  }

  /** The documents of a leaf in leaves of the width that its bounds give. */
  ghost predicate IsSplitOf(b: Bucket, b': Bucket, splitCount: nat) {
    && b.min <= b.max && splitCount > 0 && SameDocs(b, b') && b'.Inner?
    && b'.bucketSize == PartSize(b.min, b.max, splitCount) && |b'.subs| == PartCount(b.min, b.max, splitCount)
    && forall i | 0 <= i < |b'.subs| :: b'.subs[i].Leaf?
  }

  /**
   What a search makes of a tree: the leaf it comes to is split if it has more documents than the threshold and more
   than one value, and if the search has split none before; everything else stays as it was.
   */
  ghost predicate Refined(b: Bucket, b': Bucket, value: int, search: Search, s: Settings, splitted: bool, splitted': bool) {
    if !Enters(b, value, search) then b' == b && splitted' == splitted
    else if b.Leaf? then
      if !splitted && |b.values| as real > s.bucketThreshold && b.min < b.max then IsSplitOf(b, b', s.splitCount) && splitted'
      else b' == b && splitted' == splitted
    else
      b.bucketSize > 0 &&
      match Num(value, b.min, b.bucketSize, |b.subs|)
      case None => false
      case Some(k) => b'.Inner? && |b'.subs| == |b.subs| && b' == b.(subs := b.subs[k := b'.subs[k]])
                      && Refined(b.subs[k], b'.subs[k], value, search, s, splitted, splitted')
  }

  /** What a search makes of a tree. */
  ghost predicate IsRefined(b: Bucket, b': Bucket, value: int, search: Search, s: Settings, splitted: bool, splitted': bool) {
    exists done :: done == splitted' && Refined(b, b', value, search, s, splitted, done)
  }

  lemma RefinedInSub(b: Bucket, k: nat, sub: Bucket, value: int, search: Search, s: Settings, splitted: bool, splitted': bool)
    requires b.Inner? && b.bucketSize > 0 && Enters(b, value, search) && Num(value, b.min, b.bucketSize, |b.subs|) == Some(k)
    requires IsRefined(b.subs[k], sub, value, search, s, splitted, splitted')
    ensures IsRefined(b, b.(subs := b.subs[k := sub]), value, search, s, splitted, splitted')
  {
    assert Refined(b, b.(subs := b.subs[k := sub]), value, search, s, splitted, splitted');
  }

  /** A bucket that a search does not look into stays, and so does the one around it. */
  lemma RefinedInNone(b: Bucket, k: nat, value: int, search: Search, s: Settings, splitted: bool)
    requires b.Inner? && b.bucketSize > 0 && Num(value, b.min, b.bucketSize, |b.subs|) == Some(k)
    requires !Enters(b.subs[k], value, search)
    ensures IsRefined(b, b, value, search, s, splitted, splitted)
  {
    assert b.subs[k := b.subs[k]] == b.subs;
    assert Refined(b.subs[k], b.subs[k], value, search, s, splitted, splitted);
    assert Refined(b, b, value, search, s, splitted, splitted);
  }

  lemma RefinedNot(b: Bucket, value: int, search: Search, s: Settings, splitted: bool)
    requires !Enters(b, value, search) || (b.Leaf? && !ToSplit(b, s, splitted))
    ensures IsRefined(b, b, value, search, s, splitted, splitted)
  {
    assert Refined(b, b, value, search, s, splitted, splitted);
  }

  lemma RefinedLeaf(b: Bucket, split: Bucket, b': Bucket, value: int, search: Search, s: Settings, splitted': bool)
    requires b.Leaf? && Enters(b, value, search) && b.min <= b.max && ToSplit(b, s, false)
    requires IsSplitOf(b, split, s.splitCount) && IsRefined(split, b', value, search, s, true, splitted')
    ensures IsRefined(b, b', value, search, s, false, splitted')
  {
    SplitOnce(split, b', value, search, s, splitted');
    assert Refined(b, b', value, search, s, false, splitted');
  }

  /** After its one split a search changes nothing more. */
  lemma {:induction false} SplitOnce(b: Bucket, b': Bucket, value: int, search: Search, s: Settings, splitted': bool)
    requires Refined(b, b', value, search, s, true, splitted')
    ensures b' == b && splitted'
  {
    if Enters(b, value, search) && b.Inner? {
      var k := Num(value, b.min, b.bucketSize, |b.subs|).value;
      SplitOnce(b.subs[k], b'.subs[k], value, search, s, splitted');
      assert b.subs[k := b'.subs[k]] == b.subs;
    }
  }

  /** The search for a value comes to a crowded bucket that cannot be split. */
  predicate EqualFails(b: Bucket, value: int, s: Settings, splitted: bool) {
    b.min <= value <= b.max && b.DocCount() > 0 &&
    if b.Leaf? then ToSplit(b, s, splitted) && !Splittable(b.min, b.max, s.splitCount)
    else
      b.bucketSize > 0 && match Num(value, b.min, b.bucketSize, |b.subs|)
        case None => true
        case Some(k) => EqualFails(b.subs[k], value, s, splitted)
  }

  /** No lookup is out of range, and exactly the documents with the value are found, unless a split fails. */
  method FindEqual(b: Bucket, value: int, s: Settings, splitted: bool)
    returns (b': Bucket, found: Option<set<nat>>, splitted': bool)
    requires Valid(b) && b.Inner? && SettingsOk(s)
    ensures found == None <==> EqualFails(b, value, s, splitted)
    ensures found.Some? ==> SameDocs(b, b') && b'.Inner?
    ensures found.Some? ==> found.value == Hits(Content(b), EqualTo(value))
    ensures found.Some? ==> IsRefined(b, b', value, ForEqual, s, splitted, splitted')
    decreases !splitted, b, 0
  {
    b', found, splitted' := b, Some({}), splitted;
    if b.min > value || b.max < value {
      NoHits(b, EqualTo(value));
      RefinedNot(b, value, ForEqual, s, splitted);
      return;
    }
    EqualInSub(b, value);
    var k := Num(value, b.min, b.bucketSize, |b.subs|).value;
    var bucket := b.subs[k];
    assert Valid(bucket) && InSlice(b, k);
    SubIsSmaller(b, k);
    if bucket.DocCount() == 0 || bucket.min > value || bucket.max < value {
      NoHits(bucket, EqualTo(value));
      RefinedInNone(b, k, value, ForEqual, s, splitted);
      return;
    }
    bucket, found, splitted' := SearchEqual(bucket, value, s, splitted);
    if found.Some? {
      RefinedInSub(b, k, bucket, value, ForEqual, s, splitted, splitted');
      SubReplaced(b, k, bucket);
      b' := b.(subs := b.subs[k := bucket]);
    }
  }

  method SearchEqual(bucket: Bucket, value: int, s: Settings, splitted: bool)
    returns (bucket': Bucket, found: Option<set<nat>>, splitted': bool)
    requires Valid(bucket) && bucket.DocCount() > 0 && bucket.min <= value <= bucket.max && SettingsOk(s)
    ensures found == None <==> EqualFails(bucket, value, s, splitted)
    ensures found.Some? ==> SameDocs(bucket, bucket')
    ensures found.Some? ==> found.value == Hits(Content(bucket), EqualTo(value))
    ensures found.Some? ==> IsRefined(bucket, bucket', value, ForEqual, s, splitted, splitted')
    decreases !splitted, bucket, 1
  {
    bucket', splitted' := bucket, splitted;
    if bucket.Inner? {
      bucket', found, splitted' := FindEqual(bucket, value, s, splitted);
    } else if ToSplit(bucket, s, splitted) {
      splitted' := true;
      var split := Split(bucket, s.splitCount);
      if split == None {
        return bucket, None, true;
      }
      NumInRange(value, bucket.min, bucket.max, split.value.bucketSize, |split.value.subs|);
      bucket', found, splitted' := FindEqual(split.value, value, s, true);
      if found.Some? { RefinedLeaf(bucket, split.value, bucket', value, ForEqual, s, splitted'); }
    } else {
      RefinedNot(bucket, value, ForEqual, s, splitted);
      var hits := Select(bucket, EqualTo(value));
      found := Some(hits);
    }
  }

  /** All values lie in a range of at most 2 to the power of 53. */
  predicate IsNarrow(b: Bucket) {
    b.max - b.min + 1 <= TWO_53
  }

  /** In a narrow histogram the search for a value never fails. */
  lemma {:induction false} NarrowEqualSucceeds(b: Bucket, value: int, s: Settings, splitted: bool)
    requires Valid(b) && IsNarrow(b) && SettingsOk(s)
    ensures !EqualFails(b, value, s, splitted)
    decreases b
  {
    if b.DocCount() > 0 && b.min <= value <= b.max {
      if b.Leaf? {
        SmallRangeIsSplittable(b.min, b.max, s.splitCount);
      } else {
        NumInRange(value, b.min, b.max, b.bucketSize, |b.subs|);
        var k := Num(value, b.min, b.bucketSize, |b.subs|).value;
        if b.subs[k].DocCount() > 0 {
          SubIsNarrow(b, k);
          NarrowEqualSucceeds(b.subs[k], value, s, splitted);
        }
      }
    }
  }

  lemma SubIsNarrow(b: Bucket, k: nat)
    requires Valid(b) && b.Inner? && k < |b.subs| && IsNarrow(b) && b.subs[k].DocCount() > 0
    ensures Valid(b.subs[k]) && IsNarrow(b.subs[k])
  {
    assert Valid(b.subs[k]) && InSlice(b, k);
    Monotone(0, k, b.bucketSize);
  }

  ghost function DocsOf(subs: seq<Bucket>, low: nat, high: nat): set<nat>
    requires low <= high <= |subs|
    decreases high - low
  {
    if low == high then {} else Hits(Content(subs[low]), Any()) + DocsOf(subs, low + 1, high)
  }

  lemma {:induction false} DocsOfHas(subs: seq<Bucket>, low: nat, high: nat, d: nat)
    requires low <= high <= |subs|
    ensures d in DocsOf(subs, low, high) <==> exists i :: low <= i < high && d in Hits(Content(subs[i]), Any())
    decreases high - low
  {
    if low < high {
      DocsOfHas(subs, low + 1, high, d);
    }
  }

  lemma {:induction false} DocsOfNext(subs: seq<Bucket>, low: nat, high: nat)
    requires low <= high < |subs|
    ensures DocsOf(subs, low, high + 1) == DocsOf(subs, low, high) + Hits(Content(subs[high]), Any())
    decreases high - low
  {
    if low < high {
      DocsOfNext(subs, low + 1, high);
    } else {
      assert DocsOf(subs, high + 1, high + 1) == {};
    }
  }

  /** The loop over the buckets below the target bucket, downwards. */
  method SetBelow(b: Bucket, k: nat) returns (found: set<nat>)
    requires Valid(b) && b.Inner? && k <= |b.subs|
    ensures found == DocsOf(b.subs, 0, k)
  {
    found := {};
    for i := k downto 0
      invariant found == DocsOf(b.subs, i, k)
    {
      assert Valid(b.subs[i]);
      var more := SetAll(b.subs[i]);
      found := more + found;
    }
  }

  /** The loop over the buckets above the target bucket, upwards. */
  method SetAbove(b: Bucket, k: nat) returns (found: set<nat>)
    requires Valid(b) && b.Inner? && k <= |b.subs|
    ensures found == DocsOf(b.subs, k, |b.subs|)
  {
    found := {};
    for i := k to |b.subs|
      invariant found == DocsOf(b.subs, k, i)
    {
      assert Valid(b.subs[i]);
      DocsOfNext(b.subs, k, i);
      var more := SetAll(b.subs[i]);
      found := found + more;
    }
  }

  lemma HitSub(b: Bucket, d: nat, test: int -> bool) returns (i: nat, v: int)
    requires Valid(b) && b.Inner? && d in Hits(Content(b), test)
    ensures i < |b.subs| && (d, v) in Content(b.subs[i]) && test(v)
    ensures v >= b.min && (v - b.min) / b.bucketSize == i
  {
    HitsOf(Content(b), test, d);
    v :| (d, v) in Content(b) && test(v);
    i := Sliced(b, (d, v));
  }

  lemma SubHit(b: Bucket, i: nat, d: nat, v: int, test: int -> bool)
    requires Valid(b) && b.Inner? && i < |b.subs| && (d, v) in Content(b.subs[i]) && test(v)
    ensures d in Hits(Content(b), test) && d in Hits(Content(b.subs[i]), test) && d in Hits(Content(b.subs[i]), Any())
  {
    SubWithin(b, i);
    HitsOf(Content(b), test, d);
    HitsOf(Content(b.subs[i]), test, d);
    HitsOf(Content(b.subs[i]), Any(), d);
  }

  lemma InDocsOf(b: Bucket, i: nat, low: nat, high: nat, d: nat, v: int)
    requires Valid(b) && b.Inner? && low <= i < high <= |b.subs| && (d, v) in Content(b.subs[i])
    ensures d in DocsOf(b.subs, low, high)
  {
    HitsOf(Content(b.subs[i]), Any(), d);
    assert Any()(v);
    DocsOfHas(b.subs, low, high, d);
  }

  lemma FromDocsOf(b: Bucket, low: nat, high: nat, d: nat) returns (i: nat, v: int)
    requires Valid(b) && b.Inner? && low <= high <= |b.subs| && d in DocsOf(b.subs, low, high)
    ensures low <= i < high && (d, v) in Content(b.subs[i]) && v >= b.min && (v - b.min) / b.bucketSize == i
  {
    DocsOfHas(b.subs, low, high, d);
    i :| low <= i < high && d in Hits(Content(b.subs[i]), Any());
    HitsOf(Content(b.subs[i]), Any(), d);
    v :| (d, v) in Content(b.subs[i]);
    assert InSlice(b, i);
    SliceOf(v, b.min, b.bucketSize, i);
  }

  lemma SubHits(b: Bucket, k: nat, test: int -> bool)
    requires Valid(b) && b.Inner? && k < |b.subs|
    ensures Hits(Content(b.subs[k]), test) <= Hits(Content(b), test)
  {
    SubWithin(b, k);
    HitsWithin(Content(b.subs[k]), Content(b), test);
  }

  lemma QuotientMonotone(a: nat, b: nat, c: int)
    requires c > 0 && a <= b
    ensures a / c <= b / c
  {
    assert a == (a / c) * c + a % c && b == (b / c) * c + b % c;
    if a / c > b / c { Monotone(b / c + 1, a / c, c); }
  }

  lemma SmallerQuotient(a: nat, b: nat, c: int)
    requires c > 0 && a / c < b / c
    ensures a < b
  {
    if a >= b { QuotientMonotone(b, a, c); }
  }

  function Least(a: int, b: int): int {
    if a < b then a else b
  }

  function Greatest(a: int, b: int): int {
    if a > b then a else b
  }

  // ---------------------------------------------------------------------------------------------
  // Smaller values
  // ---------------------------------------------------------------------------------------------

  /** On its way the search comes to a bucket of which the value is behind the end, or that cannot be split. */
  predicate LessFails(b: Bucket, value: int, s: Settings, splitted: bool) {
    value >= b.min &&
    if b.Leaf? then ToSplit(b, s, splitted) && !(Splittable(b.min, b.max, s.splitCount) && PartOf(b, value, s).Some?)
    else
      b.bucketSize > 0 && match Num(value, b.min, b.bucketSize, |b.subs|)
        case None => true
        case Some(k) => LessFails(b.subs[k], value, s, splitted)
  }

  /** The bucket that the search comes to cannot be split: the exception leaves it with half of its sub-buckets filled. */
  predicate LessBreaks(b: Bucket, value: int, s: Settings, splitted: bool) {
    value >= b.min &&
    if b.Leaf? then ToSplit(b, s, splitted) && !Splittable(b.min, b.max, s.splitCount)
    else
      b.bucketSize > 0 && match Num(value, b.min, b.bucketSize, |b.subs|)
        case None => false
        case Some(k) => LessBreaks(b.subs[k], value, s, splitted)
  }

  /** A search that returns has broken nothing. */
  lemma {:induction false} LessBreaksFail(b: Bucket, value: int, s: Settings, splitted: bool)
    ensures LessBreaks(b, value, s, splitted) ==> LessFails(b, value, s, splitted)
  {
    if b.Inner? && b.bucketSize > 0 && Num(value, b.min, b.bucketSize, |b.subs|).Some? {
      LessBreaksFail(b.subs[Num(value, b.min, b.bucketSize, |b.subs|).value], value, s, splitted);
    }
  }

  /** The number of the value among the sub-buckets that a split will make. */
  function PartOf(b: Bucket, value: int, s: Settings): Option<nat>
    requires b.min <= b.max && s.splitCount > 0
  {
    Num(value, b.min, PartSize(b.min, b.max, s.splitCount), PartCount(b.min, b.max, s.splitCount))
  }

  /**
   The search finds no document with this value or a greater one: it looks into no bucket with a greater number
   than that of the value, which is too small if it has wrapped around.
   */
  function LessCut(b: Bucket, value: int, s: Settings, splitted: bool): int {
    if value < b.min then value + 1
    else if b.Leaf? then
      if ToSplit(b, s, splitted) && Splittable(b.min, b.max, s.splitCount) && PartOf(b, value, s).Some?
      then Least(b.min + (PartOf(b, value, s).value + 1) * PartSize(b.min, b.max, s.splitCount), value + 1)
      else value + 1
    else if b.bucketSize > 0 then
      match Num(value, b.min, b.bucketSize, |b.subs|)
      case None => value + 1
      case Some(k) => Least(b.min + (k + 1) * b.bucketSize, LessCut(b.subs[k], value, s, splitted))
    else value + 1
  }

  function LessBelow(value: int, inclusive: bool, cut: int): int -> bool {
    v => (v < value || (inclusive && v == value)) && v < cut
  }

  /** A bucket number that does not fit into an `int` comes out smaller, if it does not come out negative. */
  lemma NumIsNotLarger(value: int, min: int, size: int, count: nat)
    requires size > 0 && value >= min
    ensures Num(value, min, size, count).Some? ==> Num(value, min, size, count).value <= (value - min) / size
  {
  }

  /** A search in a sub-bucket stays above the buckets before it. */
  lemma {:induction false} CutOfSub(b: Bucket, k: nat, value: int, s: Settings, splitted: bool)
    requires Valid(b) && b.Inner? && k < |b.subs| && value >= b.min + k * b.bucketSize && SettingsOk(s)
    ensures LessCut(b.subs[k], value, s, splitted) > b.min + k * b.bucketSize
    decreases b, 0
  {
    var sub := b.subs[k];
    assert Valid(sub) && InSlice(b, k);
    if value >= sub.min && sub.DocCount() > 0 {
      LessCutIsAbove(sub, value, s, splitted);
    }
  }

  lemma {:induction false} LessCutIsAbove(b: Bucket, value: int, s: Settings, splitted: bool)
    requires Valid(b) && value >= b.min && b.DocCount() > 0 && SettingsOk(s)
    ensures LessCut(b, value, s, splitted) > b.min
    decreases b, 1
  {
    if b.Leaf? {
      if ToSplit(b, s, splitted) && Splittable(b.min, b.max, s.splitCount) && PartOf(b, value, s).Some? {
        Positive(PartOf(b, value, s).value + 1, PartSize(b.min, b.max, s.splitCount));
      }
    } else if Num(value, b.min, b.bucketSize, |b.subs|).Some? {
      var k := Num(value, b.min, b.bucketSize, |b.subs|).value;
      Positive(k + 1, b.bucketSize);
      Monotone(0, k, b.bucketSize);
      NumIsNotLarger(value, b.min, b.bucketSize, |b.subs|);
      AtLeastSlice(value, b.min, b.bucketSize, k);
      CutOfSub(b, k, value, s, splitted);
    }
  }

  lemma Positive(a: int, b: int)
    requires a > 0 && b > 0
    ensures a * b > 0
  {
  }

  /** The documents of the k-th sub-bucket lie in its slice, those of the others before or behind it. */
  lemma Place(b: Bucket, i: nat, k: nat, low: int, high: int, p: Doc)
    requires Valid(b) && b.Inner? && i < |b.subs| && p in Content(b.subs[i])
    requires IsSliceOf(b, k, low, high)
    ensures (i < k ==> p.1 < low) && (i == k ==> low <= p.1 < high) && (i > k ==> high <= p.1)
  {
    assert InSlice(b, i);
    if i < k { Monotone(i + 1, k, b.bucketSize); }
    if i > k { Monotone(k + 1, i, b.bucketSize); }
  }

  predicate IsSliceOf(b: Bucket, k: nat, low: int, high: int)
    requires b.Inner?
  {
    low == b.min + k * b.bucketSize && high == b.min + (k + 1) * b.bucketSize
  }

  /** The documents of the k-th slice and of those before it that the search for smaller values finds. */
  lemma LessBySlices(b: Bucket, value: int, inclusive: bool, k: nat, low: int, high: int, cut: int)
    requires Valid(b) && b.Inner? && k < |b.subs| && IsSliceOf(b, k, low, high) && low <= value && low < cut
    ensures Hits(Content(b), LessBelow(value, inclusive, Least(high, cut))) ==
            Hits(Content(b.subs[k]), LessBelow(value, inclusive, cut)) + DocsOf(b.subs, 0, k)
  {
    var test, inner := LessBelow(value, inclusive, Least(high, cut)), LessBelow(value, inclusive, cut);
    forall d | d in Hits(Content(b), test) ensures d in Hits(Content(b.subs[k]), inner) || d in DocsOf(b.subs, 0, k) {
      var i, v := HitSub(b, d, test);
      Place(b, i, k, low, high, (d, v));
      if i < k { InDocsOf(b, i, 0, k, d, v); } else { SubHit(b, i, d, v, inner); }
    }
    forall d | d in Hits(Content(b.subs[k]), inner) ensures d in Hits(Content(b), test) {
      HitsOf(Content(b.subs[k]), inner, d);
      var v :| (d, v) in Content(b.subs[k]) && inner(v);
      Place(b, k, k, low, high, (d, v));
      SubHit(b, k, d, v, test);
    }
    forall d | d in DocsOf(b.subs, 0, k) ensures d in Hits(Content(b), test) {
      var i, v := FromDocsOf(b, 0, k, d);
      Place(b, i, k, low, high, (d, v));
      Monotone(k, k + 1, b.bucketSize);
      SubHit(b, i, d, v, test);
    }
  }

  /** How the result of the search follows from that in the sub-bucket. */
  lemma LessInSub(b: Bucket, k: nat, value: int, s: Settings, splitted: bool)
    requires b.Inner? && b.bucketSize > 0 && value >= b.min && Num(value, b.min, b.bucketSize, |b.subs|) == Some(k)
    ensures LessFails(b, value, s, splitted) <==> LessFails(b.subs[k], value, s, splitted)
    ensures LessBreaks(b, value, s, splitted) <==> LessBreaks(b.subs[k], value, s, splitted)
    ensures LessCut(b, value, s, splitted) == Least(b.min + (k + 1) * b.bucketSize, LessCut(b.subs[k], value, s, splitted))
  {
  }

  lemma AtLeastSlice(value: int, min: int, size: int, k: nat)
    requires size > 0 && value >= min && k <= (value - min) / size
    ensures value >= min + k * size
  {
    var d := value - min;
    assert d == (d / size) * size + d % size;
    Monotone(k, d / size, size);
  }

  /** The search in the sub-bucket with the value's number, which is split before if it is crowded. */
  method SearchLess(bucket: Bucket, value: int, inclusive: bool, s: Settings, splitted: bool)
    returns (bucket': Bucket, found: Option<set<nat>>, splitted': bool)
    requires Valid(bucket) && SettingsOk(s) && (bucket.Inner? ==> bucket.DocCount() > 0) && value >= bucket.min
    ensures found == None <==> LessFails(bucket, value, s, splitted)
    ensures !LessBreaks(bucket, value, s, splitted) ==> SameDocs(bucket, bucket') && (bucket'.Inner? ==> bucket'.DocCount() > 0)
    ensures found.Some? ==>
      found.value == Hits(Content(bucket), LessBelow(value, inclusive, LessCut(bucket, value, s, splitted)))
    ensures found.Some? ==> IsRefined(bucket, bucket', value, ForLess, s, splitted, splitted')
    decreases !splitted, bucket, 1
  {
    bucket', splitted' := bucket, splitted;
    if bucket.Inner? {
      bucket', found, splitted' := FindLess(bucket, value, inclusive, s, splitted);
    } else if ToSplit(bucket, s, splitted) {
      splitted' := true;
      var split := Split(bucket, s.splitCount);
      if split == None {
        return bucket, None, true;
      }
      LeavesStay(split.value, value, s);
      bucket', found, splitted' := FindLess(split.value, value, inclusive, s, true);
      if found.Some? { RefinedLeaf(bucket, split.value, bucket', value, ForLess, s, splitted'); }
    } else {
      RefinedNot(bucket, value, ForLess, s, splitted);
      var hits := Select(bucket, LessThan(value, inclusive));
      SameTest(Content(bucket), LessThan(value, inclusive), LessBelow(value, inclusive, value + 1));
      found := Some(hits);
    }
  }

  lemma SameTest(content: multiset<Doc>, a: int -> bool, b: int -> bool)
    requires forall v :: a(v) == b(v)
    ensures Hits(content, a) == Hits(content, b)
  {
    assert AllPass(content, a, b) && AllPass(content, b, a);
    PassWithin(content, a, b);
    PassWithin(content, b, a);
  }

  /** The documents that pass one test pass another one. */
  ghost predicate AllPass(content: multiset<Doc>, a: int -> bool, b: int -> bool) {
    forall d: nat, v: int | (d, v) in content && a(v) :: b(v)
  }

  lemma PassWithin(content: multiset<Doc>, a: int -> bool, b: int -> bool)
    requires AllPass(content, a, b)
    ensures Hits(content, a) <= Hits(content, b)
  {
    forall d | d in Hits(content, a) ensures d in Hits(content, b) {
      HitsOf(content, a, d);
      HitsOf(content, b, d);
      var v :| (d, v) in content && a(v);
      assert b(v);
    }
  }

  /** After its split no bucket is split any more. */
  lemma LeavesStay(b: Bucket, value: int, s: Settings)
    requires Valid(b) && b.Inner? && forall i | 0 <= i < |b.subs| :: b.subs[i].Leaf?
    ensures !LessBreaks(b, value, s, true)
    ensures LessFails(b, value, s, true) <==> value >= b.min && Num(value, b.min, b.bucketSize, |b.subs|) == None
    ensures !MoreBreaks(b, value, s, true)
    ensures MoreFails(b, value, s, true) <==> value <= b.max && Num(value, b.min, b.bucketSize, |b.subs|) == None
    ensures Num(value, b.min, b.bucketSize, |b.subs|).Some? ==> var k := Num(value, b.min, b.bucketSize, |b.subs|).value;
            && (value >= b.min ==> LessCut(b, value, s, true) == Least(b.min + (k + 1) * b.bucketSize, value + 1))
            && (value <= b.max ==>
                  MoreCut(b, value, s, true) == Greatest(b.min + k * b.bucketSize, Least(b.min + (k + 1) * b.bucketSize, value)))
  {
    if Num(value, b.min, b.bucketSize, |b.subs|).Some? {
      LeafStays(b.subs[Num(value, b.min, b.bucketSize, |b.subs|).value], value, s);
    }
  }

  lemma LeafStays(b: Bucket, value: int, s: Settings)
    requires b.Leaf?
    ensures !LessBreaks(b, value, s, true) && !LessFails(b, value, s, true) && LessCut(b, value, s, true) == value + 1
    ensures !MoreBreaks(b, value, s, true) && !MoreFails(b, value, s, true) && MoreCut(b, value, s, true) == value
  {
  }

  /** The target bucket is searched only if its smallest value may match. */
  method SearchIfLess(bucket: Bucket, value: int, inclusive: bool, s: Settings, splitted: bool)
    returns (bucket': Bucket, found: Option<set<nat>>, splitted': bool)
    requires Valid(bucket) && SettingsOk(s) && (bucket.Inner? ==> bucket.DocCount() > 0)
    ensures found == None <==> LessFails(bucket, value, s, splitted)
    ensures !LessBreaks(bucket, value, s, splitted) ==> SameDocs(bucket, bucket') && (bucket'.Inner? ==> bucket'.DocCount() > 0)
    ensures found.Some? ==>
      found.value == Hits(Content(bucket), LessBelow(value, inclusive, LessCut(bucket, value, s, splitted)))
    ensures found.Some? ==> IsRefined(bucket, bucket', value, ForLess, s, splitted, splitted')
    decreases !splitted, bucket, 2
  {
    if value >= bucket.min {
      bucket', found, splitted' := SearchLess(bucket, value, inclusive, s, splitted);
    } else {
      RefinedNot(bucket, value, ForLess, s, splitted);
      NoHits(bucket, LessBelow(value, inclusive, LessCut(bucket, value, s, splitted)));
      bucket', found, splitted' := bucket, Some({}), splitted;
    }
  }

  /** The search in a bucket finds what that in the sub-bucket finds, and all buckets before it. */
  lemma LessStep(b: Bucket, k: nat, value: int, inclusive: bool, s: Settings, splitted: bool)
    requires Valid(b) && b.Inner? && SettingsOk(s) && value >= b.min && Num(value, b.min, b.bucketSize, |b.subs|) == Some(k)
    ensures LessFails(b, value, s, splitted) <==> LessFails(b.subs[k], value, s, splitted)
    ensures LessBreaks(b, value, s, splitted) <==> LessBreaks(b.subs[k], value, s, splitted)
    ensures Hits(Content(b), LessBelow(value, inclusive, LessCut(b, value, s, splitted))) ==
            Hits(Content(b.subs[k]), LessBelow(value, inclusive, LessCut(b.subs[k], value, s, splitted))) + DocsOf(b.subs, 0, k)
  {
    NumIsNotLarger(value, b.min, b.bucketSize, |b.subs|);
    AtLeastSlice(value, b.min, b.bucketSize, k);
    CutOfSub(b, k, value, s, splitted);
    var low, high := b.min + k * b.bucketSize, b.min + (k + 1) * b.bucketSize;
    LessBySlices(b, value, inclusive, k, low, high, LessCut(b.subs[k], value, s, splitted));
    LessInSub(b, k, value, s, splitted);
  }

  /**
   A bucket number out of range is an exception, None, and it is known before which values lead to one. When the
   search returns, it has found the documents with smaller values, but for those at the cut and above it.
   */
  method FindLess(b: Bucket, value: int, inclusive: bool, s: Settings, splitted: bool)
    returns (b': Bucket, found: Option<set<nat>>, splitted': bool)
    requires Valid(b) && b.Inner? && SettingsOk(s)
    ensures found == None <==> LessFails(b, value, s, splitted)
    ensures !LessBreaks(b, value, s, splitted) ==> SameDocs(b, b') && b'.Inner?
    ensures found.Some? ==> found.value == Hits(Content(b), LessBelow(value, inclusive, LessCut(b, value, s, splitted)))
    ensures found.Some? ==> IsRefined(b, b', value, ForLess, s, splitted, splitted')
    decreases !splitted, b, 0
  {
    b', splitted' := b, splitted;
    if value < b.min {
      NoHits(b, LessBelow(value, inclusive, value + 1));
      RefinedNot(b, value, ForLess, s, splitted);
      return b, Some({}), splitted;
    }
    var num := Num(value, b.min, b.bucketSize, |b.subs|);
    if num == None {
      return b, None, splitted;
    }
    var k := num.value;
    LessStep(b, k, value, inclusive, s, splitted);
    assert Valid(b.subs[k]) && InSlice(b, k);
    var bucket, inner;
    bucket, inner, splitted' := SearchIfLess(b.subs[k], value, inclusive, s, splitted);
    if inner.Some? { RefinedInSub(b, k, bucket, value, ForLess, s, splitted, splitted'); }
    if !LessBreaks(b, value, s, splitted) { SubReplaced(b, k, bucket); }
    b' := b.(subs := b.subs[k := bucket]);
    if inner == None {
      return b', None, splitted';
    }
    var below := SetBelow(b, k);
    found := Some(inner.value + below);
  }

  /** No bucket number on the way of the search wraps around. */
  predicate LessFitsInt(b: Bucket, value: int, s: Settings, splitted: bool) {
    value >= b.min ==>
      if b.Leaf? then
        ToSplit(b, s, splitted) && Splittable(b.min, b.max, s.splitCount) ==>
          (value - b.min) / PartSize(b.min, b.max, s.splitCount) < 0x8000_0000
      else
        b.bucketSize > 0 && (value - b.min) / b.bucketSize < 0x8000_0000 &&
        match Num(value, b.min, b.bucketSize, |b.subs|)
        case None => true
        case Some(k) => LessFitsInt(b.subs[k], value, s, splitted)
  }

  lemma CutAtNum(value: int, min: int, size: int, count: nat)
    requires size > 0 && value >= min && count < 0x8000_0000 && Num(value, min, size, count).Some?
    ensures var k := Num(value, min, size, count).value;
            min + (k + 1) * size > value <==> (value - min) / size < 0x8000_0000
  {
    var d, k := value - min, Num(value, min, size, count).value;
    assert d == (d / size) * size + d % size;
    NumIsNotLarger(value, min, size, count);
    if k < d / size { Monotone(k + 1, d / size, size); }
  }

  /** There is no cut exactly if no bucket number wraps around. */
  lemma {:induction false} NoCutIffFitsInt(b: Bucket, value: int, s: Settings, splitted: bool)
    requires Valid(b) && SettingsOk(s) && !LessFails(b, value, s, splitted)
    ensures LessCut(b, value, s, splitted) > value <==> LessFitsInt(b, value, s, splitted)
    decreases b
  {
    if value >= b.min {
      if b.Leaf? {
        if ToSplit(b, s, splitted) {
          CutAtNum(value, b.min, PartSize(b.min, b.max, s.splitCount), PartCount(b.min, b.max, s.splitCount));
        }
      } else {
        var k := Num(value, b.min, b.bucketSize, |b.subs|).value;
        assert Valid(b.subs[k]);
        CutAtNum(value, b.min, b.bucketSize, |b.subs|);
        NoCutIffFitsInt(b.subs[k], value, s, splitted);
      }
    }
  }

  /** Every document has a number of its own. */
  ghost predicate AreDistinct(content: multiset<Doc>) {
    forall d: nat, v: int, w: int | (d, v) in content && (d, w) in content :: v == w
  }

  lemma TestIsExactIff(content: multiset<Doc>, narrow: int -> bool, wide: int -> bool)
    requires AreDistinct(content) && forall v :: narrow(v) ==> wide(v)
    ensures Hits(content, narrow) <= Hits(content, wide)
    ensures Hits(content, narrow) == Hits(content, wide) <==> AllPass(content, wide, narrow)
  {
    PassWithin(content, narrow, wide);
    if AllPass(content, wide, narrow) {
      PassWithin(content, wide, narrow);
    } else {
      var d: nat, v: int :| (d, v) in content && wide(v) && !narrow(v);
      HitsOf(content, narrow, d);
      HitsOf(content, wide, d);
    }
  }

  /** The search for smaller values finds all of them exactly if no such document is at the cut or above it. */
  lemma LessIsExactIff(content: multiset<Doc>, value: int, inclusive: bool, cut: int)
    requires AreDistinct(content)
    ensures Hits(content, LessBelow(value, inclusive, cut)) <= Hits(content, LessThan(value, inclusive))
    ensures Hits(content, LessBelow(value, inclusive, cut)) == Hits(content, LessThan(value, inclusive)) <==>
            forall d: nat, v: int | (d, v) in content && LessThan(value, inclusive)(v) :: v < cut
  {
    TestIsExactIff(content, LessBelow(value, inclusive, cut), LessThan(value, inclusive));
    assert forall v :: LessBelow(value, inclusive, cut)(v) <==> LessThan(value, inclusive)(v) && v < cut;
  }

  /** If no bucket number wraps around, the search for smaller values is exact, whatever the documents are. */
  lemma LessIsExact(b: Bucket, value: int, inclusive: bool, s: Settings, splitted: bool)
    requires Valid(b) && SettingsOk(s) && !LessFails(b, value, s, splitted) && LessFitsInt(b, value, s, splitted)
    ensures Hits(Content(b), LessBelow(value, inclusive, LessCut(b, value, s, splitted))) == Hits(Content(b), LessThan(value, inclusive))
  {
    NoCutIffFitsInt(b, value, s, splitted);
    SameTest(Content(b), LessBelow(value, inclusive, LessCut(b, value, s, splitted)), LessThan(value, inclusive));
  }

  // ---------------------------------------------------------------------------------------------
  // Greater values
  // ---------------------------------------------------------------------------------------------

  /** On its way the search comes to a bucket of which the value is out of range, or that cannot be split. */
  predicate MoreFails(b: Bucket, value: int, s: Settings, splitted: bool) {
    value <= b.max &&
    if b.Leaf? then ToSplit(b, s, splitted) && !(Splittable(b.min, b.max, s.splitCount) && PartOf(b, value, s).Some?)
    else
      b.bucketSize > 0 && match Num(value, b.min, b.bucketSize, |b.subs|)
        case None => true
        case Some(k) => MoreFails(b.subs[k], value, s, splitted)
  }

  /** The bucket that the search comes to cannot be split: the exception leaves it with half of its sub-buckets filled. */
  predicate MoreBreaks(b: Bucket, value: int, s: Settings, splitted: bool) {
    value <= b.max &&
    if b.Leaf? then ToSplit(b, s, splitted) && !Splittable(b.min, b.max, s.splitCount)
    else
      b.bucketSize > 0 && match Num(value, b.min, b.bucketSize, |b.subs|)
        case None => false
        case Some(k) => MoreBreaks(b.subs[k], value, s, splitted)
  }

  /** A search that returns has broken nothing. */
  lemma {:induction false} MoreBreaksFail(b: Bucket, value: int, s: Settings, splitted: bool)
    ensures MoreBreaks(b, value, s, splitted) ==> MoreFails(b, value, s, splitted)
  {
    if b.Inner? && b.bucketSize > 0 && Num(value, b.min, b.bucketSize, |b.subs|).Some? {
      MoreBreaksFail(b.subs[Num(value, b.min, b.bucketSize, |b.subs|).value], value, s, splitted);
    }
  }

  /** The search finds no document with a value less than this one. */
  function MoreCut(b: Bucket, value: int, s: Settings, splitted: bool): int {
    if value > b.max then value
    else if b.Leaf? then
      if ToSplit(b, s, splitted) && Splittable(b.min, b.max, s.splitCount) && PartOf(b, value, s).Some?
      then
        var k, size := PartOf(b, value, s).value, PartSize(b.min, b.max, s.splitCount);
        Greatest(b.min + k * size, Least(b.min + (k + 1) * size, value))
      else value
    else if b.bucketSize > 0 then
      match Num(value, b.min, b.bucketSize, |b.subs|)
      case None => value
      case Some(k) =>
        Greatest(b.min + k * b.bucketSize, Least(b.min + (k + 1) * b.bucketSize, MoreCut(b.subs[k], value, s, splitted)))
    else value
  }

  function MoreAbove(value: int, inclusive: bool, cut: int): int -> bool {
    v => (v > value || (inclusive && v == value)) && v >= cut
  }

  /** The documents of the k-th slice and of those behind it that the search for greater values finds. */
  lemma MoreBySlices(b: Bucket, value: int, inclusive: bool, k: nat, low: int, high: int, cut: int)
    requires Valid(b) && b.Inner? && k < |b.subs| && IsSliceOf(b, k, low, high) && value < high
    ensures Hits(Content(b), MoreAbove(value, inclusive, Greatest(low, Least(high, cut)))) ==
            Hits(Content(b.subs[k]), MoreAbove(value, inclusive, cut)) + DocsOf(b.subs, k + 1, |b.subs|)
  {
    var test, inner := MoreAbove(value, inclusive, Greatest(low, Least(high, cut))), MoreAbove(value, inclusive, cut);
    Monotone(k, k + 1, b.bucketSize);
    MoreFromSlices(b, k, low, high, test, inner);
    MoreInSlices(b, k, low, high, test, inner);
  }

  lemma MoreFromSlices(b: Bucket, k: nat, low: int, high: int, test: int -> bool, inner: int -> bool)
    requires Valid(b) && b.Inner? && k < |b.subs| && IsSliceOf(b, k, low, high)
    requires (forall v | low <= v < high && test(v) :: inner(v)) && (forall v | v < low :: !test(v))
    ensures Hits(Content(b), test) <= Hits(Content(b.subs[k]), inner) + DocsOf(b.subs, k + 1, |b.subs|)
  {
    forall d | d in Hits(Content(b), test) ensures d in Hits(Content(b.subs[k]), inner) || d in DocsOf(b.subs, k + 1, |b.subs|) {
      var i, v := HitSub(b, d, test);
      FromSlice(b, i, k, low, high, d, v, inner);
    }
  }

  lemma FromSlice(b: Bucket, i: nat, k: nat, low: int, high: int, d: nat, v: int, inner: int -> bool)
    requires Valid(b) && b.Inner? && k < |b.subs| && IsSliceOf(b, k, low, high)
    requires i < |b.subs| && (d, v) in Content(b.subs[i]) && low <= v && (v < high ==> inner(v))
    ensures d in Hits(Content(b.subs[k]), inner) || d in DocsOf(b.subs, k + 1, |b.subs|)
  {
    Place(b, i, k, low, high, (d, v));
    if i > k { InDocsOf(b, i, k + 1, |b.subs|, d, v); } else { SubHit(b, i, d, v, inner); }
  }

  lemma MoreInSlices(b: Bucket, k: nat, low: int, high: int, test: int -> bool, inner: int -> bool)
    requires Valid(b) && b.Inner? && k < |b.subs| && IsSliceOf(b, k, low, high)
    requires (forall v | low <= v < high && inner(v) :: test(v)) && (forall v | high <= v :: test(v))
    ensures Hits(Content(b.subs[k]), inner) + DocsOf(b.subs, k + 1, |b.subs|) <= Hits(Content(b), test)
  {
    forall d | d in Hits(Content(b.subs[k]), inner) ensures d in Hits(Content(b), test) {
      HitsOf(Content(b.subs[k]), inner, d);
      var v :| (d, v) in Content(b.subs[k]) && inner(v);
      Place(b, k, k, low, high, (d, v));
      SubHit(b, k, d, v, test);
    }
    forall d | d in DocsOf(b.subs, k + 1, |b.subs|) ensures d in Hits(Content(b), test) {
      var i, v := FromDocsOf(b, k + 1, |b.subs|, d);
      Place(b, i, k, low, high, (d, v));
      SubHit(b, i, d, v, test);
    }
  }

  lemma MoreInSub(b: Bucket, k: nat, value: int, s: Settings, splitted: bool)
    requires b.Inner? && b.bucketSize > 0 && value <= b.max && Num(value, b.min, b.bucketSize, |b.subs|) == Some(k)
    ensures MoreFails(b, value, s, splitted) <==> MoreFails(b.subs[k], value, s, splitted)
    ensures var low, high := b.min + k * b.bucketSize, b.min + (k + 1) * b.bucketSize;
            MoreCut(b, value, s, splitted) == Greatest(low, Least(high, MoreCut(b.subs[k], value, s, splitted)))
  {
  }

  /** A value up to the greatest one has its own bucket number, or lies below all buckets. */
  lemma MoreNum(b: Bucket, value: int)
    requires Valid(b) && b.Inner? && value <= b.max && Num(value, b.min, b.bucketSize, |b.subs|).Some?
    ensures var k := Num(value, b.min, b.bucketSize, |b.subs|).value; value < b.min + (k + 1) * b.bucketSize
  {
    var k := Num(value, b.min, b.bucketSize, |b.subs|).value;
    Monotone(0, k + 1, b.bucketSize);
    if value >= b.min {
      NumInRange(value, b.min, b.max, b.bucketSize, |b.subs|);
      SliceOf(value, b.min, b.bucketSize, k);
    }
  }

  /** The loop over the values of a leaf that stays. */
  method SelectMore(bucket: Bucket, value: int, inclusive: bool, s: Settings, splitted: bool) returns (hits: set<nat>)
    requires Valid(bucket) && bucket.Leaf? && !ToSplit(bucket, s, splitted) && value <= bucket.max
    ensures hits == Hits(Content(bucket), MoreAbove(value, inclusive, MoreCut(bucket, value, s, splitted)))
  {
    hits := Select(bucket, MoreThan(value, inclusive));
    SameTest(Content(bucket), MoreThan(value, inclusive), MoreAbove(value, inclusive, value));
  }

  method SearchMore(bucket: Bucket, value: int, inclusive: bool, s: Settings, splitted: bool)
    returns (bucket': Bucket, found: Option<set<nat>>, splitted': bool)
    requires Valid(bucket) && SettingsOk(s) && (bucket.Inner? ==> bucket.DocCount() > 0) && value <= bucket.max
    ensures found == None <==> MoreFails(bucket, value, s, splitted)
    ensures !MoreBreaks(bucket, value, s, splitted) ==> SameDocs(bucket, bucket') && (bucket'.Inner? ==> bucket'.DocCount() > 0)
    ensures found.Some? ==>
      found.value == Hits(Content(bucket), MoreAbove(value, inclusive, MoreCut(bucket, value, s, splitted)))
    ensures found.Some? ==> IsRefined(bucket, bucket', value, ForMore, s, splitted, splitted')
    decreases !splitted, bucket, 1
  {
    bucket', splitted' := bucket, splitted;
    if bucket.Inner? {
      bucket', found, splitted' := FindMore(bucket, value, inclusive, s, splitted);
    } else if ToSplit(bucket, s, splitted) {
      splitted' := true;
      var split := Split(bucket, s.splitCount);
      if split == None {
        return bucket, None, true;
      }
      LeavesStay(split.value, value, s);
      bucket', found, splitted' := FindMore(split.value, value, inclusive, s, true);
      if found.Some? { RefinedLeaf(bucket, split.value, bucket', value, ForMore, s, splitted'); }
    } else {
      RefinedNot(bucket, value, ForMore, s, splitted);
      var hits := SelectMore(bucket, value, inclusive, s, splitted);
      found := Some(hits);
    }
  }

  /** The target bucket is searched only if its greatest value may match. */
  method SearchIfMore(bucket: Bucket, value: int, inclusive: bool, s: Settings, splitted: bool)
    returns (bucket': Bucket, found: Option<set<nat>>, splitted': bool)
    requires Valid(bucket) && SettingsOk(s) && (bucket.Inner? ==> bucket.DocCount() > 0)
    ensures found == None <==> MoreFails(bucket, value, s, splitted)
    ensures !MoreBreaks(bucket, value, s, splitted) ==> SameDocs(bucket, bucket') && (bucket'.Inner? ==> bucket'.DocCount() > 0)
    ensures found.Some? ==>
      found.value == Hits(Content(bucket), MoreAbove(value, inclusive, MoreCut(bucket, value, s, splitted)))
    ensures found.Some? ==> IsRefined(bucket, bucket', value, ForMore, s, splitted, splitted')
    decreases !splitted, bucket, 2
  {
    if value <= bucket.max {
      bucket', found, splitted' := SearchMore(bucket, value, inclusive, s, splitted);
    } else {
      RefinedNot(bucket, value, ForMore, s, splitted);
      NoHits(bucket, MoreAbove(value, inclusive, MoreCut(bucket, value, s, splitted)));
      bucket', found, splitted' := bucket, Some({}), splitted;
    }
  }

  lemma MoreStep(b: Bucket, k: nat, value: int, inclusive: bool, s: Settings, splitted: bool)
    requires Valid(b) && b.Inner? && SettingsOk(s) && value <= b.max && Num(value, b.min, b.bucketSize, |b.subs|) == Some(k)
    ensures MoreFails(b, value, s, splitted) <==> MoreFails(b.subs[k], value, s, splitted)
    ensures MoreBreaks(b, value, s, splitted) <==> MoreBreaks(b.subs[k], value, s, splitted)
    ensures Hits(Content(b), MoreAbove(value, inclusive, MoreCut(b, value, s, splitted))) ==
            Hits(Content(b.subs[k]), MoreAbove(value, inclusive, MoreCut(b.subs[k], value, s, splitted))) + DocsOf(b.subs, k + 1, |b.subs|)
  {
    MoreNum(b, value);
    var low, high := b.min + k * b.bucketSize, b.min + (k + 1) * b.bucketSize;
    MoreBySlices(b, value, inclusive, k, low, high, MoreCut(b.subs[k], value, s, splitted));
    MoreInSub(b, k, value, s, splitted);
  }

  /**
   The search for greater values; a value below the bucket leads to its first sub-bucket, or out of range. It is
   known before which values lead out of range. When the search returns, it has found the documents with greater
   values, but for those below the cut.
   */
  method FindMore(b: Bucket, value: int, inclusive: bool, s: Settings, splitted: bool)
    returns (b': Bucket, found: Option<set<nat>>, splitted': bool)
    requires Valid(b) && b.Inner? && SettingsOk(s)
    ensures found == None <==> MoreFails(b, value, s, splitted)
    ensures !MoreBreaks(b, value, s, splitted) ==> SameDocs(b, b') && b'.Inner?
    ensures found.Some? ==> found.value == Hits(Content(b), MoreAbove(value, inclusive, MoreCut(b, value, s, splitted)))
    ensures found.Some? ==> IsRefined(b, b', value, ForMore, s, splitted, splitted')
    decreases !splitted, b, 0
  {
    b', splitted' := b, splitted;
    if value > b.max {
      NoHits(b, MoreAbove(value, inclusive, value));
      RefinedNot(b, value, ForMore, s, splitted);
      return b, Some({}), splitted;
    }
    var num := Num(value, b.min, b.bucketSize, |b.subs|);
    if num == None {
      return b, None, splitted;
    }
    var k := num.value;
    MoreStep(b, k, value, inclusive, s, splitted);
    assert Valid(b.subs[k]) && InSlice(b, k);
    var bucket, inner;
    bucket, inner, splitted' := SearchIfMore(b.subs[k], value, inclusive, s, splitted);
    if inner.Some? { RefinedInSub(b, k, bucket, value, ForMore, s, splitted, splitted'); }
    if !MoreBreaks(b, value, s, splitted) { SubReplaced(b, k, bucket); }
    b' := b.(subs := b.subs[k := bucket]);
    if inner == None {
      return b', None, splitted';
    }
    var above := SetAbove(b, k + 1);
    found := Some(inner.value + above);
  }

  /** The search for greater values finds all of them exactly if no such document is below the cut. */
  lemma MoreIsExactIff(content: multiset<Doc>, value: int, inclusive: bool, cut: int)
    requires AreDistinct(content)
    ensures Hits(content, MoreAbove(value, inclusive, cut)) <= Hits(content, MoreThan(value, inclusive))
    ensures Hits(content, MoreAbove(value, inclusive, cut)) == Hits(content, MoreThan(value, inclusive)) <==>
            forall d: nat, v: int | (d, v) in content && MoreThan(value, inclusive)(v) :: v >= cut
  {
    TestIsExactIff(content, MoreAbove(value, inclusive, cut), MoreThan(value, inclusive));
    assert forall v :: MoreAbove(value, inclusive, cut)(v) <==> MoreThan(value, inclusive)(v) && v >= cut;
  }

  /** The bucket number of a value below the bucket does not wrap around. */
  predicate NotFarBelow(value: int, min: int, size: int)
    requires size > 0
  {
    value < min ==> (min - value) / size <= 0x8000_0000
  }

  predicate MoreFitsInt(b: Bucket, value: int, s: Settings, splitted: bool) {
    value <= b.max ==>
      if b.Leaf? then
        ToSplit(b, s, splitted) && Splittable(b.min, b.max, s.splitCount) ==>
          NotFarBelow(value, b.min, PartSize(b.min, b.max, s.splitCount))
      else
        b.bucketSize > 0 && NotFarBelow(value, b.min, b.bucketSize) &&
        match Num(value, b.min, b.bucketSize, |b.subs|)
        case None => true
        case Some(k) => MoreFitsInt(b.subs[k], value, s, splitted)
  }

  /** The k-th slice begins at or below the value, or is the first one. */
  lemma SliceBegins(value: int, min: int, size: int, count: nat)
    requires size > 0 && count < 0x8000_0000 && NotFarBelow(value, min, size) && Num(value, min, size, count).Some?
    ensures var k := Num(value, min, size, count).value; min + k * size <= Greatest(value, min)
  {
    var k := Num(value, min, size, count).value;
    if value >= min {
      NumIsNotLarger(value, min, size, count);
      AtLeastSlice(value, min, size, k);
    }
  }

  lemma {:induction false} MoreKeeps(b: Bucket, value: int, s: Settings, splitted: bool, p: Doc)
    requires Valid(b) && SettingsOk(s) && !MoreFails(b, value, s, splitted) && MoreFitsInt(b, value, s, splitted)
    requires p in Content(b) && p.1 >= value
    ensures p.1 >= MoreCut(b, value, s, splitted)
    decreases b
  {
    if value <= b.max {
      if b.Leaf? {
        if ToSplit(b, s, splitted) {
          SliceBegins(value, b.min, PartSize(b.min, b.max, s.splitCount), PartCount(b.min, b.max, s.splitCount));
        }
      } else {
        var k := Num(value, b.min, b.bucketSize, |b.subs|).value;
        SliceBegins(value, b.min, b.bucketSize, |b.subs|);
        MoreNum(b, value);
        var i := Sliced(b, p);
        if i > k {
          Monotone(k + 1, i, b.bucketSize);
        } else if i == k {
          assert Valid(b.subs[k]);
          MoreKeeps(b.subs[k], value, s, splitted, p);
        } else {
          Monotone(i + 1, k, b.bucketSize);
        }
      }
    }
  }

  /** If no bucket number wraps around, the search for greater values is exact, whatever the documents are. */
  lemma MoreIsExact(b: Bucket, value: int, inclusive: bool, s: Settings, splitted: bool)
    requires Valid(b) && SettingsOk(s) && !MoreFails(b, value, s, splitted) && MoreFitsInt(b, value, s, splitted)
    ensures Hits(Content(b), MoreAbove(value, inclusive, MoreCut(b, value, s, splitted))) == Hits(Content(b), MoreThan(value, inclusive))
  {
    var narrow, wide := MoreAbove(value, inclusive, MoreCut(b, value, s, splitted)), MoreThan(value, inclusive);
    forall d: nat, v: int | (d, v) in Content(b) && wide(v) ensures narrow(v) {
      MoreKeeps(b, value, s, splitted, (d, v));
    }
    PassWithin(Content(b), wide, narrow);
    PassWithin(Content(b), narrow, wide);
  }

  // ---------------------------------------------------------------------------------------------
  // Work estimates
  // ---------------------------------------------------------------------------------------------

  const MAX_EFFORT_DEPTH: nat := 5

  lemma {:induction false} HitsCard(content: multiset<Doc>, test: int -> bool)
    ensures |Hits(content, test)| <= |content|
    decreases |content|
  {
    if content != multiset{} {
      var p :| p in content;
      var rest := content - multiset{p};
      assert content == rest + multiset{p};
      HitsCard(rest, test);
      HitsPush(rest, p, test);
    }
  }

  /** Every lookup is in range, and the estimate is not below the number of documents with the value. */
  function EstimateWork(b: Bucket, value: int, depth: nat): (n: nat)
    requires Valid(b)
    ensures |Hits(Content(b), EqualTo(value))| <= n <= b.DocCount()
  {
    if b.min > value || b.max < value then
      NoHits(b, EqualTo(value));
      0
    else if b.Leaf? then
      HitsCard(Content(b), EqualTo(value));
      b.DocCount()
    else
      EqualInSub(b, value);
      var k := Num(value, b.min, b.bucketSize, |b.subs|).value;
      assert Valid(b.subs[k]);
      SubIsSmaller(b, k);
      if b.subs[k].DocCount() == 0 || b.subs[k].min > value || b.subs[k].max < value then
        NoHits(b.subs[k], EqualTo(value));
        0
      else if b.subs[k].Inner? && depth + 1 < MAX_EFFORT_DEPTH then EstimateWork(b.subs[k], value, depth + 1)
      else
        HitsCard(Content(b.subs[k]), EqualTo(value));
        b.subs[k].DocCount()
  }

  /** Where n lookups of a value lead, unless a leaf or a bucket without the value comes first. */
  ghost function Reached(b: Bucket, value: int, n: nat): Bucket
    requires Valid(b)
  {
    if b.Leaf? || n == 0 || value < b.min || b.max < value then b
    else
      EqualInSub(b, value);
      var k := Num(value, b.min, b.bucketSize, |b.subs|).value;
      assert Valid(b.subs[k]);
      Reached(b.subs[k], value, n - 1)
  }

  /** The sub-bucket of a value. */
  ghost function SubOf(b: Bucket, value: int): (sub: Bucket)
    requires Valid(b) && b.Inner? && b.min <= value <= b.max
    ensures Valid(sub)
  {
    EqualInSub(b, value);
    var k := Num(value, b.min, b.bucketSize, |b.subs|).value;
    assert Valid(b.subs[k]);
    b.subs[k]
  }

  lemma EstimateStep(b: Bucket, value: int, depth: nat)
    requires Valid(b) && b.Inner? && b.min <= value <= b.max
    ensures var sub := SubOf(b, value);
            EstimateWork(b, value, depth) ==
              if sub.DocCount() == 0 || value < sub.min || sub.max < value then 0
              else if sub.Inner? && depth + 1 < MAX_EFFORT_DEPTH then EstimateWork(sub, value, depth + 1)
              else sub.DocCount()
  {
  }

  lemma ReachedStep(b: Bucket, value: int, n: nat)
    requires Valid(b) && b.Inner? && b.min <= value <= b.max && n > 0
    ensures Reached(b, value, n) == Reached(SubOf(b, value), value, n - 1)
  {
  }

  lemma {:induction false} EstimateIsReached(b: Bucket, value: int, depth: nat, n: nat)
    requires Valid(b) && n > 0 && depth + n == MAX_EFFORT_DEPTH
    ensures EstimateWork(b, value, depth) == if IsWithin(value, Reached(b, value, n)) then Reached(b, value, n).DocCount() else 0
    decreases n
  {
    if b.Inner? && b.min <= value <= b.max {
      var sub := SubOf(b, value);
      EstimateStep(b, value, depth);
      ReachedStep(b, value, n);
      if sub.DocCount() == 0 {
        EmptyBelow(sub, value, n - 1);
      } else if n > 1 {
        EstimateIsReached(sub, value, depth + 1, n - 1);
      }
    }
  }

  predicate IsWithin(value: int, b: Bucket) {
    b.min <= value <= b.max
  }

  lemma {:induction false} EmptyBelow(b: Bucket, value: int, n: nat)
    requires Valid(b)
    ensures Valid(Reached(b, value, n)) && Reached(b, value, n).DocCount() <= b.DocCount()
    decreases n
  {
    if b.Inner? && n > 0 && b.min <= value <= b.max {
      EqualInSub(b, value);
      var k := Num(value, b.min, b.bucketSize, |b.subs|).value;
      assert Valid(b.subs[k]);
      SubIsSmaller(b, k);
      EmptyBelow(b.subs[k], value, n - 1);
    }
  }

  /** The estimate is the size of the bucket that five lookups lead to, or none if it cannot have the value. */
  lemma EstimateMeans(b: Bucket, value: int)
    requires Valid(b)
    ensures var r := Reached(b, value, 5); EstimateWork(b, value, 0) == if r.min <= value <= r.max then r.DocCount() else 0
  {
    EstimateIsReached(b, value, 0, 5);
  }

  lemma {:induction false} PartOfContents(subs: seq<Bucket>, k: nat)
    requires k < |subs|
    ensures |Content(subs[k])| <= |Contents(subs)|
  {
    var n := |subs| - 1;
    assert |Contents(subs)| == |Contents(subs[..n])| + |Content(subs[n])|;
    if k < n {
      PartOfContents(subs[..n], k);
    }
  }

  lemma SubIsSmaller(b: Bucket, k: nat)
    requires Valid(b) && b.Inner? && k < |b.subs|
    ensures b.subs[k].DocCount() <= b.DocCount()
  {
    assert Valid(b.subs[k]);
    PartOfContents(b.subs, k);
  }

  // ---------------------------------------------------------------------------------------------
  // The histogram of one attribute
  // ---------------------------------------------------------------------------------------------

  lemma AllBetween(indexes: seq<nat>, values: seq<int>, min: int, max: int)
    requires |indexes| == |values| && forall j | 0 <= j < |values| :: min <= values[j] <= max
    ensures |Zip(indexes, values)| == |values| && forall p | p in Zip(indexes, values) :: min <= p.1 <= max
  {
    ZipHas(indexes, values, (0, 0));
    forall p | p in Zip(indexes, values) ensures min <= p.1 <= max {
      ZipHas(indexes, values, p);
    }
  }

  /**
   The first loop of `initialSplit`: all documents in splitCount buckets of equal width. None: some value lies behind
   the last bucket, or the arithmetic overflows.
   */
  method FirstSplit(indexes: seq<nat>, values: seq<int>, min: int, max: int, splitCount: nat) returns (b: Option<Bucket>)
    requires 0 < splitCount < 0x8000_0000 && |indexes| == |values| && INT64_MIN <= min <= max <= INT64_MAX
    requires max in values && forall j | 0 <= j < |values| :: min <= values[j] <= max
    ensures b == None <==> !FirstFits(min, max, splitCount)
    ensures b.Some? ==> Valid(b.value) && b.value.Inner? && Content(b.value) == Zip(indexes, values)
    ensures b.Some? ==> b.value.min == min && b.value.max == max && |b.value.subs| == splitCount
    ensures b.Some? ==> b.value.bucketSize == Width(max - min + 1, splitCount)
    ensures b.Some? ==> forall i | 0 <= i < |b.value.subs| :: b.value.subs[i].Leaf?
  {
    WideEnough(min, max, splitCount);
    var bucketSize := Width(max - min + 1, splitCount);
    if !Fits(min, max, bucketSize) {
      return None;
    }
    var subs := Fill(indexes, values, min, bucketSize, splitCount, splitCount * bucketSize);
    if subs == None {
      return None;
    }
    b := Some(Inner(min, max, |indexes|, bucketSize, subs.value));
    AllBetween(indexes, values, min, max);
    PartsAreValid(b.value, Zip(indexes, values));
    forall i: nat | i < |subs.value| ensures subs.value[i].Leaf? { assert IsPart(subs.value, i, min, bucketSize); }
  }

  /** The first split stays in range; it makes all buckets, however few values there are. */
  predicate FirstFits(min: int, max: int, splitCount: nat) {
    && min <= max && splitCount > 0
    && Fits(min, max, Width(max - min + 1, splitCount))
    && max - min + 1 <= splitCount * Width(max - min + 1, splitCount)
  }

  /** Ten percent more than an equal share, which is rounded down. */
  function Threshold(docCount: nat, bucketCount: nat): (threshold: real)
    requires bucketCount > 0
    ensures threshold >= 0.0
  {
    (docCount / bucketCount) as real * 1.1
  }

  predicate IsCrowded(b: Bucket, threshold: real) {
    b.Leaf? && b.DocCount() as real > threshold
  }

  /** In whole numbers: more than eleven tenths of an equal share that is rounded down. */
  lemma CrowdedMeans(b: Bucket, docCount: nat, bucketCount: nat)
    requires bucketCount > 0
    ensures IsCrowded(b, Threshold(docCount, bucketCount)) <==> b.Leaf? && 10 * |b.values| > 11 * (docCount / bucketCount)
  {
    var share := docCount / bucketCount;
    assert share as real * 1.1 * 10.0 == (11 * share) as real;
  }

  /** A crowded bucket has become one with leaves of the width that its own values give; others are as they were. */
  ghost predicate IsSplitIfCrowded(b: Bucket, b': Bucket, splitCount: nat, threshold: real) {
    if IsCrowded(b, threshold) then
      && b.min <= b.max && splitCount > 0
      && b'.Inner? && b'.min == b.min && b'.max == b.max && b'.DocCount() == b.DocCount() && Content(b') == Content(b)
      && b'.bucketSize == PartSize(b.min, b.max, splitCount) && |b'.subs| == PartCount(b.min, b.max, splitCount)
      && forall i | 0 <= i < |b'.subs| :: b'.subs[i].Leaf?
    else b' == b
  }

  ghost predicate AreSplit(subs: seq<Bucket>, subs': seq<Bucket>, splitCount: nat, threshold: real) {
    |subs'| == |subs| && forall i | 0 <= i < |subs| :: IsSplitIfCrowded(subs[i], subs'[i], splitCount, threshold)
  }

  /** The last loop of `initialSplit`: each bucket with more than its share is split. */
  method SplitCrowded(b: Bucket, splitCount: nat, threshold: real) returns (b': Option<Bucket>)
    requires Valid(b) && b.Inner? && 0 < splitCount < 0x8000_0000 && threshold >= 0.0
    ensures b'.Some? ==> SameDocs(b, b'.value) && b'.value.Inner? && b'.value.bucketSize == b.bucketSize
    ensures b'.Some? ==> AreSplit(b.subs, b'.value.subs, splitCount, threshold)
    ensures b' == None <==> exists i ::
      0 <= i < |b.subs| && IsCrowded(b.subs[i], threshold) && !Splittable(b.subs[i].min, b.subs[i].max, splitCount)
  {
    var done := b;
    for i := 0 to |b.subs|
      invariant SameDocs(b, done) && done.Inner? && |done.subs| == |b.subs| && done.bucketSize == b.bucketSize
      invariant forall j | 0 <= j < i :: IsSplitIfCrowded(b.subs[j], done.subs[j], splitCount, threshold)
      invariant forall j | i <= j < |b.subs| :: done.subs[j] == b.subs[j]
      invariant forall j | 0 <= j < i && IsCrowded(b.subs[j], threshold) :: Splittable(b.subs[j].min, b.subs[j].max, splitCount)
    {
      assert Valid(b.subs[i]);
      if done.subs[i].Leaf? && done.subs[i].DocCount() as real > threshold {
        var split := Split(done.subs[i], splitCount);
        if split == None {
          return None;
        }
        SubReplaced(done, i, split.value);
        done := done.(subs := done.subs[i := split.value]);
      }
    }
    b' := Some(done);
  }

  /** What a histogram is like before its first search. */
  ghost predicate IsBuilt(b: Bucket, content: multiset<Doc>, min: int, max: int, splitCount: nat, threshold: real) {
    && Valid(b) && b.Inner? && Content(b) == content && b.min == min <= max == b.max && splitCount > 0
    && b.bucketSize == Width(max - min + 1, splitCount) && |b.subs| == splitCount
    && forall i | 0 <= i < |b.subs| :: IsSplitPart(b.subs[i], splitCount, threshold)
  }

  /** The bounds of a bucket are values in it. */
  ghost predicate IsTight(b: Bucket) {
    (exists d: nat :: (d, b.min) in Content(b)) && (exists d: nat :: (d, b.max) in Content(b))
  }

  lemma LeafIsTight(b: Bucket)
    requires Valid(b) && b.Leaf? && b.DocCount() > 0
    ensures IsTight(b)
  {
    var i: nat :| i < |b.values| && b.values[i] == b.min;
    var j: nat :| j < |b.values| && b.values[j] == b.max;
    ZipHas(b.indexes, b.values, (b.indexes[i], b.min));
    ZipHas(b.indexes, b.values, (b.indexes[j], b.max));
    assert (b.indexes[i], b.min) in Content(b) && (b.indexes[j], b.max) in Content(b);
  }

  /** A part of it is a leaf, or has leaves of the width that its own values give because it was crowded. */
  ghost predicate IsSplitPart(b: Bucket, splitCount: nat, threshold: real) {
    if b.DocCount() as real > threshold then
      && b.Inner? && b.min <= b.max && splitCount > 0 && IsTight(b)
      && b.bucketSize == PartSize(b.min, b.max, splitCount) && |b.subs| == PartCount(b.min, b.max, splitCount)
      && forall i | 0 <= i < |b.subs| :: b.subs[i].Leaf?
    else b.Leaf?
  }

  lemma BuiltFromFirst(first: Bucket, b: Bucket, splitCount: nat, threshold: real)
    requires Valid(first) && first.Inner? && first.min <= first.max && SameDocs(first, b) && b.Inner? && b.bucketSize == first.bucketSize
    requires splitCount > 0 && threshold >= 0.0 && first.bucketSize == Width(first.max - first.min + 1, splitCount) && |first.subs| == splitCount
    requires AreSplit(first.subs, b.subs, splitCount, threshold) && forall i | 0 <= i < |first.subs| :: first.subs[i].Leaf?
    ensures IsBuilt(b, Content(first), first.min, first.max, splitCount, threshold)
  {
    forall i | 0 <= i < |b.subs| ensures IsSplitPart(b.subs[i], splitCount, threshold) {
      assert IsSplitIfCrowded(first.subs[i], b.subs[i], splitCount, threshold) && Valid(first.subs[i]);
      if IsCrowded(first.subs[i], threshold) { LeafIsTight(first.subs[i]); }
    }
  }

  class AdaptiveHistogram {
    const splitCount: nat
    var root: Bucket
    var bucketThreshold: real

    ghost predicate Ready()
      reads this
    {
      Valid(root) && root.Inner? && SettingsOk(TheSettings())
    }

    function TheSettings(): Settings
      reads this
    {
      Settings(splitCount, bucketThreshold)
    }

    constructor (splitCount: nat)
      ensures this.splitCount == splitCount
    {
      this.splitCount := splitCount;
      root, bucketThreshold := EmptyBucket(), 0.0;
    }

    /** The first split, of all documents, and then of each bucket that has more than its share. */
    method InitialSplit(indexes: seq<nat>, values: seq<int>, min: int, max: int) returns (ok: bool, ghost first: Option<Bucket>)
      requires 0 < splitCount < 0x8000_0000 && |indexes| == |values| && INT64_MIN <= min <= max <= INT64_MAX
      requires max in values && forall j | 0 <= j < |values| :: min <= values[j] <= max
      modifies this
      ensures first == None <==> !FirstFits(min, max, splitCount)
      ensures first.Some? ==> Valid(first.value) && first.value.Inner? && Content(first.value) == Zip(indexes, values)
      ensures first.Some? ==> first.value.min == min && first.value.max == max && |first.value.subs| == splitCount
      ensures ok <==> first.Some? && forall i |
        0 <= i < splitCount && IsCrowded(first.value.subs[i], Threshold(|indexes|, splitCount)) ::
        Splittable(first.value.subs[i].min, first.value.subs[i].max, splitCount)
      ensures ok ==> Ready() && SameDocs(first.value, root) && bucketThreshold == Threshold(|indexes|, splitCount)
      ensures ok ==> IsBuilt(root, Zip(indexes, values), min, max, splitCount, bucketThreshold)
      ensures max - min + 1 <= TWO_53 ==> ok
    {
      if max - min + 1 <= TWO_53 { NarrowFits(min, max, splitCount); }
      var b := FirstSplit(indexes, values, min, max, splitCount);
      first := b;
      if b == None {
        return false, first;
      }
      bucketThreshold := Threshold(|indexes|, splitCount);
      if IsNarrow(b.value) { NarrowSplits(b.value, bucketThreshold, splitCount); }
      var split := SplitCrowded(b.value, splitCount, bucketThreshold);
      if split == None {
        return false, first;
      }
      root := split.value;
      ok := true;
      BuiltFromFirst(b.value, root, splitCount, bucketThreshold);
    }

    /** The flag is that of the data context, which says whether the query has split a bucket before. */
    method FindEqualTo(value: int, splitted: bool) returns (found: Option<set<nat>>, splitted': bool)
      requires Ready()
      modifies `root
      ensures found == None <==> old(EqualFails(root, value, TheSettings(), splitted))
      ensures found.Some? ==> Ready() && SameDocs(old(root), root) && found.value == Hits(Content(root), EqualTo(value))
      ensures old(IsNarrow(root)) ==> found.Some?
      ensures found.Some? ==> IsRefined(old(root), root, value, ForEqual, TheSettings(), splitted, splitted')
    {
      if IsNarrow(root) { NarrowEqualSucceeds(root, value, TheSettings(), splitted); }
      root, found, splitted' := FindEqual(root, value, TheSettings(), splitted);
    }

    method FindLessThan(value: int, inclusive: bool, splitted: bool) returns (found: Option<set<nat>>, splitted': bool)
      requires Ready()
      modifies `root
      ensures found == None <==> old(LessFails(root, value, TheSettings(), splitted))
      ensures found.Some? || !old(LessBreaks(root, value, TheSettings(), splitted)) ==> Ready() && SameDocs(old(root), root)
      ensures found.Some? ==>
        found.value == Hits(old(Content(root)), LessBelow(value, inclusive, old(LessCut(root, value, TheSettings(), splitted))))
      ensures found.Some? && old(LessFitsInt(root, value, TheSettings(), splitted)) ==>
        found.value == Hits(old(Content(root)), LessThan(value, inclusive))
      ensures found.Some? ==> IsRefined(old(root), root, value, ForLess, TheSettings(), splitted, splitted')
    {
      if !LessFails(root, value, TheSettings(), splitted) && LessFitsInt(root, value, TheSettings(), splitted) {
        LessIsExact(root, value, inclusive, TheSettings(), splitted);
      }
      LessBreaksFail(root, value, TheSettings(), splitted);
      root, found, splitted' := FindLess(root, value, inclusive, TheSettings(), splitted);
    }

    method FindMoreThan(value: int, inclusive: bool, splitted: bool) returns (found: Option<set<nat>>, splitted': bool)
      requires Ready()
      modifies `root
      ensures found == None <==> old(MoreFails(root, value, TheSettings(), splitted))
      ensures found.Some? || !old(MoreBreaks(root, value, TheSettings(), splitted)) ==> Ready() && SameDocs(old(root), root)
      ensures found.Some? ==>
        found.value == Hits(old(Content(root)), MoreAbove(value, inclusive, old(MoreCut(root, value, TheSettings(), splitted))))
      ensures found.Some? && old(MoreFitsInt(root, value, TheSettings(), splitted)) ==>
        found.value == Hits(old(Content(root)), MoreThan(value, inclusive))
      ensures found.Some? ==> IsRefined(old(root), root, value, ForMore, TheSettings(), splitted, splitted')
    {
      if !MoreFails(root, value, TheSettings(), splitted) && MoreFitsInt(root, value, TheSettings(), splitted) {
        MoreIsExact(root, value, inclusive, TheSettings(), splitted);
      }
      MoreBreaksFail(root, value, TheSettings(), splitted);
      root, found, splitted' := FindMore(root, value, inclusive, TheSettings(), splitted);
    }
  }

  /** A narrow histogram can always be built, and answers every search for a value. */
  lemma NarrowFits(min: int, max: int, splitCount: nat)
    requires min <= max && max - min + 1 <= TWO_53 && splitCount > 0
    ensures FirstFits(min, max, splitCount)
  {
    SmallRangeIsCovered(max - min + 1, splitCount);
  }

  lemma NarrowSplits(b: Bucket, threshold: real, splitCount: nat)
    requires Valid(b) && b.Inner? && IsNarrow(b) && splitCount > 0 && threshold >= 0.0
    ensures forall i | 0 <= i < |b.subs| && IsCrowded(b.subs[i], threshold) :: Splittable(b.subs[i].min, b.subs[i].max, splitCount)
  {
    forall i | 0 <= i < |b.subs| && IsCrowded(b.subs[i], threshold)
      ensures Splittable(b.subs[i].min, b.subs[i].max, splitCount)
    {
      SubIsNarrow(b, i);
      SmallRangeIsSplittable(b.subs[i].min, b.subs[i].max, splitCount);
    }
  }

  // ---------------------------------------------------------------------------------------------
  // What can go wrong
  // ---------------------------------------------------------------------------------------------

  /** The documents 0 and 1 have the values 0 and 199. */
  ghost function TwoDocs(): multiset<Doc> {
    multiset{(0, 0), (1, 199)}
  }

  /** They are the only ones of a histogram with 100 buckets of width 2, of which the first one has been split. */
  ghost predicate HasTwoDocs(b: Bucket, s: Settings) {
    IsBuilt(b, TwoDocs(), 0, 199, 100, s.bucketThreshold) && s == Settings(100, Threshold(2, 100))
  }

  /** `initialSplit` builds such a histogram. */
  method BuildTwoDocs() returns (h: AdaptiveHistogram)
    ensures h.Ready() && HasTwoDocs(h.root, h.TheSettings())
  {
    h := new AdaptiveHistogram(100);
    ZipTwo(0, 0, 1, 199);
    var ok, first := h.InitialSplit([0, 1], [0, 199], 0, 199);
  }

  lemma ZipTwo(i: nat, v: int, j: nat, w: int)
    ensures Zip([i, j], [v, w]) == multiset{(i, v), (j, w)}
  {
    assert [i, j][..1] == [i] && [v, w][..1] == [v];
    assert Zip([i], [v]) == Zip([i][..0], [v][..0]) + multiset{(i, v)};
    assert Zip([i, j], [v, w]) == Zip([i], [v]) + multiset{(j, w)};
  }

  /** The first bucket has one sub-bucket, for the value 0 alone. */
  lemma FirstBucket(b: Bucket, s: Settings)
    requires HasTwoDocs(b, s)
    ensures b.bucketSize == 2 && b.subs[0].Inner? && b.subs[0].DocCount() > 0 && b.subs[0].min == b.subs[0].max == 0
    ensures b.subs[0].bucketSize == 1 && |b.subs[0].subs| == 1
    ensures b.subs[0].subs[0].Leaf? && b.subs[0].subs[0].min == b.subs[0].subs[0].max == 0
  {
    WholeWidth(100, 2);
    var sub := b.subs[0];
    assert Valid(sub) && InSlice(b, 0) && IsSplitPart(sub, 100, s.bucketThreshold);
    ZeroIsFirst(b);
    OnlyZero(b, sub);
    var leaf := sub.subs[0];
    assert Valid(leaf);
    ZeroIsFirst(sub);
    SubWithin(sub, 0);
    HasDocs(leaf, (0, 0));
    LeafIsTight(leaf);
  }

  /** The document with the value 0 is in the first sub-bucket. */
  lemma ZeroIsFirst(b: Bucket)
    requires Valid(b) && b.Inner? && b.min == 0 && (0, 0) in Content(b)
    ensures (0, 0) in Content(b.subs[0]) && b.subs[0].DocCount() > 0
  {
    var i := Sliced(b, (0, 0));
    assert i == 0;
    assert Valid(b.subs[0]);
    HasDocs(b.subs[0], (0, 0));
  }

  lemma HasDocs(b: Bucket, p: Doc)
    requires Valid(b) && p in Content(b)
    ensures b.DocCount() > 0
  {
    assert Content(b) != multiset{};
  }

  /** A part in which only the value 0 has room is crowded and has been split for it. */
  lemma OnlyZero(b: Bucket, sub: Bucket)
    requires Valid(b) && b.Inner? && b.min == 0 && b.bucketSize == 2 && sub == b.subs[0] && Content(b) == TwoDocs()
    requires (0, 0) in Content(sub) && sub.DocCount() > 0 && IsSplitPart(sub, 100, Threshold(2, 100))
    ensures sub.Inner? && sub.min == sub.max == 0 && sub.bucketSize == 1 && |sub.subs| == 1
    ensures sub.subs[0].Leaf? && forall p | p in Content(sub) :: p.1 == 0
  {
    assert InSlice(b, 0);
    SubWithin(b, 0);
    assert forall p | p in Content(sub) :: p in TwoDocs() && p.1 < 2;
    assert Threshold(2, 100) == 0.0;
  }

  /**
   A search for values less than 1 looks into the first bucket, behind the end of its sub-bucket, and one for values
   less than 200 looks behind the last bucket: neither of them returns.
   */
  lemma ValuesBehindTheEndFail(b: Bucket, s: Settings)
    requires HasTwoDocs(b, s)
    ensures LessFails(b, 1, s, false) && !LessBreaks(b, 1, s, false)
    ensures LessFails(b, 200, s, false) && !LessBreaks(b, 200, s, false)
  {
    FirstBucket(b, s);
    assert Num(1, 0, 2, 100) == Some(0) && Num(1, 0, 1, 1) == None;
    LessInSub(b, 0, 1, s, false);
    assert Num(200, 0, 2, 100) == None;
  }

  /** A search for greater values does not return for a value a bucket's width below the first bucket. */
  lemma ValuesBeforeTheBeginningFail(b: Bucket, s: Settings)
    requires HasTwoDocs(b, s)
    ensures MoreFails(b, -2, s, false) && !MoreBreaks(b, -2, s, false)
  {
    FirstBucket(b, s);
    assert Num(-2, 0, 2, 100) == None;
  }

  /** A search for values below 2 to the power of 33 returns, and misses the document with the value 199. */
  lemma WrappedBucketNumber(b: Bucket, s: Settings)
    requires HasTwoDocs(b, s)
    ensures !LessFails(b, 0x2_0000_0000, s, false) && LessCut(b, 0x2_0000_0000, s, false) == 1
    ensures 1 in Hits(Content(b), LessThan(0x2_0000_0000, false))
    ensures 1 !in Hits(Content(b), LessBelow(0x2_0000_0000, false, 1))
  {
    FirstBucket(b, s);
    var value := 0x2_0000_0000;
    assert Num(value, 0, 2, 100) == Some(0) && Num(value, 0, 1, 1) == Some(0);
    LessInSub(b, 0, value, s, false);
    LessInSub(b.subs[0], 0, value, s, false);
    LeafOfOneValue(b.subs[0].subs[0], value, s, false);
    MissedAt(b, value);
  }

  lemma LeafOfOneValue(b: Bucket, value: int, s: Settings, splitted: bool)
    requires b.Leaf? && b.min == b.max
    ensures !LessFails(b, value, s, splitted) && LessCut(b, value, s, splitted) == value + 1
  {
  }

  lemma MissedAt(b: Bucket, value: int)
    requires Content(b) == TwoDocs() && value > 199
    ensures 1 in Hits(Content(b), LessThan(value, false)) && 1 !in Hits(Content(b), LessBelow(value, false, 1))
  {
    HitsOf(Content(b), LessThan(value, false), 1);
    HitsOf(Content(b), LessBelow(value, false, 1), 1);
    assert (1, 199) in Content(b);
  }

  // ---------------------------------------------------------------------------------------------
  // The bounds that the index passes on
  // ---------------------------------------------------------------------------------------------

  /** A value that is less than all before it. */
  predicate IsNewMinimum(values: seq<int>, k: nat)
    requires k < |values|
  {
    values[k] < INT64_MAX && forall j | 0 <= j < k :: values[k] < values[j]
  }

  /** A value greater than all those that the scan compares with the maximum. */
  ghost predicate IsExceeded(values: seq<int>, k: nat)
    requires k < |values|
  {
    values[k] > INT64_MIN && forall i | 0 <= i < |values| && !IsNewMinimum(values, i) :: values[i] < values[k]
  }

  /** The scan of the documents: a value that is a new minimum is not compared with the maximum. */
  method ScanBounds(values: seq<int>) returns (intMin: int, intMax: int)
    requires forall j | 0 <= j < |values| :: IsInt64(values[j])
    ensures forall j | 0 <= j < |values| :: intMin <= values[j]
    ensures values != [] && intMin < INT64_MAX ==> intMin in values
    ensures (forall j | 0 <= j < |values| :: values[j] <= intMax) <==> !exists k :: 0 <= k < |values| && IsExceeded(values, k)
  {
    intMin, intMax := INT64_MAX, INT64_MIN;
    for k := 0 to |values|
      invariant IsInt64(intMin) && IsInt64(intMax)
      invariant forall j | 0 <= j < k :: intMin <= values[j]
      invariant intMin == INT64_MAX || intMin in values[..k]
      invariant forall j | 0 <= j < k && !IsNewMinimum(values, j) :: values[j] <= intMax
      invariant intMax == INT64_MIN || exists i :: 0 <= i < k && !IsNewMinimum(values, i) && values[i] == intMax
    {
      if intMin > values[k] {
        assert IsNewMinimum(values, k);
        intMin := values[k];
      } else {
        assert !IsNewMinimum(values, k) by {
          if intMin < INT64_MAX {
            var j :| 0 <= j < k && values[j] == intMin;
          }
        }
        if intMax < values[k] {
          intMax := values[k];
        }
      }
    }
    ExceededIff(values, intMax);
  }

  lemma ExceededIff(values: seq<int>, intMax: int)
    requires INT64_MIN <= intMax && forall j | 0 <= j < |values| :: IsInt64(values[j])
    requires forall j | 0 <= j < |values| && !IsNewMinimum(values, j) :: values[j] <= intMax
    requires intMax == INT64_MIN || exists i :: 0 <= i < |values| && !IsNewMinimum(values, i) && values[i] == intMax
    ensures forall k | 0 <= k < |values| :: values[k] > intMax <==> IsExceeded(values, k)
  {
    forall k | 0 <= k < |values| ensures values[k] > intMax <==> IsExceeded(values, k) {
    }
  }

  /** One document is enough: its value is a new minimum, and the maximum stays at its initial value. */
  lemma OneValueHasNoMaximum(value: int)
    requires INT64_MIN < value < INT64_MAX
    ensures IsExceeded([value], 0)
  {
    assert IsNewMinimum([value], 0);
  }
}
