/** One part per status group: splitByGroup of internal/core/render/overflow.go, for an
    arbitrary measurement. */
module StatusGroups {
  import opened Splitting

  datatype Status = Planned | NoOp | Blocked | Failed | OtherStatus

  datatype Stack = Stack(ref: string, status: Status)

  // ---------- multiset bookkeeping ----------

  lemma MultisetAppend<T>(a: seq<T>, b: seq<T>)
    ensures multiset(a + b) == multiset(a) + multiset(b)
  {
  }

  lemma PrefixIsPart<T>(a: seq<T>, b: seq<T>)
    requires a <= b
    ensures multiset(a) <= multiset(b)
  {
    assert b == a + b[|a|..];
  }

  // ---------- one part per status group ----------

  function Bucket(stacks: seq<Stack>, st: Status): seq<Stack> {
    if stacks == [] then []
    else
      var n := |stacks| - 1;
      if stacks[n].status == st then Bucket(stacks[..n], st) + [stacks[n]] else Bucket(stacks[..n], st)
  }

  lemma {:induction false} BucketCount(stacks: seq<Stack>, st: Status, x: Stack)
    ensures multiset(Bucket(stacks, st))[x] == if x.status == st then multiset(stacks)[x] else 0
  {
    if stacks != [] {
      var n := |stacks| - 1;
      BucketCount(stacks[..n], st, x);
      assert stacks == stacks[..n] + [stacks[n]];
    }
  }

  const GROUP_ORDER: seq<Status> := [Failed, Blocked, Planned, NoOp]

  function Lookup(buckets: map<Status, seq<Stack>>, st: Status): seq<Stack> {
    if st in buckets then buckets[st] else []
  }

  method FillBuckets(ordered: seq<Stack>) returns (buckets: map<Status, seq<Stack>>)
    ensures forall st :: Lookup(buckets, st) == Bucket(ordered, st)
  {
    buckets := map[];
    for i := 0 to |ordered|
      invariant forall st :: Lookup(buckets, st) == Bucket(ordered[..i], st)
    {
      var s := ordered[i];
      assert ordered[..i + 1][..i] == ordered[..i];
      buckets := buckets[s.status := Lookup(buckets, s.status) + [s]];
    }
    assert ordered[..|ordered|] == ordered;
  }

  /** The parts of one bucket: one part, or as many as it needs and the cap leaves. */
  function BucketParts(b: seq<Stack>, placed: nat, maxParts: nat, fits: Fits<Stack>): seq<seq<Stack>> {
    if b == [] then []
    else if fits(b, placed + 1, 0) then [b]
    else Capacity(b, maxParts - placed, fits)
  }

  /** The first k buckets in group order, before the cap. */
  function GroupSplit(ordered: seq<Stack>, k: nat, maxParts: nat, fits: Fits<Stack>): seq<seq<Stack>>
    requires k <= |GROUP_ORDER|
  {
    if k == 0 then []
    else
      var front := GroupSplit(ordered, k - 1, maxParts, fits);
      front + BucketParts(Bucket(ordered, GROUP_ORDER[k - 1]), |front|, maxParts, fits)
  }

  function Capped(groups: seq<seq<Stack>>, maxParts: nat): seq<seq<Stack>> {
    if |groups| > maxParts then groups[..maxParts] else groups
  }

  method PartsOf(b: seq<Stack>, placed: nat, maxParts: nat, fits: Fits<Stack>) returns (more: seq<seq<Stack>>)
    ensures more == BucketParts(b, placed, maxParts, fits)
  {
    if |b| == 0 {
      return [];
    }
    if fits(b, placed + 1, 0) {
      return [b];
    }
    more := SplitByCapacity(b, maxParts - placed, fits);
  }

  /** Buckets in group order; what exceeds the cap is cut off. */
  method SplitByGroup(ordered: seq<Stack>, maxParts: nat, fits: Fits<Stack>) returns (groups: seq<seq<Stack>>)
    ensures groups == Capped(GroupSplit(ordered, |GROUP_ORDER|, maxParts, fits), maxParts)
  {
    var buckets := FillBuckets(ordered);
    groups := [];
    for i := 0 to |GROUP_ORDER|
      invariant groups == GroupSplit(ordered, i, maxParts, fits)
    {
      var b := Lookup(buckets, GROUP_ORDER[i]);
      var more := PartsOf(b, |groups|, maxParts, fits);
      groups := groups + more;
    }
    if |groups| > maxParts {
      groups := groups[..maxParts];
    }
  }

  /** Where a status comes in the group order; other statuses get no part. */
  function Place(st: Status): nat {
    match st
    case Failed => 0
    case Blocked => 1
    case Planned => 2
    case NoOp => 3
    case OtherStatus => 4
  }

  ghost predicate AllOf(part: seq<Stack>, place: nat) {
    part != [] && forall x :: x in part ==> Place(x.status) == place
  }

  lemma {:induction false} BucketStatus(stacks: seq<Stack>, st: Status)
    ensures forall x :: x in Bucket(stacks, st) ==> x.status == st
  {
    if stacks != [] {
      BucketStatus(stacks[..|stacks| - 1], st);
    }
  }

  /** The parts of a bucket are non-empty stretches of it, and all of it unless the cap is reached. */
  lemma BucketPartsWithin(b: seq<Stack>, placed: nat, maxParts: nat, fits: Fits<Stack>)
    ensures var more := BucketParts(b, placed, maxParts, fits);
      && Concat(more) <= b
      && (placed + |more| < maxParts ==> Concat(more) == b)
      && (forall i :: 0 <= i < |more| ==> more[i] != [] && forall x :: x in more[i] ==> x in b)
  {
    var more := BucketParts(b, placed, maxParts, fits);
    if b != [] && fits(b, placed + 1, 0) {
      assert Concat([b]) == b + Concat([b][1..]);
    } else if b != [] {
      var t := CapacityPacks(b, maxParts - placed, fits);
    }
    forall i | 0 <= i < |more| ensures forall x :: x in more[i] ==> x in b {
      PartIsSlice(more, i);
    }
  }

  // ---------- where a part comes from and where it was measured ----------

  /** A whole bucket, or part j of a bucket that was packed, by a pass made against some total. */
  datatype Origin = Whole(bucket: nat) | Packed(bucket: nat, j: nat, total: int)

  /** How many parts are placed before a bucket. */
  function PlacedBefore(ordered: seq<Stack>, bucket: nat, maxParts: nat, fits: Fits<Stack>): nat
    requires bucket <= |GROUP_ORDER|
  {
    |GroupSplit(ordered, bucket, maxParts, fits)|
  }

  /** Part j of a bucket that was packed within some cap, by a pass made against `total`, which is one
      only if the bucket came out whole. */
  ghost predicate PackedAt(b: seq<Stack>, cap: int, fits: Fits<Stack>, part: seq<Stack>, j: nat, total: int) {
    var g := Capacity(b, cap, fits);
    && g == Pack(b, cap, total, fits) && j < |g| && part == g[j]
    && 1 <= total <= Max(1, cap) && (|g| >= 2 ==> total >= 2)
    && (|part| >= 2 ==> fits(part, j + 1, total))
  }

  /** Part i is the part its origin says, and was measured where the code measures it: a whole bucket
      as part i + 1 of a yet unknown count, a packed part as part j + 1 of the pass's count, as if
      its bucket were the whole board. */
  ghost predicate ComesFrom(ordered: seq<Stack>, maxParts: nat, fits: Fits<Stack>, part: seq<Stack>, i: nat, o: Origin) {
    && o.bucket < |GROUP_ORDER|
    && var b, placed := Bucket(ordered, GROUP_ORDER[o.bucket]), PlacedBefore(ordered, o.bucket, maxParts, fits);
    && b != []
    && match o
       case Whole(_) => part == b && i == placed && fits(part, i + 1, 0)
       case Packed(_, j, total) =>
         !fits(b, placed + 1, 0) && i == placed + j && PackedAt(b, maxParts - placed, fits, part, j, total)
  }

  lemma BucketOrigin(ordered: seq<Stack>, bucket: nat, maxParts: nat, fits: Fits<Stack>, j: nat) returns (o: Origin)
    requires bucket < |GROUP_ORDER|
    requires j < |BucketParts(Bucket(ordered, GROUP_ORDER[bucket]), PlacedBefore(ordered, bucket, maxParts, fits), maxParts, fits)|
    ensures var placed := PlacedBefore(ordered, bucket, maxParts, fits);
            ComesFrom(ordered, maxParts, fits, BucketParts(Bucket(ordered, GROUP_ORDER[bucket]), placed, maxParts, fits)[j], placed + j, o)
  {
    var b, placed := Bucket(ordered, GROUP_ORDER[bucket]), PlacedBefore(ordered, bucket, maxParts, fits);
    if fits(b, placed + 1, 0) {
      o := Whole(bucket);
    } else {
      var t := CapacityPacks(b, maxParts - placed, fits);
      var part := Capacity(b, maxParts - placed, fits)[j];
      assert part[..|part|] == part;
      o := Packed(bucket, j, t);
    }
  }

  /** Every part of the group split has an origin. */
  lemma {:induction false} PartOrigin(ordered: seq<Stack>, k: nat, maxParts: nat, fits: Fits<Stack>, i: nat) returns (o: Origin)
    requires k <= |GROUP_ORDER| && i < |GroupSplit(ordered, k, maxParts, fits)|
    ensures ComesFrom(ordered, maxParts, fits, GroupSplit(ordered, k, maxParts, fits)[i], i, o)
  {
    var front := GroupSplit(ordered, k - 1, maxParts, fits);
    if i < |front| {
      o := PartOrigin(ordered, k - 1, maxParts, fits, i);
    } else {
      o := BucketOrigin(ordered, k - 1, maxParts, fits, i - |front|);
    }
  }

  /** A packed part was measured at its own place exactly if nothing was placed before its bucket
      and the pass counted as many parts as there are in the end; so, if the packing settled, exactly
      if its bucket's parts are all there is. */
  lemma {:induction false} OwnPlaceIff(ordered: seq<Stack>, maxParts: nat, fits: Fits<Stack>, part: seq<Stack>, i: nat, o: Origin, n: nat)
    requires ComesFrom(ordered, maxParts, fits, part, i, o) && o.Packed? && i < n
    ensures var placed := PlacedBefore(ordered, o.bucket, maxParts, fits);
      var sub := |Capacity(Bucket(ordered, GROUP_ORDER[o.bucket]), maxParts - placed, fits)|;
      && ((o.j + 1, o.total) == (i + 1, n) <==> placed == 0 && o.total == n)
      && (o.total == sub ==> ((o.j + 1, o.total) == (i + 1, n) <==> placed == 0 && n == sub))
  {
  }

  function StatusOf(part: seq<Stack>): Status {
    if part == [] then OtherStatus else part[0].status
  }

  /** Every part shows one status, and the parts come in group order. */
  ghost predicate Tidy(groups: seq<seq<Stack>>, k: nat) {
    && (forall i :: 0 <= i < |groups| ==> AllOf(groups[i], Place(StatusOf(groups[i]))) && Place(StatusOf(groups[i])) < k)
    && (forall i, j :: 0 <= i < j < |groups| ==> Place(StatusOf(groups[i])) <= Place(StatusOf(groups[j])))
  }

  lemma {:induction false} GroupSplitTidy(ordered: seq<Stack>, k: nat, maxParts: nat, fits: Fits<Stack>)
    requires k <= |GROUP_ORDER|
    ensures Tidy(GroupSplit(ordered, k, maxParts, fits), k)
  {
    if k > 0 {
      GroupSplitTidy(ordered, k - 1, maxParts, fits);
      var front, b := GroupSplit(ordered, k - 1, maxParts, fits), Bucket(ordered, GROUP_ORDER[k - 1]);
      var more := BucketParts(b, |front|, maxParts, fits);
      BucketStatus(ordered, GROUP_ORDER[k - 1]);
      assert Place(GROUP_ORDER[k - 1]) == k - 1;
      BucketPartsWithin(b, |front|, maxParts, fits);
      TidyStep(front, more, k);
    }
  }

  lemma TidyStep(front: seq<seq<Stack>>, more: seq<seq<Stack>>, k: nat)
    requires 0 < k && Tidy(front, k - 1) && forall i :: 0 <= i < |more| ==> AllOf(more[i], k - 1)
    ensures Tidy(front + more, k)
  {
  }

  lemma CountAppend(a: seq<Stack>, b: seq<Stack>, x: Stack)
    ensures multiset(a + b)[x] == multiset(a)[x] + multiset(b)[x]
  {
  }

  lemma PrefixCount(a: seq<Stack>, b: seq<Stack>, x: Stack)
    requires a <= b
    ensures multiset(a)[x] <= multiset(b)[x]
  {
    assert b == a + b[|a|..];
    CountAppend(a, b[|a|..], x);
  }

  /** How often a stack can be shown among the first k statuses. */
  function Due(ordered: seq<Stack>, x: Stack, k: nat): nat {
    if Place(x.status) < k then multiset(ordered)[x] else 0
  }

  /** The parts of one more bucket show no more than the bucket, and all of it below the cap. */
  lemma {:induction false} BucketPartsCount(ordered: seq<Stack>, k: nat, placed: nat, maxParts: nat, fits: Fits<Stack>, x: Stack)
    requires k < |GROUP_ORDER|
    ensures var more := BucketParts(Bucket(ordered, GROUP_ORDER[k]), placed, maxParts, fits);
      && multiset(Concat(more))[x] <= (if Place(x.status) == k then multiset(ordered)[x] else 0)
      && (placed + |more| < maxParts ==>
            multiset(Concat(more))[x] == if Place(x.status) == k then multiset(ordered)[x] else 0)
  {
    var b := Bucket(ordered, GROUP_ORDER[k]);
    var more := BucketParts(b, placed, maxParts, fits);
    BucketPartsWithin(b, placed, maxParts, fits);
    PrefixCount(Concat(more), b, x);
    BucketCount(ordered, GROUP_ORDER[k], x);
    assert Place(GROUP_ORDER[k]) == k;
    assert x.status == GROUP_ORDER[k] <==> Place(x.status) == k;
  }

  /** Nothing is shown more often than it is there, and a stack of the first k statuses is left
      out only when the cap is reached. */
  lemma {:induction false} GroupSplitComplete(ordered: seq<Stack>, k: nat, maxParts: nat, fits: Fits<Stack>, x: Stack)
    requires k <= |GROUP_ORDER|
    ensures var g := GroupSplit(ordered, k, maxParts, fits);
      && multiset(Concat(g))[x] <= Due(ordered, x, k)
      && (|g| < maxParts ==> multiset(Concat(g))[x] == Due(ordered, x, k))
  {
    if k > 0 {
      GroupSplitComplete(ordered, k - 1, maxParts, fits, x);
      var front := GroupSplit(ordered, k - 1, maxParts, fits);
      var more := BucketParts(Bucket(ordered, GROUP_ORDER[k - 1]), |front|, maxParts, fits);
      BucketPartsCount(ordered, k - 1, |front|, maxParts, fits, x);
      ConcatAppend(front, more);
      CountAppend(Concat(front), Concat(more), x);
    }
  }

  lemma {:induction false} CutCount(groups: seq<seq<Stack>>, n: nat, x: Stack)
    requires n <= |groups|
    ensures multiset(Concat(groups[..n]))[x] <= multiset(Concat(groups))[x]
  {
    assert groups == groups[..n] + groups[n..];
    ConcatAppend(groups[..n], groups[n..]);
    CountAppend(Concat(groups[..n]), Concat(groups[n..]), x);
  }

  /** The group split as a whole, cap included: within the cap, each part of a single status, and
      the parts in group order. */
  lemma {:induction false} GroupsAreByStatus(ordered: seq<Stack>, maxParts: nat, fits: Fits<Stack>)
    ensures var g := Capped(GroupSplit(ordered, |GROUP_ORDER|, maxParts, fits), maxParts);
            |g| <= maxParts && Tidy(g, |GROUP_ORDER|)
  {
    GroupSplitTidy(ordered, |GROUP_ORDER|, maxParts, fits);
  }

  /** No stack is shown twice; and unless the cap was reached, exactly the stacks of the four known
      statuses are shown. */
  lemma {:induction false} GroupsAreComplete(ordered: seq<Stack>, maxParts: nat, fits: Fits<Stack>, x: Stack)
    ensures var g := Capped(GroupSplit(ordered, |GROUP_ORDER|, maxParts, fits), maxParts);
      && multiset(Concat(g))[x] <= multiset(ordered)[x]
      && (|g| < maxParts ==> multiset(Concat(g))[x] == if x.status.OtherStatus? then 0 else multiset(ordered)[x])
  {
    var whole := GroupSplit(ordered, |GROUP_ORDER|, maxParts, fits);
    GroupSplitComplete(ordered, |GROUP_ORDER|, maxParts, fits, x);
    if |whole| > maxParts {
      CutCount(whole, maxParts, x);
    }
  }
}
