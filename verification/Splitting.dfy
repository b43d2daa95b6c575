/** The splitting algorithms of internal/core/render/overflow.go, for an arbitrary
    measurement `fits(group, part, total)`. */
module Splitting {
  type Fits<!T> = (seq<T>, int, int) -> bool

  function Concat<T>(groups: seq<seq<T>>): seq<T> {
    if groups == [] then [] else groups[0] + Concat(groups[1..])
  }

  lemma {:induction false} ConcatAppend<T>(a: seq<seq<T>>, b: seq<seq<T>>)
    ensures Concat(a + b) == Concat(a) + Concat(b)
  {
    if a == [] {
      assert a + b == b;
    } else {
      ConcatAppend(a[1..], b);
      assert (a + b)[1..] == a[1..] + b;
      assert a[0] + (Concat(a[1..]) + Concat(b)) == (a[0] + Concat(a[1..])) + Concat(b);
    }
  }

  lemma ConcatStep<T>(groups: seq<seq<T>>, i: nat)
    requires i < |groups|
    ensures Concat(groups[..i + 1]) == Concat(groups[..i]) + groups[i]
  {
    assert groups[..i + 1] == groups[..i] + [groups[i]];
    ConcatAppend(groups[..i], [groups[i]]);
    assert [groups[i]][1..] == [];
    assert Concat([groups[i]]) == groups[i];
  }

  predicate AllFit<T>(groups: seq<seq<T>>, total: int, fits: Fits<T>) {
    forall i :: 0 <= i < |groups| ==> fits(groups[i], i + 1, total)
  }

  // ---------- even distribution ----------

  function Size(base: nat, extra: nat): nat {
    if extra > 0 then base + 1 else base
  }

  function Less(extra: nat): nat {
    if extra > 0 then extra - 1 else 0
  }

  /** How many items n groups take, the first `extra` of them one more than the rest. */
  function Total(n: nat, base: nat, extra: nat): nat {
    if n == 0 then 0 else Size(base, extra) + Total(n - 1, base, Less(extra))
  }

  lemma {:induction false} TotalIs(n: nat, base: nat, extra: nat)
    requires extra <= n
    ensures Total(n, base, extra) == n * base + extra
  {
    if n > 0 {
      TotalIs(n - 1, base, Less(extra));
      assert n * base == (n - 1) * base + base;
    }
  }

  function EvenFrom<T>(items: seq<T>, n: nat, base: nat, extra: nat): seq<seq<T>>
    requires Total(n, base, extra) == |items|
  {
    if n == 0 then []
    else
      var k := Size(base, extra);
      [items[..k]] + EvenFrom(items[k..], n - 1, base, Less(extra))
  }

  lemma {:induction false} DivisionTotals(len: nat, n: nat)
    requires n > 0
    ensures Total(n, len / n, len % n) == len
  {
    TotalIs(n, len / n, len % n);
    assert len == n * (len / n) + len % n;
  }

  /** The even split into n groups. */
  function EvenSplit<T>(items: seq<T>, n: int): seq<seq<T>> {
    if n <= 1 then [items]
    else
      DivisionTotals(|items|, n);
      EvenFrom(items, n, |items| / n, |items| % n)
  }

  lemma {:induction false} EvenFromProps<T>(items: seq<T>, n: nat, base: nat, extra: nat)
    requires Total(n, base, extra) == |items|
    ensures var g := EvenFrom(items, n, base, extra);
            && |g| == n && Concat(g) == items
            && (forall i :: 0 <= i < n ==> base <= |g[i]| <= base + 1)
            && (extra == 0 ==> forall i :: 0 <= i < n ==> |g[i]| == base)
            && forall i, j :: 0 <= i < j < n ==> |g[i]| >= |g[j]|
  {
    if n > 0 {
      var k := Size(base, extra);
      EvenFromProps(items[k..], n - 1, base, Less(extra));
      assert items[..k] + items[k..] == items;
    }
  }

  /** n groups in order, nothing lost, sizes differing by at most one and the larger ones first. */
  lemma EvenSplitIsEven<T>(items: seq<T>, n: int)
    requires n >= 1
    ensures var g := EvenSplit(items, n);
            && |g| == n && Concat(g) == items
            && (forall i, j :: 0 <= i < n && 0 <= j < n ==> |g[i]| <= |g[j]| + 1)
            && forall i, j :: 0 <= i < j < n ==> |g[i]| >= |g[j]|
  {
    if n > 1 {
      DivisionTotals(|items|, n);
      EvenFromProps(items, n, |items| / n, |items| % n);
    } else {
      assert Concat([items]) == items + Concat([items][1..]);
    }
  }

  lemma EvenStep<T>(items: seq<T>, start: nat, n: nat, base: nat, extra: nat)
    requires n > 0 && start <= |items| && Total(n, base, extra) == |items| - start
    ensures var k := Size(base, extra);
            && start + k <= |items| && Total(n - 1, base, Less(extra)) == |items| - (start + k)
            && var g := EvenFrom(items[start..], n, base, extra);
            |g| == n && g[0] == items[start..start + k]
            && g[1..] == EvenFrom(items[start + k..], n - 1, base, Less(extra))
  {
    var k := Size(base, extra);
    EvenFromProps(items[start..], n, base, extra);
    assert items[start..][..k] == items[start..start + k];
    assert items[start..][k..] == items[start + k..];
  }

  method Distribute<T>(items: seq<T>, n: int) returns (groups: seq<seq<T>>)
    ensures groups == EvenSplit(items, n)
  {
    if n <= 1 {
      return [items];
    }
    DivisionTotals(|items|, n);
    groups := Deal(items, n, |items| / n, |items| % n);
  }

  /** After some groups are dealt, the rest is the even split of what remains. */
  ghost predicate Dealt<T>(items: seq<T>, whole: seq<seq<T>>, groups: seq<seq<T>>, start: nat, base: nat, left: nat) {
    && |groups| <= |whole| && groups == whole[..|groups|]
    && start <= |items| && Total(|whole| - |groups|, base, left) == |items| - start
    && EvenFrom(items[start..], |whole| - |groups|, base, left) == whole[|groups|..]
  }

  lemma DealtStep<T>(items: seq<T>, whole: seq<seq<T>>, groups: seq<seq<T>>, start: nat, base: nat, left: nat)
    requires Dealt(items, whole, groups, start, base, left) && |groups| < |whole|
    ensures var k := Size(base, left);
            start + k <= |items| && Dealt(items, whole, groups + [items[start..start + k]], start + k, base, Less(left))
  {
    var i := |groups|;
    EvenStep(items, start, |whole| - i, base, left);
    assert whole[i..][0] == whole[i] && whole[i..][1..] == whole[i + 1..];
  }

  /** The loop of distribute. */
  method Deal<T>(items: seq<T>, n: nat, base: nat, extra: nat) returns (groups: seq<seq<T>>)
    requires Total(n, base, extra) == |items|
    ensures groups == EvenFrom(items, n, base, extra)
  {
    ghost var whole := EvenFrom(items, n, base, extra);
    EvenFromProps(items, n, base, extra);
    assert items[0..] == items && whole[0..] == whole;
    groups := [];
    var start := 0;
    ghost var left: nat := extra;
    for i := 0 to n
      invariant |groups| == i && start >= 0
      invariant left == if i <= extra then extra - i else 0
      invariant Dealt(items, whole, groups, start, base, left)
    {
      var size := base;
      if i < extra {
        size := size + 1;
      }
      DealtStep(items, whole, groups, start, base, left);
      groups := groups + [items[start..start + size]];
      start := start + size;
      left := Less(left);
    }
  }

  // ---------- packing to capacity ----------

  /** One packing pass: cur is the part being filled, k the number of parts closed. */
  function PackFrom<T>(rest: seq<T>, cur: seq<T>, k: nat, maxParts: int, total: int, fits: Fits<T>): seq<seq<T>>
    decreases |rest|
  {
    if rest == [] then (if cur == [] then [] else [cur])
    else
      var trial := cur + [rest[0]];
      if cur != [] && !fits(trial, k + 1, total) then
        if k + 1 >= maxParts then [cur]
        else [cur] + PackFrom(rest[1..], [rest[0]], k + 1, maxParts, total, fits)
      else PackFrom(rest[1..], trial, k, maxParts, total, fits)
  }

  function Pack<T>(ordered: seq<T>, maxParts: int, total: int, fits: Fits<T>): seq<seq<T>> {
    PackFrom(ordered, [], 0, maxParts, total, fits)
  }

  method PackParts<T>(ordered: seq<T>, maxParts: int, total: int, fits: Fits<T>) returns (groups: seq<seq<T>>)
    ensures groups == Pack(ordered, maxParts, total, fits)
  {
    groups := [];
    var cur: seq<T> := [];
    for i := 0 to |ordered|
      invariant groups + PackFrom(ordered[i..], cur, |groups|, maxParts, total, fits) == Pack(ordered, maxParts, total, fits)
    {
      var s := ordered[i];
      var trial := cur + [s];
      assert ordered[i..][1..] == ordered[i + 1..];
      if |cur| > 0 && !fits(trial, |groups| + 1, total) {
        if |groups| + 1 >= maxParts {
          groups := groups + [cur];
          return;
        }
        groups := groups + [cur];
        cur := [s];
      } else {
        cur := trial;
      }
    }
    if |cur| > 0 {
      groups := groups + [cur];
    }
  }

  function Max(a: int, b: int): int {
    if a >= b then a else b
  }

  /** What one pass promises about the parts g it makes, numbered from k + 1. */
  ghost predicate Packed<T(!new)>(items: seq<T>, g: seq<seq<T>>, k: nat, maxParts: int, total: int, fits: Fits<T>) {
    // whole items, in order, from the front
    && Concat(g) <= items
    && (forall i :: 0 <= i < |g| ==> g[i] != [])
    // the cap
    && (g != [] ==> k + |g| <= Max(k + 1, maxParts))
    // every part of two or more was measured, at every size it grew through
    && (forall i, m :: 0 <= i < |g| && 2 <= m <= |g[i]| ==> fits(g[i][..m], k + i + 1, total))
    // a part is closed only because the next item did not fit into it
    && (forall i :: 0 <= i < |g| - 1 ==> !fits(g[i] + [g[i + 1][0]], k + i + 1, total))
    // items are left out only after the last allowed part was filled
    && (Concat(g) != items ==>
          && g != [] && k + |g| == Max(k + 1, maxParts)
          && |Concat(g)| < |items|
          && !fits(g[|g| - 1] + [items[|Concat(g)|]], k + |g|, total))
  }

  /** The part being filled, as it was grown so far. */
  ghost predicate Growing<T(!new)>(cur: seq<T>, k: nat, total: int, fits: Fits<T>) {
    forall m :: 2 <= m <= |cur| ==> fits(cur[..m], k + 1, total)
  }

  /** A last part: either it takes everything, or the cap is reached and the next item does not fit. */
  lemma PackedLast<T(!new)>(cur: seq<T>, rest: seq<T>, k: nat, maxParts: int, total: int, fits: Fits<T>)
    requires cur != [] && Growing(cur, k, total, fits)
    requires rest != [] ==> k + 1 >= maxParts && !fits(cur + [rest[0]], k + 1, total)
    ensures Packed(cur + rest, [cur], k, maxParts, total, fits)
  {
  }

  lemma GrowingStep<T(!new)>(cur: seq<T>, x: T, k: nat, total: int, fits: Fits<T>)
    requires Growing(cur, k, total, fits) && (cur == [] || fits(cur + [x], k + 1, total))
    ensures Growing(cur + [x], k, total, fits)
  {
    var trial := cur + [x];
    forall m | 2 <= m <= |trial| ensures fits(trial[..m], k + 1, total) {
      assert trial[..m] == if m <= |cur| then cur[..m] else trial;
    }
  }

  lemma {:induction false} PackFromPacks<T(!new)>(rest: seq<T>, cur: seq<T>, k: nat, maxParts: int, total: int, fits: Fits<T>)
    requires Growing(cur, k, total, fits)
    ensures var g := PackFrom(rest, cur, k, maxParts, total, fits);
            && Packed(cur + rest, g, k, maxParts, total, fits)
            && (cur != [] ==> g != [] && cur <= g[0])
            && (cur == [] && rest != [] ==> g != [] && rest[0] == g[0][0])
    decreases |rest|
  {
    var g := PackFrom(rest, cur, k, maxParts, total, fits);
    if rest == [] {
      if cur != [] {
        PackedLast(cur, rest, k, maxParts, total, fits);
      }
    } else if cur != [] && !fits(cur + [rest[0]], k + 1, total) {
      if k + 1 >= maxParts {
        PackedLast(cur, rest, k, maxParts, total, fits);
      } else {
        PackFromPacks(rest[1..], [rest[0]], k + 1, maxParts, total, fits);
        assert [rest[0]] + rest[1..] == rest;
        PackedCons(cur, rest, g[1..], k, maxParts, total, fits);
        assert g == [cur] + g[1..];
      }
    } else {
      GrowingStep(cur, rest[0], k, total, fits);
      PackFromPacks(rest[1..], cur + [rest[0]], k, maxParts, total, fits);
      assert (cur + [rest[0]]) + rest[1..] == cur + rest;
    }
  }

  /** Putting a filled part in front of a packing of what follows. */
  lemma PackedCons<T(!new)>(cur: seq<T>, rest: seq<T>, g: seq<seq<T>>, k: nat, maxParts: int, total: int, fits: Fits<T>)
    requires cur != [] && rest != [] && k + 1 < maxParts && Growing(cur, k, total, fits)
    requires !fits(cur + [rest[0]], k + 1, total)
    requires g != [] && g[0] != [] && g[0][0] == rest[0]
    requires Packed(rest, g, k + 1, maxParts, total, fits)
    ensures Packed(cur + rest, [cur] + g, k, maxParts, total, fits)
  {
    var h := [cur] + g;
    assert h[1..] == g;
    assert Concat(h) == cur + Concat(g);
    forall i, m | 0 <= i < |h| && 2 <= m <= |h[i]| ensures fits(h[i][..m], k + i + 1, total) {
      if i > 0 {
        assert h[i] == g[i - 1];
      }
    }
    forall i | 0 <= i < |h| - 1 ensures !fits(h[i] + [h[i + 1][0]], k + i + 1, total) {
      if i > 0 {
        assert h[i] == g[i - 1] && h[i + 1] == g[i];
      }
    }
    if Concat(h) != cur + rest {
      assert (cur + rest)[|Concat(h)|] == rest[|Concat(g)|];
      assert h[|h| - 1] == g[|g| - 1];
    }
  }

  lemma PackIsPacked<T(!new)>(ordered: seq<T>, maxParts: int, total: int, fits: Fits<T>)
    ensures Packed(ordered, Pack(ordered, maxParts, total, fits), 0, maxParts, total, fits)
    ensures ordered != [] ==> Pack(ordered, maxParts, total, fits) != []
  {
    PackFromPacks(ordered, [], 0, maxParts, total, fits);
    assert [] + ordered == ordered;
  }

  // ---------- the fixed point ----------

  predicate Settled<T>(groups: seq<seq<T>>, total: int) {
    |groups| <= 1 || |groups| == total
  }

  /** The retry loop: pack against the count the last pass produced, until it is the real one. */
  function SettleFrom<T>(ordered: seq<T>, maxParts: nat, total: int, i: nat, fits: Fits<T>): seq<seq<T>>
    requires i <= maxParts + 1
    decreases maxParts + 1 - i
  {
    var groups := Pack(ordered, maxParts, total, fits);
    if i == maxParts + 1 || Settled(groups, total) then groups
    else SettleFrom(ordered, maxParts, |groups|, i + 1, fits)
  }

  /** splitByCapacity also accepts a cap of zero or less, from the group split; it then makes one pass. */
  function Capacity<T>(ordered: seq<T>, maxParts: int, fits: Fits<T>): seq<seq<T>> {
    if maxParts < 0 then Pack(ordered, maxParts, 1, fits)
    else SettleFrom(ordered, maxParts, 1, 0, fits)
  }

  method SplitByCapacity<T>(ordered: seq<T>, maxParts: int, fits: Fits<T>) returns (groups: seq<seq<T>>)
    ensures groups == Capacity(ordered, maxParts, fits)
  {
    var total := 1;
    var i := 0;
    while i <= maxParts
      invariant if maxParts < 0 then i == 0 && total == 1 else 0 <= i <= maxParts + 1
      invariant maxParts >= 0 ==> SettleFrom(ordered, maxParts, total, i, fits) == Capacity(ordered, maxParts, fits)
      decreases maxParts + 1 - i
    {
      groups := PackParts(ordered, maxParts, total, fits);
      if |groups| <= 1 || |groups| == total {
        return;
      }
      total := |groups|;
      i := i + 1;
    }
    groups := PackParts(ordered, maxParts, total, fits);
  }

  /** Every result is one greedy pass, against the count `total`. */
  ghost predicate FromPass<T(!new)>(ordered: seq<T>, g: seq<seq<T>>, maxParts: int, total: int, fits: Fits<T>) {
    g == Pack(ordered, maxParts, total, fits) && Packed(ordered, g, 0, maxParts, total, fits)
  }

  lemma {:induction false} SettleFromIsPass<T(!new)>(ordered: seq<T>, maxParts: nat, total: int, i: nat, fits: Fits<T>)
      returns (t: int)
    requires i <= maxParts + 1
    ensures FromPass(ordered, SettleFrom(ordered, maxParts, total, i, fits), maxParts, t, fits)
    ensures ordered != [] && total >= 1 ==> t >= 1
    ensures |SettleFrom(ordered, maxParts, total, i, fits)| >= 2 && (i == 0 || total >= 2) ==> t >= 2
    ensures t <= Max(total, maxParts)
    decreases maxParts + 1 - i
  {
    var groups := Pack(ordered, maxParts, total, fits);
    PackIsPacked(ordered, maxParts, total, fits);
    t := total;
    if i < maxParts + 1 && !Settled(groups, total) {
      t := SettleFromIsPass(ordered, maxParts, |groups|, i + 1, fits);
    }
  }

  /** Packing to capacity, for any measurement: a contiguous prefix in non-empty parts within the
      cap, leaving items out only after the last allowed part was filled; and when the pass it
      came from was made against its own count, every part of two or more was measured to fit
      at the real count. */
  lemma CapacityPacks<T(!new)>(ordered: seq<T>, maxParts: int, fits: Fits<T>) returns (t: int)
    ensures var g := Capacity(ordered, maxParts, fits);
            && FromPass(ordered, g, maxParts, t, fits)
            && (ordered != [] ==> g != [] && t >= 1)
            && (|g| >= 2 ==> t >= 2) && t <= Max(1, maxParts)
            && (t == |g| ==> forall i :: 0 <= i < |g| && |g[i]| >= 2 ==> fits(g[i], i + 1, |g|))
  {
    if maxParts < 0 {
      t := 1;
    } else {
      t := SettleFromIsPass(ordered, maxParts, 1, 0, fits);
    }
    PackIsPacked(ordered, maxParts, t, fits);
    var g := Capacity(ordered, maxParts, fits);
    assert forall i :: 0 <= i < |g| ==> g[i][..|g[i]|] == g[i];
  }

  // ---------- parts as stretches ----------

  /** Where part i begins. */
  function Edge<T>(g: seq<seq<T>>, i: nat): nat
    requires i <= |g|
  {
    |Concat(g[..i])|
  }

  lemma {:induction false} PartIsSlice<T>(g: seq<seq<T>>, i: nat)
    requires i < |g|
    ensures Edge(g, i) <= Edge(g, i + 1) == Edge(g, i) + |g[i]| <= |Concat(g)|
    ensures g[i] == Concat(g)[Edge(g, i)..Edge(g, i + 1)]
  {
    assert g == g[..i + 1] + g[i + 1..] && g[..i + 1] == g[..i] + [g[i]];
    ConcatAppend(g[..i + 1], g[i + 1..]);
    ConcatAppend(g[..i], [g[i]]);
    assert Concat([g[i]]) == g[i] + Concat([g[i]][1..]);
  }

  // ---------- the default split ----------

  /** The smallest part count within the cap whose even split fits everywhere; the capacity
      packing only when there is none. */
  ghost predicate IsDivided<T(!new)>(ordered: seq<T>, maxParts: int, fits: Fits<T>, groups: seq<seq<T>>) {
    || (exists m :: 1 <= m <= maxParts && FewestParts(ordered, m, fits) && groups == EvenSplit(ordered, m))
    || ((forall m :: 1 <= m <= maxParts ==> !AllFit(EvenSplit(ordered, m), m, fits))
        && groups == Capacity(ordered, maxParts, fits))
  }

  ghost predicate FewestParts<T(!new)>(ordered: seq<T>, m: int, fits: Fits<T>) {
    AllFit(EvenSplit(ordered, m), m, fits) && forall k :: 1 <= k < m ==> !AllFit(EvenSplit(ordered, k), k, fits)
  }

  /** Some part of the even split into m does not fit as its part of m. */
  ghost predicate Overflows<T(!new)>(ordered: seq<T>, m: int, fits: Fits<T>) {
    exists i :: 0 <= i < |EvenSplit(ordered, m)| && !fits(EvenSplit(ordered, m)[i], i + 1, m)
  }

  /** What the default split promises: an even split within the cap, every part of which fits, while no
      even split into fewer parts does; or, if none within the cap does, the capacity packing. */
  lemma DividedMeans<T(!new)>(ordered: seq<T>, maxParts: int, fits: Fits<T>, groups: seq<seq<T>>)
    requires IsDivided(ordered, maxParts, fits, groups)
    ensures
      || (&& 1 <= |groups| <= maxParts && groups == EvenSplit(ordered, |groups|)
          && (forall i :: 0 <= i < |groups| ==> fits(groups[i], i + 1, |groups|))
          && forall m :: 1 <= m < |groups| ==> Overflows(ordered, m, fits))
      || (groups == Capacity(ordered, maxParts, fits) && forall m :: 1 <= m <= maxParts ==> Overflows(ordered, m, fits))
  {
    forall m ensures AllFit(EvenSplit(ordered, m), m, fits) <==> !Overflows(ordered, m, fits) {
    }
    if m :| 1 <= m <= maxParts && FewestParts(ordered, m, fits) && groups == EvenSplit(ordered, m) {
      EvenSplitIsEven(ordered, m);
    }
  }

  method SplitDivided<T(!new)>(ordered: seq<T>, maxParts: int, fits: Fits<T>) returns (groups: seq<seq<T>>)
    ensures IsDivided(ordered, maxParts, fits, groups)
  {
    for total := 1 to if maxParts < 1 then 1 else maxParts + 1
      invariant forall k :: 1 <= k < total ==> !AllFit(EvenSplit(ordered, k), k, fits)
    {
      groups := Distribute(ordered, total);
      var ok := AllPartsFit(groups, total, fits);
      if ok {
        assert FewestParts(ordered, total, fits);
        return;
      }
    }
    groups := SplitByCapacity(ordered, maxParts, fits);
  }

  /** The inner loop of splitDivided. */
  method AllPartsFit<T(!new)>(groups: seq<seq<T>>, total: int, fits: Fits<T>) returns (ok: bool)
    ensures ok <==> AllFit(groups, total, fits)
  {
    for i := 0 to |groups|
      invariant forall j :: 0 <= j < i ==> fits(groups[j], j + 1, total)
    {
      if !fits(groups[i], i + 1, total) {
        return false;
      }
    }
    return true;
  }
}
