/** When the repeated packing of splitByCapacity (internal/core/render/overflow.go) ends on parts
    that were packed against their own count, and what holds of its parts when it does not. */
module Settling {
  import opened Splitting

  // ---------- any measurement ----------

  /** The count that pass k is made against: 1, then whatever the pass before it produced. */
  function TotalAt<T>(ordered: seq<T>, maxParts: int, fits: Fits<T>, k: nat): nat {
    if k == 0 then 1 else |Pack(ordered, maxParts, TotalAt(ordered, maxParts, fits, k - 1), fits)|
  }

  function PassAt<T>(ordered: seq<T>, maxParts: int, fits: Fits<T>, k: nat): seq<seq<T>> {
    Pack(ordered, maxParts, TotalAt(ordered, maxParts, fits, k), fits)
  }

  /** Pass k produced the count it was made against, or at most one part. */
  predicate SettledAt<T>(ordered: seq<T>, maxParts: int, fits: Fits<T>, k: nat) {
    Settled(PassAt(ordered, maxParts, fits, k), TotalAt(ordered, maxParts, fits, k))
  }

  ghost predicate EverSettles<T(!new)>(ordered: seq<T>, maxParts: int, fits: Fits<T>) {
    exists k: nat :: SettledAt(ordered, maxParts, fits, k)
  }

  ghost predicate AgainstOwnCount<T(!new)>(ordered: seq<T>, g: seq<seq<T>>, maxParts: int, fits: Fits<T>) {
    |g| <= 1 || g == Pack(ordered, maxParts, |g|, fits)
  }

  /** The loop stops at the first settled pass, or at pass maxParts + 1. */
  lemma {:induction false} LoopStopsAt<T(!new)>(ordered: seq<T>, maxParts: nat, fits: Fits<T>, i: nat) returns (k: nat)
    requires i <= maxParts + 1
    ensures i <= k <= maxParts + 1 && (k == maxParts + 1 || SettledAt(ordered, maxParts, fits, k))
    ensures forall j :: i <= j < k ==> !SettledAt(ordered, maxParts, fits, j)
    ensures SettleFrom(ordered, maxParts, TotalAt(ordered, maxParts, fits, i), i, fits) == PassAt(ordered, maxParts, fits, k)
    decreases maxParts + 1 - i
  {
    k := i;
    if i < maxParts + 1 && !SettledAt(ordered, maxParts, fits, i) {
      k := LoopStopsAt(ordered, maxParts, fits, i + 1);
    }
  }

  lemma {:induction false} Pigeonhole(xs: seq<nat>, m: nat) returns (a: nat, b: nat)
    requires |xs| > m && forall i :: 0 <= i < |xs| ==> xs[i] < m
    ensures a < b < |xs| && xs[a] == xs[b]
    decreases m
  {
    assert xs[0] < m;
    if i, j :| 0 <= i < j < |xs| && xs[i] == xs[j] == m - 1 {
      a, b := i, j;
    } else if i :| 0 <= i < |xs| && xs[i] == m - 1 {
      var ys := xs[..i] + xs[i + 1..];
      var c, d := Pigeonhole(ys, m - 1);
      a, b := if c < i then c else c + 1, if d < i then d else d + 1;
    } else {
      a, b := Pigeonhole(xs[1..], m - 1);
      a, b := a + 1, b + 1;
    }
  }

  lemma {:induction false} TotalBound<T(!new)>(ordered: seq<T>, maxParts: int, fits: Fits<T>, k: nat)
    requires k >= 1
    ensures TotalAt(ordered, maxParts, fits, k) <= Max(1, maxParts)
    ensures ordered != [] ==> TotalAt(ordered, maxParts, fits, k) >= 1
  {
    PackIsPacked(ordered, maxParts, TotalAt(ordered, maxParts, fits, k - 1), fits);
  }

  lemma {:induction false} Periodic<T(!new)>(ordered: seq<T>, maxParts: int, fits: Fits<T>, a: nat, b: nat, k: nat)
    requires TotalAt(ordered, maxParts, fits, a) == TotalAt(ordered, maxParts, fits, b)
    ensures TotalAt(ordered, maxParts, fits, a + k) == TotalAt(ordered, maxParts, fits, b + k)
  {
    if k > 0 {
      Periodic(ordered, maxParts, fits, a, b, k - 1);
    }
  }

  /** The counts of unsettled passes lie between 2 and maxParts, so they repeat soon. */
  lemma CountsRepeat<T(!new)>(ordered: seq<T>, maxParts: nat, fits: Fits<T>) returns (a: nat, b: nat)
    requires forall j: nat :: j <= maxParts ==> !SettledAt(ordered, maxParts, fits, j)
    ensures a < b <= maxParts + 1 && TotalAt(ordered, maxParts, fits, a) == TotalAt(ordered, maxParts, fits, b)
  {
    forall k: nat | 1 <= k <= maxParts + 1 ensures 2 <= TotalAt(ordered, maxParts, fits, k) <= Max(1, maxParts) {
      TotalBound(ordered, maxParts, fits, k);
      assert !SettledAt(ordered, maxParts, fits, k - 1);
    }
    var xs: seq<nat> := seq(maxParts + 1, i requires 0 <= i < maxParts + 1 => TotalAt(ordered, maxParts, fits, i + 1) - 1);
    var c, d := Pigeonhole(xs, maxParts);
    a, b := c + 1, d + 1;
  }

  /** If no pass the loop makes is settled, none ever would be. */
  lemma {:induction false} NeverLater<T(!new)>(ordered: seq<T>, maxParts: nat, fits: Fits<T>, k: nat)
    requires forall j: nat :: j <= maxParts ==> !SettledAt(ordered, maxParts, fits, j)
    ensures !SettledAt(ordered, maxParts, fits, k)
  {
    if k > maxParts {
      var a, b := CountsRepeat(ordered, maxParts, fits);
      Periodic(ordered, maxParts, fits, a, b, k - b);
      NeverLater(ordered, maxParts, fits, k - (b - a));
    }
  }

  /** For every measurement: the parts returned were packed against their own count exactly if
      some pass of the unbounded iteration is settled.  The passes the loop allows itself always
      suffice to find one if there is one. */
  lemma SettlesIff<T(!new)>(ordered: seq<T>, maxParts: int, fits: Fits<T>)
    ensures AgainstOwnCount(ordered, Capacity(ordered, maxParts, fits), maxParts, fits)
       <==> EverSettles(ordered, maxParts, fits)
  {
    var g := Capacity(ordered, maxParts, fits);
    if maxParts < 0 {
      PackIsPacked(ordered, maxParts, 1, fits);
      assert SettledAt(ordered, maxParts, fits, 0);
    } else {
      var k := LoopStopsAt(ordered, maxParts, fits, 0);
      if SettledAt(ordered, maxParts, fits, k) {
        assert EverSettles(ordered, maxParts, fits);
      } else {
        forall j: nat ensures !SettledAt(ordered, maxParts, fits, j) {
          NeverLater(ordered, maxParts, fits, j);
        }
        assert TotalAt(ordered, maxParts, fits, k + 1) == |g|;
        assert !SettledAt(ordered, maxParts, fits, k + 1);
      }
    }
  }

  /** When it settles, every part of two or more was measured to fit at the real count. */
  lemma SettledPartsFit<T(!new)>(ordered: seq<T>, maxParts: int, fits: Fits<T>, i: nat)
    requires EverSettles(ordered, maxParts, fits)
    requires var g := Capacity(ordered, maxParts, fits); |g| >= 2 && i < |g| && |g[i]| >= 2
    ensures var g := Capacity(ordered, maxParts, fits); fits(g[i], i + 1, |g|)
  {
    var g := Capacity(ordered, maxParts, fits);
    SettlesIff(ordered, maxParts, fits);
    PackIsPacked(ordered, maxParts, |g|, fits);
    assert g[i][..|g[i]|] == g[i];
  }

  // ---------- a reserve on the last part ----------

  /** Between two and upTo parts the footer does not matter, except for the reserve on the last part. */
  ghost predicate FlatButLast<T(!new)>(fits: Fits<T>, upTo: int) {
    forall g, p, t, t' :: 1 <= p && 2 <= t <= upTo && 2 <= t' <= upTo && p != t && fits(g, p, t') ==> fits(g, p, t)
  }

  /** Fewer items, but some, never hurt. */
  ghost predicate ClosedUnderSuffix<T(!new)>(fits: Fits<T>) {
    forall g, p, t, k :: 0 <= k < |g| && fits(g, p, t) ==> fits(g[k..], p, t)
  }

  ghost predicate ClosedUnderPrefix<T(!new)>(fits: Fits<T>) {
    forall g, p, t, k :: 1 <= k <= |g| && fits(g, p, t) ==> fits(g[..k], p, t)
  }

  /** Which pass the result is from. */
  lemma ResultIsPass<T(!new)>(ordered: seq<T>, maxParts: nat, fits: Fits<T>) returns (k: nat)
    ensures Capacity(ordered, maxParts, fits) == PassAt(ordered, maxParts, fits, k)
    ensures Packed(ordered, PassAt(ordered, maxParts, fits, k), 0, maxParts, TotalAt(ordered, maxParts, fits, k), fits)
    ensures ordered != [] ==> TotalAt(ordered, maxParts, fits, k) >= 1
    ensures |Capacity(ordered, maxParts, fits)| >= 2 ==> TotalAt(ordered, maxParts, fits, k) >= 2
    ensures EverSettles(ordered, maxParts, fits) ==> SettledAt(ordered, maxParts, fits, k)
    ensures k <= maxParts + 1
  {
    k := LoopStopsAt(ordered, maxParts, fits, 0);
    PackIsPacked(ordered, maxParts, TotalAt(ordered, maxParts, fits, k), fits);
    if k > 0 {
      TotalBound(ordered, maxParts, fits, k);
      assert !SettledAt(ordered, maxParts, fits, k - 1);
    }
    if EverSettles(ordered, maxParts, fits) && !SettledAt(ordered, maxParts, fits, k) {
      var j: nat :| SettledAt(ordered, maxParts, fits, j);
      NeverLater(ordered, maxParts, fits, j);
    }
  }

  // ---------- packings compared ----------

  /** A pass that decides alike on every part it makes makes the same parts. */
  lemma {:induction false} SameDecisions<T(!new)>(rest: seq<T>, cur: seq<T>, k: nat, maxParts: int, t: int, t': int, fits: Fits<T>)
    requires var n := |PackFrom(rest, cur, k, maxParts, t, fits)|;
             forall g, p :: k + 1 <= p <= k + n ==> (fits(g, p, t) <==> fits(g, p, t'))
    ensures PackFrom(rest, cur, k, maxParts, t', fits) == PackFrom(rest, cur, k, maxParts, t, fits)
    decreases |rest|
  {
    if rest != [] {
      var trial := cur + [rest[0]];
      var n := |PackFrom(rest, cur, k, maxParts, t, fits)|;
      AtLeastOne(rest, cur, k, maxParts, t, fits);
      assert fits(trial, k + 1, t) <==> fits(trial, k + 1, t');
      if cur != [] && !fits(trial, k + 1, t) {
        if k + 1 < maxParts {
          SameDecisions(rest[1..], [rest[0]], k + 1, maxParts, t, t', fits);
        }
      } else {
        SameDecisions(rest[1..], trial, k, maxParts, t, t', fits);
      }
    }
  }

  lemma {:induction false} AtLeastOne<T(!new)>(rest: seq<T>, cur: seq<T>, k: nat, maxParts: int, t: int, fits: Fits<T>)
    requires rest != [] || cur != []
    ensures |PackFrom(rest, cur, k, maxParts, t, fits)| >= 1
    decreases |rest|
  {
    if rest != [] {
      var trial := cur + [rest[0]];
      if !(cur != [] && !fits(trial, k + 1, t)) {
        AtLeastOne(rest[1..], trial, k, maxParts, t, fits);
      }
    }
  }

  lemma ConcatOne<T>(part: seq<T>)
    ensures Concat([part]) == part
  {
    assert [part][1..] == [];
  }

  /** The same for a pass that decides alike on all parts but the last, when everything is placed
      and the last part fits as it grows. */
  lemma {:induction false} SameButLast<T(!new)>(rest: seq<T>, cur: seq<T>, k: nat, maxParts: int, t: int, t': int, fits: Fits<T>)
    requires rest != [] || cur != []
    requires var g := PackFrom(rest, cur, k, maxParts, t, fits);
             && |g| >= 1 && Concat(g) == cur + rest
             && (forall x, p :: k + 1 <= p < k + |g| ==> (fits(x, p, t) <==> fits(x, p, t')))
             && Growing(g[|g| - 1], k + |g| - 1, t', fits)
    ensures PackFrom(rest, cur, k, maxParts, t', fits) == PackFrom(rest, cur, k, maxParts, t, fits)
    decreases |rest|
  {
    ConcatOne(cur);
    if rest != [] {
      var g, trial := PackFrom(rest, cur, k, maxParts, t, fits), cur + [rest[0]];
      if cur != [] && !fits(trial, k + 1, t) {
        if k + 1 < maxParts {
          var h := PackFrom(rest[1..], [rest[0]], k + 1, maxParts, t, fits);
          AtLeastOne(rest[1..], [rest[0]], k + 1, maxParts, t, fits);
          assert g == [cur] + h && g[1..] == h && g[|g| - 1] == h[|h| - 1];
          assert Concat(g) == cur + Concat(h);
          assert Concat(h) == (cur + rest)[|cur|..] == [rest[0]] + rest[1..];
          assert fits(trial, k + 1, t) <==> fits(trial, k + 1, t');
          SameButLast(rest[1..], [rest[0]], k + 1, maxParts, t, t', fits);
        }
      } else {
        assert trial + rest[1..] == cur + rest;
        if |g| == 1 {
          assert g[0] == cur + rest by {
            assert Concat(g) == g[0] + Concat(g[1..]);
          }
          assert g[0][..|trial|] == trial;
        } else {
          assert fits(trial, k + 1, t) <==> fits(trial, k + 1, t');
        }
        SameButLast(rest[1..], trial, k, maxParts, t, t', fits);
      }
    }
  }

  /** What closed part i of a packing: the item at its right edge did not fit into it. */
  lemma ClosedBecauseFull<T(!new)>(items: seq<T>, g: seq<seq<T>>, maxParts: int, total: int, fits: Fits<T>, i: nat)
    requires Packed(items, g, 0, maxParts, total, fits) && i < |g| && Edge(g, i + 1) < |items|
    ensures Edge(g, i) < Edge(g, i + 1)
    ensures !fits(items[Edge(g, i)..Edge(g, i + 1) + 1], i + 1, total)
  {
    PartIsSlice(g, i);
    var e, e' := Edge(g, i), Edge(g, i + 1);
    assert Concat(g) == items[..|Concat(g)|];
    if i + 1 < |g| {
      PartIsSlice(g, i + 1);
      assert g[i + 1] == Concat(g)[e'..Edge(g, i + 2)];
      assert g[i + 1] != [];
      assert g[i + 1][0] == Concat(g)[e'];
      assert Concat(g)[e'] == items[e'];
      assert items[e..e' + 1] == g[i] + [g[i + 1][0]];
    } else {
      assert g[..i + 1] == g;
      assert items[e..e' + 1] == g[i] + [items[e']];
    }
  }

  /** Any stretch of two or more items that lies inside a packed part fits. */
  lemma SuffixFits<T(!new)>(items: seq<T>, h: seq<seq<T>>, maxParts: int, total: int, fits: Fits<T>, j: nat, a: nat, b: nat)
    requires Packed(items, h, 0, maxParts, total, fits) && ClosedUnderSuffix(fits)
    requires j < |h| && Edge(h, j) <= a && a + 2 <= b <= Edge(h, j + 1)
    ensures b <= |items| && fits(items[a..b], j + 1, total)
  {
    PartIsSlice(h, j);
    var e := Edge(h, j);
    assert Concat(h) == items[..|Concat(h)|];
    assert h[j][..b - e] == Concat(h)[e..b];
    assert Concat(h)[e..b] == items[e..b];
    assert fits(h[j][..b - e], j + 1, total);
    assert items[e..b][a - e..] == items[a..b];
  }

  /** Whatever fits against t' as one of the first upTo parts fits against t. */
  ghost predicate Easier<T(!new)>(fits: Fits<T>, upTo: int, t: int, t': int) {
    forall g, p :: 1 <= p <= upTo && fits(g, p, t') ==> fits(g, p, t)
  }

  /** Greedy stays ahead: the easier pass is never behind at any part. */
  lemma {:induction false} StaysAhead<T(!new)>(items: seq<T>, maxParts: int, t: int, t': int, fits: Fits<T>, i: nat, upTo: int)
    requires Easier(fits, upTo, t, t') && ClosedUnderSuffix(fits) && i <= upTo
    requires i <= |Pack(items, maxParts, t, fits)| && i <= |Pack(items, maxParts, t', fits)|
    ensures Edge(Pack(items, maxParts, t, fits), i) >= Edge(Pack(items, maxParts, t', fits), i)
  {
    var g, h := Pack(items, maxParts, t, fits), Pack(items, maxParts, t', fits);
    if i > 0 {
      var j := i - 1;
      StaysAhead(items, maxParts, t, t', fits, j, upTo);
      PackIsPacked(items, maxParts, t, fits);
      PackIsPacked(items, maxParts, t', fits);
      PartIsSlice(h, j);
      if Edge(g, i) < Edge(h, i) {
        ClosedBecauseFull(items, g, maxParts, t, fits, j);
        SuffixFits(items, h, maxParts, t', fits, j, Edge(g, j), Edge(g, i) + 1);
        assert false;
      }
    }
  }

  /** The easier pass never needs more parts. */
  lemma EasierNeedsNoMore<T(!new)>(items: seq<T>, maxParts: int, t: int, t': int, fits: Fits<T>, upTo: int)
    requires Easier(fits, upTo, t, t') && ClosedUnderSuffix(fits) && maxParts >= 1
    requires |Pack(items, maxParts, t', fits)| <= upTo
    ensures |Pack(items, maxParts, t, fits)| <= |Pack(items, maxParts, t', fits)|
  {
    var g, h := Pack(items, maxParts, t, fits), Pack(items, maxParts, t', fits);
    PackIsPacked(items, maxParts, t, fits);
    PackIsPacked(items, maxParts, t', fits);
    if |h| < |g| {
      var n := |h|;
      StaysAhead(items, maxParts, t, t', fits, n, upTo);
      assert h[..n] == h;
      PartIsSlice(g, n);
    }
  }

  // ---------- footers of one width ----------

  /** The packing that ignores the reserve: against a count that none of its parts has. */
  function Unreserved<T>(ordered: seq<T>, maxParts: nat, fits: Fits<T>, upTo: nat): seq<seq<T>> {
    Pack(ordered, maxParts, upTo, fits)
  }

  /** What is assumed of a measurement: between two and upTo parts all footers are equally wide, and
      no pass against at most upTo parts makes that many.  One part may well have no footer at all. */
  ghost predicate FlatBelow<T(!new)>(ordered: seq<T>, maxParts: nat, fits: Fits<T>, upTo: nat) {
    && maxParts >= 1 && upTo >= 2
    && FlatButLast(fits, upTo) && ClosedUnderSuffix(fits) && ClosedUnderPrefix(fits)
    && forall t :: 1 <= t <= upTo ==> |Pack(ordered, maxParts, t, fits)| < upTo
  }

  /** A cap below upTo is enough for the passes to stay below it. */
  lemma CapKeepsBelow<T(!new)>(ordered: seq<T>, maxParts: nat, fits: Fits<T>, upTo: nat)
    requires 1 <= maxParts < upTo
    requires FlatButLast(fits, upTo) && ClosedUnderSuffix(fits) && ClosedUnderPrefix(fits)
    ensures FlatBelow(ordered, maxParts, fits, upTo)
  {
    forall t | 1 <= t <= upTo ensures |Pack(ordered, maxParts, t, fits)| < upTo {
      PackIsPacked(ordered, maxParts, t, fits);
    }
  }

  /** What fits a part fits any later one, the reserve aside. */
  ghost predicate LaterIsEasier<T(!new)>(fits: Fits<T>, upTo: nat) {
    forall g, p, q, t :: 1 <= p < q <= upTo && 1 <= t <= upTo && q != t && fits(g, p, upTo) ==> fits(g, q, t)
  }

  /** Then no pass is more than one part behind the unreserved one. */
  lemma {:induction false} OneBehind<T(!new)>(items: seq<T>, maxParts: nat, fits: Fits<T>, upTo: nat, t: nat, i: nat)
    requires FlatButLast(fits, upTo) && ClosedUnderSuffix(fits) && LaterIsEasier(fits, upTo) && 1 <= t <= upTo
    requires i < |Pack(items, maxParts, t, fits)| && i <= |Unreserved(items, maxParts, fits, upTo)| && i < upTo
    ensures Edge(Pack(items, maxParts, t, fits), i + 1) >= Edge(Unreserved(items, maxParts, fits, upTo), i)
  {
    var h, least := Pack(items, maxParts, t, fits), Unreserved(items, maxParts, fits, upTo);
    if i > 0 {
      PackIsPacked(items, maxParts, t, fits);
      PackIsPacked(items, maxParts, upTo, fits);
      PartIsSlice(h, i);
      PartIsSlice(least, i - 1);
      if i + 1 == t {
        StaysAhead(items, maxParts, t, upTo, fits, i, i);
      } else {
        OneBehind(items, maxParts, fits, upTo, t, i - 1);
        if Edge(h, i + 1) < Edge(least, i) {
          ClosedBecauseFull(items, h, maxParts, t, fits, i);
          SuffixFits(items, least, maxParts, upTo, fits, i - 1, Edge(h, i), Edge(h, i + 1) + 1);
          assert false;
        }
      }
    }
  }

  /** So one packing tells that all passes stay below upTo. */
  lemma OnePackingBounds<T(!new)>(ordered: seq<T>, maxParts: nat, fits: Fits<T>, upTo: nat, t: nat)
    requires maxParts >= 1 && FlatButLast(fits, upTo) && ClosedUnderSuffix(fits) && LaterIsEasier(fits, upTo)
    requires 1 <= t <= upTo && |Unreserved(ordered, maxParts, fits, upTo)| < upTo
    ensures |Pack(ordered, maxParts, t, fits)| <= |Unreserved(ordered, maxParts, fits, upTo)| + 1
  {
    var h, least := Pack(ordered, maxParts, t, fits), Unreserved(ordered, maxParts, fits, upTo);
    var n := |least|;
    PackIsPacked(ordered, maxParts, t, fits);
    PackIsPacked(ordered, maxParts, upTo, fits);
    if |h| > n + 1 {
      OneBehind(ordered, maxParts, fits, upTo, t, n);
      assert least[..n] == least;
      PartIsSlice(h, n + 1);
    }
  }

  /** Against a larger count than it has parts every pass is the unreserved one; against any other
      count from two on it has at least as many parts. */
  lemma UnreservedIsLeast<T(!new)>(ordered: seq<T>, maxParts: nat, fits: Fits<T>, upTo: nat, t: nat)
    requires FlatBelow(ordered, maxParts, fits, upTo) && 2 <= t <= upTo
    ensures var least := Unreserved(ordered, maxParts, fits, upTo);
            && |least| <= maxParts && |least| < upTo && |least| <= |Pack(ordered, maxParts, t, fits)|
            && (t > |least| ==> Pack(ordered, maxParts, t, fits) == least)
  {
    var least := Unreserved(ordered, maxParts, fits, upTo);
    PackIsPacked(ordered, maxParts, upTo, fits);
    EasierNeedsNoMore(ordered, maxParts, upTo, t, fits, upTo - 1);
    if t > |least| {
      SameDecisions(ordered, [], 0, maxParts, upTo, t, fits);
    }
  }

  /** The last part of the unreserved packing leaves room for the reserve. */
  predicate LastHasRoom<T>(g: seq<seq<T>>, fits: Fits<T>)
    requires g != []
  {
    |g[|g| - 1]| == 1 || fits(g[|g| - 1], |g|, |g|)
  }

  lemma CompleteBelowCap<T(!new)>(ordered: seq<T>, maxParts: nat, t: int, fits: Fits<T>)
    requires 1 <= |Pack(ordered, maxParts, t, fits)| < maxParts
    ensures ordered != [] && Concat(Pack(ordered, maxParts, t, fits)) == [] + ordered
  {
    PackIsPacked(ordered, maxParts, t, fits);
  }

  /** Packing against the unreserved count reproduces it exactly if the cap is reached or the last
      part has room for the reserve. */
  lemma UnreservedSettles<T(!new)>(ordered: seq<T>, maxParts: nat, fits: Fits<T>, upTo: nat)
    requires FlatBelow(ordered, maxParts, fits, upTo) && |Unreserved(ordered, maxParts, fits, upTo)| >= 2
    ensures var least := Unreserved(ordered, maxParts, fits, upTo);
            |Pack(ordered, maxParts, |least|, fits)| == |least| <==> |least| == maxParts || LastHasRoom(least, fits)
  {
    var least := Unreserved(ordered, maxParts, fits, upTo);
    var n := |least|;
    PackIsPacked(ordered, maxParts, upTo, fits);
    PackIsPacked(ordered, maxParts, n, fits);
    UnreservedIsLeast(ordered, maxParts, fits, upTo, n);
    if n < maxParts {
      if LastHasRoom(least, fits) {
        CompleteBelowCap(ordered, maxParts, upTo, fits);
        SameButLast(ordered, [], 0, maxParts, upTo, n, fits);
      }
      var h := Pack(ordered, maxParts, n, fits);
      if |h| == n {
        CompleteBelowCap(ordered, maxParts, n, fits);
        assert Growing(h[n - 1], n - 1, n, fits) && Growing(h[n - 1], n - 1, upTo, fits);
        SameButLast(ordered, [], 0, maxParts, n, upTo, fits);
        assert h[n - 1][..|h[n - 1]|] == h[n - 1];
      }
    }
  }

  lemma {:induction false} TotalsBelow<T(!new)>(ordered: seq<T>, maxParts: nat, fits: Fits<T>, upTo: nat, k: nat)
    requires FlatBelow(ordered, maxParts, fits, upTo) && ordered != []
    ensures 1 <= TotalAt(ordered, maxParts, fits, k) < upTo
  {
    if k > 0 {
      TotalsBelow(ordered, maxParts, fits, upTo, k - 1);
      TotalBound(ordered, maxParts, fits, k);
    }
  }

  /** A caller can tell beforehand.  The loop settles exactly if everything fits into one part, or the
      packing without the reserve takes at most one part or the whole cap, or leaves the reserve free
      on its last part. */
  lemma FlatSettlesIff<T(!new)>(ordered: seq<T>, maxParts: nat, fits: Fits<T>, upTo: nat)
    requires FlatBelow(ordered, maxParts, fits, upTo)
    ensures var least := Unreserved(ordered, maxParts, fits, upTo);
            EverSettles(ordered, maxParts, fits) <==>
              || |Pack(ordered, maxParts, 1, fits)| <= 1
              || |least| <= 1 || |least| == maxParts || LastHasRoom(least, fits)
  {
    var n := |Unreserved(ordered, maxParts, fits, upTo)|;
    if n >= 2 {
      UnreservedSettles(ordered, maxParts, fits, upTo);
    }
    if EverSettles(ordered, maxParts, fits) && ordered != [] {
      var k: nat :| SettledAt(ordered, maxParts, fits, k);
      var t := TotalAt(ordered, maxParts, fits, k);
      TotalsBelow(ordered, maxParts, fits, upTo, k);
      if t >= 2 {
        UnreservedIsLeast(ordered, maxParts, fits, upTo, t);
      }
    }
    if |Pack(ordered, maxParts, 1, fits)| <= 1 {
      assert SettledAt(ordered, maxParts, fits, 0);
    } else if n <= 1 || |Pack(ordered, maxParts, n, fits)| == n {
      ReachesUnreserved(ordered, maxParts, fits, upTo);
    }
  }

  /** The iteration is at the unreserved count after at most three passes: the first may come out
      below it, having no footer to measure, the second above it. */
  lemma ReachesUnreserved<T(!new)>(ordered: seq<T>, maxParts: nat, fits: Fits<T>, upTo: nat)
    requires FlatBelow(ordered, maxParts, fits, upTo) && |Pack(ordered, maxParts, 1, fits)| >= 2
    requires var n := |Unreserved(ordered, maxParts, fits, upTo)|; n <= 1 || |Pack(ordered, maxParts, n, fits)| == n
    ensures EverSettles(ordered, maxParts, fits)
  {
    var first := TotalAt(ordered, maxParts, fits, 1);
    assert first == |Pack(ordered, maxParts, TotalAt(ordered, maxParts, fits, 0), fits)|;
    TotalsBelow(ordered, maxParts, fits, upTo, 1);
    if SettlesFrom(ordered, maxParts, fits, upTo, 1) {
      SettlesSoon(ordered, maxParts, fits, upTo, 1);
    } else {
      UnreservedIsLeast(ordered, maxParts, fits, upTo, first);
      assert TotalAt(ordered, maxParts, fits, 2) == |Pack(ordered, maxParts, first, fits)|;
      SettlesSoon(ordered, maxParts, fits, upTo, 2);
    }
  }

  ghost predicate SettlesFrom<T(!new)>(ordered: seq<T>, maxParts: nat, fits: Fits<T>, upTo: nat, k: nat) {
    TotalAt(ordered, maxParts, fits, k) >= |Unreserved(ordered, maxParts, fits, upTo)|
  }

  /** At or above the unreserved count it takes at most one pass more. */
  lemma {:induction false} SettlesSoon<T(!new)>(ordered: seq<T>, maxParts: nat, fits: Fits<T>, upTo: nat, k: nat)
    requires FlatBelow(ordered, maxParts, fits, upTo) && SettlesFrom(ordered, maxParts, fits, upTo, k)
    requires 2 <= TotalAt(ordered, maxParts, fits, k) <= upTo
    requires var n := |Unreserved(ordered, maxParts, fits, upTo)|; n <= 1 || |Pack(ordered, maxParts, n, fits)| == n
    ensures EverSettles(ordered, maxParts, fits)
  {
    var n, t := |Unreserved(ordered, maxParts, fits, upTo)|, TotalAt(ordered, maxParts, fits, k);
    if t == n {
      assert SettledAt(ordered, maxParts, fits, k);
    } else {
      UnreservedIsLeast(ordered, maxParts, fits, upTo, t);
      assert TotalAt(ordered, maxParts, fits, k + 1) == n;
      assert SettledAt(ordered, maxParts, fits, if n <= 1 then k else k + 1);
    }
  }

  /** When it does not settle and ends on fewer parts than it packed against, the last part does
      not leave the reserve free, although the cap would have allowed another part. */
  lemma UnsettledLastOverflows<T(!new)>(ordered: seq<T>, maxParts: nat, fits: Fits<T>, upTo: nat) returns (k: nat)
    requires FlatBelow(ordered, maxParts, fits, upTo) && !EverSettles(ordered, maxParts, fits)
    ensures var g, t := Capacity(ordered, maxParts, fits), TotalAt(ordered, maxParts, fits, k);
      && g == Pack(ordered, maxParts, t, fits)
      && (|g| < t ==> 2 <= |g| < maxParts && |g[|g| - 1]| >= 2 && !fits(g[|g| - 1], |g|, |g|))
  {
    k := ResultIsPass(ordered, maxParts, fits);
    var g, t := Capacity(ordered, maxParts, fits), TotalAt(ordered, maxParts, fits, k);
    FlatSettlesIff(ordered, maxParts, fits, upTo);
    if |g| < t {
      assert !SettledAt(ordered, maxParts, fits, k);
      assert ordered == [] ==> |Pack(ordered, maxParts, 1, fits)| <= 1;
      TotalsBelow(ordered, maxParts, fits, upTo, k);
      UnreservedIsLeast(ordered, maxParts, fits, upTo, t);
    }
  }
}
