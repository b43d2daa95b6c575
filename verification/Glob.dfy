/** The star-backtracking wildcard matcher of internal/drift/classify_filter.go, against
    the plain recursive meaning of `*` (any run of bytes) and `?` (any one byte). */
module Glob {
  import opened Strings

  /** The meaning of a pattern. */
  predicate Matches(p: string, s: string)
    decreases |p| + |s|
  {
    if p == [] then s == []
    else if p[0] == '*' then Matches(p[1..], s) || (s != [] && Matches(p, s[1..]))
    else s != [] && (p[0] == '?' || p[0] == s[0]) && Matches(p[1..], s[1..])
  }

  /** The last star passed, if any: its place in the pattern, and where in the subject its run ends. */
  datatype Star = NoStar | Star(px: nat, sx: nat)

  predicate Bounds(p: string, s: string, px: nat, sx: nat, star: Star) {
    && px <= |p| && sx <= |s|
    && (star.Star? ==> star.px < px && star.sx <= sx)
  }

  /** The loop of wildcardMatch as a function of its four indices.  The literal case is
      tried before the star case, as in the code. */
  predicate Scan(p: string, s: string, px: nat, sx: nat, star: Star)
    requires Bounds(p, s, px, sx, star)
    decreases if star.Star? then |p| - star.px else |p| + 1,
              if star.Star? then |s| - star.sx else 0,
              |s| - sx
  {
    if sx == |s| then forall k :: px <= k < |p| ==> p[k] == '*'
    else if px < |p| && (p[px] == '?' || p[px] == s[sx]) then Scan(p, s, px + 1, sx + 1, star)
    else if px < |p| && p[px] == '*' then Scan(p, s, px + 1, sx, Star(px, sx))
    else if star.Star? then Scan(p, s, star.px + 1, star.sx + 1, Star(star.px, star.sx + 1))
    else false
  }

  /** The code: four indices, a loop over the subject and one over trailing stars. */
  method WildcardMatch(pattern: string, s: string) returns (matched: bool)
    ensures matched == Scan(pattern, s, 0, 0, NoStar)
  {
    var px, sx := 0, 0;
    var starPx, starSx := -1, 0;
    while sx < |s|
      invariant 0 <= px <= |pattern| && 0 <= sx <= |s| && -1 <= starPx && 0 <= starSx
      invariant starPx != -1 ==> starPx < px && starSx <= sx
      invariant Scan(pattern, s, px, sx, if starPx == -1 then NoStar else Star(starPx, starSx))
                == Scan(pattern, s, 0, 0, NoStar)
      decreases if starPx != -1 then |pattern| - starPx else |pattern| + 1,
                if starPx != -1 then |s| - starSx else 0,
                |s| - sx
    {
      if px < |pattern| && (pattern[px] == '?' || pattern[px] == s[sx]) {
        px, sx := px + 1, sx + 1;
      } else if px < |pattern| && pattern[px] == '*' {
        starPx, starSx := px, sx;
        px := px + 1;
      } else if starPx != -1 {
        starSx := starSx + 1;
        px, sx := starPx + 1, starSx;
      } else {
        return false;
      }
    }
    ghost var stop := px;
    while px < |pattern| && pattern[px] == '*'
      invariant stop <= px <= |pattern|
      invariant forall k :: stop <= k < px ==> pattern[k] == '*'
    {
      px := px + 1;
    }
    return px == |pattern|;
  }

  // ---------- facts about the meaning ----------

  ghost predicate StarFree(q: string) {
    forall k :: 0 <= k < |q| ==> q[k] != '*'
  }

  /** A star-free pattern against a text of the same length, byte by byte. */
  ghost predicate Fits(q: string, t: string) {
    |q| == |t| && forall k :: 0 <= k < |q| ==> q[k] == '?' || q[k] == t[k]
  }

  lemma {:induction false} StarFreePrefix(q: string, r: string, s: string)
    requires StarFree(q)
    ensures Matches(q + r, s) <==> |q| <= |s| && Fits(q, s[..|q|]) && Matches(r, s[|q|..])
  {
    if q == [] {
      assert q + r == r && s[0..] == s;
    } else {
      assert (q + r)[1..] == q[1..] + r;
      if s != [] {
        StarFreePrefix(q[1..], r, s[1..]);
        if |q| <= |s| {
          assert s[1..][|q| - 1..] == s[|q|..];
          assert s[..|q|][1..] == s[1..][..|q| - 1];
          assert Fits(q, s[..|q|]) <==> (q[0] == '?' || q[0] == s[0]) && Fits(q[1..], s[1..][..|q| - 1]) by {
            var t := s[..|q|];
            assert forall k :: 0 <= k < |q| - 1 ==> q[1..][k] == q[k + 1] && t[1..][k] == t[k + 1];
            if Fits(q[1..], t[1..]) && (q[0] == '?' || q[0] == s[0]) {
              forall k | 0 <= k < |q| ensures q[k] == '?' || q[k] == t[k] {
                if k > 0 {
                  assert q[1..][k - 1] == q[k] && t[1..][k - 1] == t[k];
                }
              }
            }
          }
        }
      }
    }
  }

  /** A leading star may swallow any amount: it matches if the rest matches some suffix. */
  lemma {:induction false} StarMeansSomeSuffix(r: string, s: string)
    ensures Matches("*" + r, s) <==> exists j :: 0 <= j <= |s| && Matches(r, s[j..])
    decreases |s|
  {
    assert ("*" + r)[1..] == r;
    assert s[0..] == s;
    if s != [] {
      StarMeansSomeSuffix(r, s[1..]);
      if Matches("*" + r, s[1..]) {
        var j :| 0 <= j <= |s[1..]| && Matches(r, s[1..][j..]);
        assert s[1..][j..] == s[j + 1..];
      }
      if exists j :: 0 <= j <= |s| && Matches(r, s[j..]) {
        var j :| 0 <= j <= |s| && Matches(r, s[j..]);
        if j > 0 {
          assert s[j..] == s[1..][j - 1..];
        }
      }
    }
  }

  /** Swallowing more is never a loss for a pattern that starts with a star. */
  lemma {:induction false} StarAbsorbs(r: string, s: string, j: nat)
    requires j <= |s| && Matches("*" + r, s[j..])
    ensures Matches("*" + r, s)
  {
    StarMeansSomeSuffix(r, s[j..]);
    var k :| 0 <= k <= |s[j..]| && Matches(r, s[j..][k..]);
    assert s[j..][k..] == s[j + k..];
    StarMeansSomeSuffix(r, s);
  }

  lemma {:induction false} OnlyStarsMatchEmpty(r: string)
    ensures Matches(r, []) <==> forall k :: 0 <= k < |r| ==> r[k] == '*'
  {
    if r != [] {
      OnlyStarsMatchEmpty(r[1..]);
      assert forall k :: 0 < k < |r| ==> r[k] == r[1..][k - 1];
    }
  }

  // ---------- the code against the meaning ----------

  /** What is known in the loop: after the last star, the bytes consumed fit the star-free
      stretch of pattern consumed. */
  ghost predicate Aligned(p: string, s: string, px: nat, sx: nat, star: Star)
    requires Bounds(p, s, px, sx, star)
  {
    star.Star? ==>
      && p[star.px] == '*'
      && StarFree(p[star.px + 1..px])
      && Fits(p[star.px + 1..px], s[star.sx..sx])
  }

  /** The match that is still to be decided: from the last star on, if there is one. */
  ghost predicate Remaining(p: string, s: string, px: nat, sx: nat, star: Star)
    requires Bounds(p, s, px, sx, star)
  {
    if star.Star? then Matches(p[star.px..], s[star.sx..]) else Matches(p[px..], s[sx..])
  }

  /** The star's tail, split at px, decided on the alignment already found. */
  lemma TailAligned(p: string, s: string, px: nat, sx: nat, star: Star)
    requires Bounds(p, s, px, sx, star) && star.Star? && Aligned(p, s, px, sx, star)
    ensures Matches(p[star.px + 1..], s[star.sx..]) <==> Matches(p[px..], s[sx..])
  {
    var q := p[star.px + 1..px];
    assert p[star.px + 1..] == q + p[px..];
    assert |q| == sx - star.sx;
    assert s[star.sx..][..|q|] == s[star.sx..sx];
    assert s[star.sx..][|q|..] == s[sx..];
    StarFreePrefix(q, p[px..], s[star.sx..]);
  }

  /** A star, the stretch after it, and the rest. */
  lemma StarTail(p: string, a: nat, b: nat)
    requires a < b <= |p| && p[a] == '*'
    ensures p[a + 1..] == p[a + 1..b] + p[b..]
    ensures p[a..] == "*" + (p[a + 1..b] + p[b..])
  {
    assert p[a..] == [p[a]] + p[a + 1..];
  }

  /** Reaching a second star, the first alignment found is as good as any later one. */
  lemma LeftmostSuffices(p: string, s: string, px: nat, sx: nat, star: Star)
    requires Bounds(p, s, px, sx, star) && star.Star? && Aligned(p, s, px, sx, star)
    requires px < |p| && p[px] == '*'
    ensures Matches(p[star.px..], s[star.sx..]) <==> Matches(p[px..], s[sx..])
  {
    var q, t, r := p[star.px + 1..px], s[star.sx..], p[px + 1..];
    assert p[px..] == "*" + r;
    StarTail(p, star.px, px);
    TailAligned(p, s, px, sx, star);
    StarMeansSomeSuffix(q + p[px..], t);
    assert t[0..] == t;
    if Matches(p[star.px..], t) {
      var j :| 0 <= j <= |t| && Matches(q + p[px..], t[j..]);
      StarFreePrefix(q, p[px..], t[j..]);
      assert t[j..][|q|..] == s[sx..][j..];
      StarAbsorbs(r, s[sx..], j);
    }
  }

  /** The subject is used up: the trailing pattern must be all stars, and no later alignment helps. */
  lemma SubjectExhausted(p: string, s: string, px: nat, star: Star)
    requires Bounds(p, s, px, |s|, star) && Aligned(p, s, px, |s|, star)
    ensures Remaining(p, s, px, |s|, star) <==> forall k :: px <= k < |p| ==> p[k] == '*'
  {
    OnlyStarsMatchEmpty(p[px..]);
    assert s[|s|..] == [];
    assert (forall k :: px <= k < |p| ==> p[k] == '*') <==> (forall k :: 0 <= k < |p[px..]| ==> p[px..][k] == '*') by {
      assert forall k :: px <= k < |p| ==> p[k] == p[px..][k - px];
    }
    if star.Star? {
      TailAligned(p, s, px, |s|, star);
      var q, t := p[star.px + 1..px], s[star.sx..];
      StarTail(p, star.px, px);
      StarMeansSomeSuffix(q + p[px..], t);
      assert t[0..] == t;
      if Matches(p[star.px..], t) {
        var j :| 0 <= j <= |t| && Matches(q + p[px..], t[j..]);
        StarFreePrefix(q, p[px..], t[j..]);
        assert j == 0;
      }
    }
  }

  /** A byte that fits is consumed on both sides. */
  lemma LiteralStep(p: string, s: string, px: nat, sx: nat, star: Star)
    requires Bounds(p, s, px, sx, star) && Aligned(p, s, px, sx, star)
    requires px < |p| && sx < |s| && p[px] != '*' && (p[px] == '?' || p[px] == s[sx])
    ensures Aligned(p, s, px + 1, sx + 1, star)
    ensures Remaining(p, s, px, sx, star) == Remaining(p, s, px + 1, sx + 1, star)
  {
    if star.Star? {
      assert p[star.px + 1..px + 1] == p[star.px + 1..px] + [p[px]];
      assert s[star.sx..sx + 1] == s[star.sx..sx] + [s[sx]];
    } else {
      assert p[px..][1..] == p[px + 1..] && s[sx..][1..] == s[sx + 1..];
    }
  }

  /** A byte that does not fit sends the last star one byte further. */
  lemma BacktrackStep(p: string, s: string, px: nat, sx: nat, star: Star)
    requires Bounds(p, s, px, sx, star) && Aligned(p, s, px, sx, star) && star.Star? && sx < |s|
    requires px == |p| || (p[px] != '*' && p[px] != '?' && p[px] != s[sx])
    ensures Remaining(p, s, px, sx, star) == Matches(p[star.px..], s[star.sx + 1..])
  {
    TailAligned(p, s, px, sx, star);
    assert !Matches(p[px..], s[sx..]);
    assert p[star.px..][1..] == p[star.px + 1..] && s[star.sx..][1..] == s[star.sx + 1..];
  }

  lemma {:induction false} ScanAgrees(p: string, s: string, px: nat, sx: nat, star: Star)
    requires Bounds(p, s, px, sx, star) && Aligned(p, s, px, sx, star) && StarFree(s)
    ensures Scan(p, s, px, sx, star) == Remaining(p, s, px, sx, star)
    decreases if star.Star? then |p| - star.px else |p| + 1,
              if star.Star? then |s| - star.sx else 0,
              |s| - sx
  {
    if sx == |s| {
      SubjectExhausted(p, s, px, star);
    } else if px < |p| && (p[px] == '?' || p[px] == s[sx]) {
      LiteralStep(p, s, px, sx, star);
      ScanAgrees(p, s, px + 1, sx + 1, star);
    } else if px < |p| && p[px] == '*' {
      ScanAgrees(p, s, px + 1, sx, Star(px, sx));
      if star.Star? {
        LeftmostSuffices(p, s, px, sx, star);
      }
    } else if star.Star? {
      BacktrackStep(p, s, px, sx, star);
      ScanAgrees(p, s, star.px + 1, star.sx + 1, Star(star.px, star.sx + 1));
    }
  }

  /** The verdict of the code. */
  predicate CodeMatches(p: string, s: string) {
    Scan(p, s, 0, 0, NoStar)
  }

  /** For every pattern and every subject without a `*` byte the backtracking matcher decides
      exactly the recursive meaning. */
  lemma {:induction false} AgreesOnStarFreeSubjects(p: string, s: string)
    requires StarFree(s)
    ensures CodeMatches(p, s) <==> Matches(p, s)
  {
    ScanAgrees(p, s, 0, 0, NoStar);
    assert p[0..] == p && s[0..] == s;
  }

  // ---------- why the hypothesis is needed ----------

  /** For a subject whose last star is at k: its text up to there, then `*?`, then its tail. */
  function Trap(s: string, k: nat): string
    requires k < |s|
  {
    s[..k] + "*?" + s[k + 1..]
  }

  lemma {:induction false} SelfMatch(s: string)
    ensures Matches(s, s)
  {
    if s != [] {
      SelfMatch(s[1..]);
      if s[0] == '*' {
        var p := s;
        assert Matches(p[1..], s[1..]);
        StarMeansSomeSuffix(p[1..], s);
        assert "*" + p[1..] == p;
        assert Matches(p[1..], s[1..]);
      }
    }
  }

  lemma {:induction false} SelfPrefix(u: string, r: string, t: string)
    requires Matches(r, t)
    ensures Matches(u + r, u + t)
  {
    if u == [] {
      assert u + r == r && u + t == t;
    } else {
      SelfPrefix(u[1..], r, t);
      assert (u + r)[1..] == u[1..] + r && (u + t)[1..] == u[1..] + t;
      if u[0] == '*' {
        StarMeansSomeSuffix(u[1..] + r, u + t);
        assert u + r == "*" + (u[1..] + r);
        assert (u + t)[1..] == u[1..] + t;
      }
    }
  }

  /** The code walks through the literal copy, star included, without remembering a star. */
  lemma {:induction false} ScanWalksCopy(p: string, s: string, k: nat, n: nat)
    requires k <= n <= |s| && n <= |p| && p[..n] == s[..n]
    ensures Scan(p, s, k, k, NoStar) == Scan(p, s, n, n, NoStar)
    decreases n - k
  {
    if k < n {
      assert p[k] == p[..n][k] == s[k];
      ScanWalksCopy(p, s, k + 1, n);
    }
  }

  /** A star-free rest of pattern that is longer than the rest of the subject cannot match. */
  lemma {:induction false} ScanTooLong(p: string, s: string, px: nat, sx: nat)
    requires px <= |p| && sx <= |s| && |p| - px > |s| - sx && StarFree(p[px..])
    ensures !Scan(p, s, px, sx, NoStar)
    decreases |s| - sx
  {
    assert p[px] == p[px..][0];
    if sx < |s| && (p[px] == '?' || p[px] == s[sx]) {
      assert p[px..][1..] == p[px + 1..];
      ScanTooLong(p, s, px + 1, sx + 1);
    }
  }

  lemma TrapIsMissed(s: string, k: nat)
    requires k < |s| && s[k] == '*' && StarFree(s[k + 1..])
    ensures !CodeMatches(Trap(s, k), s)
  {
    var p := Trap(s, k);
    assert p[..k + 1] == s[..k + 1];
    ScanWalksCopy(p, s, 0, k + 1);
    assert p[k + 1..] == "?" + s[k + 1..];
    ScanTooLong(p, s, k + 1, k + 1);
  }

  /** In the meaning, a star matches nothing and `?` the star byte that follows. */
  lemma {:induction false} StarQuestionMatches(c: char, v: string)
    ensures Matches("*?" + v, [c] + v)
  {
    var r, t := "?" + v, [c] + v;
    SelfMatch(v);
    assert r[1..] == v && t[1..] == v;
    assert Matches(r, t);
    assert ("*?" + v)[1..] == r;
  }

  lemma CutAt(s: string, k: nat)
    requires k < |s|
    ensures s == s[..k] + ([s[k]] + s[k + 1..])
  {
  }

  lemma {:induction false} TrapMatches(s: string, k: nat)
    requires k < |s|
    ensures Matches(Trap(s, k), s)
  {
    var u, c, v := s[..k], s[k], s[k + 1..];
    StarQuestionMatches(c, v);
    SelfPrefix(u, "*?" + v, [c] + v);
    Assoc(u, "*?", v);
    CutAt(s, k);
  }

  lemma {:induction false} LastStar(s: string) returns (k: nat)
    requires !StarFree(s)
    ensures k < |s| && s[k] == '*' && StarFree(s[k + 1..])
  {
    var n := |s| - 1;
    if s[n] == '*' {
      k := n;
    } else {
      assert !StarFree(s[..n]) by {
        var i :| 0 <= i < |s| && s[i] == '*';
        assert s[..n][i] == '*';
      }
      k := LastStar(s[..n]);
      assert s[k + 1..] == s[..n][k + 1..] + [s[n]];
    }
  }

  /** Exactly when the matcher can be trusted: it decides the meaning of every pattern on a
      given subject if and only if the subject holds no `*`. */
  lemma {:induction false} TrustworthyIffStarFree(s: string)
    ensures (forall p :: CodeMatches(p, s) <==> Matches(p, s)) <==> StarFree(s)
  {
    if StarFree(s) {
      forall p ensures CodeMatches(p, s) <==> Matches(p, s) {
        AgreesOnStarFreeSubjects(p, s);
      }
    } else {
      var k := LastStar(s);
      TrapIsMissed(s, k);
      TrapMatches(s, k);
    }
  }
}
