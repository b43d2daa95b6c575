/** The reserve that `paginate` (internal/core/render/overflow.go) keeps for the over-cap note on
    the last part, and what it does to the repeated packing of splitByCapacity. */
module Reserve {
  import opened Splitting
  import opened Settling
  import opened StatusGroups
  import opened Pagination

  /** How long a group renders as one part of so many. */
  function Length(b: Board, stacks: seq<Stack>, g: seq<Stack>, part: nat, total: nat): nat {
    |b.render(g, PartOpts(b, stacks, part, total))|
  }

  /** What a part may take after its marker is rewritten. */
  function Room(b: Board, part: nat): int {
    COMMENT_MAX - (|PartMarker(b.marker, part)| - |b.marker|)
  }

  function NoteReserve(stacks: seq<Stack>): nat {
    |OverCapNote(|stacks|)|
  }

  /** The measurement of paginate: room for the text, and on the last part for the note as well. */
  lemma MeasureIs(b: Board, stacks: seq<Stack>, g: seq<Stack>, part: nat, total: nat)
    ensures Measure(b, stacks)(g, part, total) <==>
              Length(b, stacks, g, part, total) + (if part == total || total == 0 then NoteReserve(stacks) else 0) <= Room(b, part)
  {
  }

  /** A longer footer makes no part shorter. */
  ghost predicate LongerFooters(b: Board, stacks: seq<Stack>) {
    forall g, p: nat, t: nat, t': nat :: 1 <= t <= t' ==> Length(b, stacks, g, p, t) <= Length(b, stacks, g, p, t')
  }

  /** Between two and upTo parts all footers are equally wide; up to nine that is so, the counts having
      one digit.  One part need not have a footer, or the column that leads to the other parts. */
  ghost predicate EqualFooters(b: Board, stacks: seq<Stack>, upTo: nat) {
    forall g, p: nat, t: nat, t': nat ::
      2 <= t <= upTo && 2 <= t' <= upTo ==> Length(b, stacks, g, p, t) == Length(b, stacks, g, p, t')
  }

  /** Fewer stacks, but some, render no longer. */
  ghost predicate FewerIsShorter(b: Board, stacks: seq<Stack>) {
    && (forall g, p: nat, t: nat, k :: 0 <= k < |g| ==> Length(b, stacks, g[k..], p, t) <= Length(b, stacks, g, p, t))
    && (forall g, p: nat, t: nat, k :: 1 <= k <= |g| ==> Length(b, stacks, g[..k], p, t) <= Length(b, stacks, g, p, t))
  }

  lemma MeasureFlat(b: Board, stacks: seq<Stack>, upTo: nat)
    requires EqualFooters(b, stacks, upTo) && FewerIsShorter(b, stacks)
    ensures var fits := Measure(b, stacks); FlatButLast(fits, upTo) && ClosedUnderSuffix(fits) && ClosedUnderPrefix(fits)
  {
    var fits := Measure(b, stacks);
    forall g, p, t, t' | 1 <= p && 2 <= t <= upTo && 2 <= t' <= upTo && p != t && fits(g, p, t') ensures fits(g, p, t) {
      MeasureIs(b, stacks, g, p, t);
      MeasureIs(b, stacks, g, p, t');
      assert Length(b, stacks, g, p, t) == Length(b, stacks, g, p, t');
    }
    forall g, p, t, k | 0 <= k < |g| && fits(g, p, t) ensures fits(g[k..], p, t) {
      assert Length(b, stacks, g[k..], p, t) <= Length(b, stacks, g, p, t);
    }
    forall g, p, t, k | 1 <= k <= |g| && fits(g, p, t) ensures fits(g[..k], p, t) {
      assert Length(b, stacks, g[..k], p, t) <= Length(b, stacks, g, p, t);
    }
  }

  /** What a group takes as one of several parts: its text and what the marker grows by. */
  function Taken(b: Board, stacks: seq<Stack>, g: seq<Stack>, part: nat): int {
    Length(b, stacks, g, part, 2) + (|PartMarker(b.marker, part)| - |b.marker|)
  }

  /** Up to upTo parts a group takes no more as a later part: its marker is longer, but the header of
      part 1 is longer by more, and only part 1 carries the table. */
  ghost predicate LaterTakesNoMore(b: Board, stacks: seq<Stack>, upTo: nat) {
    forall g, p: nat, q: nat :: 1 <= p <= q <= upTo ==> Taken(b, stacks, g, q) <= Taken(b, stacks, g, p)
  }

  function Kept(stacks: seq<Stack>, last: bool): nat {
    if last then NoteReserve(stacks) else 0
  }

  lemma FitsByTaken(b: Board, stacks: seq<Stack>, g: seq<Stack>, part: nat, total: nat, upTo: nat)
    requires EqualFooters(b, stacks, upTo) && 2 <= total <= upTo
    ensures Measure(b, stacks)(g, part, total) <==> Taken(b, stacks, g, part) + Kept(stacks, part == total) <= COMMENT_MAX
  {
    MeasureIs(b, stacks, g, part, total);
    assert Length(b, stacks, g, part, total) == Length(b, stacks, g, part, 2);
  }

  /** What a group split off by capacity owes its reader: the text fits its part. */
  predicate TextFits(b: Board, stacks: seq<Stack>, g: seq<Stack>, part: nat, total: nat) {
    Length(b, stacks, g, part, total) <= Room(b, part)
  }

  /** For every board whose footers only grow: unless the result has more parts than it was packed
      against and their footers are wider, the text of every part of two or more fits at the real
      count.  Then every part but the last fits, and the last exactly if the reserve is free too. */
  lemma TextFitsAtRealCount(b: Board, stacks: seq<Stack>, i: nat) returns (k: nat)
    requires LongerFooters(b, stacks)
    requires var g := Capacity(b.sorted(stacks), b.maxParts, Measure(b, stacks)); i < |g| && |g[i]| >= 2
    ensures var fits := Measure(b, stacks);
      var g, t := Capacity(b.sorted(stacks), b.maxParts, fits), TotalAt(b.sorted(stacks), b.maxParts, fits, k);
      && g == Pack(b.sorted(stacks), b.maxParts, t, fits)
      && (|g| <= t || EqualFooters(b, stacks, |g|) ==> TextFits(b, stacks, g[i], i + 1, |g|))
      && (i + 1 < |g| ==> (fits(g[i], i + 1, |g|) <==> TextFits(b, stacks, g[i], i + 1, |g|)))
      && (i + 1 == |g| ==>
            (fits(g[i], i + 1, |g|) <==>
             Length(b, stacks, g[i], i + 1, |g|) + NoteReserve(stacks) <= Room(b, i + 1)))
  {
    var fits, ordered := Measure(b, stacks), b.sorted(stacks);
    k := ResultIsPass(ordered, b.maxParts, fits);
    var g, t := Capacity(ordered, b.maxParts, fits), TotalAt(ordered, b.maxParts, fits, k);
    assert g[i][..|g[i]|] == g[i];
    assert fits(g[i], i + 1, t);
    MeasureIs(b, stacks, g[i], i + 1, |g|);
    if ordered != [] {
      MeasureIs(b, stacks, g[i], i + 1, t);
      assert |g| <= t ==> Length(b, stacks, g[i], i + 1, |g|) <= Length(b, stacks, g[i], i + 1, t);
    }
  }

  /** The cap, or else every pass against at most upTo parts, stays below that many. */
  ghost predicate PassesBelow(b: Board, stacks: seq<Stack>, upTo: nat) {
    || b.maxParts < upTo
    || forall t :: 1 <= t <= upTo ==> |Pack(b.sorted(stacks), b.maxParts, t, Measure(b, stacks))| < upTo
  }

  /** On a board whose parts take no more later, one packing tells: no pass makes more than one part
      more than the one without the reserve. */
  lemma OnePackingTells(b: Board, stacks: seq<Stack>, upTo: nat)
    requires upTo >= 2 && b.maxParts >= 1 && EqualFooters(b, stacks, upTo) && FewerIsShorter(b, stacks)
    requires LongerFooters(b, stacks) && LaterTakesNoMore(b, stacks, upTo)
    requires |Unreserved(b.sorted(stacks), b.maxParts, Measure(b, stacks), upTo)| + 1 < upTo
    ensures PassesBelow(b, stacks, upTo)
  {
    var fits, ordered := Measure(b, stacks), b.sorted(stacks);
    MeasureFlat(b, stacks, upTo);
    MeasureIsEasierLater(b, stacks, upTo);
    forall t | 1 <= t <= upTo ensures |Pack(ordered, b.maxParts, t, fits)| < upTo {
      OnePackingBounds(ordered, b.maxParts, fits, upTo, t);
    }
  }

  lemma MeasureIsEasierLater(b: Board, stacks: seq<Stack>, upTo: nat)
    requires upTo >= 2 && EqualFooters(b, stacks, upTo) && LongerFooters(b, stacks) && LaterTakesNoMore(b, stacks, upTo)
    ensures LaterIsEasier(Measure(b, stacks), upTo)
  {
    var fits := Measure(b, stacks);
    forall g, p, q, t | 1 <= p < q <= upTo && 1 <= t <= upTo && q != t && fits(g, p, upTo) ensures fits(g, q, t) {
      FitsByTaken(b, stacks, g, p, upTo, upTo);
      MeasureIs(b, stacks, g, q, t);
      assert Taken(b, stacks, g, q) <= Taken(b, stacks, g, p);
      assert Length(b, stacks, g, q, t) <= Length(b, stacks, g, q, 2);
    }
  }

  /** For every board whose footers are equally wide for the counts that occur: the parts are packed
      against their own count exactly if everything fits into one part, or packing without the reserve
      takes at most one part or the whole cap, or leaves the reserve free on its last part, or puts a
      single stack there. */
  lemma BoardSettlesIff(b: Board, stacks: seq<Stack>, upTo: nat)
    requires upTo >= 2 && EqualFooters(b, stacks, upTo) && PassesBelow(b, stacks, upTo)
    requires FewerIsShorter(b, stacks) && b.maxParts >= 1
    ensures var fits, ordered := Measure(b, stacks), b.sorted(stacks);
      var least := Unreserved(ordered, b.maxParts, fits, upTo);
      var n := |least|;
      AgainstOwnCount(ordered, Capacity(ordered, b.maxParts, fits), b.maxParts, fits) <==>
        || |Pack(ordered, b.maxParts, 1, fits)| <= 1
        || n <= 1 || n == b.maxParts || |least[n - 1]| == 1
        || Length(b, stacks, least[n - 1], n, n) + NoteReserve(stacks) <= Room(b, n)
  {
    var fits, ordered := Measure(b, stacks), b.sorted(stacks);
    var least := Unreserved(ordered, b.maxParts, fits, upTo);
    MeasureFlat(b, stacks, upTo);
    if b.maxParts < upTo {
      CapKeepsBelow(ordered, b.maxParts, fits, upTo);
    }
    SettlesIff(ordered, b.maxParts, fits);
    FlatSettlesIff(ordered, b.maxParts, fits, upTo);
    if |least| > 1 {
      MeasureIs(b, stacks, least[|least| - 1], |least|, |least|);
    }
  }

  // ---------- parts of one status ----------

  /** Nothing renders longer than with the footer of the largest count, which is what an unknown
      count is measured with. */
  ghost predicate WidestFooter(b: Board, stacks: seq<Stack>) {
    forall g, p: nat, t: nat :: 1 <= t <= b.maxParts ==> Length(b, stacks, g, p, t) <= Length(b, stacks, g, p, 0)
  }

  /** What fits an unknown count fits every count within the cap. */
  lemma UnknownCountIsSafe(b: Board, stacks: seq<Stack>, g: seq<Stack>, part: nat, total: nat)
    requires WidestFooter(b, stacks) && 1 <= total <= b.maxParts && Measure(b, stacks)(g, part, 0)
    ensures Measure(b, stacks)(g, part, total)
  {
    MeasureIs(b, stacks, g, part, 0);
    MeasureIs(b, stacks, g, part, total);
    assert Length(b, stacks, g, part, total) <= Length(b, stacks, g, part, 0);
  }

  function ByStatus(b: Board, stacks: seq<Stack>): seq<seq<Stack>> {
    Capped(GroupSplit(b.sorted(stacks), |GROUP_ORDER|, b.maxParts, Measure(b, stacks)), b.maxParts)
  }

  /** For every board whose unknown count is the widest: a group that the code lets through as a whole
      fits at its real place. */
  lemma WholeGroupFits(b: Board, stacks: seq<Stack>, i: nat, o: Origin)
    requires WidestFooter(b, stacks) && i < |ByStatus(b, stacks)| && o.Whole?
    requires ComesFrom(b.sorted(stacks), b.maxParts, Measure(b, stacks), ByStatus(b, stacks)[i], i, o)
    ensures Measure(b, stacks)(ByStatus(b, stacks)[i], i + 1, |ByStatus(b, stacks)|)
  {
    UnknownCountIsSafe(b, stacks, ByStatus(b, stacks)[i], i + 1, |ByStatus(b, stacks)|);
  }

  lemma GroupOrigin(b: Board, stacks: seq<Stack>, i: nat) returns (o: Origin)
    requires i < |ByStatus(b, stacks)|
    ensures ComesFrom(b.sorted(stacks), b.maxParts, Measure(b, stacks), ByStatus(b, stacks)[i], i, o)
  {
    o := PartOrigin(b.sorted(stacks), |GROUP_ORDER|, b.maxParts, Measure(b, stacks), i);
  }

  /** Exactly which parts of the group split fit at their real place, for every board with equally
      wide footers: those whose text and marker, and on the last part the reserve, are within the
      limit.  A group placed whole always is.  A packed part of two or more, measured as one of several,
      is if it takes no more at its real ordinal than where it was measured, and is not the last or was
      measured as the last.  It takes no more if nothing was placed before its bucket, and on a board
      whose parts take no more later. */
  lemma GroupPartFitsIff(b: Board, stacks: seq<Stack>, i: nat, upTo: nat) returns (o: Origin)
    requires EqualFooters(b, stacks, upTo) && WidestFooter(b, stacks)
    requires i < |ByStatus(b, stacks)| && 2 <= |ByStatus(b, stacks)| <= upTo
    ensures var fits, part, n := Measure(b, stacks), ByStatus(b, stacks)[i], |ByStatus(b, stacks)|;
      && ComesFrom(b.sorted(stacks), b.maxParts, fits, part, i, o)
      && (fits(part, i + 1, n) <==> Taken(b, stacks, part, i + 1) + Kept(stacks, i + 1 == n) <= COMMENT_MAX)
      && (o.Whole? ==> fits(part, i + 1, n))
      && (o.Packed? && |part| >= 2 && 2 <= o.total <= upTo
            && Taken(b, stacks, part, i + 1) <= Taken(b, stacks, part, o.j + 1) && (i + 1 == n ==> o.j + 1 == o.total)
          ==> fits(part, i + 1, n))
      && (o.Packed? && (o.j == i || LaterTakesNoMore(b, stacks, upTo)) ==>
            Taken(b, stacks, part, i + 1) <= Taken(b, stacks, part, o.j + 1))
  {
    var part, n := ByStatus(b, stacks)[i], |ByStatus(b, stacks)|;
    o := GroupOrigin(b, stacks, i);
    FitsByTaken(b, stacks, part, i + 1, n, upTo);
    if o.Whole? {
      WholeGroupFits(b, stacks, i, o);
    } else if 2 <= o.total <= upTo {
      FitsByTaken(b, stacks, part, o.j + 1, o.total, upTo);
    }
  }

  /** Why a part of two or more misses its place on a board whose parts take no more later: it is
      a whole bucket that was let through as the only part there is, with neither header nor column, or
      the last part and was not measured as the last. */
  lemma WhyGroupPartMisses(b: Board, stacks: seq<Stack>, i: nat, upTo: nat) returns (o: Origin)
    requires EqualFooters(b, stacks, upTo) && WidestFooter(b, stacks) && LaterTakesNoMore(b, stacks, upTo)
    requires i < |ByStatus(b, stacks)| && 2 <= |ByStatus(b, stacks)| <= upTo && |ByStatus(b, stacks)[i]| >= 2
    requires !Measure(b, stacks)(ByStatus(b, stacks)[i], i + 1, |ByStatus(b, stacks)|)
    ensures var fits, part, n := Measure(b, stacks), ByStatus(b, stacks)[i], |ByStatus(b, stacks)|;
      && o.Packed? && ComesFrom(b.sorted(stacks), b.maxParts, fits, part, i, o)
      && var placed := PlacedBefore(b.sorted(stacks), o.bucket, b.maxParts, fits);
      && (|| Capacity(Bucket(b.sorted(stacks), GROUP_ORDER[o.bucket]), b.maxParts - placed, fits) == [part]
          || (i + 1 == n && o.j + 1 != o.total)
          || upTo < o.total <= b.maxParts)
  {
    o := GroupPartFitsIff(b, stacks, i, upTo);
  }

  // ---------- what is posted ----------

  /** The final links of the table render no longer than the placeholders a part is measured with, when
      every stack has one and all are numbers from `low` up to the cap. */
  ghost predicate LinksNoLonger(b: Board, stacks: seq<Stack>, low: nat) {
    forall g, i: nat, total: nat, links :: LinksWithin(links, stacks, low, b.maxParts) ==>
      |b.render(g, FinalOpts(b, stacks, i, total, links))| <= Length(b, stacks, g, i + 1, total)
  }

  ghost predicate LinksWithin(links: map<string, nat>, stacks: seq<Stack>, low: nat, high: nat) {
    forall k :: 0 <= k < |stacks| ==> stacks[k].ref in links && low <= links[stacks[k].ref] <= high
  }

  /** A part's body when nothing is trimmed: the rendering, the note if it is due, the marker. */
  function FullBody(b: Board, stacks: seq<Stack>, g: seq<Stack>, i: nat, total: nat, links: map<string, nat>, overCap: nat): string {
    var full := b.render(g, FinalOpts(b, stacks, i, total, links));
    ReplaceFirst(if i + 1 == total && overCap > 0 then full + OverCapNote(overCap) else full,
                 b.marker, PartMarker(b.marker, i + 1))
  }

  lemma UntrimmedBody(b: Board, stacks: seq<Stack>, g: seq<Stack>, i: nat, total: nat, links: map<string, nat>, overCap: nat)
    requires var o := FinalOpts(b, stacks, i, total, links); |b.render(g, o)| <= o.commentLimit
    ensures PartBody(b, stacks, g, i, total, links, overCap) == FullBody(b, stacks, g, i, total, links, overCap)
  {
  }

  /** The links lead to parts within the cap; the link of an omitted stack is zero, and only that. */
  lemma {:induction false} LinksAreWithin(b: Board, stacks: seq<Stack>, parts: seq<Part>, groups: seq<seq<Stack>>, links: map<string, nat>)
    requires b.maxParts >= 1 && multiset(b.sorted(stacks)) == multiset(stacks)
    requires Paginated(b, stacks, parts, groups, links) && parts != []
    ensures LinksWithin(links, stacks, if |Concat(groups)| == |stacks| then 1 else 0, b.maxParts)
  {
    SplitIsGood(b, stacks, groups);
    if |Concat(groups)| == |stacks| {
      FullSelection(stacks, Concat(groups));
      forall k | 0 <= k < |stacks| ensures 1 <= links[stacks[k].ref] {
        assert stacks[k] in multiset(stacks);
        assert stacks[k] in Concat(groups);
        InSomeGroup(groups, stacks[k]);
      }
    }
  }

  lemma {:induction false} InSomeGroup(groups: seq<seq<Stack>>, x: Stack)
    requires x in Concat(groups)
    ensures exists i, j :: 0 <= i < |groups| && 0 <= j < |groups[i]| && groups[i][j] == x
  {
    if x in groups[0] {
      var j :| 0 <= j < |groups[0]| && groups[0][j] == x;
    } else {
      InSomeGroup(groups[1..], x);
      var i, j :| 0 <= i < |groups[1..]| && 0 <= j < |groups[1..][i]| && groups[1..][i][j] == x;
      assert groups[i + 1][j] == x;
    }
  }

  /** A part that was measured to fit at its real place is posted in full: not trimmed, with the
      final links, and on the last one with the note after it. */
  lemma PostedInFull(b: Board, stacks: seq<Stack>, groups: seq<seq<Stack>>, parts: seq<Part>, links: map<string, nat>, overCap: nat, i: nat, low: nat)
    requires LinksNoLonger(b, stacks, low) && LinksWithin(links, stacks, low, b.maxParts)
    requires PartsOfGroups(b, stacks, groups, parts, links, overCap) && i < |parts|
    requires Measure(b, stacks)(groups[i], i + 1, |groups|)
    ensures parts[i].body == FullBody(b, stacks, groups[i], i, |groups|, links, overCap)
  {
    assert |b.render(groups[i], FinalOpts(b, stacks, i, |groups|, links))| <= Length(b, stacks, groups[i], i + 1, |groups|);
    UntrimmedBody(b, stacks, groups[i], i, |groups|, links, overCap);
  }

  /** So it is for everything paginate returns, if links to parts are no wider than the placeholder; for
      a board that leaves stacks out, the cell that says so must be no wider either. */
  lemma {:induction false} FittingPartsArePostedInFull(b: Board, stacks: seq<Stack>, parts: seq<Part>, groups: seq<seq<Stack>>, links: map<string, nat>)
    requires b.maxParts >= 1 && multiset(b.sorted(stacks)) == multiset(stacks)
    requires Paginated(b, stacks, parts, groups, links) && parts != []
    requires LinksNoLonger(b, stacks, if |Concat(groups)| == |stacks| then 1 else 0)
    ensures |parts| == |groups| && |Concat(groups)| <= |stacks|
    ensures forall i :: 0 <= i < |parts| && Measure(b, stacks)(groups[i], i + 1, |groups|) ==>
              parts[i].body == FullBody(b, stacks, groups[i], i, |groups|, links, |stacks| - |Concat(groups)|)
  {
    var low := if |Concat(groups)| == |stacks| then 1 else 0;
    LinksAreWithin(b, stacks, parts, groups, links);
    forall i | 0 <= i < |parts| && Measure(b, stacks)(groups[i], i + 1, |groups|)
      ensures parts[i].body == FullBody(b, stacks, groups[i], i, |groups|, links, |stacks| - |Concat(groups)|)
    {
      PostedInFull(b, stacks, groups, parts, links, |stacks| - |Concat(groups)|, i, low);
    }
  }
}
