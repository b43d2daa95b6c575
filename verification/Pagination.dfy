/** Comment pagination: the group split and `paginate` of internal/core/render/overflow.go.

    Rendering and the trim ladder are arbitrary functions; strings hold one character per
    byte.  Sorting is any function that returns a permutation. */
module Pagination {
  import opened Base
  import opened Strings
  import opened Splitting
  import opened StatusGroups
  import Decimal

  const COMMENT_MAX: nat := 65_000

  // ---------- markers and notes ----------

  const CLOSING: string := " -->"

  function PartMarker(board: string, part: nat): string {
    if part <= 1 then board
    else TrimSuffix(board, CLOSING) + ":part" + Decimal.Print(part) + CLOSING
  }

  /** A part marker is at most 28 bytes longer than the board's own, and never shorter. */
  lemma MarkerGrowth(board: string, part: nat)
    requires part <= Decimal.MAX_INT
    ensures |board| <= |PartMarker(board, part)| <= |board| + 28
    ensures part <= 1 ==> PartMarker(board, part) == board
  {
    Decimal.PrintShort(part);
  }

  /** PartMarkerPrefix. */
  function MarkerPrefix(board: string): string {
    TrimSuffix(board, CLOSING)
  }

  /** Every part of a board is found by the board's prefix, and no two parts share a marker. */
  lemma MarkersIdentifyParts(board: string, p: nat, q: nat)
    requires 1 <= p && 1 <= q
    ensures MarkerPrefix(board) <= PartMarker(board, p)
    ensures PartMarker(board, p) == PartMarker(board, q) <==> p == q
  {
    var head := TrimSuffix(board, CLOSING) + ":part";
    Decimal.ValueOfPrint(p);
    Decimal.ValueOfPrint(q);
    if p > 1 {
      assert PartMarker(board, p)[|head|..|PartMarker(board, p)| - 4] == Decimal.Print(p);
    }
    if q > 1 {
      assert PartMarker(board, q)[|head|..|PartMarker(board, q)| - 4] == Decimal.Print(q);
    }
  }

  const NOTE_HEAD: string := "\n---\n\n> \U{E2}\U{9A}\U{A0}\U{EF}\U{B8}\U{8F} **"
  const NOTE_TAIL: string := " omitted** past the comment limit for this board. Their detail is in the run log.\n"

  function OverCapNote(n: nat): string {
    NOTE_HEAD + Decimal.Print(n) + " " + (if n == 1 then "stack" else "stacks") + NOTE_TAIL
  }

  /** The note for fewer stacks is never longer, so the reserve for all of them suffices. */
  lemma NoteFitsReserve(n: nat, all: nat)
    requires 1 <= n <= all <= Decimal.MAX_INT
    ensures |OverCapNote(n)| <= |OverCapNote(all)| <= 130
  {
    Decimal.PrintGrows(n, all);
    Decimal.PrintShort(all);
  }

  /** strings.Replace with a count of one. */
  function ReplaceFirst(s: string, old_: string, new_: string): string {
    if |old_| <= |s| && s[..|old_|] == old_ then new_ + s[|old_|..]
    else if s == [] then s
    else [s[0]] + ReplaceFirst(s[1..], old_, new_)
  }

  lemma {:induction false} ReplaceFirstLength(s: string, old_: string, new_: string)
    requires |old_| <= |new_|
    ensures |ReplaceFirst(s, old_, new_)| <= |s| + |new_| - |old_|
  {
    if !(|old_| <= |s| && s[..|old_|] == old_) && s != [] {
      ReplaceFirstLength(s[1..], old_, new_);
    }
  }

  /** The first occurrence is replaced, and nothing else; without one the text stays as it is. */
  lemma {:induction false} ReplaceFirstIs(s: string, old_: string, new_: string) returns (k: nat)
    ensures Contains(s, old_) ==> FirstAt(s, old_, k) && ReplaceFirst(s, old_, new_) == s[..k] + new_ + s[k + |old_|..]
    ensures !Contains(s, old_) ==> ReplaceFirst(s, old_, new_) == s
  {
    k := 0;
    if Starts(s, old_, 0) {
      ReplacedHere(s, old_, new_);
    } else if s != [] {
      var t := s[1..];
      k := ReplaceFirstIs(t, old_, new_);
      ContainsBehind(s, old_);
      ReplaceBehind(s, old_, new_);
      if Contains(t, old_) {
        ReplacedBehind(s, old_, new_, k);
        k := k + 1;
      }
    }
  }

  lemma {:induction false} ReplacedHere(s: string, old_: string, new_: string)
    requires Starts(s, old_, 0)
    ensures FirstAt(s, old_, 0) && ReplaceFirst(s, old_, new_) == s[..0] + new_ + s[0 + |old_|..]
  {
    assert s[0..|old_|] == s[..|old_|];
  }

  lemma {:induction false} ReplacedBehind(s: string, old_: string, new_: string, k: nat)
    requires s != [] && !Starts(s, old_, 0) && FirstAt(s[1..], old_, k)
    requires ReplaceFirst(s[1..], old_, new_) == s[1..][..k] + new_ + s[1..][k + |old_|..]
    ensures FirstAt(s, old_, k + 1) && ReplaceFirst(s, old_, new_) == s[..k + 1] + new_ + s[k + 1 + |old_|..]
  {
    ContainsBehind(s, old_);
    ReplaceBehind(s, old_, new_);
    FirstBehind(s, old_, k);
    CutBehind(s, |old_|, k, new_);
  }

  lemma {:induction false} ReplaceBehind(s: string, old_: string, new_: string)
    requires s != [] && !Starts(s, old_, 0)
    ensures ReplaceFirst(s, old_, new_) == [s[0]] + ReplaceFirst(s[1..], old_, new_)
  {
    assert |old_| <= |s| ==> s[0..|old_|] == s[..|old_|];
  }

  lemma ContainsBehind(s: string, sub: string)
    requires s != [] && !Starts(s, sub, 0)
    ensures Contains(s, sub) <==> Contains(s[1..], sub)
    ensures forall k: nat :: Starts(s[1..], sub, k) == Starts(s, sub, k + 1)
  {
    forall k: nat ensures Starts(s[1..], sub, k) == Starts(s, sub, k + 1) {
      StartsBehind(s, sub, k);
    }
    if k: nat :| Starts(s, sub, k) {
      assert Starts(s[1..], sub, k - 1);
    }
    if k: nat :| Starts(s[1..], sub, k) {
      assert Starts(s, sub, k + 1);
    }
  }

  lemma StartsBehind(s: string, sub: string, k: nat)
    requires s != []
    ensures Starts(s[1..], sub, k) == Starts(s, sub, k + 1)
  {
    if k + 1 + |sub| <= |s| {
      assert s[1..][k..k + |sub|] == s[k + 1..k + 1 + |sub|];
    }
  }

  lemma CutBehind(s: string, n: nat, k: nat, new_: string)
    requires s != [] && k + n < |s|
    ensures [s[0]] + (s[1..][..k] + new_ + s[1..][k + n..]) == s[..k + 1] + new_ + s[k + 1 + n..]
  {
  }

  /** sub stands at place k of s. */
  predicate Starts(s: string, sub: string, k: nat) {
    k + |sub| <= |s| && s[k..k + |sub|] == sub
  }

  ghost predicate Contains(s: string, sub: string) {
    exists k: nat :: Starts(s, sub, k)
  }

  ghost predicate FirstAt(s: string, sub: string, k: int) {
    0 <= k && Starts(s, sub, k) && forall j: nat :: j < k ==> !Starts(s, sub, j)
  }

  lemma FirstBehind(s: string, sub: string, k: nat)
    requires s != [] && !Starts(s, sub, 0) && FirstAt(s[1..], sub, k)
    requires forall j: nat :: Starts(s[1..], sub, j) == Starts(s, sub, j + 1)
    ensures FirstAt(s, sub, k + 1)
  {
    forall j: nat | j < k + 1 ensures !Starts(s, sub, j) {
      if j > 0 {
        assert !Starts(s[1..], sub, j - 1);
      }
    }
  }

  // ---------- paginate ----------

  /** The options that pagination sets; everything else is the renderer's own. */
  datatype Opts = Opts(part: nat, partsTotal: nat, commentLimit: int, stackParts: map<string, nat>)

  type Render = (seq<Stack>, Opts) -> string

  datatype Mode = ByDivision | ByStack | ByGroup

  /** What one board brings along. */
  datatype Board = Board(render: Render, descend: Render, sorted: seq<Stack> -> seq<Stack>,
                         mode: Mode, maxParts: nat, marker: string)

  function Budget(part: nat, total: nat, reserve: nat): int {
    if part == total || total == 0 then COMMENT_MAX - reserve else COMMENT_MAX
  }

  function Refs(s: seq<Stack>): (r: seq<string>)
    ensures |r| == |s| && forall i :: 0 <= i < |s| ==> r[i] == s[i].ref
  {
    seq(|s|, i requires 0 <= i < |s| => s[i].ref)
  }

  function PartOpts(b: Board, stacks: seq<Stack>, part: nat, total: nat): Opts {
    Opts(part, if total == 0 then b.maxParts else total,
         Budget(part, total, |OverCapNote(|stacks|)|) - (|PartMarker(b.marker, part)| - |b.marker|),
         if part == 1 then map r | r in Refs(stacks) :: b.maxParts else map[])
  }

  /** The measurement that the splitters use: a real rendering, against the part's own limit. */
  function Measure(b: Board, stacks: seq<Stack>): Fits<Stack> {
    (g: seq<Stack>, part: int, total: int) =>
      part >= 0 && total >= 0 &&
      |b.render(g, PartOpts(b, stacks, part, total))| <= PartOpts(b, stacks, part, total).commentLimit
  }

  ghost predicate GoodSplit(stacks: seq<Stack>, maxParts: nat, groups: seq<seq<Stack>>) {
    |groups| <= maxParts && multiset(Concat(groups)) <= multiset(stacks)
  }

  /** The split that the board's mode calls for. */
  ghost predicate IsSplit(b: Board, stacks: seq<Stack>, groups: seq<seq<Stack>>) {
    var ordered, fits := b.sorted(stacks), Measure(b, stacks);
    match b.mode
    case ByGroup => groups == Capped(GroupSplit(ordered, |GROUP_ORDER|, b.maxParts, fits), b.maxParts)
    case ByStack => groups == Capacity(ordered, b.maxParts, fits)
    case ByDivision => IsDivided(ordered, b.maxParts, fits, groups)
  }

  method SplitStacks(b: Board, stacks: seq<Stack>) returns (groups: seq<seq<Stack>>)
    ensures IsSplit(b, stacks, groups)
  {
    var ordered, fits := b.sorted(stacks), Measure(b, stacks);
    match b.mode
    case ByGroup => groups := SplitByGroup(ordered, b.maxParts, fits);
    case ByStack => groups := SplitByCapacity(ordered, b.maxParts, fits);
    case ByDivision => groups := SplitDivided(ordered, b.maxParts, fits);
  }

  /** Every mode keeps within the cap and shows no stack twice. */
  lemma SplitIsGood(b: Board, stacks: seq<Stack>, groups: seq<seq<Stack>>)
    requires b.maxParts >= 1 && multiset(b.sorted(stacks)) == multiset(stacks) && IsSplit(b, stacks, groups)
    ensures GoodSplit(stacks, b.maxParts, groups)
  {
    var ordered, fits := b.sorted(stacks), Measure(b, stacks);
    match b.mode
    case ByGroup =>
      GroupsAreByStatus(ordered, b.maxParts, fits);
      forall x: Stack ensures multiset(Concat(groups))[x] <= multiset(stacks)[x] {
        GroupsAreComplete(ordered, b.maxParts, fits, x);
      }
    case ByStack =>
      var t := CapacityPacks(ordered, b.maxParts, fits);
      PrefixIsPart(Concat(groups), ordered);
    case ByDivision => DividedIsGood(ordered, b.maxParts, fits, groups);
  }

  lemma DividedIsGood(ordered: seq<Stack>, maxParts: nat, fits: Fits<Stack>, groups: seq<seq<Stack>>)
    requires maxParts >= 1 && IsDivided(ordered, maxParts, fits, groups)
    ensures GoodSplit(ordered, maxParts, groups)
  {
    if groups == Capacity(ordered, maxParts, fits) {
      var t := CapacityPacks(ordered, maxParts, fits);
      PrefixIsPart(Concat(groups), ordered);
    } else {
      var m :| 1 <= m <= maxParts && FewestParts(ordered, m, fits) && groups == EvenSplit(ordered, m);
      EvenSplitIsEven(ordered, m);
    }
  }

  datatype Part = Part(ordinal: nat, marker: string, body: string, stacks: seq<string>, omitted: seq<string>)

  /** The trim ladder returns a body within a positive limit. */
  ghost predicate HonoursLimit(descend: Render) {
    forall g: seq<Stack>, o: Opts :: o.commentLimit > 0 ==> |descend(g, o)| <= o.commentLimit
  }

  /** The options of a finished part. */
  function FinalOpts(b: Board, stacks: seq<Stack>, i: nat, total: nat, links: map<string, nat>): Opts {
    PartOpts(b, stacks, i + 1, total).(stackParts := links)
  }

  /** The text of a part before its marker is rewritten: the rendering if it fits and the trimmed
      one otherwise, and on the last part the note about what the cap left out. */
  function PartText(b: Board, stacks: seq<Stack>, g: seq<Stack>, i: nat, total: nat, links: map<string, nat>, overCap: nat): string {
    var o := FinalOpts(b, stacks, i, total, links);
    var full := b.render(g, o);
    var text := if |full| <= o.commentLimit then full else b.descend(g, o);
    if i == total - 1 && overCap > 0 then text + OverCapNote(overCap) else text
  }

  function PartBody(b: Board, stacks: seq<Stack>, g: seq<Stack>, i: nat, total: nat, links: map<string, nat>, overCap: nat): string {
    ReplaceFirst(PartText(b, stacks, g, i, total, links, overCap), b.marker, PartMarker(b.marker, i + 1))
  }

  /** A part whose text carries the board's marker is posted with its own marker in that place, and
      nothing else changes. */
  lemma {:induction false} PostedUnderItsMarker(b: Board, stacks: seq<Stack>, g: seq<Stack>, i: nat, total: nat, links: map<string, nat>, overCap: nat)
    requires Contains(PartText(b, stacks, g, i, total, links, overCap), b.marker)
    ensures var text, body, marker := PartText(b, stacks, g, i, total, links, overCap), PartBody(b, stacks, g, i, total, links, overCap), PartMarker(b.marker, i + 1);
      && Contains(body, marker)
      && exists k :: FirstAt(text, b.marker, k) && body == text[..k] + marker + text[k + |b.marker|..]
  {
    var text, marker := PartText(b, stacks, g, i, total, links, overCap), PartMarker(b.marker, i + 1);
    var k := ReplaceFirstIs(text, b.marker, marker);
    assert Starts(ReplaceFirst(text, b.marker, marker), marker, k);
  }

  /** Every finished body is within the size limit. */
  lemma BodyFits(b: Board, stacks: seq<Stack>, g: seq<Stack>, i: nat, total: nat, links: map<string, nat>, overCap: nat)
    requires HonoursLimit(b.descend)
    requires |stacks| <= Decimal.MAX_INT && i < total <= Decimal.MAX_INT && overCap <= |stacks|
    ensures |PartBody(b, stacks, g, i, total, links, overCap)| <= COMMENT_MAX
  {
    var o := FinalOpts(b, stacks, i, total, links);
    MarkerGrowth(b.marker, i + 1);
    ReserveIsSmall(|stacks|);
    assert o.commentLimit > 0;
    if i == total - 1 && overCap > 0 {
      NoteFitsReserve(overCap, |stacks|);
    }
    ReplaceFirstLength(PartText(b, stacks, g, i, total, links, overCap), b.marker, PartMarker(b.marker, i + 1));
  }

  lemma ReserveIsSmall(n: nat)
    requires n <= Decimal.MAX_INT
    ensures |OverCapNote(n)| <= 130
  {
    Decimal.PrintShort(n);
  }

  // ---------- conservation ----------

  ghost predicate DistinctRefs(s: seq<Stack>) {
    forall i, j :: 0 <= i < j < |s| ==> s[i].ref != s[j].ref
  }

  function Unplaced(stacks: seq<Stack>, placed: set<string>): seq<string> {
    if stacks == [] then []
    else
      var n := |stacks| - 1;
      var front := Unplaced(stacks[..n], placed);
      if stacks[n].ref in placed then front else front + [stacks[n].ref]
  }

  function Placed(groups: seq<seq<Stack>>): set<string> {
    set r | r in Refs(Concat(groups))
  }

  method OmittedRefs(stacks: seq<Stack>, groups: seq<seq<Stack>>) returns (omitted: seq<string>)
    ensures omitted == Unplaced(stacks, Placed(groups))
  {
    var placed: set<string> := {};
    for i := 0 to |groups|
      invariant placed == Placed(groups[..i])
    {
      ConcatStep(groups, i);
      RefsAppend(Concat(groups[..i]), groups[i]);
      placed := placed + set r | r in Refs(groups[i]);
    }
    assert groups[..|groups|] == groups;
    omitted := [];
    for i := 0 to |stacks|
      invariant omitted == Unplaced(stacks[..i], placed)
    {
      assert stacks[..i + 1][..i] == stacks[..i];
      if stacks[i].ref !in placed {
        omitted := omitted + [stacks[i].ref];
      }
    }
    assert stacks[..|stacks|] == stacks;
  }

  lemma RefsAppend(a: seq<Stack>, b: seq<Stack>)
    ensures Refs(a + b) == Refs(a) + Refs(b)
  {
  }

  lemma {:induction false} UnplacedProps(stacks: seq<Stack>, placed: set<string>)
    requires DistinctRefs(stacks)
    ensures var u := Unplaced(stacks, placed);
            && (forall r :: r in u <==> r in Refs(stacks) && r !in placed)
            && (forall i, j :: 0 <= i < j < |u| ==> u[i] != u[j])
  {
    if stacks != [] {
      var n := |stacks| - 1;
      UnplacedProps(stacks[..n], placed);
      assert stacks == stacks[..n] + [stacks[n]];
      RefsAppend(stacks[..n], [stacks[n]]);
      assert Refs([stacks[n]]) == [stacks[n].ref];
    }
  }

  lemma {:induction false} DistinctOnce(s: seq<Stack>, x: Stack)
    requires DistinctRefs(s)
    ensures multiset(s)[x] <= 1
  {
    if s != [] {
      var n := |s| - 1;
      DistinctOnce(s[..n], x);
      assert s == s[..n] + [s[n]];
      if s[n] == x {
        assert x !in s[..n];
      }
    }
  }

  lemma TwiceCounts(s: seq<Stack>, i: nat, j: nat)
    requires i < j < |s| && s[i] == s[j]
    ensures multiset(s)[s[i]] >= 2
  {
    assert s == s[..j] + s[j..];
    assert s[i] in s[..j] && s[i] in s[j..];
    MultisetAppend(s[..j], s[j..]);
  }

  /** A selection of stacks with unique refs has unique refs. */
  lemma SelectionDistinct(stacks: seq<Stack>, c: seq<Stack>)
    requires DistinctRefs(stacks) && multiset(c) <= multiset(stacks)
    ensures DistinctRefs(c)
    ensures forall x :: x in c ==> x in stacks
  {
    forall x | x in c ensures x in stacks {
      assert multiset(c)[x] > 0;
      assert x in multiset(stacks);
    }
    forall i, j | 0 <= i < j < |c| ensures c[i].ref != c[j].ref {
      if c[i].ref == c[j].ref {
        assert c[i] in stacks && c[j] in stacks;
        assert c[i] == c[j];
        TwiceCounts(c, i, j);
        DistinctOnce(stacks, c[i]);
      }
    }
  }

  lemma FullSelection(stacks: seq<Stack>, c: seq<Stack>)
    requires multiset(c) <= multiset(stacks) && |c| == |stacks|
    ensures multiset(c) == multiset(stacks)
  {
    var d := multiset(stacks) - multiset(c);
    assert multiset(stacks) == multiset(c) + d;
    assert |multiset(stacks)| == |multiset(c)| + |d|;
    assert |d| == 0;
  }

  /** Every ref is in exactly one place: once among the placed, or once among the omitted. */
  ghost predicate Conserved(stacks: seq<Stack>, placed: seq<string>, omitted: seq<string>) {
    && (forall i, j :: 0 <= i < j < |placed| ==> placed[i] != placed[j])
    && (forall i, j :: 0 <= i < j < |omitted| ==> omitted[i] != omitted[j])
    && (forall r :: r in Refs(stacks) <==> r in placed || r in omitted)
    && (forall r :: !(r in placed && r in omitted))
  }

  lemma {:induction false} SelectionConserves(stacks: seq<Stack>, c: seq<Stack>, omitted: seq<string>)
    requires DistinctRefs(stacks) && multiset(c) <= multiset(stacks)
    requires omitted == if |c| < |stacks| then Unplaced(stacks, set r | r in Refs(c)) else []
    ensures Conserved(stacks, Refs(c), omitted)
  {
    SelectionDistinct(stacks, c);
    UnplacedProps(stacks, set r | r in Refs(c));
    MembersHaveRefs(c, stacks);
    PlacedWithin(stacks, c);
    if |c| == |stacks| {
      FullSelection(stacks, c);
      forall x | x in stacks ensures x in c {
        assert x in multiset(c);
      }
      MembersHaveRefs(stacks, c);
    }
  }

  lemma MembersHaveRefs(a: seq<Stack>, b: seq<Stack>)
    requires forall x :: x in a ==> x in b
    ensures forall r :: r in Refs(a) ==> r in Refs(b)
  {
    forall r | r in Refs(a) ensures r in Refs(b) {
      var i :| 0 <= i < |a| && Refs(a)[i] == r;
      assert a[i] in b;
      var k :| 0 <= k < |b| && b[k] == a[i];
      assert Refs(b)[k] == r;
    }
  }

  /** The refs of all parts, in order. */
  function PlacedRefs(parts: seq<Part>): seq<string> {
    if parts == [] then [] else PlacedRefs(parts[..|parts| - 1]) + parts[|parts| - 1].stacks
  }

  method CountPlaced(groups: seq<seq<Stack>>) returns (placed: nat)
    ensures placed == |Concat(groups)|
  {
    placed := 0;
    for i := 0 to |groups|
      invariant placed == |Concat(groups[..i])|
    {
      ConcatStep(groups, i);
      placed := placed + |groups[i]|;
    }
    assert groups[..|groups|] == groups;
  }

  /** Numbered, marked, showing its own group, and only the last one names what was left out. */
  function PartFor(b: Board, stacks: seq<Stack>, groups: seq<seq<Stack>>, i: nat, links: map<string, nat>, overCap: nat, omitted: seq<string>): Part
    requires i < |groups|
  {
    Part(i + 1, PartMarker(b.marker, i + 1), PartBody(b, stacks, groups[i], i, |groups|, links, overCap),
         Refs(groups[i]), if i == |groups| - 1 && overCap > 0 then omitted else [])
  }

  /** One part: render or trim, add the note on the last one, rewrite the marker. */
  method BuildPart(b: Board, stacks: seq<Stack>, groups: seq<seq<Stack>>, i: nat,
                   links: map<string, nat>, overCap: nat, omitted: seq<string>)
      returns (part: Part)
    requires i < |groups|
    ensures part == PartFor(b, stacks, groups, i, links, overCap, omitted)
  {
    var total, g := |groups|, groups[i];
    var o := PartOpts(b, stacks, i + 1, total);
    o := o.(stackParts := links);
    var body := b.render(g, o);
    if |body| > o.commentLimit {
      body := b.descend(g, o);
    }
    var rest: seq<string> := [];
    if i == total - 1 && overCap > 0 {
      body := body + OverCapNote(overCap);
      rest := omitted;
    }
    var marker := PartMarker(b.marker, i + 1);
    body := ReplaceFirst(body, b.marker, marker);
    part := Part(i + 1, marker, body, Refs(g), rest);
  }

  /** One part per group. */
  ghost predicate PartsOfGroups(b: Board, stacks: seq<Stack>, groups: seq<seq<Stack>>, parts: seq<Part>, links: map<string, nat>, overCap: nat) {
    && |parts| == |groups|
    && forall i :: 0 <= i < |parts| ==>
         parts[i] == PartFor(b, stacks, groups, i, links, overCap, Unplaced(stacks, Placed(groups)))
  }

  method BuildParts(b: Board, stacks: seq<Stack>, groups: seq<seq<Stack>>, links: map<string, nat>, overCap: nat)
      returns (parts: seq<Part>)
    ensures PartsOfGroups(b, stacks, groups, parts, links, overCap)
  {
    var omitted := OmittedRefs(stacks, groups);
    parts := [];
    for i := 0 to |groups|
      invariant |parts| == i
      invariant forall k :: 0 <= k < i ==> parts[k] == PartFor(b, stacks, groups, k, links, overCap, omitted)
    {
      var part := BuildPart(b, stacks, groups, i, links, overCap, omitted);
      parts := parts + [part];
    }
  }

  /** The parts made of a split: none when it has at most one group, otherwise one part per group,
      with its number, marker, body, refs and, on the last one, what the cap left out; and the
      table's links lead to the part that carries each stack. */
  ghost predicate Paginated(b: Board, stacks: seq<Stack>, parts: seq<Part>, groups: seq<seq<Stack>>, links: map<string, nat>) {
    && IsSplit(b, stacks, groups) && |Concat(groups)| <= |stacks|
    && if |groups| <= 1 then parts == []
       else && PartsOfGroups(b, stacks, groups, parts, links, |stacks| - |Concat(groups)|)
            && Links(links, stacks, groups, |groups|)
  }

  /** What is returned, part by part: numbered from one, each under its own marker and carrying its own
      group, and only the last one names what was left out, which is every stack that no part carries. */
  lemma {:induction false} PartsAre(b: Board, stacks: seq<Stack>, parts: seq<Part>, groups: seq<seq<Stack>>, links: map<string, nat>, i: nat)
    requires Paginated(b, stacks, parts, groups, links) && i < |parts|
    ensures var p := parts[i];
      && |parts| == |groups| && p.ordinal == i + 1 && p.marker == PartMarker(b.marker, i + 1)
      && |p.stacks| == |groups[i]| && (forall k :: 0 <= k < |p.stacks| ==> p.stacks[k] == groups[i][k].ref)
      && (p.omitted != [] ==> i + 1 == |parts| && |Concat(groups)| < |stacks|)
      && (Contains(PartText(b, stacks, groups[i], i, |groups|, links, |stacks| - |Concat(groups)|), b.marker) ==> Contains(p.body, p.marker))
  {
    var overCap := |stacks| - |Concat(groups)|;
    if Contains(PartText(b, stacks, groups[i], i, |groups|, links, overCap), b.marker) {
      PostedUnderItsMarker(b, stacks, groups[i], i, |groups|, links, overCap);
    }
  }

  /** Some part carries the ref. */
  ghost predicate Shown(parts: seq<Part>, r: string) {
    exists j :: 0 <= j < |parts| && r in parts[j].stacks
  }

  /** What the last part names as left out, if anything is: the stacks that no part carries. */
  lemma {:induction false} OmittedAre(b: Board, stacks: seq<Stack>, parts: seq<Part>, groups: seq<seq<Stack>>, links: map<string, nat>, r: string)
    requires Paginated(b, stacks, parts, groups, links) && parts != [] && |Concat(groups)| < |stacks|
    ensures r in parts[|parts| - 1].omitted <==> (exists x :: x in stacks && x.ref == r) && !Shown(parts, r)
  {
    UnplacedIff(stacks, Placed(groups), r);
    PlacedIsShown(parts, groups, r);
  }

  lemma {:induction false} PlacedIsShown(parts: seq<Part>, groups: seq<seq<Stack>>, r: string)
    requires |parts| == |groups| && forall j :: 0 <= j < |parts| ==> parts[j].stacks == Refs(groups[j])
    ensures r in Placed(groups) <==> Shown(parts, r)
  {
    PlacedRefsAre(parts, groups, |groups|);
    assert groups[..|groups|] == groups && parts[..|parts|] == parts;
    ShownIff(parts, r);
  }

  lemma {:induction false} UnplacedIff(stacks: seq<Stack>, placed: set<string>, r: string)
    ensures r in Unplaced(stacks, placed) <==> (exists x :: x in stacks && x.ref == r) && r !in placed
  {
    if stacks != [] {
      var n := |stacks| - 1;
      UnplacedIff(stacks[..n], placed, r);
      assert stacks == stacks[..n] + [stacks[n]];
    }
  }

  lemma {:induction false} ShownIff(parts: seq<Part>, r: string)
    ensures r in PlacedRefs(parts) <==> Shown(parts, r)
  {
    if parts != [] {
      var n := |parts| - 1;
      ShownIff(parts[..n], r);
      if Shown(parts[..n], r) {
        var j :| 0 <= j < n && r in parts[..n][j].stacks;
        assert r in parts[j].stacks;
      }
    }
  }

  method Paginate(b: Board, stacks: seq<Stack>) returns (parts: seq<Part>)
    requires b.maxParts >= 1 && multiset(b.sorted(stacks)) == multiset(stacks)
    ensures exists groups, links :: Paginated(b, stacks, parts, groups, links)
  {
    var groups := SplitStacks(b, stacks);
    SplitIsGood(b, stacks, groups);
    PlacedWithin(stacks, Concat(groups));
    if |groups| <= 1 {
      assert Paginated(b, stacks, [], groups, map[]);
      return [];
    }
    var placed := CountPlaced(groups);
    var index := PartOfStack(stacks, groups);
    parts := BuildParts(b, stacks, groups, index, |stacks| - placed);
    assert Paginated(b, stacks, parts, groups, index);
  }

  lemma BodiesFit(b: Board, stacks: seq<Stack>, parts: seq<Part>, groups: seq<seq<Stack>>, links: map<string, nat>, overCap: nat, i: nat)
    requires HonoursLimit(b.descend) && |stacks| <= Decimal.MAX_INT && |groups| <= Decimal.MAX_INT && overCap <= |stacks|
    requires PartsOfGroups(b, stacks, groups, parts, links, overCap) && i < |parts|
    ensures |parts[i].body| <= COMMENT_MAX
  {
    BodyFits(b, stacks, groups[i], i, |groups|, links, overCap);
  }

  /** What readers of the comments get: at most max_parts comments, each within the size limit
      after marker rewriting and the over-cap note; and with unique refs every stack is in exactly
      one comment or named as omitted by the last. */
  lemma {:induction false} PagesConserveAndFit(b: Board, stacks: seq<Stack>, parts: seq<Part>, groups: seq<seq<Stack>>, links: map<string, nat>)
    requires b.maxParts >= 1 && multiset(b.sorted(stacks)) == multiset(stacks) && HonoursLimit(b.descend)
    requires |stacks| <= Decimal.MAX_INT && b.maxParts <= Decimal.MAX_INT
    requires Paginated(b, stacks, parts, groups, links)
    ensures parts == [] || 2 <= |parts| <= b.maxParts
    ensures forall i :: 0 <= i < |parts| ==> |parts[i].body| <= COMMENT_MAX
    ensures parts != [] && DistinctRefs(stacks) ==> Conserved(stacks, PlacedRefs(parts), parts[|parts| - 1].omitted)
  {
    var overCap := |stacks| - |Concat(groups)|;
    SplitIsGood(b, stacks, groups);
    forall i | 0 <= i < |parts| ensures |parts[i].body| <= COMMENT_MAX {
      BodiesFit(b, stacks, parts, groups, links, overCap, i);
    }
    if parts != [] && DistinctRefs(stacks) {
      PagesConserve(b, stacks, parts, groups, links, overCap);
    }
  }

  lemma {:induction false} PagesConserve(b: Board, stacks: seq<Stack>, parts: seq<Part>, groups: seq<seq<Stack>>, links: map<string, nat>, overCap: nat)
    requires DistinctRefs(stacks) && GoodSplit(stacks, b.maxParts, groups) && parts != []
    requires overCap == |stacks| - |Concat(groups)| && PartsOfGroups(b, stacks, groups, parts, links, overCap)
    ensures Conserved(stacks, PlacedRefs(parts), parts[|parts| - 1].omitted)
  {
    assert forall i :: 0 <= i < |parts| ==> parts[i].stacks == Refs(groups[i]);
    PlacedRefsAre(parts, groups, |groups|);
    assert groups[..|groups|] == groups && parts[..|parts|] == parts;
    SelectionConserves(stacks, Concat(groups), parts[|parts| - 1].omitted);
  }

  lemma {:induction false} PlacedRefsAre(parts: seq<Part>, groups: seq<seq<Stack>>, n: nat)
    requires n <= |parts| == |groups| && forall i :: 0 <= i < |parts| ==> parts[i].stacks == Refs(groups[i])
    ensures PlacedRefs(parts[..n]) == Refs(Concat(groups[..n]))
  {
    if n > 0 {
      PlacedRefsAre(parts, groups, n - 1);
      assert parts[..n][..n - 1] == parts[..n - 1];
      ConcatStep(groups, n - 1);
      RefsAppend(Concat(groups[..n - 1]), groups[n - 1]);
    }
  }

  lemma PlacedWithin(stacks: seq<Stack>, c: seq<Stack>)
    requires multiset(c) <= multiset(stacks)
    ensures |c| <= |stacks|
  {
    assert multiset(stacks) == multiset(c) + (multiset(stacks) - multiset(c));
    assert |multiset(stacks)| == |stacks| && |multiset(c)| == |c|;
  }

  // ---------- the links of the table ----------

  ghost predicate Carries(group: seq<Stack>, r: string) {
    exists x :: x in group && x.ref == r
  }

  /** Zero means none of the first n parts; otherwise the last of them that carries the ref. */
  ghost predicate Links(m: map<string, nat>, stacks: seq<Stack>, groups: seq<seq<Stack>>, n: nat)
    requires n <= |groups|
  {
    && (forall k :: 0 <= k < |stacks| ==> stacks[k].ref in m)
    && (forall r :: r in m && m[r] > 0 ==> m[r] <= n && Carries(groups[m[r] - 1], r))
    && (forall i, j :: 0 <= i < n && 0 <= j < |groups[i]| ==> groups[i][j].ref in m && i < m[groups[i][j].ref])
  }

  method PartOfStack(stacks: seq<Stack>, groups: seq<seq<Stack>>) returns (m: map<string, nat>)
    ensures Links(m, stacks, groups, |groups|)
  {
    m := map[];
    for k := 0 to |stacks|
      invariant forall j :: 0 <= j < k ==> stacks[j].ref in m
      invariant forall r :: r in m ==> m[r] == 0
    {
      m := m[stacks[k].ref := 0];
    }
    for i := 0 to |groups|
      invariant Links(m, stacks, groups, i)
    {
      m := LinkGroup(m, stacks, groups, i);
    }
  }

  method LinkGroup(m0: map<string, nat>, stacks: seq<Stack>, groups: seq<seq<Stack>>, i: nat) returns (m: map<string, nat>)
    requires i < |groups| && Links(m0, stacks, groups, i)
    ensures Links(m, stacks, groups, i + 1)
  {
    m := m0;
    for j := 0 to |groups[i]|
      invariant forall r :: r in m0 ==> r in m && m0[r] <= m[r]
      invariant forall r :: r in m ==> (r in m0 && m[r] == m0[r]) || (m[r] == i + 1 && Carries(groups[i], r))
      invariant forall k :: 0 <= k < j ==> groups[i][k].ref in m && m[groups[i][k].ref] == i + 1
    {
      assert Carries(groups[i], groups[i][j].ref) by {
        assert groups[i][j] in groups[i];
      }
      m := m[groups[i][j].ref := i + 1];
    }
  }

  lemma WhereInConcat(groups: seq<seq<Stack>>, i: nat, x: Stack) returns (a: nat)
    requires i < |groups| && x in groups[i]
    ensures Edge(groups, i) <= a < Edge(groups, i + 1) <= |Concat(groups)| && Concat(groups)[a] == x
  {
    PartIsSlice(groups, i);
    var j :| 0 <= j < |groups[i]| && groups[i][j] == x;
    a := Edge(groups, i) + j;
  }

  lemma {:induction false} PartsDisjoint(groups: seq<seq<Stack>>, i: nat, j: nat, x: Stack, y: Stack)
    requires DistinctRefs(Concat(groups)) && i < j < |groups| && x in groups[i] && y in groups[j]
    ensures x.ref != y.ref
  {
    var a := WhereInConcat(groups, i, x);
    var c := WhereInConcat(groups, j, y);
    EdgesGrow(groups, i + 1, j);
  }

  lemma {:induction false} EdgesGrow(groups: seq<seq<Stack>>, i: nat, j: nat)
    requires i <= j <= |groups|
    ensures Edge(groups, i) <= Edge(groups, j)
    decreases j - i
  {
    if i < j {
      PartIsSlice(groups, i);
      EdgesGrow(groups, i + 1, j);
    }
  }

  /** With unique refs the link of every placed stack is exactly its part. */
  lemma {:induction false} LinksAreExact(m: map<string, nat>, stacks: seq<Stack>, groups: seq<seq<Stack>>, i: nat, j: nat)
    requires DistinctRefs(Concat(groups)) && Links(m, stacks, groups, |groups|)
    requires i < |groups| && j < |groups[i]|
    ensures groups[i][j].ref in m && m[groups[i][j].ref] == i + 1
  {
    var x := groups[i][j];
    var k := m[x.ref] - 1;
    if i < k {
      assert Carries(groups[k], x.ref);
      var y :| y in groups[k] && y.ref == x.ref;
      PartsDisjoint(groups, i, k, x, y);
    }
  }
}
