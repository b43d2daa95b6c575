/** Boards that print what the renderers of internal/core/render print about parts: the header of
    every part and the Detail column of part 1 (trim.go, preview.go).  They meet what module Reserve
    assumes, and some of them show the worst that splitting and posting can do. */
module Boards {
  import opened Strings
  import opened Splitting
  import opened Settling
  import opened StatusGroups
  import opened Pagination
  import opened Reserve
  import Decimal

  // ---------- the header and the Detail column ----------

  /** writePartHeader: nothing unless there are several parts. */
  function Header(part: nat, total: nat): string {
    if total <= 1 then ""
    else "**Part " + Decimal.Print(part) + " of " + Decimal.Print(total) + ".**"
         + (if part > 1 then " The stack table is on part 1." else " Per-stack detail continues in the comments below.")
         + "\n\n"
  }

  lemma {:induction false} HeaderWidth(part: nat, total: nat)
    ensures |Header(part, total)| ==
              if total <= 1 then 0 else (if part > 1 then 46 else 66) + |Decimal.Print(part)| + |Decimal.Print(total)|
  {
  }

  /** partCell: a link of zero is that of an omitted stack. */
  function Cell(link: nat): string {
    if link > 0 then "part " + Decimal.Print(link) else "run log"
  }

  /** A cell of every stack of the board. */
  function Cells(refs: seq<string>, links: map<string, nat>): string {
    if refs == [] then ""
    else " " + Cell(if refs[0] in links then links[refs[0]] else 0) + " |" + Cells(refs[1..], links)
  }

  function Column(refs: seq<string>, links: map<string, nat>): string {
    " Detail |" + "---|" + Cells(refs, links)
  }

  /** A link is no wider than the one to the last possible part unless there are fewer than ten parts
      and it is that of an omitted stack. */
  lemma CellWidth(link: nat, cap: nat)
    requires link <= cap && cap >= 1
    ensures |Cell(link)| <= |Cell(cap)| <==> link >= 1 || cap >= 10
    ensures cap < 10 ==> |Cell(link)| >= |Cell(cap)|
  {
    Decimal.PrintGrows(link, cap);
    if cap >= 10 {
      Decimal.PrintGrows(10, cap);
      assert |Decimal.Print(10)| == 2;
    }
  }

  /** So for the whole column: it is no wider than with the placeholders exactly if nothing is omitted or
      the cap has two digits. */
  lemma {:induction false} CellsNoLongerIff(refs: seq<string>, links: map<string, nat>, places: map<string, nat>, cap: nat)
    requires cap >= 1 && forall k :: 0 <= k < |refs| ==> refs[k] in links && links[refs[k]] <= cap
    requires forall k :: 0 <= k < |refs| ==> refs[k] in places && places[refs[k]] == cap
    ensures |Cells(refs, links)| <= |Cells(refs, places)| <==>
              cap >= 10 || forall k :: 0 <= k < |refs| ==> links[refs[k]] >= 1
    ensures cap < 10 ==> |Cells(refs, links)| >= |Cells(refs, places)|
  {
    if refs != [] {
      CellWidth(links[refs[0]], cap);
      CellsNoLongerIff(refs[1..], links, places, cap);
      assert forall k :: 1 <= k < |refs| ==> refs[k] == refs[1..][k - 1];
    }
  }

  // ---------- boards ----------

  function Text(g: seq<Stack>): string {
    if g == [] then "" else g[0].ref + Text(g[1..])
  }

  /** Prints the header, on part 1 of several the column, and the refs; and one byte more from three
      parts on if `wide`. */
  function RefBoard(maxParts: nat, wide: bool, stacks: seq<Stack>): Board {
    Board((g: seq<Stack>, o: Opts) =>
            Header(o.part, o.partsTotal)
            + (if o.part == 1 && o.partsTotal > 1 then Column(Refs(stacks), o.stackParts) else "")
            + Text(g) + (if wide && o.partsTotal >= 3 then "." else ""),
          (g: seq<Stack>, o: Opts) => "", (s: seq<Stack>) => s, ByStack, maxParts, CLOSING)
  }

  /** The column that part 1 is measured with. */
  function ColumnWidth(maxParts: nat, stacks: seq<Stack>): nat {
    |Column(Refs(stacks), map r | r in Refs(stacks) :: maxParts)|
  }

  lemma {:induction false} RenderLength(maxParts: nat, wide: bool, stacks: seq<Stack>, g: seq<Stack>, o: Opts)
    ensures |RefBoard(maxParts, wide, stacks).render(g, o)| ==
              |Header(o.part, o.partsTotal)|
              + (if o.part == 1 && o.partsTotal > 1 then |Column(Refs(stacks), o.stackParts)| else 0)
              + |Text(g)| + (if wide && o.partsTotal >= 3 then 1 else 0)
  {
  }

  lemma {:induction false} RefLength(maxParts: nat, wide: bool, stacks: seq<Stack>, g: seq<Stack>, part: nat, total: nat)
    ensures var t := if total == 0 then maxParts else total;
            Length(RefBoard(maxParts, wide, stacks), stacks, g, part, total) ==
              |Header(part, t)| + (if part == 1 && t > 1 then ColumnWidth(maxParts, stacks) else 0)
              + |Text(g)| + (if wide && t >= 3 then 1 else 0)
  {
    RenderLength(maxParts, wide, stacks, g, PartOpts(RefBoard(maxParts, wide, stacks), stacks, part, total));
  }

  lemma {:induction false} TextAppend(g: seq<Stack>, h: seq<Stack>)
    ensures |Text(g + h)| == |Text(g)| + |Text(h)|
  {
    if g == [] {
      assert g + h == h;
    } else {
      assert (g + h)[1..] == g[1..] + h;
      TextAppend(g[1..], h);
    }
  }

  lemma MarkerOfPart(part: nat)
    requires 1 <= part <= 9
    ensures |PartMarker(CLOSING, part)| - |CLOSING| == if part == 1 then 0 else 6
  {
    assert CLOSING[0..] == CLOSING && CLOSING[..0] == "";
    assert TrimSuffix(CLOSING, CLOSING) == "";
  }

  /** These boards meet all that is assumed of a board, for counts up to nine. */
  lemma RefBoardIsOrdinary(maxParts: nat, stacks: seq<Stack>)
    ensures var b := RefBoard(maxParts, false, stacks);
      && EqualFooters(b, stacks, 9) && LaterTakesNoMore(b, stacks, 9)
      && LongerFooters(b, stacks) && WidestFooter(b, stacks) && FewerIsShorter(b, stacks)
  {
    var b := RefBoard(maxParts, false, stacks);
    FootersOf(maxParts, stacks);
    forall g, p: nat, q: nat | 1 <= p <= q <= 9 ensures Taken(b, stacks, g, q) <= Taken(b, stacks, g, p) {
      RefLength(maxParts, false, stacks, g, p, 2);
      RefLength(maxParts, false, stacks, g, q, 2);
      HeaderWidth(p, 2);
      HeaderWidth(q, 2);
      MarkerOfPart(p);
      MarkerOfPart(q);
    }
    forall g, p: nat, t: nat, k | 0 <= k <= |g|
      ensures Length(b, stacks, g[k..], p, t) <= Length(b, stacks, g, p, t)
           && Length(b, stacks, g[..k], p, t) <= Length(b, stacks, g, p, t)
    {
      assert g[..k] + g[k..] == g;
      TextAppend(g[..k], g[k..]);
      RefLength(maxParts, false, stacks, g, p, t);
      RefLength(maxParts, false, stacks, g[k..], p, t);
      RefLength(maxParts, false, stacks, g[..k], p, t);
    }
  }

  lemma {:induction false} WiderHeader(maxParts: nat, stacks: seq<Stack>, g: seq<Stack>, p: nat, t: nat, t': nat)
    requires 1 <= t <= t'
    ensures var b := RefBoard(maxParts, false, stacks);
      && Length(b, stacks, g, p, t) <= Length(b, stacks, g, p, t')
      && (2 <= t <= 9 ==> Length(b, stacks, g, p, t) == |Header(p, 2)| + |Text(g)| + if p == 1 then ColumnWidth(maxParts, stacks) else 0)
  {
    RefLength(maxParts, false, stacks, g, p, t);
    RefLength(maxParts, false, stacks, g, p, t');
    HeaderWidth(p, t);
    HeaderWidth(p, t');
    HeaderWidth(p, 2);
    Decimal.PrintGrows(t, t');
  }

  lemma FootersOf(maxParts: nat, stacks: seq<Stack>)
    ensures var b := RefBoard(maxParts, false, stacks);
            EqualFooters(b, stacks, 9) && LongerFooters(b, stacks) && WidestFooter(b, stacks)
  {
    var b := RefBoard(maxParts, false, stacks);
    forall g, p: nat, t: nat, t': nat | 1 <= t <= t' ensures Length(b, stacks, g, p, t) <= Length(b, stacks, g, p, t') {
      WiderHeader(maxParts, stacks, g, p, t, t');
    }
    forall g, p: nat, t: nat, t': nat | 2 <= t <= 9 && 2 <= t' <= 9
      ensures Length(b, stacks, g, p, t) == Length(b, stacks, g, p, t')
    {
      WiderHeader(maxParts, stacks, g, p, t, t);
      WiderHeader(maxParts, stacks, g, p, t', t');
    }
    forall g, p: nat, t: nat | 1 <= t <= maxParts ensures Length(b, stacks, g, p, t) <= Length(b, stacks, g, p, 0) {
      WiderHeader(maxParts, stacks, g, p, t, maxParts);
      RefLength(maxParts, false, stacks, g, p, 0);
      RefLength(maxParts, false, stacks, g, p, maxParts);
    }
  }

  /** Their final links are no longer than the placeholders if nothing is omitted or the cap has two
      digits. */
  lemma RefBoardLinks(maxParts: nat, wide: bool, stacks: seq<Stack>, low: nat)
    requires maxParts >= 1 && (low >= 1 || maxParts >= 10)
    ensures LinksNoLonger(RefBoard(maxParts, wide, stacks), stacks, low)
  {
    var b := RefBoard(maxParts, wide, stacks);
    forall g, i: nat, total: nat, links | LinksWithin(links, stacks, low, maxParts)
      ensures |b.render(g, FinalOpts(b, stacks, i, total, links))| <= Length(b, stacks, g, i + 1, total)
    {
      FinalLength(maxParts, wide, stacks, g, i, total, links, low);
    }
  }

  lemma FinalLength(maxParts: nat, wide: bool, stacks: seq<Stack>, g: seq<Stack>, i: nat, total: nat, links: map<string, nat>, low: nat)
    requires maxParts >= 1 && (low >= 1 || maxParts >= 10) && LinksWithin(links, stacks, low, maxParts)
    ensures var b := RefBoard(maxParts, wide, stacks);
            |b.render(g, FinalOpts(b, stacks, i, total, links))| <= Length(b, stacks, g, i + 1, total)
  {
    RenderLength(maxParts, wide, stacks, g, FinalOpts(RefBoard(maxParts, wide, stacks), stacks, i, total, links));
    RefLength(maxParts, wide, stacks, g, i + 1, total);
    ColumnNoLonger(maxParts, stacks, links, low);
  }

  lemma ColumnNoLonger(maxParts: nat, stacks: seq<Stack>, links: map<string, nat>, low: nat)
    requires maxParts >= 1 && (low >= 1 || maxParts >= 10) && LinksWithin(links, stacks, low, maxParts)
    ensures |Column(Refs(stacks), links)| <= ColumnWidth(maxParts, stacks)
  {
    var refs := Refs(stacks);
    assert forall k :: 0 <= k < |refs| ==> refs[k] == stacks[k].ref;
    CellsNoLongerIff(refs, links, map r | r in refs :: maxParts, maxParts);
  }

  // ---------- a board on which the loop never settles ----------

  function Sized(n: nat, st: Status): Stack {
    Stack(seq(n, _ => 'x'), st)
  }

  const Q: Stack := Sized(1, Status.Planned)
  const R: Stack := Sized(30_000, Status.Planned)
  const S: Stack := Sized(34_926, Status.Planned)

  /** The first is as long as part 1 of several can take with the second: 68 bytes of header, and a
      column of 13 bytes and four cells. */
  function Items(maxParts: nat): (r: seq<Stack>)
    requires maxParts <= Decimal.MAX_INT
    ensures |r| == 4
  {
    Decimal.PrintShort(maxParts);
    [Sized(64_931 - 13 - 4 * (3 + |Cell(maxParts)|), Status.Planned), Q, R, S]
  }

  /** The four of them on a board with that cap. */
  function Never(maxParts: nat, wide: bool): Board
    requires maxParts <= Decimal.MAX_INT
  {
    RefBoard(maxParts, wide, Items(maxParts))
  }

  lemma TextOf(a: Stack, b: Stack, c: Stack)
    ensures |Text([a])| == |a.ref| && |Text([a, b])| == |a.ref| + |b.ref|
    ensures |Text([a, b, c])| == |a.ref| + |b.ref| + |c.ref|
  {
    assert [a][1..] == [] && [b][1..] == [] && [c][1..] == [];
    assert Text([a]) == a.ref && Text([b]) == b.ref && Text([c]) == c.ref;
    assert [a, b][1..] == [b] && [b, c][1..] == [c];
    assert [a, b, c][1..] == [b, c];
  }

  lemma NoteLength(n: nat)
    requires 2 <= n <= 9
    ensures |OverCapNote(n)| == 107
  {
  }

  lemma {:induction false} CellsOfFour(refs: seq<string>, links: map<string, nat>, cap: nat)
    requires |refs| == 4 && forall k :: 0 <= k < 4 ==> refs[k] in links && links[refs[k]] == cap
    ensures |Column(refs, links)| == 13 + 4 * (3 + |Cell(cap)|)
  {
    var a, b, c := refs[1..], refs[2..], refs[3..];
    assert a[1..] == b && b[1..] == c && c[1..] == [];
    assert |Cells(c, links)| == 3 + |Cell(cap)|;
    assert |Cells(b, links)| == 2 * (3 + |Cell(cap)|);
    assert |Cells(a, links)| == 3 * (3 + |Cell(cap)|);
  }

  lemma CellAtLeast(link: nat)
    ensures |Cell(link)| >= 6
  {
    Decimal.PrintIsDigits(link);
  }

  lemma {:induction false} CellsAtLeast(refs: seq<string>, links: map<string, nat>)
    ensures |Cells(refs, links)| >= 9 * |refs|
  {
    if refs != [] {
      CellAtLeast(if refs[0] in links then links[refs[0]] else 0);
      CellsAtLeast(refs[1..], links);
    }
  }

  lemma SizeOfFirst(maxParts: nat)
    requires maxParts <= Decimal.MAX_INT
    ensures 0 < |Items(maxParts)[0].ref| == 64_918 - 4 * (3 + |Cell(maxParts)|) && 6 <= |Cell(maxParts)| <= 24
  {
    Decimal.PrintShort(maxParts);
    CellAtLeast(maxParts);
  }

  lemma {:induction false} FourFits(maxParts: nat, wide: bool, items: seq<Stack>, g: seq<Stack>, part: nat, total: nat)
    requires 1 <= part <= 9 && 1 <= total <= 9 && |items| == 4
    ensures Measure(RefBoard(maxParts, wide, items), items)(g, part, total) <==>
              |Text(g)| + (if total == 1 then 0 else if part > 1 then 48 else 81 + 4 * (3 + |Cell(maxParts)|))
              + (if wide && total >= 3 then 1 else 0) + (if part == total then 107 else 0)
              <= 65_000 - (if part == 1 then 0 else 6)
  {
    MeasureIs(RefBoard(maxParts, wide, items), items, g, part, total);
    MarkerOfPart(part);
    NoteLength(4);
    RefLength(maxParts, wide, items, g, part, total);
    HeaderWidth(part, total);
    ColumnOfFour(maxParts, items);
  }

  lemma ColumnOfFour(maxParts: nat, items: seq<Stack>)
    requires |items| == 4
    ensures ColumnWidth(maxParts, items) == 13 + 4 * (3 + |Cell(maxParts)|)
  {
    CellsOfFour(Refs(items), map r | r in Refs(items) :: maxParts, maxParts);
  }

  lemma {:induction false} NeverFits(maxParts: nat, wide: bool, g: seq<Stack>, part: nat, total: nat)
    requires 1 <= part <= 9 && 1 <= total <= 9 && maxParts <= Decimal.MAX_INT
    ensures Measure(Never(maxParts, wide), Items(maxParts))(g, part, total) <==>
              |Text(g)| + (if total == 1 then 0 else if part > 1 then 48 else 81 + 4 * (3 + |Cell(maxParts)|))
              + (if wide && total >= 3 then 1 else 0) + (if part == total then 107 else 0)
              <= 65_000 - (if part == 1 then 0 else 6)
  {
    FourFits(maxParts, wide, Items(maxParts), g, part, total);
  }

  /** Four items packed, by the four measurements that decide. */
  lemma PackFour<T(!new)>(p: T, q: T, r: T, s: T, maxParts: nat, t: int, fits: Fits<T>)
    requires maxParts >= 3 && !fits([p, q, r], 1, t)
    requires !fits([p, q], 1, t) ==> fits([q, r], 2, t) && fits([q, r, s], 2, t)
    ensures Pack([p, q, r, s], maxParts, t, fits) ==
              if !fits([p, q], 1, t) then [[p], [q, r, s]]
              else if fits([r, s], 2, t) then [[p, q], [r, s]]
              else [[p, q], [r], [s]]
  {
    var items := [p, q, r, s];
    assert items[1..] == [q, r, s] && [q, r, s][1..] == [r, s] && [r, s][1..] == [s] && [s][1..] == [];
    assert [] + [p] == [p] && [p] + [q] == [p, q] && [p, q] + [r] == [p, q, r];
    assert [q] + [r] == [q, r] && [q, r] + [s] == [q, r, s] && [r] + [s] == [r, s];
    assert Pack(items, maxParts, t, fits) == PackFrom([q, r, s], [p], 0, maxParts, t, fits);
    if fits([p, q], 1, t) {
      assert PackFrom([q, r, s], [p], 0, maxParts, t, fits) == PackFrom([r, s], [p, q], 0, maxParts, t, fits);
      assert PackFrom([r, s], [p, q], 0, maxParts, t, fits) == [[p, q]] + PackFrom([s], [r], 1, maxParts, t, fits);
      if fits([r, s], 2, t) {
        assert PackFrom([s], [r], 1, maxParts, t, fits) == PackFrom([], [r, s], 1, maxParts, t, fits) == [[r, s]];
      } else {
        assert PackFrom([s], [r], 1, maxParts, t, fits) == [[r]] + PackFrom([], [s], 2, maxParts, t, fits);
      }
    } else {
      assert PackFrom([q, r, s], [p], 0, maxParts, t, fits) == [[p]] + PackFrom([r, s], [q], 1, maxParts, t, fits);
      assert PackFrom([r, s], [q], 1, maxParts, t, fits) == PackFrom([s], [q, r], 1, maxParts, t, fits);
      assert PackFrom([s], [q, r], 1, maxParts, t, fits) == PackFrom([], [q, r, s], 1, maxParts, t, fits);
    }
  }

  /** The passes that keep recurring. */
  lemma NeverPass(maxParts: nat, wide: bool, t: nat)
    requires 3 <= maxParts <= Decimal.MAX_INT && 1 <= t <= 3
    ensures var fits, items := Measure(Never(maxParts, wide), Items(maxParts)), Items(maxParts);
      Pack(items, maxParts, t, fits) ==
        if t == 3 && wide then [[items[0]], [Q, R, S]] else if t == 2 then [[items[0], Q], [R], [S]] else [[items[0], Q], [R, S]]
  {
    var fits, items := Measure(Never(maxParts, wide), Items(maxParts)), Items(maxParts);
    var p := items[0];
    SizeOfFirst(maxParts);
    TextOf(p, Q, R);
    TextOf(Q, R, S);
    TextOf(R, S, S);
    NeverFits(maxParts, wide, [p, Q, R], 1, t);
    NeverFits(maxParts, wide, [p, Q], 1, t);
    NeverFits(maxParts, wide, [R, S], 2, t);
    NeverFits(maxParts, wide, [Q, R], 2, t);
    NeverFits(maxParts, wide, [Q, R, S], 2, t);
    PackFour(p, Q, R, S, maxParts, t, fits);
  }

  lemma NeverPasses(maxParts: nat, wide: bool)
    requires 3 <= maxParts <= Decimal.MAX_INT
    ensures var fits, items := Measure(Never(maxParts, wide), Items(maxParts)), Items(maxParts);
      && Pack(items, maxParts, 1, fits) == [[items[0], Q], [R, S]]
      && Pack(items, maxParts, 2, fits) == [[items[0], Q], [R], [S]]
      && Pack(items, maxParts, 3, fits) == if wide then [[items[0]], [Q, R, S]] else [[items[0], Q], [R, S]]
  {
    NeverPass(maxParts, wide, 1);
    NeverPass(maxParts, wide, 2);
    NeverPass(maxParts, wide, 3);
  }

  /** The counts go 1, 2, 3, 2, 3, ... */
  lemma {:induction false} NeverTotals(maxParts: nat, wide: bool, k: nat)
    requires 3 <= maxParts <= Decimal.MAX_INT
    ensures var fits := Measure(Never(maxParts, wide), Items(maxParts));
      && TotalAt(Items(maxParts), maxParts, fits, k) == (if k == 0 then 1 else if k % 2 == 1 then 2 else 3)
      && !SettledAt(Items(maxParts), maxParts, fits, k)
  {
    NeverPasses(maxParts, wide);
    if k > 0 {
      NeverTotals(maxParts, wide, k - 1);
    }
  }

  /** Whatever the cap, from three on, the loop never settles on this board, and what it returns
      depends on whether the cap is odd or even. */
  lemma NeverSettles(maxParts: nat, wide: bool)
    requires 3 <= maxParts <= Decimal.MAX_INT
    ensures var fits, items := Measure(Never(maxParts, wide), Items(maxParts)), Items(maxParts);
      && !EverSettles(items, maxParts, fits)
      && !AgainstOwnCount(items, Capacity(items, maxParts, fits), maxParts, fits)
      && Capacity(items, maxParts, fits) == Pack(items, maxParts, if maxParts % 2 == 1 then 3 else 2, fits)
  {
    var fits, items := Measure(Never(maxParts, wide), Items(maxParts)), Items(maxParts);
    forall k: nat ensures !SettledAt(items, maxParts, fits, k) {
      NeverTotals(maxParts, wide, k);
    }
    SettlesIff(items, maxParts, fits);
    var k := LoopStopsAt(items, maxParts, fits, 0);
    NeverTotals(maxParts, wide, k);
  }

  /** The promise that fails.  With any odd cap the board comes out in two parts, the second of
      which does not fit as part 2 of 2 and will be trimmed, although a split into three parts, all
      of which fit, was within the cap. */
  lemma LastPartIsTrimmed(maxParts: nat)
    requires 3 <= maxParts <= Decimal.MAX_INT && maxParts % 2 == 1
    ensures var fits, items := Measure(Never(maxParts, false), Items(maxParts)), Items(maxParts);
      && Capacity(items, maxParts, fits) == [[items[0], Q], [R, S]]
      && !fits([R, S], 2, 2)
      && (forall links :: PartText(Never(maxParts, false), items, [R, S], 1, 2, links, 0) == "")
      && AllFit([[items[0], Q], [R], [S]], 3, fits)
  {
    var fits, items := Measure(Never(maxParts, false), Items(maxParts)), Items(maxParts);
    NeverSettles(maxParts, false);
    NeverPasses(maxParts, false);
    SizeOfFirst(maxParts);
    TextOf(items[0], Q, R);
    TextOf(R, S, S);
    TextOf(S, S, S);
    NeverFits(maxParts, false, [R, S], 2, 2);
    NeverFits(maxParts, false, [items[0], Q], 1, 3);
    NeverFits(maxParts, false, [R], 2, 3);
    NeverFits(maxParts, false, [S], 3, 3);
  }

  /** When the result has more parts than it was packed against, an earlier part can miss as well:
      with any even cap, and a footer one byte longer from three parts on (the header's is so from ten on), the first
      part was measured against two and does not fit against three. */
  lemma EarlierPartMisses(maxParts: nat)
    requires 4 <= maxParts <= Decimal.MAX_INT && maxParts % 2 == 0
    ensures var fits, items := Measure(Never(maxParts, true), Items(maxParts)), Items(maxParts);
      && Capacity(items, maxParts, fits) == [[items[0], Q], [R], [S]]
      && fits([items[0], Q], 1, 2) && !fits([items[0], Q], 1, 3)
  {
    var items := Items(maxParts);
    NeverSettles(maxParts, true);
    NeverPasses(maxParts, true);
    SizeOfFirst(maxParts);
    TextOf(items[0], Q, R);
    NeverFits(maxParts, true, [items[0], Q], 1, 2);
    NeverFits(maxParts, true, [items[0], Q], 1, 3);
  }

  // ---------- a board on which a group misses ----------

  const F: Stack := Sized(64_892, Failed)
  const G: Stack := Sized(1, Failed)
  const X: Stack := Sized(2, Status.Planned)
  const Y: Stack := Sized(3, Status.Planned)

  lemma {:induction false} BucketStep(front: seq<Stack>, x: Stack, st: Status)
    ensures Bucket(front + [x], st) == if x.status == st then Bucket(front, st) + [x] else Bucket(front, st)
  {
    assert (front + [x])[..|front|] == front;
  }

  lemma {:induction false} BucketsOf(st: Status)
    ensures Bucket([F, G, X, Y], st) == if st == Failed then [F, G] else if st == Status.Planned then [X, Y] else []
  {
    assert [] + [F] == [F] && [F] + [G] == [F, G] && [F, G] + [X] == [F, G, X] && [F, G, X] + [Y] == [F, G, X, Y];
    assert [] + [X] == [X] && [X] + [Y] == [X, Y];
    BucketStep([], F, st);
    BucketStep([F], G, st);
    BucketStep([F, G], X, st);
    BucketStep([F, G, X], Y, st);
  }

  lemma GroupMeasurements(maxParts: nat)
    requires 2 <= maxParts <= Decimal.MAX_INT
    ensures var fits := Measure(RefBoard(maxParts, false, [F, G, X, Y]), [F, G, X, Y]);
            !fits([F, G], 1, 0) && fits([F, G], 1, 1) && !fits([F, G], 1, 2) && fits([X, Y], 2, 0)
  {
    var b, items := RefBoard(maxParts, false, [F, G, X, Y]), [F, G, X, Y];
    TextOf(F, G, X);
    TextOf(X, Y, X);
    CellAtLeast(maxParts);
    FourFits(maxParts, false, items, [F, G], 1, 1);
    FourFits(maxParts, false, items, [F, G], 1, 2);
    MeasureIs(b, items, [F, G], 1, 0);
    MeasureIs(b, items, [X, Y], 2, 0);
    RefLength(maxParts, false, items, [F, G], 1, 0);
    RefLength(maxParts, false, items, [X, Y], 2, 0);
    ColumnOfFour(maxParts, items);
    HeaderWidth(1, maxParts);
    HeaderWidth(2, maxParts);
    Decimal.PrintShort(maxParts);
    NoteLength(4);
    MarkerOfPart(1);
    MarkerOfPart(2);
  }

  lemma GroupIsTrimmed(maxParts: nat, links: map<string, nat>)
    ensures PartText(RefBoard(maxParts, false, [F, G, X, Y]), [F, G, X, Y], [F, G], 0, 2, links, 0) == ""
  {
    var b, items := RefBoard(maxParts, false, [F, G, X, Y]), [F, G, X, Y];
    RenderLength(maxParts, false, items, [F, G], FinalOpts(b, items, 0, 2, links));
    HeaderWidth(1, 2);
    CellsAtLeast(Refs(items), links);
    TextOf(F, G, X);
  }

  lemma {:induction false} SplitOfGroups(maxParts: nat, fits: Fits<Stack>)
    requires maxParts >= 2 && !fits([F, G], 1, 0) && fits([X, Y], 2, 0)
    requires Capacity([F, G], maxParts, fits) == [[F, G]]
    ensures Capped(GroupSplit([F, G, X, Y], |GROUP_ORDER|, maxParts, fits), maxParts) == [[F, G], [X, Y]]
  {
    var items := [F, G, X, Y];
    BucketsOf(Failed);
    BucketsOf(Blocked);
    BucketsOf(Status.Planned);
    BucketsOf(NoOp);
    assert GroupSplit(items, 0, maxParts, fits) == [];
    assert GroupSplit(items, 1, maxParts, fits) == [] + [[F, G]];
    assert GroupSplit(items, 2, maxParts, fits) == [[F, G]] + [];
    assert GroupSplit(items, 3, maxParts, fits) == [[F, G]] + [[X, Y]];
    assert GroupSplit(items, 4, maxParts, fits) == [[F, G], [X, Y]] + [];
  }

  /** A group that is not let through whole is packed as if it were the board.  Here the failed stacks
      do not fit next to the reserve as part 1 of a board of unknown size, but they do as its only part,
      which has neither header nor column; as part 1 of 2, where they end up, they do not. */
  lemma GroupPartMisses(maxParts: nat)
    requires 2 <= maxParts <= Decimal.MAX_INT
    ensures var b, items := RefBoard(maxParts, false, [F, G, X, Y]), [F, G, X, Y];
      && ByStatus(b, items) == [[F, G], [X, Y]]
      && Measure(b, items)([F, G], 1, 1) && !Measure(b, items)([F, G], 1, 2)
      && (forall links :: PartText(b, items, [F, G], 0, 2, links, 0) == "")
  {
    var b, items := RefBoard(maxParts, false, [F, G, X, Y]), [F, G, X, Y];
    var fits := Measure(b, items);
    GroupMeasurements(maxParts);
    AllInOne(F, G, maxParts, fits);
    SplitOfGroups(maxParts, fits);
    forall links ensures PartText(b, items, [F, G], 0, 2, links, 0) == "" {
      GroupIsTrimmed(maxParts, links);
    }
  }

  lemma AllInOne<T(!new)>(p: T, q: T, maxParts: nat, fits: Fits<T>)
    requires fits([p, q], 1, 1)
    ensures Capacity([p, q], maxParts, fits) == [[p, q]]
  {
    assert [p, q][1..] == [q] && [q][1..] == [] && [] + [p] == [p] && [p] + [q] == [p, q];
    assert Pack([p, q], maxParts, 1, fits) == PackFrom([q], [p], 0, maxParts, 1, fits);
    assert PackFrom([q], [p], 0, maxParts, 1, fits) == PackFrom([], [p, q], 0, maxParts, 1, fits) == [[p, q]];
  }

  // ---------- a board that leaves a stack out ----------

  const A: Stack := Sized(64_892, Status.Planned)
  const B: Stack := Sized(40_000, Status.Planned)
  const C: Stack := Sized(40_001, Status.Planned)

  lemma OmittedSplit()
    ensures var fits := Measure(RefBoard(2, false, [A, B, C]), [A, B, C]);
            Capacity([A, B, C], 2, fits) == [[A], [B]] && fits([A], 1, 2)
  {
    var b, items := RefBoard(2, false, [A, B, C]), [A, B, C];
    var fits := Measure(b, items);
    TextOf(A, B, C);
    TextOf(B, C, C);
    MeasureIs(b, items, [A], 1, 2);
    MeasureIs(b, items, [A, B], 1, 1);
    MeasureIs(b, items, [A, B], 1, 2);
    MeasureIs(b, items, [B, C], 2, 1);
    MeasureIs(b, items, [B, C], 2, 2);
    RefLength(2, false, items, [A], 1, 2);
    RefLength(2, false, items, [A, B], 1, 1);
    RefLength(2, false, items, [A, B], 1, 2);
    RefLength(2, false, items, [B, C], 2, 1);
    RefLength(2, false, items, [B, C], 2, 2);
    HeaderWidth(1, 2);
    MarkerOfPart(1);
    MarkerOfPart(2);
    NoteLength(3);
    ColumnOfThree(2, items);
    assert |Cell(2)| == 6;
    TwoOfThree(A, B, C, 1, fits);
    TwoOfThree(A, B, C, 2, fits);
    assert SettleFrom(items, 2, 1, 0, fits) == SettleFrom(items, 2, 2, 1, fits);
  }

  lemma ColumnOfThree(cap: nat, items: seq<Stack>)
    requires |items| == 3
    ensures ColumnWidth(cap, items) == 13 + 3 * (3 + |Cell(cap)|)
  {
    CellsOfThree(Refs(items), map r | r in Refs(items) :: cap, cap);
  }

  lemma {:induction false} CellsOfThree(refs: seq<string>, links: map<string, nat>, cap: nat)
    requires |refs| == 3 && forall k :: 0 <= k < 3 ==> refs[k] in links && links[refs[k]] == cap
    ensures |Column(refs, links)| == 13 + 3 * (3 + |Cell(cap)|)
  {
    var a, b := refs[1..], refs[2..];
    assert a[1..] == b && b[1..] == [];
    assert |Cells(b, links)| == 3 + |Cell(cap)|;
    assert |Cells(a, links)| == 2 * (3 + |Cell(cap)|);
  }

  /** A cap of two, and no two of the three together. */
  lemma TwoOfThree<T(!new)>(p: T, q: T, r: T, t: int, fits: Fits<T>)
    requires !fits([p, q], 1, t) && !fits([q, r], 2, t)
    ensures Pack([p, q, r], 2, t, fits) == [[p], [q]]
  {
    assert [p, q, r][1..] == [q, r] && [q, r][1..] == [r] && [] + [p] == [p] && [p] + [q] == [p, q] && [q] + [r] == [q, r];
    assert Pack([p, q, r], 2, t, fits) == PackFrom([q, r], [p], 0, 2, t, fits);
    assert PackFrom([q, r], [p], 0, 2, t, fits) == [[p]] + PackFrom([r], [q], 1, 2, t, fits);
  }

  lemma OmittedLink(links: map<string, nat>)
    requires Links(links, [A, B, C], [[A], [B]], 2)
    ensures C.ref in links && links[C.ref] == 0
  {
    assert [A, B, C][2].ref in links;
    assert |A.ref| != |C.ref| && |B.ref| != |C.ref|;
  }

  lemma {:induction false} RunLogIsWider(links: map<string, nat>)
    requires C.ref in links && links[C.ref] == 0
    ensures var b, items := RefBoard(2, false, [A, B, C]), [A, B, C];
            PartBody(b, items, [A], 0, 2, links, 1) == ""
  {
    var b, items, refs := RefBoard(2, false, [A, B, C]), [A, B, C], Refs([A, B, C]);
    RenderLength(2, false, items, [A], FinalOpts(b, items, 0, 2, links));
    HeaderWidth(1, 2);
    TextOf(A, B, C);
    CellAtLeast(if refs[0] in links then links[refs[0]] else 0);
    CellAtLeast(if refs[1] in links then links[refs[1]] else 0);
    assert refs[1..][1..] == refs[2..] && refs[2..][1..] == [] && refs[2..][0] == C.ref;
    assert |Cells(refs[2..], links)| == 10;
    assert |Cells(refs[1..], links)| >= 19;
    assert |Cells(refs, links)| >= 28;
    assert PartText(b, items, [A], 0, 2, links, 1) == "";
  }

  lemma {:induction false} OmittedRef()
    ensures Concat([[A], [B]]) == [A, B] && Unplaced([A, B, C], Placed([[A], [B]])) == [C.ref]
  {
    ConcatOne([B]);
    assert [[A], [B]][1..] == [[B]] && [A] + [B] == [A, B];
    assert [A, B, C][..2] == [A, B] && [A, B][..1] == [A] && [A][..0] == [];
    var refs := Refs([A, B]);
    assert refs[0] == A.ref && refs[1] == B.ref && |A.ref| != |C.ref| && |B.ref| != |C.ref|;
    var placed := Placed([[A], [B]]);
    assert A.ref in placed && B.ref in placed && C.ref !in placed;
    assert Unplaced([], placed) == [];
    assert Unplaced([A], placed) == [];
    assert Unplaced([A, B], placed) == [];
  }

  /** For every cap below ten the placeholder is narrower than the cell of an omitted stack.  Here the cap
      leaves C out, part 1 of 2 was measured to fit exactly, and it is trimmed all the same. */
  lemma {:induction false} OmittedStackTrimsPart(parts: seq<Part>, groups: seq<seq<Stack>>, links: map<string, nat>)
    requires Paginated(RefBoard(2, false, [A, B, C]), [A, B, C], parts, groups, links)
    ensures groups == [[A], [B]] && Measure(RefBoard(2, false, [A, B, C]), [A, B, C])(groups[0], 1, |groups|)
    ensures |parts| == 2 && parts[0].body == "" && parts[1].omitted == [C.ref]
  {
    OmittedSplit();
    OmittedRef();
    OmittedLink(links);
    RunLogIsWider(links);
  }
}
