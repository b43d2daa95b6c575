/** The choice of the authoritative preview manifest (internal/run/preview_lookup.go): which
    manifest wins, and when the order in which the store lists its keys decides. */
module Selection {
  import opened Base
  import opened Strings
  import opened Preview
  import Decimal

  // ---------- the comparison ----------

  function NewerRunId(candidate: string, current: string, sha: string): bool {
    var c, d := PreviewRunOrder(candidate, sha), PreviewRunOrder(current, sha);
    if c.Some? && d.Some? && c.value.0 != d.value.0 then c.value.0 > d.value.0
    else if c.Some? && d.Some? && c.value.1 != d.value.1 then c.value.1 > d.value.1
    else Greater(candidate, current)
  }

  predicate Beats(c: Judged, best: Judged, sha: string)
    requires c.Accepted? && best.Accepted?
  {
    c.created > best.created || (c.created == best.created && NewerRunId(c.m.runId, best.m.runId, sha))
  }

  /** The scan over judged keys, left to right. */
  function Best(js: seq<Judged>, sha: string): (b: Option<Judged>)
    ensures b.Some? ==> b.value.Accepted? && b.value in js
  {
    if js == [] then None
    else
      var n := |js| - 1;
      var b := Best(js[..n], sha);
      if !js[n].Accepted? then b
      else if b.None? || Beats(js[n], b.value, sha) then Some(js[n])
      else b
  }

  // ---------- the lookup ----------

  /** What the lookup is about: the stored objects, and the pull request and commit it is for. */
  datatype World = World(objects: map<string, Object>, prefix: string, pr: int, sha: string)

  /** A key that is gone by the time it is read is unreadable. */
  function Judgement(w: World, key: string): Judged {
    Judge(key, w.prefix, if key in w.objects then w.objects[key] else Unreadable, w.pr, w.sha)
  }

  function Judgements(w: World, keys: seq<string>): (js: seq<Judged>)
    ensures |js| == |keys| && forall i :: 0 <= i < |keys| ==> js[i] == Judgement(w, keys[i])
  {
    seq(|keys|, i requires 0 <= i < |keys| => Judgement(w, keys[i]))
  }

  datatype Lookup = Failure | Found(best: Option<Manifest>)

  /** An invalid candidate fails the lookup, and otherwise the best accepted one is returned. */
  function Select(w: World, keys: seq<string>): Lookup {
    var js := Judgements(w, keys);
    if Invalid in js then Failure
    else match Best(js, w.sha)
      case None => Found(None)
      case Some(j) => Found(Some(j.m))
  }

  lemma {:induction false} BestStep(js: seq<Judged>, j: Judged, sha: string)
    ensures var b := Best(js, sha);
            Best(js + [j], sha) ==
              if j.Accepted? && (b.None? || Beats(j, b.value, sha)) then Some(j) else b
  {
    assert (js + [j])[..|js|] == js;
  }

  lemma JudgementsStep(w: World, keys: seq<string>, key: string)
    ensures Judgements(w, keys + [key]) == Judgements(w, keys) + [Judgement(w, key)]
  {
  }

  /** newestPreviewManifest: one pass over the listed keys. */
  method NewestPreviewManifest(w: World, keys: seq<string>) returns (r: Lookup)
    ensures r == Select(w, keys)
  {
    var best: Option<Judged> := None;
    for i := 0 to |keys|
      invariant best == Best(Judgements(w, keys[..i]), w.sha)
      invariant Invalid !in Judgements(w, keys[..i])
    {
      var j := Judgement(w, keys[i]);
      if j.Invalid? {
        assert Judgements(w, keys)[i] == Invalid;
        return Failure;
      }
      assert keys[..i + 1] == keys[..i] + [keys[i]];
      JudgementsStep(w, keys[..i], keys[i]);
      BestStep(Judgements(w, keys[..i]), j, w.sha);
      if j.Accepted? && (best.None? || Beats(j, best.value, w.sha)) {
        best := Some(j);
      }
    }
    assert keys[..|keys|] == keys;
    r := Found(match best case None => None case Some(j) => Some(j.m));
  }

  // ---------- the selection is a maximum ----------

  /** Creation time, run number and attempt. */
  datatype Rank = Rank(created: int, run: int, attempt: int)

  predicate AtLeast(a: Rank, b: Rank) {
    a.created > b.created || (a.created == b.created && (a.run > b.run || (a.run == b.run && a.attempt >= b.attempt)))
  }

  predicate Parses(j: Judged, sha: string) {
    j.Accepted? && PreviewRunOrder(j.m.runId, sha).Some?
  }

  /** Every accepted manifest carries a run number that parses. */
  ghost predicate WellNamed(js: seq<Judged>, sha: string) {
    forall j :: j in js && j.Accepted? ==> Parses(j, sha)
  }

  function RankOf(j: Judged, sha: string): Rank
    requires j.Accepted?
  {
    match PreviewRunOrder(j.m.runId, sha)
    case None => Rank(j.created, 0, 0)
    case Some((run, attempt)) => Rank(j.created, run, attempt)
  }

  /** Greater is a strict total order. */
  lemma {:induction false} GreaterTotal(a: string, b: string)
    ensures !(Greater(a, b) && Greater(b, a))
    ensures !Greater(a, b) && !Greater(b, a) <==> a == b
  {
    if a != [] && b != [] {
      GreaterTotal(a[1..], b[1..]);
      assert a == [a[0]] + a[1..] && b == [b[0]] + b[1..];
    }
  }

  lemma {:induction false} GreaterTransitive(a: string, b: string, c: string)
    requires Greater(a, b) && Greater(b, c)
    ensures Greater(a, c)
  {
    if c != [] && a[0] == b[0] == c[0] {
      GreaterTransitive(a[1..], b[1..], c[1..]);
    }
  }

  /** Parsing names order manifests by rank, and ties of rank by name. */
  lemma BeatsIsRank(c: Judged, b: Judged, sha: string)
    requires Parses(c, sha) && Parses(b, sha)
    ensures var x, y := RankOf(c, sha), RankOf(b, sha);
            Beats(c, b, sha) <==> !AtLeast(y, x) || (x == y && Greater(c.m.runId, b.m.runId))
  {
  }

  lemma BeatsTransitive(a: Judged, b: Judged, c: Judged, sha: string)
    requires Parses(a, sha) && Parses(b, sha) && Parses(c, sha)
    requires Beats(a, b, sha) && !Beats(c, b, sha)
    ensures !Beats(c, a, sha)
  {
    BeatsIsRank(a, b, sha);
    BeatsIsRank(c, b, sha);
    BeatsIsRank(c, a, sha);
    GreaterTotal(a.m.runId, b.m.runId);
    GreaterTotal(b.m.runId, c.m.runId);
    GreaterTotal(c.m.runId, a.m.runId);
    if Greater(a.m.runId, b.m.runId) && Greater(b.m.runId, c.m.runId) {
      GreaterTransitive(a.m.runId, b.m.runId, c.m.runId);
    }
  }

  lemma BeatsIrreflexive(j: Judged, sha: string)
    requires j.Accepted?
    ensures !Beats(j, j, sha)
  {
    GreaterTotal(j.m.runId, j.m.runId);
  }

  lemma {:induction false} BestUnbeaten(js: seq<Judged>, sha: string, j: Judged)
    requires WellNamed(js, sha) && j in js && j.Accepted?
    ensures Best(js, sha).Some? && !Beats(j, Best(js, sha).value, sha)
  {
    var front, last := js[..|js| - 1], js[|js| - 1];
    assert js == front + [last];
    BestStep(front, last, sha);
    if j in front {
      BestUnbeaten(front, sha, j);
      var b := Best(front, sha).value;
      if last.Accepted? && Beats(last, b, sha) {
        BeatsTransitive(last, b, j, sha);
      }
    } else {
      BeatsIrreflexive(j, sha);
    }
  }

  /** The selected manifest is a greatest one by creation time, run number and attempt. */
  lemma {:induction false} BestIsGreatest(js: seq<Judged>, sha: string, j: Judged)
    requires WellNamed(js, sha) && j in js && j.Accepted?
    ensures Best(js, sha).Some? && Best(js, sha).value in js
    ensures AtLeast(RankOf(Best(js, sha).value, sha), RankOf(j, sha))
  {
    BestUnbeaten(js, sha, j);
    BeatsIsRank(j, Best(js, sha).value, sha);
  }

  // ---------- when the order of the listing decides ----------

  /** No two manifests of different runs tie, and none beats the other both ways. */
  lemma BeatsOneWay(a: Judged, b: Judged, sha: string)
    requires a.Accepted? && b.Accepted?
    ensures !(Beats(a, b, sha) && Beats(b, a, sha))
    ensures a.m.runId != b.m.runId ==> Beats(a, b, sha) || Beats(b, a, sha)
  {
    GreaterTotal(a.m.runId, b.m.runId);
  }

  /** x beats every other accepted manifest. */
  ghost predicate Dominates(js: seq<Judged>, x: Judged, sha: string) {
    x in js && x.Accepted? && forall j :: j in js && j.Accepted? && j != x ==> Beats(x, j, sha)
  }

  lemma {:induction false} BestOfDominant(js: seq<Judged>, x: Judged, sha: string)
    requires Dominates(js, x, sha)
    ensures Best(js, sha) == Some(x)
  {
    var front, last := js[..|js| - 1], js[|js| - 1];
    assert js == front + [last];
    BestStep(front, last, sha);
    if x in front {
      BestOfDominant(front, x, sha);
      if last.Accepted? {
        BeatsOneWay(x, last, sha);
      }
    }
  }

  lemma {:induction false} BestNone(js: seq<Judged>, sha: string)
    ensures Best(js, sha).None? <==> forall j :: j in js ==> !j.Accepted?
  {
    if js != [] {
      var front, last := js[..|js| - 1], js[|js| - 1];
      assert js == front + [last];
      BestStep(front, last, sha);
      BestNone(front, sha);
    }
  }

  /** The same keys in any order. */
  ghost predicate Listing(keys: seq<string>, keys': seq<string>) {
    multiset(keys') == multiset(keys)
  }

  /** Every listing of the same keys selects the same manifest. */
  ghost predicate OrderFree(w: World, keys: seq<string>) {
    forall keys' :: Listing(keys, keys') ==> Select(w, keys') == Select(w, keys)
  }

  lemma JudgedSomewhere(w: World, keys: seq<string>, j: Judged)
    ensures j in Judgements(w, keys) <==> exists k :: k in keys && Judgement(w, k) == j
  {
    if j in Judgements(w, keys) {
      var i :| 0 <= i < |keys| && Judgements(w, keys)[i] == j;
      assert keys[i] in keys;
    }
    if k :| k in keys && Judgement(w, k) == j {
      var i :| 0 <= i < |keys| && keys[i] == k;
      assert Judgements(w, keys)[i] == j;
    }
  }

  lemma ListingJudgesAlike(w: World, keys: seq<string>, keys': seq<string>, j: Judged)
    requires Listing(keys, keys')
    ensures j in Judgements(w, keys) <==> j in Judgements(w, keys')
  {
    assert forall k :: k in keys <==> k in multiset(keys);
    assert forall k :: k in keys' <==> k in multiset(keys');
    JudgedSomewhere(w, keys, j);
    JudgedSomewhere(w, keys', j);
  }

  lemma CreatedIsStored(w: World, key: string)
    ensures var j := Judgement(w, key); j.Accepted? ==> j.m.created == Some(j.created)
  {
  }

  /** An accepted manifest is known by its run id. */
  lemma OneManifestPerRun(w: World, keys: seq<string>, a: Judged, b: Judged)
    requires a in Judgements(w, keys) && b in Judgements(w, keys) && a.Accepted? && b.Accepted?
    ensures a.m.runId == b.m.runId ==> a == b
  {
    var i :| 0 <= i < |keys| && Judgement(w, keys[i]) == a;
    var k :| 0 <= k < |keys| && Judgement(w, keys[k]) == b;
    AcceptedAt(w, keys[i]);
    AcceptedAt(w, keys[k]);
  }

  lemma AcceptedAt(w: World, key: string)
    requires Judgement(w, key).Accepted?
    ensures key == w.prefix + (Judgement(w, key).m.runId + (['/'] + "manifest.json"))
  {
    AcceptedKey(key, w.prefix, if key in w.objects then w.objects[key] else Unreadable, w.pr, w.sha);
  }

  lemma SameManifest(w: World, keys: seq<string>, keys': seq<string>, x: Judged, y: Judged)
    requires x in Judgements(w, keys) && y in Judgements(w, keys') && x.Accepted? && y.Accepted? && x.m == y.m
    ensures x == y
  {
    var i :| 0 <= i < |keys| && Judgement(w, keys[i]) == x;
    var k :| 0 <= k < |keys'| && Judgement(w, keys'[k]) == y;
    CreatedIsStored(w, keys[i]);
    CreatedIsStored(w, keys'[k]);
  }

  lemma SameSelectionSameBest(w: World, keys: seq<string>, keys': seq<string>, x: Judged)
    requires Select(w, keys') == Select(w, keys) && Invalid !in Judgements(w, keys)
    requires Best(Judgements(w, keys), w.sha) == Some(x)
    ensures Best(Judgements(w, keys'), w.sha) == Some(x)
  {
    var b := Best(Judgements(w, keys'), w.sha);
    assert Select(w, keys') == Found(Some(x.m));
    SameManifest(w, keys, keys', x, b.value);
  }

  lemma MovedToEnd(keys: seq<string>, i: nat)
    requires i < |keys|
    ensures Listing(keys, keys[..i] + keys[i + 1..] + [keys[i]])
  {
    assert keys == keys[..i] + [keys[i]] + keys[i + 1..];
  }

  /** A manifest that is listed last and does not win does not beat the winner. */
  lemma {:induction false} LastLoses(js: seq<Judged>, j: Judged, x: Judged, sha: string)
    requires Best(js + [j], sha) == Some(x) && j.Accepted? && j != x
    ensures x.Accepted? && !Beats(j, x, sha)
  {
    BestStep(js, j, sha);
  }

  /** Exactly when the listing order cannot decide: the lookup fails anyway, there is nothing to
      select, or one accepted manifest beats every other. */
  lemma OrderFreeIff(w: World, keys: seq<string>)
    ensures var js := Judgements(w, keys);
            OrderFree(w, keys) <==>
              || Invalid in js
              || (forall j :: j in js ==> !j.Accepted?)
              || exists x :: Dominates(js, x, w.sha)
  {
    var js := Judgements(w, keys);
    BestNone(js, w.sha);
    if OrderFree(w, keys) && Invalid !in js && Best(js, w.sha).Some? {
      WinnerDominates(w, keys);
    }
    if Invalid in js || (forall j :: j in js ==> !j.Accepted?) || exists x :: Dominates(js, x, w.sha) {
      forall keys' | Listing(keys, keys') ensures Select(w, keys') == Select(w, keys) {
        SelectsAlike(w, keys, keys');
      }
    }
  }

  lemma WinnerDominates(w: World, keys: seq<string>)
    requires OrderFree(w, keys) && Invalid !in Judgements(w, keys) && Best(Judgements(w, keys), w.sha).Some?
    ensures Dominates(Judgements(w, keys), Best(Judgements(w, keys), w.sha).value, w.sha)
  {
    var js := Judgements(w, keys);
    var x := Best(js, w.sha).value;
    forall j | j in js && j.Accepted? && j != x ensures Beats(x, j, w.sha) {
      var i :| 0 <= i < |js| && js[i] == j;
      var front := WinsWithLast(w, keys, i, x);
      OneManifestPerRun(w, keys, x, j);
      LoserIsBeaten(front, j, x, w.sha);
    }
  }

  /** The winner still wins when some key is listed last. */
  lemma WinsWithLast(w: World, keys: seq<string>, i: nat, x: Judged) returns (front: seq<Judged>)
    requires OrderFree(w, keys) && Invalid !in Judgements(w, keys) && i < |keys|
    requires Best(Judgements(w, keys), w.sha) == Some(x)
    ensures Best(front + [Judgements(w, keys)[i]], w.sha) == Some(x)
  {
    var rest, key := keys[..i] + keys[i + 1..], keys[i];
    MovedToEnd(keys, i);
    WinsAnyListing(w, keys, rest + [key], x);
    JudgementsStep(w, rest, key);
    front := Judgements(w, rest);
  }

  lemma WinsAnyListing(w: World, keys: seq<string>, keys': seq<string>, x: Judged)
    requires OrderFree(w, keys) && Listing(keys, keys') && Invalid !in Judgements(w, keys)
    requires Best(Judgements(w, keys), w.sha) == Some(x)
    ensures Best(Judgements(w, keys'), w.sha) == Some(x)
  {
    SameSelectionSameBest(w, keys, keys', x);
  }

  lemma {:induction false} LoserIsBeaten(js: seq<Judged>, j: Judged, x: Judged, sha: string)
    requires Best(js + [j], sha) == Some(x) && j.Accepted? && j.m.runId != x.m.runId
    ensures Beats(x, j, sha)
  {
    LastLoses(js, j, x, sha);
    BeatsOneWay(x, j, sha);
  }

  lemma SelectsAlike(w: World, keys: seq<string>, keys': seq<string>)
    requires Listing(keys, keys')
    requires var js := Judgements(w, keys);
             Invalid in js || (forall j :: j in js ==> !j.Accepted?) || exists x :: Dominates(js, x, w.sha)
    ensures Select(w, keys') == Select(w, keys)
  {
    var js, js' := Judgements(w, keys), Judgements(w, keys');
    forall j ensures j in js <==> j in js' {
      ListingJudgesAlike(w, keys, keys', j);
    }
    BestNone(js, w.sha);
    BestNone(js', w.sha);
    if x :| Dominates(js, x, w.sha) {
      assert Dominates(js', x, w.sha);
      BestOfDominant(js, x, w.sha);
      BestOfDominant(js', x, w.sha);
    }
  }

  /** In particular when every accepted manifest carries a run number. */
  lemma ListingOrderIrrelevant(w: World, keys: seq<string>)
    requires WellNamed(Judgements(w, keys), w.sha)
    ensures OrderFree(w, keys)
  {
    var js := Judgements(w, keys);
    OrderFreeIff(w, keys);
    BestNone(js, w.sha);
    if Best(js, w.sha).Some? {
      var x := Best(js, w.sha).value;
      forall j | j in js && j.Accepted? && j != x ensures Beats(x, j, w.sha) {
        BestUnbeaten(js, w.sha, j);
        OneManifestPerRun(w, keys, x, j);
        BeatsOneWay(x, j, w.sha);
      }
      assert Dominates(js, x, w.sha);
    }
  }

  // ---------- a listing that decides ----------

  function RunId(numbers: string, sha: string): string {
    "run-" + numbers + ("-" + ArtifactSHA(sha))
  }

  function SampleManifest(numbers: string, sha: string): Manifest {
    Manifest("preview", 1, sha, RunId(numbers, sha), Some(0))
  }

  function Sample(numbers: string, sha: string): Judged {
    Accepted(SampleManifest(numbers, sha), 0)
  }

  function KeyFor(prefix: string, numbers: string, sha: string): string {
    prefix + (RunId(numbers, sha) + ['/'] + "manifest.json")
  }

  lemma {:induction false} LastOfChain(a: Judged, b: Judged, c: Judged, sha: string)
    requires a.Accepted? && b.Accepted? && c.Accepted? && Beats(b, a, sha) && Beats(c, b, sha)
    ensures Best([a, b, c], sha) == Some(c)
  {
    BestStep([], a, sha);
    BestStep([a], b, sha);
    BestStep([a, b], c, sha);
    assert [] + [a] == [a] && [a] + [b] == [a, b] && [a, b] + [c] == [a, b, c];
  }

  lemma {:induction false} GreaterAfterPrefix(p: string, a: string, b: string)
    ensures Greater(p + a, p + b) == Greater(a, b)
  {
    if p == [] {
      assert p + a == a && p + b == b;
    } else {
      GreaterAfterPrefix(p[1..], a, b);
      assert (p + a)[1..] == p[1..] + a && (p + b)[1..] == p[1..] + b;
    }
  }

  lemma {:induction false} NamesCompareAtFirst(a: string, b: string, tail: string)
    requires a != [] && b != [] && a[0] > b[0]
    ensures Greater("run-" + a + tail, "run-" + b + tail)
  {
    GreaterAfterPrefix("run-", a + tail, b + tail);
    assert "run-" + (a + tail) == "run-" + a + tail && "run-" + (b + tail) == "run-" + b + tail;
  }

  /** Two runs created at one time compare by name as soon as one of them does not parse. */
  lemma UnparsedBeats(a: string, b: string, sha: string)
    requires ParseOrder(a).None? || ParseOrder(b).None?
    requires a != [] && b != [] && a[0] > b[0]
    ensures Beats(Sample(a, sha), Sample(b, sha), sha)
  {
    OrderOfStripped(a, sha);
    OrderOfStripped(b, sha);
    NamesCompareAtFirst(a, b, "-" + ArtifactSHA(sha));
  }

  lemma {:induction false} ParsedBeats(m: nat, n: nat, sha: string)
    requires n < m <= Decimal.MAX_INT
    ensures Beats(Sample(Decimal.Print(m), sha), Sample(Decimal.Print(n), sha), sha)
  {
    OrderOfStripped(Decimal.Print(m), sha);
    OrderOfStripped(Decimal.Print(n), sha);
    ParseRun(m);
    ParseRun(n);
  }

  lemma OddIsUnparsed(s: string)
    requires |s| == 2 && s[1] == 'x' && Decimal.IsDigit(s[0])
    ensures ParseOrder(s).None?
  {
    SplitOne(s, '-');
    assert Unsigned(s) == s && !Decimal.AllDigits(s);
  }

  lemma KeysDiffer(prefix: string, a: string, b: string, sha: string)
    requires a != [] && b != [] && a[0] != b[0]
    ensures KeyFor(prefix, a, sha) != KeyFor(prefix, b, sha)
  {
    assert KeyFor(prefix, a, sha)[|prefix| + 4] == a[0];
    assert KeyFor(prefix, b, sha)[|prefix| + 4] == b[0];
  }

  /** A sample stored under its own key is accepted. */
  lemma SampleIsAccepted(w: World, numbers: string)
    requires w.sha != "" && Free(w.sha, '/') && Free(numbers, '/') && w.pr == 1
    requires var k := KeyFor(w.prefix, numbers, w.sha); k in w.objects && w.objects[k] == Doc(SampleManifest(numbers, w.sha))
    ensures Judgement(w, KeyFor(w.prefix, numbers, w.sha)) == Sample(numbers, w.sha)
  {
    StripIdentity(numbers, "-" + ArtifactSHA(w.sha));
    BoundCandidate(w.prefix, RunId(numbers, w.sha), w.sha);
  }

  /** Three previews of one commit created in the same second. */
  function Tie(prefix: string, sha: string): World {
    World(map[KeyFor(prefix, Decimal.Print(9), sha) := Doc(SampleManifest(Decimal.Print(9), sha)),
              KeyFor(prefix, Decimal.Print(10), sha) := Doc(SampleManifest(Decimal.Print(10), sha)),
              KeyFor(prefix, "5x", sha) := Doc(SampleManifest("5x", sha))], prefix, 1, sha)
  }

  lemma TieHolds(prefix: string, sha: string)
    ensures var o, nine, ten := Tie(prefix, sha).objects, Decimal.Print(9), Decimal.Print(10);
      && KeyFor(prefix, nine, sha) in o && o[KeyFor(prefix, nine, sha)] == Doc(SampleManifest(nine, sha))
      && KeyFor(prefix, ten, sha) in o && o[KeyFor(prefix, ten, sha)] == Doc(SampleManifest(ten, sha))
      && KeyFor(prefix, "5x", sha) in o && o[KeyFor(prefix, "5x", sha)] == Doc(SampleManifest("5x", sha))
  {
    var nine, ten := Decimal.Print(9), Decimal.Print(10);
    assert nine == ['9'] && ten == Decimal.Print(1) + ['0'] && ten[0] == '1';
    KeysDiffer(prefix, nine, ten, sha);
    KeysDiffer(prefix, nine, "5x", sha);
    KeysDiffer(prefix, ten, "5x", sha);
  }

  lemma TieIsAccepted(prefix: string, sha: string)
    requires sha != "" && Free(sha, '/')
    ensures var w := Tie(prefix, sha);
      && Judgement(w, KeyFor(prefix, Decimal.Print(9), sha)) == Sample(Decimal.Print(9), sha)
      && Judgement(w, KeyFor(prefix, Decimal.Print(10), sha)) == Sample(Decimal.Print(10), sha)
      && Judgement(w, KeyFor(prefix, "5x", sha)) == Sample("5x", sha)
  {
    var w := Tie(prefix, sha);
    TieHolds(prefix, sha);
    Decimal.PrintIsDigits(9);
    Decimal.PrintIsDigits(10);
    SampleIsAccepted(w, Decimal.Print(9));
    SampleIsAccepted(w, Decimal.Print(10));
    SampleIsAccepted(w, "5x");
  }

  lemma {:induction false} SelectIs(w: World, keys: seq<string>, js: seq<Judged>, x: Judged)
    requires js == Judgements(w, keys) && Invalid !in js && Best(js, w.sha) == Some(x)
    ensures Select(w, keys) == Found(Some(x.m))
  {
  }

  lemma JudgeThree(w: World, a: string, b: string, c: string, x: Judged, y: Judged, z: Judged)
    requires Judgement(w, a) == x && Judgement(w, b) == y && Judgement(w, c) == z
    ensures Judgements(w, [a, b, c]) == [x, y, z]
  {
  }

  lemma SelectThree(w: World, a: string, b: string, c: string, x: Judged, y: Judged, z: Judged)
    requires Judgements(w, [a, b, c]) == [x, y, z] && x.Accepted? && y.Accepted? && z.Accepted?
    requires Beats(y, x, w.sha) && Beats(z, y, w.sha)
    ensures Select(w, [a, b, c]) == Found(Some(z.m))
  {
    LastOfChain(x, y, z, w.sha);
    SelectIs(w, [a, b, c], [x, y, z], z);
  }

  /** Run 10 beats run 9 by number, run 9 beats 5x by name, and 5x beats run 10 by name.  No
      manifest beats both others, and of three listings each selects the manifest it lists last. */
  lemma UnparsedNameMakesOrderMatter(prefix: string, sha: string)
    requires sha != "" && Free(sha, '/')
    ensures var nine, ten, odd := KeyFor(prefix, Decimal.Print(9), sha), KeyFor(prefix, Decimal.Print(10), sha), KeyFor(prefix, "5x", sha);
      && Select(Tie(prefix, sha), [nine, ten, odd]) == Found(Some(SampleManifest("5x", sha)))
      && Select(Tie(prefix, sha), [ten, odd, nine]) == Found(Some(SampleManifest(Decimal.Print(9), sha)))
      && Select(Tie(prefix, sha), [odd, nine, ten]) == Found(Some(SampleManifest(Decimal.Print(10), sha)))
  {
    var w := Tie(prefix, sha);
    var nine, ten, odd := KeyFor(prefix, Decimal.Print(9), sha), KeyFor(prefix, Decimal.Print(10), sha), KeyFor(prefix, "5x", sha);
    TieIsAccepted(prefix, sha);
    assert Decimal.Print(10) == Decimal.Print(1) + ['0'] && Decimal.Print(9) == ['9'];
    OddIsUnparsed("5x");
    ParsedBeats(10, 9, sha);
    UnparsedBeats("5x", Decimal.Print(10), sha);
    UnparsedBeats(Decimal.Print(9), "5x", sha);
    var x, y, z := Sample(Decimal.Print(9), sha), Sample(Decimal.Print(10), sha), Sample("5x", sha);
    JudgeThree(w, nine, ten, odd, x, y, z);
    JudgeThree(w, ten, odd, nine, y, z, x);
    JudgeThree(w, odd, nine, ten, z, x, y);
    SelectThree(w, nine, ten, odd, x, y, z);
    SelectThree(w, ten, odd, nine, y, z, x);
    SelectThree(w, odd, nine, ten, z, x, y);
  }
}
