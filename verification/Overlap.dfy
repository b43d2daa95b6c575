/** Drift runs that share the marker store and may overlap (internal/drift/pending.go): when a
    saved marker is lost, exactly, and what that leaves of at-least-once delivery.

    The store saves and deletes unconditionally.  A run reads all markers at one point and makes
    its requests one by one afterwards, until it finishes or stops; any runs may interleave. */
module Overlap {
  import opened Base
  import opened Pending

  /** One request of one run. */
  datatype Act = Act(run: nat, op: Op)

  /** readAt[r] is the number of requests made, by anybody, before run r reads the markers. */
  datatype Trace = Trace(start: Markers, runs: seq<DriftRun>, readAt: seq<nat>, acts: seq<Act>)

  function Ops(acts: seq<Act>): (ops: seq<Op>)
    ensures |ops| == |acts| && forall i :: 0 <= i < |acts| ==> ops[i] == acts[i].op
  {
    seq(|acts|, i requires 0 <= i < |acts| => acts[i].op)
  }

  function MarkersAt(tr: Trace, j: nat): Markers
    requires j <= |tr.acts|
  {
    ApplyAll(tr.start, Ops(tr.acts[..j]))
  }

  /** What one run has done so far. */
  function MadeBy(acts: seq<Act>, r: nat): seq<Op> {
    if acts == [] then []
    else
      var n := |acts| - 1;
      MadeBy(acts[..n], r) + (if acts[n].run == r then [acts[n].op] else [])
  }

  predicate Reads(tr: Trace, r: nat) {
    r < |tr.runs| && r < |tr.readAt| && tr.readAt[r] <= |tr.acts|
  }

  function BatchOf(tr: Trace, r: nat): seq<Payload>
    requires Reads(tr, r)
  {
    Batch(MarkersAt(tr, tr.readAt[r]), tr.runs[r])
  }

  /** Run r is a possible run on the markers it read, and did what such a run does, after its read. */
  ghost predicate Runs(tr: Trace, r: nat) {
    && Reads(tr, r)
    && var m := MarkersAt(tr, tr.readAt[r]);
    && Possible(m, tr.runs[r]) && MadeBy(tr.acts, r) == Made(m, tr.runs[r])
    && forall i :: 0 <= i < tr.readAt[r] ==> tr.acts[i].run != r
  }

  ghost predicate Valid(tr: Trace) {
    && Consistent(tr.start)
    && (forall r: nat :: r < |tr.runs| ==> Runs(tr, r))
    && (forall i :: 0 <= i < |tr.acts| ==> tr.acts[i].run < |tr.runs|)
  }

  // ---------- a run inside the trace ----------

  lemma {:induction false} MadePrefix(acts: seq<Act>, r: nat, c: nat)
    requires c <= |acts|
    ensures MadeBy(acts[..c], r) <= MadeBy(acts, r)
  {
    if c < |acts| {
      var n := |acts| - 1;
      assert acts[..n][..c] == acts[..c];
      MadePrefix(acts[..n], r, c);
    } else {
      assert acts[..c] == acts;
    }
  }

  /** A request stands in its run's script where the run had got to. */
  lemma PlaceInRun(acts: seq<Act>, c: nat) returns (n: nat)
    requires c < |acts|
    ensures var r := acts[c].run;
      n == |MadeBy(acts[..c], r)| && n < |MadeBy(acts, r)| && MadeBy(acts, r)[n] == acts[c].op
  {
    var r := acts[c].run;
    n := |MadeBy(acts[..c], r)|;
    MadePrefix(acts, r, c + 1);
    assert acts[..c + 1][..c] == acts[..c];
    assert MadeBy(acts[..c + 1], r) == MadeBy(acts[..c], r) + [acts[c].op];
  }

  /** ... and everything before that place was requested earlier. */
  lemma {:induction false} PlaceInTrace(acts: seq<Act>, r: nat, n: nat) returns (d: nat)
    requires n < |MadeBy(acts, r)|
    ensures d < |acts| && acts[d] == Act(r, MadeBy(acts, r)[n])
  {
    var last := |acts| - 1;
    if n < |MadeBy(acts[..last], r)| {
      d := PlaceInTrace(acts[..last], r, n);
    } else {
      d := last;
    }
  }

  /** The request at position c, as part of its run's script. */
  lemma ActInScript(tr: Trace, c: nat) returns (n: nat)
    requires Valid(tr) && c < |tr.acts|
    ensures var r := tr.acts[c].run;
      && Runs(tr, r)
      && var run, batch := tr.runs[r], BatchOf(tr, r);
      && n == |MadeBy(tr.acts[..c], r)| && n < |Script(batch, run.saveOk, run.clean, run.clearOk)|
      && Script(batch, run.saveOk, run.clean, run.clearOk)[n] == tr.acts[c].op
  {
    assert Runs(tr, tr.acts[c].run);
    n := PlaceInRun(tr.acts, c);
  }

  /** A clear comes after the run's own clean dispatch, of a batch with that key. */
  lemma ClearFollowsDispatch(tr: Trace, c: nat, k: string) returns (d: nat)
    requires Valid(tr) && c < |tr.acts| && ClearsKey(tr.acts[c].op, k)
    ensures var r := tr.acts[c].run;
      && Runs(tr, r) && tr.readAt[r] <= d < c
      && tr.acts[d] == Act(r, DispatchOp(BatchOf(tr, r), true)) && HasKey(BatchOf(tr, r), k)
  {
    var r := tr.acts[c].run;
    var n := ActInScript(tr, c);
    var run, batch := tr.runs[r], BatchOf(tr, r);
    ScriptAt(batch, run.saveOk, run.clean, run.clearOk, n);
    ScriptAt(batch, run.saveOk, run.clean, run.clearOk, |batch|);
    assert KeyOf(batch[n - |batch| - 1]) == Some(k);
    d := PlaceInTrace(tr.acts[..c], r, |batch|);
    MadePrefix(tr.acts, r, c);
  }

  // ---------- when a marker is lost ----------

  /** The marker k is there at position i because it was there from the start, or was just saved. */
  predicate Written(tr: Trace, i: nat, k: string) {
    i <= |tr.acts| && if i == 0 then k in tr.start else SavesKey(tr.acts[i - 1].op, k)
  }

  lemma WrittenIsThere(tr: Trace, i: nat, k: string)
    requires Written(tr, i, k)
    ensures k in MarkersAt(tr, i)
    ensures i > 0 ==> MarkersAt(tr, i)[k] == Record(tr.acts[i - 1].op.p)
  {
    if i > 0 {
      assert Ops(tr.acts[..i])[..i - 1] == Ops(tr.acts[..i - 1]);
    }
  }

  ghost predicate Holds(batch: seq<Payload>, record: Payload) {
    exists x :: 0 <= x < |batch| && Record(batch[x]) == record
  }

  /** Position d is a clean dispatch of the marker written at i, or, by a run that read it or a later
      one, of some payload with its key. */
  ghost predicate AnswersAt(tr: Trace, d: nat, i: nat, k: string)
    requires d < |tr.acts| && Written(tr, i, k)
  {
    WrittenIsThere(tr, i, k);
    var r, op := tr.acts[d].run, tr.acts[d].op;
    && op.DispatchOp? && op.clean
    && (Holds(op.batch, MarkersAt(tr, i)[k]) || (r < |tr.readAt| && tr.readAt[r] >= i && HasKey(op.batch, k)))
  }

  ghost predicate Answered(tr: Trace, i: nat, j: nat, k: string)
    requires j <= |tr.acts| && Written(tr, i, k)
  {
    exists d :: i <= d < j && AnswersAt(tr, d, i, k)
  }

  ghost predicate DispatchedBefore(tr: Trace, r: nat, i: nat)
    requires i <= |tr.acts|
  {
    exists d :: 0 <= d < i && tr.acts[d].run == r && tr.acts[d].op.DispatchOp?
  }

  /** Position c removes the marker written at i for good (until j): a clear with no save after it,
      by a run that read before i, and that had dispatched before i or does not hold the marker. */
  ghost predicate LostBy(tr: Trace, i: nat, j: nat, k: string, c: nat)
    requires j <= |tr.acts| && Written(tr, i, k)
  {
    WrittenIsThere(tr, i, k);
    && ClearedFor(tr, i, j, k, c)
    && var r := tr.acts[c].run;
    && Reads(tr, r) && tr.readAt[r] < i
    && (DispatchedBefore(tr, r, i) || !Holds(BatchOf(tr, r), MarkersAt(tr, i)[k]))
  }

  /** Position c clears k, and nothing saves it again before j. */
  ghost predicate ClearedFor(tr: Trace, i: nat, j: nat, k: string, c: nat)
    requires j <= |tr.acts|
  {
    i <= c < j && ClearsKey(tr.acts[c].op, k) && forall d :: c < d < j ==> !SavesKey(tr.acts[d].op, k)
  }

  lemma MarkersFrom(tr: Trace, i: nat, j: nat)
    requires i <= j <= |tr.acts|
    ensures MarkersAt(tr, j) == ApplyAll(MarkersAt(tr, i), Ops(tr.acts[i..j]))
  {
    assert Ops(tr.acts[..j]) == Ops(tr.acts[..i]) + Ops(tr.acts[i..j]);
    ApplyAllSplits(tr.start, Ops(tr.acts[..i]), Ops(tr.acts[i..j]));
  }

  lemma ClearedIsGone(tr: Trace, i: nat, j: nat, k: string, c: nat)
    requires i <= j <= |tr.acts|
    ensures ClearedFor(tr, i, j, k, c) <==> c >= i && GoneAt(Ops(tr.acts[i..j]), k, c - i)
  {
    var ops := Ops(tr.acts[i..j]);
    assert forall d :: i <= d < j ==> tr.acts[d].op == ops[d - i];
    assert forall x :: 0 <= x < |ops| ==> ops[x] == tr.acts[i + x].op;
  }

  /** From position i on, the last request about k decides. */
  lemma LastDecides(tr: Trace, i: nat, j: nat, k: string)
    requires i <= j <= |tr.acts| && k in MarkersAt(tr, i)
    ensures k !in MarkersAt(tr, j) <==> exists c :: ClearedFor(tr, i, j, k, c)
  {
    MarkersFrom(tr, i, j);
    GoneIff(MarkersAt(tr, i), Ops(tr.acts[i..j]), k);
    if x :| GoneAt(Ops(tr.acts[i..j]), k, x) {
      ClearedIsGone(tr, i, j, k, i + x);
    }
    if c: nat :| ClearedFor(tr, i, j, k, c) {
      ClearedIsGone(tr, i, j, k, c);
    }
  }

  /** Exactly when a saved payload is lost, for every interleaving of possible runs.  As long as
      nobody has cleanly dispatched it, nor a later payload with its key read after it, its marker is
      gone if and only if it was cleared, with no save since, by a run that read the markers before
      it was written and had already dispatched, or dispatched a batch without it. */
  lemma LostIff(tr: Trace, i: nat, j: nat, k: string)
    requires Valid(tr) && Written(tr, i, k) && i <= j <= |tr.acts| && !Answered(tr, i, j, k)
    ensures k !in MarkersAt(tr, j) <==> exists c :: LostBy(tr, i, j, k, c)
  {
    WrittenIsThere(tr, i, k);
    LastDecides(tr, i, j, k);
    if k !in MarkersAt(tr, j) {
      var c: nat :| ClearedFor(tr, i, j, k, c);
      var d := ClearFollowsDispatch(tr, c, k);
      assert d >= i ==> !AnswersAt(tr, d, i, k);
      assert LostBy(tr, i, j, k, c);
    }
  }

  // ---------- runs that follow one another ----------

  /** A run makes its requests after everything another run did before them was there to read. */
  ghost predicate Sequential(tr: Trace)
    requires Valid(tr)
  {
    forall a, b :: 0 <= a < b < |tr.acts| && tr.acts[a].run != tr.acts[b].run ==>
      Reads(tr, tr.acts[b].run) && tr.readAt[tr.acts[b].run] > a
  }

  lemma {:induction false} MadeGrows(acts: seq<Act>, r: nat, a: nat, b: nat)
    requires a < b <= |acts| && acts[a].run == r
    ensures |MadeBy(acts[..a], r)| < |MadeBy(acts[..b], r)|
  {
    assert acts[..b][..a + 1] == acts[..a + 1] && acts[..a + 1][..a] == acts[..a];
    MadePrefix(acts[..b], r, a + 1);
  }

  /** The run that saved a marker holds it, and has not dispatched yet. */
  lemma SaverHolds(tr: Trace, i: nat, k: string)
    requires Valid(tr) && 0 < i <= |tr.acts| && SavesKey(tr.acts[i - 1].op, k)
    ensures var r := tr.acts[i - 1].run;
      && Runs(tr, r) && Holds(BatchOf(tr, r), Record(tr.acts[i - 1].op.p)) && !DispatchedBefore(tr, r, i)
  {
    var r := tr.acts[i - 1].run;
    var n := ActInScript(tr, i - 1);
    var run, batch := tr.runs[r], BatchOf(tr, r);
    ScriptAt(batch, run.saveOk, run.clean, run.clearOk, n);
    assert Record(batch[n]) == Record(tr.acts[i - 1].op.p);
    forall d | 0 <= d < i && tr.acts[d].run == r ensures !tr.acts[d].op.DispatchOp? {
      var x := ActInScript(tr, d);
      ScriptAt(batch, run.saveOk, run.clean, run.clearOk, x);
      if d < i - 1 {
        MadeGrows(tr.acts, r, d, i - 1);
      }
    }
  }

  /** Then no marker is ever lost: it stays until it, or a later payload with its key, is cleanly
      dispatched. */
  lemma MarkerSurvives(tr: Trace, i: nat, j: nat, k: string)
    requires Valid(tr) && Sequential(tr) && Written(tr, i, k) && i <= j <= |tr.acts| && !Answered(tr, i, j, k)
    ensures k in MarkersAt(tr, j)
  {
    LostIff(tr, i, j, k);
    WrittenIsThere(tr, i, k);
    if c: nat :| LostBy(tr, i, j, k, c) {
      SaverHolds(tr, i, k);
    }
  }

  // ---------- at least once ----------

  lemma {:induction false} MarkersConsistent(tr: Trace, j: nat)
    requires Consistent(tr.start) && j <= |tr.acts|
    ensures Consistent(MarkersAt(tr, j))
  {
    ApplyAllConsistent(tr.start, Ops(tr.acts[..j]));
  }

  /** At least once, across any number of runs, crashes, store failures and channel errors.  Once a
      marker is written, and as long as it is not answered, every run that reads after it finds it
      and puts it, or a fresher payload of its own with its key, into the batch it dispatches; for
      runs that follow one another always, and for overlapping runs exactly unless it was lost. */
  lemma AtLeastOnce(tr: Trace, i: nat, r: nat, k: string)
    requires Valid(tr) && Written(tr, i, k) && r < |tr.runs| && Reads(tr, r) && i <= tr.readAt[r]
    requires !Answered(tr, i, tr.readAt[r], k)
    ensures k in MarkersAt(tr, tr.readAt[r]) <==> !exists c :: LostBy(tr, i, tr.readAt[r], k, c)
    ensures Sequential(tr) ==> k in MarkersAt(tr, tr.readAt[r])
    ensures k in MarkersAt(tr, tr.readAt[r]) && k !in tr.runs[r].unreadable ==>
              && HasKey(BatchOf(tr, r), k)
              && (!HasKey(tr.runs[r].current, k) ==> MarkersAt(tr, tr.readAt[r])[k] in BatchOf(tr, r))
  {
    var j := tr.readAt[r];
    assert Runs(tr, r);
    LostIff(tr, i, j, k);
    if Sequential(tr) {
      MarkerSurvives(tr, i, j, k);
    }
    MarkersConsistent(tr, j);
    if k in MarkersAt(tr, j) && k !in tr.runs[r].unreadable {
      BatchCovers(MarkersAt(tr, j), tr.runs[r], k);
    }
  }

  // ---------- two runs that overlap ----------

  function Alone(p: Payload, cut: nat): DriftRun {
    DriftRun([p], [], {}, [true], true, [true], cut)
  }

  /** Both read an empty store.  The first saves p and dispatches it; the second saves q under the
      same key and stops; the first clears. */
  function Overlapping(p: Payload, q: Payload): Trace {
    Trace(map[], [Alone(p, 3), Alone(q, 1)], [0, 0],
          [Act(0, SaveOp(p, true)), Act(0, DispatchOp([p], true)), Act(1, SaveOp(q, true)), Act(0, ClearOp(p, true))])
  }

  lemma {:induction false} MadeStep(acts: seq<Act>, x: Act, r: nat)
    ensures MadeBy(acts + [x], r) == MadeBy(acts, r) + Only(x, r)
  {
    assert (acts + [x])[..|acts|] == acts;
  }

  function Only(x: Act, r: nat): seq<Op> {
    if x.run == r then [x.op] else []
  }

  lemma {:induction false} MadeOfFour(w: Act, x: Act, y: Act, z: Act, r: nat)
    ensures MadeBy([w, x, y, z], r) == Only(w, r) + Only(x, r) + Only(y, r) + Only(z, r)
  {
    assert [] + [w] == [w] && [w] + [x] == [w, x] && [w, x] + [y] == [w, x, y] && [w, x, y] + [z] == [w, x, y, z];
    MadeStep([], w, r);
    MadeStep([w], x, r);
    MadeStep([w, x], y, r);
    MadeStep([w, x, y], z, r);
    assert MadeBy([], r) + Only(w, r) == Only(w, r);
  }

  lemma OverlappingIsValid(p: Payload, q: Payload)
    ensures Valid(Overlapping(p, q))
  {
    var tr := Overlapping(p, q);
    var a := tr.acts;
    assert a[..0] == [];
    MadeOfFour(a[0], a[1], a[2], a[3], 0);
    MadeOfFour(a[0], a[1], a[2], a[3], 1);
    assert [a[0], a[1], a[2], a[3]] == a;
    assert MarkersAt(tr, 0) == map[];
    assert Batch(map[], Alone(p, 3)) == [p] && Batch(map[], Alone(q, 1)) == [q];
    assert Script([p], [true], true, [true]) == [a[0].op, a[1].op, a[3].op];
    assert Script([q], [true], true, [true])[..1] == [a[2].op];
    assert Runs(tr, 0) && Runs(tr, 1);
  }

  /** Two possible runs that overlap lose a marker: q was saved, nobody has dispatched it, and its
      marker is gone. */
  lemma OverlapLosesMarker(p: Payload, q: Payload, k: string)
    requires KeyOf(p) == Some(k) && KeyOf(q) == Some(k)
    ensures var tr := Overlapping(p, q);
      && Valid(tr) && Written(tr, 3, k) && !Answered(tr, 3, 4, k)
      && LostBy(tr, 3, 4, k, 3) && k !in MarkersAt(tr, 4)
  {
    var tr := Overlapping(p, q);
    OverlappingIsValid(p, q);
    assert Runs(tr, 0);
    assert tr.acts[1].run == 0 && tr.acts[1].op.DispatchOp?;
    assert LostBy(tr, 3, 4, k, 3);
    LostIff(tr, 3, 4, k);
  }
}
