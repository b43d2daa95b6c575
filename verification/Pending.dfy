/** Durable drift notifications: the undelivered-marker protocol of internal/drift/pending.go
    over a key-value store, across runs that may crash between any two store requests. */
module Pending {
  import opened Base
  import opened Strings

  /** body stands for the fields of a drift payload that the protocol only carries along. */
  datatype DriftPayload = DriftPayload(project: string, stack: string, env: string, body: string)

  datatype Payload = Payload(event: string, drift: Option<DriftPayload>, groupKey: string, group: seq<DriftPayload>)

  type Markers = map<string, Payload>

  const PREFIX: string := "drift/pending-events"

  function PendingKey(project: string, stack: string, event: string): string {
    PREFIX + "/" + project + "/" + stack + "/" + event + ".json"
  }

  function KeyOf(p: Payload): Option<string> {
    match p.drift
    case None => None
    case Some(d) => Some(PendingKey(d.project, d.stack, p.event))
  }

  /** What a marker stores: the event and the drift body. */
  function Record(p: Payload): Payload {
    Payload(p.event, p.drift, "", [])
  }

  // ---------- the steps of one run, in the order the code makes them ----------

  /** One request to the outside; ok says whether the store accepted it, clean whether no
      channel reported an error. */
  datatype Op =
    | SaveOp(p: Payload, ok: bool)
    | DispatchOp(batch: seq<Payload>, clean: bool)
    | ClearOp(p: Payload, ok: bool)

  function Apply(m: Markers, op: Op): Markers {
    match op
    case SaveOp(p, ok) => if ok && p.drift.Some? then m[KeyOf(p).value := Record(p)] else m
    case DispatchOp(_, _) => m
    case ClearOp(p, ok) => if ok && p.drift.Some? then m - {KeyOf(p).value} else m
  }

  function ApplyAll(m: Markers, ops: seq<Op>): Markers {
    if ops == [] then m else Apply(ApplyAll(m, ops[..|ops| - 1]), ops[|ops| - 1])
  }

  function Saves(batch: seq<Payload>, ok: seq<bool>): (ops: seq<Op>)
    requires |ok| == |batch|
    ensures |ops| == |batch|
  {
    seq(|batch|, i requires 0 <= i < |batch| => SaveOp(batch[i], ok[i]))
  }

  function Clears(batch: seq<Payload>, ok: seq<bool>): (ops: seq<Op>)
    requires |ok| == |batch|
    ensures |ops| == |batch|
  {
    seq(|batch|, i requires 0 <= i < |batch| => ClearOp(batch[i], ok[i]))
  }

  /** DispatchDurable: persist every marker, hand the whole batch over, clear only after a clean dispatch. */
  function Script(batch: seq<Payload>, saveOk: seq<bool>, clean: bool, clearOk: seq<bool>): seq<Op>
    requires |saveOk| == |batch| == |clearOk|
  {
    Saves(batch, saveOk) + [DispatchOp(batch, clean)] + (if clean then Clears(batch, clearOk) else [])
  }

  // ---------- reading and merging ----------

  /** List: the readable markers, in the order the store enumerates its keys. */
  function Listed(m: Markers, order: seq<string>, unreadable: set<string>): seq<Payload> {
    if order == [] then []
    else
      var n := |order| - 1;
      var front := Listed(m, order[..n], unreadable);
      if order[n] in m && order[n] !in unreadable then front + [m[order[n]]] else front
  }

  ghost predicate HasKey(ps: seq<Payload>, k: string) {
    exists i :: 0 <= i < |ps| && KeyOf(ps[i]) == Some(k)
  }

  /** The pending payloads that no current payload supersedes. */
  function Kept(pending: seq<Payload>, current: seq<Payload>): seq<Payload> {
    if pending == [] then []
    else
      var n := |pending| - 1;
      var front := Kept(pending[..n], current);
      var p := pending[n];
      if p.drift.None? || (exists j :: 0 <= j < |current| && KeyOf(current[j]) == KeyOf(p)) then front
      else front + [p]
  }

  function Merged(pending: seq<Payload>, current: seq<Payload>): seq<Payload> {
    Kept(pending, current) + current
  }

  /** MergePending, with its set of current keys and its two loops. */
  method MergePending(pending: seq<Payload>, current: seq<Payload>) returns (merged: seq<Payload>)
    ensures merged == Merged(pending, current)
  {
    if |pending| == 0 {
      return current;
    }
    var seen: set<string> := {};
    for i := 0 to |current|
      invariant forall k :: k in seen <==> exists j :: 0 <= j < i && KeyOf(current[j]) == Some(k)
    {
      if current[i].drift.Some? {
        seen := seen + {KeyOf(current[i]).value};
      }
    }
    merged := [];
    for i := 0 to |pending|
      invariant merged == Kept(pending[..i], current)
    {
      var p := pending[i];
      assert pending[..i + 1][..i] == pending[..i];
      if p.drift.None? || KeyOf(p).value in seen {
        continue;
      }
      merged := merged + [p];
    }
    assert pending[..|pending|] == pending;
    merged := merged + current;
  }

  // ---------- the store in its own form ----------

  lemma {:induction false} ApplyAllStep(m: Markers, ops: seq<Op>, op: Op)
    ensures ApplyAll(m, ops + [op]) == Apply(ApplyAll(m, ops), op)
  {
  }

  lemma {:induction false} ApplyAllSplits(m: Markers, a: seq<Op>, b: seq<Op>)
    ensures ApplyAll(m, a + b) == ApplyAll(ApplyAll(m, a), b)
  {
    if b == [] {
      assert a + b == a;
    } else {
      var n := |b| - 1;
      ApplyAllSplits(m, a, b[..n]);
      assert a + b == (a + b[..n]) + [b[n]];
      ApplyAllStep(m, a + b[..n], b[n]);
    }
  }

  lemma {:induction false} SavesStep(m: Markers, ps: seq<Payload>, ok: seq<bool>, i: nat)
    requires i < |ps| == |ok|
    ensures ApplyAll(m, Saves(ps[..i + 1], ok[..i + 1])) == Apply(ApplyAll(m, Saves(ps[..i], ok[..i])), SaveOp(ps[i], ok[i]))
  {
    assert Saves(ps[..i + 1], ok[..i + 1]) == Saves(ps[..i], ok[..i]) + [SaveOp(ps[i], ok[i])];
    ApplyAllStep(m, Saves(ps[..i], ok[..i]), SaveOp(ps[i], ok[i]));
  }

  lemma {:induction false} ClearsStep(m: Markers, ps: seq<Payload>, ok: seq<bool>, i: nat)
    requires i < |ps| == |ok|
    ensures ApplyAll(m, Clears(ps[..i + 1], ok[..i + 1])) == Apply(ApplyAll(m, Clears(ps[..i], ok[..i])), ClearOp(ps[i], ok[i]))
  {
    assert Clears(ps[..i + 1], ok[..i + 1]) == Clears(ps[..i], ok[..i]) + [ClearOp(ps[i], ok[i])];
    ApplyAllStep(m, Clears(ps[..i], ok[..i]), ClearOp(ps[i], ok[i]));
  }

  /** How many requests the store refuses; a payload without a drift body makes none. */
  function Refused(payloads: seq<Payload>, ok: seq<bool>): nat
    requires |ok| == |payloads|
  {
    if payloads == [] then 0
    else
      var n := |payloads| - 1;
      Refused(payloads[..n], ok[..n]) + (if payloads[n].drift.Some? && !ok[n] then 1 else 0)
  }

  lemma RefusedStep(payloads: seq<Payload>, ok: seq<bool>, i: nat)
    requires i < |payloads| == |ok|
    ensures Refused(payloads[..i + 1], ok[..i + 1])
         == Refused(payloads[..i], ok[..i]) + (if payloads[i].drift.Some? && !ok[i] then 1 else 0)
  {
    assert payloads[..i + 1][..i] == payloads[..i] && ok[..i + 1][..i] == ok[..i];
  }

  /** The payloads with a drift body among the first n whose request is refused. */
  ghost function RefusedAt(payloads: seq<Payload>, ok: seq<bool>, n: nat): set<nat>
    requires n <= |ok| == |payloads|
  {
    set i: nat | i < n && payloads[i].drift.Some? && !ok[i]
  }

  /** It is the number of them. */
  lemma {:induction false} RefusedIs(payloads: seq<Payload>, ok: seq<bool>, n: nat)
    requires n <= |ok| == |payloads|
    ensures Refused(payloads[..n], ok[..n]) == |RefusedAt(payloads, ok, n)|
  {
    if n == 0 {
      assert RefusedAt(payloads, ok, 0) == {};
    } else {
      RefusedIs(payloads, ok, n - 1);
      RefusedStep(payloads, ok, n - 1);
      RefusedAtStep(payloads, ok, n - 1);
    }
  }

  lemma RefusedAtStep(payloads: seq<Payload>, ok: seq<bool>, k: nat)
    requires k < |ok| == |payloads|
    ensures |RefusedAt(payloads, ok, k + 1)| == |RefusedAt(payloads, ok, k)| + if payloads[k].drift.Some? && !ok[k] then 1 else 0
  {
    var before, after, one := RefusedAt(payloads, ok, k), RefusedAt(payloads, ok, k + 1), {k};
    assert k !in before;
    if payloads[k].drift.Some? && !ok[k] {
      assert after == before + one;
      assert |before + one| == |before| + 1;
    } else {
      assert after == before;
    }
  }

  /** The marker namespace of the bucket; ok and unreadable are what the backend does. */
  class PendingStore {
    var markers: Markers

    constructor ()
      ensures markers == map[]
    {
      markers := map[];
    }

    method Save(p: Payload, ok: bool) returns (failed: bool)
      modifies this
      ensures markers == Apply(old(markers), SaveOp(p, ok))
      ensures failed <==> p.drift.Some? && !ok
    {
      if p.drift.None? {
        return false;
      }
      if ok {
        markers := markers[KeyOf(p).value := Record(p)];
      }
      failed := !ok;
    }

    method Clear(p: Payload, ok: bool) returns (failed: bool)
      modifies this
      ensures markers == Apply(old(markers), ClearOp(p, ok))
      ensures failed <==> p.drift.Some? && !ok
    {
      if p.drift.None? {
        return false;
      }
      if ok {
        markers := markers - {KeyOf(p).value};
      }
      failed := !ok;
    }

    /** Unreadable and corrupt markers are skipped and counted, never fatal. */
    method List(keys: seq<string>, unreadable: set<string>) returns (out: seq<Payload>, errors: nat)
      requires forall k :: k in keys ==> k in markers
      ensures out == Listed(markers, keys, unreadable)
      ensures |out| + errors == |keys|
    {
      out, errors := [], 0;
      for i := 0 to |keys|
        invariant out == Listed(markers, keys[..i], unreadable) && |out| + errors == i
      {
        assert keys[..i + 1][..i] == keys[..i];
        if keys[i] in unreadable {
          errors := errors + 1;
          continue;
        }
        out := out + [markers[keys[i]]];
      }
      assert keys[..|keys|] == keys;
    }

    /** The first loop of DispatchDurable. */
    method SaveAll(payloads: seq<Payload>, ok: seq<bool>) returns (errors: nat)
      requires |ok| == |payloads|
      modifies this
      ensures markers == ApplyAll(old(markers), Saves(payloads, ok))
      ensures errors == Refused(payloads, ok)
    {
      errors := 0;
      for i := 0 to |payloads|
        invariant markers == ApplyAll(old(markers), Saves(payloads[..i], ok[..i]))
        invariant errors == Refused(payloads[..i], ok[..i])
      {
        var failed := Save(payloads[i], ok[i]);
        errors := if failed then errors + 1 else errors;
        RefusedStep(payloads, ok, i);
        SavesStep(old(markers), payloads, ok, i);
      }
      assert payloads[..|payloads|] == payloads && ok[..|ok|] == ok;
    }

    /** The second loop. */
    method ClearAll(payloads: seq<Payload>, ok: seq<bool>) returns (errors: nat)
      requires |ok| == |payloads|
      modifies this
      ensures markers == ApplyAll(old(markers), Clears(payloads, ok))
      ensures errors == Refused(payloads, ok)
    {
      errors := 0;
      for i := 0 to |payloads|
        invariant markers == ApplyAll(old(markers), Clears(payloads[..i], ok[..i]))
        invariant errors == Refused(payloads[..i], ok[..i])
      {
        var failed := Clear(payloads[i], ok[i]);
        errors := if failed then errors + 1 else errors;
        RefusedStep(payloads, ok, i);
        ClearsStep(old(markers), payloads, ok, i);
      }
      assert payloads[..|payloads|] == payloads && ok[..|ok|] == ok;
    }

    /** Save all, dispatch once, clear all only after a clean dispatch; every refused request and
        every channel error is reported. */
    method DispatchDurable(payloads: seq<Payload>, saveOk: seq<bool>, channelErrors: nat, clearOk: seq<bool>)
        returns (errors: nat)
      requires |saveOk| == |payloads| == |clearOk|
      modifies this
      ensures markers == ApplyAll(old(markers), Script(payloads, saveOk, channelErrors == 0, clearOk))
      ensures errors == Refused(payloads, saveOk) + channelErrors + if channelErrors == 0 then Refused(payloads, clearOk) else 0
    {
      ghost var saves, dispatch := Saves(payloads, saveOk), [DispatchOp(payloads, channelErrors == 0)];
      errors := SaveAll(payloads, saveOk);
      errors := errors + channelErrors;
      ApplyAllStep(old(markers), saves, dispatch[0]);
      assert saves + dispatch == saves + dispatch + [];
      if channelErrors == 0 {
        var failed := ClearAll(payloads, clearOk);
        errors := errors + failed;
        ApplyAllSplits(old(markers), saves + dispatch, Clears(payloads, clearOk));
      }
    }
  }

  // ---------- runs ----------

  /** One run of the drift command: what it finds itself, what the store and the channels do
      to it, and after how many requests it stops (crash) or finishes. */
  datatype DriftRun = DriftRun(
    current: seq<Payload>, order: seq<string>, unreadable: set<string>,
    saveOk: seq<bool>, clean: bool, clearOk: seq<bool>, cut: nat)

  function Batch(m: Markers, r: DriftRun): seq<Payload> {
    Merged(Listed(m, r.order, r.unreadable), r.current)
  }

  predicate Possible(m: Markers, r: DriftRun) {
    && |r.saveOk| == |Batch(m, r)| == |r.clearOk|
    && (forall k :: k in m ==> k in r.order)
    && r.cut <= |Script(Batch(m, r), r.saveOk, r.clean, r.clearOk)|
  }

  /** The requests the run got to make. */
  function Made(m: Markers, r: DriftRun): seq<Op>
    requires Possible(m, r)
  {
    Script(Batch(m, r), r.saveOk, r.clean, r.clearOk)[..r.cut]
  }

  function After(m: Markers, r: DriftRun): Markers
    requires Possible(m, r)
  {
    ApplyAll(m, Made(m, r))
  }

  ghost predicate Dispatched(m: Markers, r: DriftRun)
    requires Possible(m, r)
  {
    |Batch(m, r)| < r.cut
  }

  /** The run completed a dispatch with no channel error, of a batch that holds k. */
  ghost predicate Delivers(m: Markers, r: DriftRun, k: string)
    requires Possible(m, r)
  {
    Dispatched(m, r) && r.clean && HasKey(Batch(m, r), k)
  }

  /** Every marker sits under its own key. */
  ghost predicate Consistent(m: Markers) {
    forall k :: k in m ==> KeyOf(m[k]) == Some(k)
  }

  lemma {:induction false} ApplyAllConsistent(m: Markers, ops: seq<Op>)
    requires Consistent(m)
    ensures Consistent(ApplyAll(m, ops))
  {
    if ops != [] {
      ApplyAllConsistent(m, ops[..|ops| - 1]);
    }
  }

  // ---------- what decides whether a marker is there ----------

  predicate SavesKey(op: Op, k: string) {
    op.SaveOp? && op.ok && KeyOf(op.p) == Some(k)
  }

  predicate ClearsKey(op: Op, k: string) {
    op.ClearOp? && op.ok && KeyOf(op.p) == Some(k)
  }

  /** Where k was last saved or cleared. */
  function LastTouch(ops: seq<Op>, k: string): (r: Option<nat>)
    ensures r.Some? ==>
              && r.value < |ops| && (SavesKey(ops[r.value], k) || ClearsKey(ops[r.value], k))
              && forall j :: r.value < j < |ops| ==> !SavesKey(ops[j], k) && !ClearsKey(ops[j], k)
    ensures r.None? ==> forall j :: 0 <= j < |ops| ==> !SavesKey(ops[j], k) && !ClearsKey(ops[j], k)
  {
    if ops == [] then None
    else
      var n := |ops| - 1;
      if SavesKey(ops[n], k) || ClearsKey(ops[n], k) then Some(n) else LastTouch(ops[..n], k)
  }

  /** For every sequence of store requests, whoever made them: a marker is there exactly if the last
      accepted request about its key was a save, or there was none and it was there before; and then
      it is what that save recorded. */
  lemma {:induction false} MarkerIff(m: Markers, ops: seq<Op>, k: string)
    ensures k in ApplyAll(m, ops) <==>
              match LastTouch(ops, k)
              case None => k in m
              case Some(i) => SavesKey(ops[i], k)
    ensures k in ApplyAll(m, ops) ==>
              ApplyAll(m, ops)[k] ==
                match LastTouch(ops, k)
                case None => m[k]
                case Some(i) => Payload(ops[i].p.event, ops[i].p.drift, "", [])
  {
    if ops != [] {
      MarkerIff(m, ops[..|ops| - 1], k);
    }
  }

  /** A marker that was there is gone exactly if some clear of it was followed by no save. */
  lemma {:induction false} GoneIff(m: Markers, ops: seq<Op>, k: string)
    requires k in m
    ensures k !in ApplyAll(m, ops) <==> exists x :: GoneAt(ops, k, x)
  {
    MarkerIff(m, ops, k);
    if x :| LastTouch(ops, k) == Some(x) && ClearsKey(ops[x], k) {
      assert GoneAt(ops, k, x);
    }
  }

  ghost predicate GoneAt(ops: seq<Op>, k: string, x: int) {
    0 <= x < |ops| && ClearsKey(ops[x], k) && forall y :: x < y < |ops| ==> !SavesKey(ops[y], k)
  }

  /** The requests of a script: saves of the batch, the dispatch, and after a clean one the clears. */
  lemma ScriptAt(batch: seq<Payload>, saveOk: seq<bool>, clean: bool, clearOk: seq<bool>, n: nat)
    requires |saveOk| == |batch| == |clearOk|
    requires n < |Script(batch, saveOk, clean, clearOk)|
    ensures var op := Script(batch, saveOk, clean, clearOk)[n];
      if n < |batch| then op == SaveOp(batch[n], saveOk[n])
      else if n == |batch| then op == DispatchOp(batch, clean)
      else clean && n - |batch| - 1 < |batch| && op == ClearOp(batch[n - |batch| - 1], clearOk[n - |batch| - 1])
  {
  }

  /** A run loses a marker only by delivering it. */
  lemma MarkerSurvivesRun(m: Markers, r: DriftRun, k: string)
    requires Possible(m, r) && k in m && !Delivers(m, r, k)
    ensures k in After(m, r)
  {
    var batch, made := Batch(m, r), Made(m, r);
    MarkerIff(m, made, k);
    if i :| LastTouch(made, k) == Some(i) && ClearsKey(made[i], k) {
      ScriptAt(batch, r.saveOk, r.clean, r.clearOk, i);
    }
  }

  lemma {:induction false} ListedHolds(m: Markers, order: seq<string>, unreadable: set<string>, k: string)
    requires k in m && k in order && k !in unreadable
    ensures m[k] in Listed(m, order, unreadable)
  {
    var n := |order| - 1;
    if order[n] != k {
      assert k in order[..n];
      ListedHolds(m, order[..n], unreadable, k);
    }
  }

  /** What is read back is what was saved: the event, and the drift body with its environment and all. */
  lemma {:induction false} SavedIsReadBack(m: Markers, p: Payload, order: seq<string>, unreadable: set<string>)
    requires p.drift.Some? && KeyOf(p).value in order && KeyOf(p).value !in unreadable
    ensures Payload(p.event, p.drift, "", []) in Listed(Apply(m, SaveOp(p, true)), order, unreadable)
  {
    ListedHolds(Apply(m, SaveOp(p, true)), order, unreadable, KeyOf(p).value);
  }

  lemma {:induction false} KeptHolds(pending: seq<Payload>, current: seq<Payload>, p: Payload)
    requires p in pending && p.drift.Some? && !HasKey(current, KeyOf(p).value)
    ensures p in Kept(pending, current)
  {
    var n := |pending| - 1;
    if pending[n] != p {
      assert p in pending[..n];
      KeptHolds(pending[..n], current, p);
    }
  }

  /** Every marker a run can read is in its batch: itself, or a fresher payload with its key. */
  lemma BatchCovers(m: Markers, r: DriftRun, k: string)
    requires Possible(m, r) && Consistent(m) && k in m && k !in r.unreadable
    ensures HasKey(Batch(m, r), k)
    ensures !HasKey(r.current, k) ==> m[k] in Batch(m, r)
  {
    ListedHolds(m, r.order, r.unreadable, k);
    var kept := Kept(Listed(m, r.order, r.unreadable), r.current);
    if HasKey(r.current, k) {
      var j :| 0 <= j < |r.current| && KeyOf(r.current[j]) == Some(k);
      assert Batch(m, r)[|kept| + j] == r.current[j];
    } else {
      KeptHolds(Listed(m, r.order, r.unreadable), r.current, m[k]);
      var j :| 0 <= j < |kept| && kept[j] == m[k];
      assert Batch(m, r)[j] == m[k];
    }
  }

  /** Nothing but markers and this run's payloads is dispatched, and pending ones go first. */
  lemma {:induction false} KeptIsPending(pending: seq<Payload>, current: seq<Payload>, p: Payload)
    ensures p in Kept(pending, current) <==>
              p in pending && p.drift.Some? && !HasKey(current, KeyOf(p).value)
  {
    if pending != [] {
      KeptIsPending(pending[..|pending| - 1], current, p);
    }
  }

  /** The batch is the pending payloads that are kept, in the order they were listed in, and then all of
      the run's own; and what is listed is the readable markers in the order of their keys. */
  lemma {:induction false} KeptInOrder(pending: seq<Payload>, current: seq<Payload>) returns (at: seq<nat>)
    ensures |at| == |Kept(pending, current)|
    ensures forall i :: 0 <= i < |at| ==> at[i] < |pending| && Kept(pending, current)[i] == pending[at[i]]
    ensures forall i, j :: 0 <= i < j < |at| ==> at[i] < at[j]
    ensures Merged(pending, current)[..|at|] == Kept(pending, current) && Merged(pending, current)[|at|..] == current
  {
    at := [];
    if pending != [] {
      var n := |pending| - 1;
      at := KeptInOrder(pending[..n], current);
      if Kept(pending, current) != Kept(pending[..n], current) {
        at := at + [n];
      }
    }
  }

  lemma {:induction false} ListedInOrder(m: Markers, order: seq<string>, unreadable: set<string>) returns (at: seq<nat>)
    ensures |at| == |Listed(m, order, unreadable)|
    ensures forall i :: 0 <= i < |at| ==>
              at[i] < |order| && order[at[i]] in m && order[at[i]] !in unreadable && Listed(m, order, unreadable)[i] == m[order[at[i]]]
    ensures forall i, j :: 0 <= i < j < |at| ==> at[i] < at[j]
    ensures forall k :: 0 <= k < |order| && order[k] in m && order[k] !in unreadable ==> k in at
  {
    at := [];
    if order != [] {
      var n := |order| - 1;
      at := ListedInOrder(m, order[..n], unreadable);
      if order[n] in m && order[n] !in unreadable {
        at := at + [n];
      }
    }
  }

  /** A payload whose marker was accepted before the run stopped is protected from then on. */
  lemma SavedIsProtected(m: Markers, r: DriftRun, i: nat)
    requires Possible(m, r) && i < |Batch(m, r)| && i < r.cut
    requires r.saveOk[i] && Batch(m, r)[i].drift.Some?
    ensures var k := KeyOf(Batch(m, r)[i]).value; k in After(m, r) || Delivers(m, r, k)
  {
    var batch, made := Batch(m, r), Made(m, r);
    var k := KeyOf(batch[i]).value;
    assert made[i] == SaveOp(batch[i], true) && SavesKey(made[i], k);
    MarkerIff(m, made, k);
    var last := LastTouch(made, k).value;
    ScriptAt(batch, r.saveOk, r.clean, r.clearOk, last);
  }

  // ---------- what a key identifies ----------

  /** A key hides nothing but the place of the slashes. */
  lemma KeyIsPath(p: string, s: string, p': string, s': string, e: string)
    ensures PendingKey(p, s, e) == PendingKey(p', s', e) <==> p + "/" + s == p' + "/" + s'
  {
    var k, k' := PendingKey(p, s, e), PendingKey(p', s', e);
    assert k == PREFIX + "/" + (p + "/" + s) + ("/" + e + ".json");
    assert k' == PREFIX + "/" + (p' + "/" + s') + ("/" + e + ".json");
    var n := |PREFIX| + 1;
    var m := |e| + 6;
    assert p + "/" + s == k[n..|k| - m];
    assert p' + "/" + s' == k'[n..|k'| - m];
  }

  ghost predicate IdentifiedByKey(p: string, s: string, e: string) {
    forall p', s' :: PendingKey(p, s, e) == PendingKey(p', s', e) ==> p == p' && s == s'
  }

  lemma OneSlashOnly(p: string, s: string, p': string, s': string)
    requires Free(p, '/') && Free(s, '/') && p + "/" + s == p' + "/" + s'
    ensures Free(p', '/')
  {
    var t := p + "/" + s;
    assert forall i :: 0 <= i < |p'| ==> t[i] == p'[i];
    assert t[|p'|] == '/';
    assert forall i :: 0 <= i < |t| && i != |p| ==> t[i] != '/';
  }

  /** Among payloads of one event, a marker key identifies its project and stack exactly when
      neither name holds a slash. */
  lemma KeyIdentifiesIffSlashFree(p: string, s: string, e: string)
    ensures IdentifiedByKey(p, s, e) <==> Free(p, '/') && Free(s, '/')
  {
    if Free(p, '/') && Free(s, '/') {
      forall p', s' | PendingKey(p, s, e) == PendingKey(p', s', e) ensures p == p' && s == s' {
        KeyIsPath(p, s, p', s', e);
        OneSlashOnly(p, s, p', s');
        assert p + (['/'] + s) == p + "/" + s && p' + (['/'] + s') == p' + "/" + s';
        FirstCutUnique(p, s, p', s', '/');
      }
    } else if !Free(p, '/') {
      var i :| 0 <= i < |p| && p[i] == '/';
      var p', s' := p[..i], p[i + 1..] + "/" + s;
      assert p + "/" + s == p' + "/" + s';
      KeyIsPath(p, s, p', s', e);
    } else {
      var i :| 0 <= i < |s| && s[i] == '/';
      var p', s' := p + "/" + s[..i], s[i + 1..];
      assert p + "/" + s == p' + "/" + s';
      KeyIsPath(p, s, p', s', e);
    }
  }
}
