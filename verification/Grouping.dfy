/** Environment grouping of one channel's payloads (internal/notify/grouping.go): it merges
    deliveries and neither drops, adds, duplicates nor reclassifies a batch member. */
module Grouping {
  import opened Base
  import opened Strings
  import opened Pending

  const NUL: char := '\0'

  predicate GroupableEvent(e: string) {
    e == "drift_detected" || e == "drift_ongoing" || e == "drift_resolved"
  }

  predicate Groupable(p: Payload) {
    p.drift.Some? && GroupableEvent(p.event)
  }

  function GroupKey(event: string, env: string): string {
    event + [NUL] + env
  }

  /** What a channel is told about: a member of some group, or a payload passed through whole. */
  datatype Unit = Member(event: string, drift: DriftPayload) | Whole(p: Payload)

  /** An ungrouped payload tells about itself; a grouped one about every member it lists. */
  function InUnit(p: Payload): Unit {
    if Groupable(p) then Member(p.event, p.drift.value) else Whole(p)
  }

  ghost function OutUnits(p: Payload): multiset<Unit> {
    if Groupable(p) then Members(p.event, p.group) else multiset{Whole(p)}
  }

  ghost function Members(event: string, group: seq<DriftPayload>): multiset<Unit> {
    if group == [] then multiset{}
    else Members(event, group[..|group| - 1]) + multiset{Member(event, group[|group| - 1])}
  }

  ghost function AllIn(ps: seq<Payload>): multiset<Unit> {
    if ps == [] then multiset{} else AllIn(ps[..|ps| - 1]) + multiset{InUnit(ps[|ps| - 1])}
  }

  ghost function AllOut(ps: seq<Payload>): multiset<Unit> {
    if ps == [] then multiset{} else AllOut(ps[..|ps| - 1]) + OutUnits(ps[|ps| - 1])
  }

  lemma {:induction false} AllOutAppend(ps: seq<Payload>, q: Payload)
    ensures AllOut(ps + [q]) == AllOut(ps) + OutUnits(q)
  {
    assert (ps + [q])[..|ps|] == ps;
  }

  ghost function Sum(ps: seq<Payload>, f: Payload -> nat): nat {
    if ps == [] then 0 else Sum(ps[..|ps| - 1], f) + f(ps[|ps| - 1])
  }

  lemma {:induction false} SumUpdate(ps: seq<Payload>, i: nat, q: Payload, f: Payload -> nat)
    requires i < |ps|
    ensures Sum(ps[i := q], f) + f(ps[i]) == Sum(ps, f) + f(q)
  {
    var n := |ps| - 1;
    if i == n {
      assert ps[i := q][..n] == ps[..n];
    } else {
      SumUpdate(ps[..n], i, q, f);
      assert ps[i := q][..n] == ps[..n][i := q];
    }
  }

  ghost function Times(u: Unit): Payload -> nat {
    (p: Payload) => OutUnits(p)[u]
  }

  lemma {:induction false} AllOutIsSum(ps: seq<Payload>, u: Unit)
    ensures AllOut(ps)[u] == Sum(ps, Times(u))
  {
    if ps != [] {
      AllOutIsSum(ps[..|ps| - 1], u);
    }
  }

  /** Replacing one output changes the total by exactly the difference. */
  lemma AllOutUpdate(ps: seq<Payload>, i: nat, q: Payload, extra: multiset<Unit>)
    requires i < |ps| && OutUnits(q) == OutUnits(ps[i]) + extra
    ensures AllOut(ps[i := q]) == AllOut(ps) + extra
  {
    forall u: Unit ensures AllOut(ps[i := q])[u] == (AllOut(ps) + extra)[u] {
      SumUpdate(ps, i, q, Times(u));
      AllOutIsSum(ps, u);
      AllOutIsSum(ps[i := q], u);
    }
  }

  lemma {:induction false} MembersAppend(event: string, group: seq<DriftPayload>, d: DriftPayload)
    ensures Members(event, group + [d]) == Members(event, group) + multiset{Member(event, d)}
  {
  }

  /** The index key tells event and environment apart, because no event name holds the separator. */
  lemma GroupKeyIdentifies(e: string, x: string, e': string, x': string)
    requires GroupableEvent(e) && GroupableEvent(e') && GroupKey(e, x) == GroupKey(e', x')
    ensures e == e' && x == x'
  {
    assert e + ([NUL] + x) == GroupKey(e, x) && e' + ([NUL] + x') == GroupKey(e', x');
    assert Free(e, NUL) && Free(e', NUL);
    FirstCutUnique(e, x, e', x', NUL);
  }

  /** A grouped output: all of its members are of its event and its environment. */
  ghost predicate Uniform(q: Payload) {
    Groupable(q) ==> q.group != [] && forall i :: 0 <= i < |q.group| ==> q.group[i].env == q.groupKey
  }

  function KeyOfGroup(q: Payload): string {
    GroupKey(q.event, q.groupKey)
  }

  /** The index finds every group by its key, and nothing else. */
  ghost predicate Indexed(out: seq<Payload>, index: map<string, nat>) {
    && (forall i :: 0 <= i < |out| ==> Uniform(out[i]))
    && (forall k :: k in index ==> index[k] < |out| && Groupable(out[index[k]]) && KeyOfGroup(out[index[k]]) == k)
    && (forall i :: 0 <= i < |out| && Groupable(out[i]) ==>
          KeyOfGroup(out[i]) in index && index[KeyOfGroup(out[i])] == i)
  }

  lemma {:induction false} NewGroupUnits(out: seq<Payload>, p: Payload, gp: Payload)
    requires Groupable(p) && gp == p.(groupKey := p.drift.value.env, group := [p.drift.value])
    ensures AllOut(out + [gp]) == AllOut(out) + multiset{InUnit(p)}
  {
    MembersAppend(p.event, [], p.drift.value);
    assert [] + [p.drift.value] == [p.drift.value];
    AllOutAppend(out, gp);
  }

  lemma NewGroup(out: seq<Payload>, index: map<string, nat>, gp: Payload)
    requires Indexed(out, index) && Groupable(gp) && Uniform(gp) && KeyOfGroup(gp) !in index
    ensures Indexed(out + [gp], index[KeyOfGroup(gp) := |out|])
  {
    var out', index' := out + [gp], index[KeyOfGroup(gp) := |out|];
    forall i | 0 <= i < |out'| && Groupable(out'[i])
      ensures KeyOfGroup(out'[i]) in index' && index'[KeyOfGroup(out'[i])] == i
    {
      if i < |out| {
        assert out'[i] == out[i];
      }
    }
  }

  lemma AllIndexedNew(ps: seq<Payload>, index: map<string, nat>, p: Payload, i: nat)
    requires AllIndexed(ps, index) && Groupable(p)
    ensures AllIndexed(ps + [p], index[GroupKey(p.event, p.drift.value.env) := i])
  {
  }

  lemma JoinGroup(out: seq<Payload>, index: map<string, nat>, p: Payload, i: nat, q: Payload)
    requires Indexed(out, index) && Groupable(p)
    requires i < |out| && Groupable(out[i]) && KeyOfGroup(out[i]) == GroupKey(p.event, p.drift.value.env)
    requires q == out[i].(group := out[i].group + [p.drift.value])
    ensures Indexed(out[i := q], index)
    ensures AllOut(out[i := q]) == AllOut(out) + multiset{InUnit(p)}
  {
    var d := p.drift.value;
    GroupKeyIdentifies(p.event, d.env, out[i].event, out[i].groupKey);
    assert Uniform(q);
    assert Indexed(out[i := q], index) by {
      assert KeyOfGroup(q) == KeyOfGroup(out[i]);
    }
    assert OutUnits(q) == OutUnits(out[i]) + multiset{Member(p.event, d)} by {
      MembersAppend(out[i].event, out[i].group, d);
    }
    AllOutUpdate(out, i, q, multiset{Member(p.event, d)});
  }

  /** The members of one group in the order the payloads came. */
  function InOrder(ps: seq<Payload>, event: string, env: string): seq<DriftPayload> {
    if ps == [] then []
    else
      var n := |ps| - 1;
      var front := InOrder(ps[..n], event, env);
      if Groupable(ps[n]) && ps[n].event == event && ps[n].drift.value.env == env
      then front + [ps[n].drift.value] else front
  }

  ghost predicate Ordered(out: seq<Payload>, ps: seq<Payload>) {
    forall i :: 0 <= i < |out| && Groupable(out[i]) ==> out[i].group == InOrder(ps, out[i].event, out[i].groupKey)
  }

  /** A key that is not indexed has had no member yet. */
  ghost predicate AllIndexed(ps: seq<Payload>, index: map<string, nat>) {
    forall i :: 0 <= i < |ps| && Groupable(ps[i]) ==> GroupKey(ps[i].event, ps[i].drift.value.env) in index
  }

  lemma {:induction false} NoMemberYet(ps: seq<Payload>, index: map<string, nat>, event: string, env: string)
    requires AllIndexed(ps, index) && GroupKey(event, env) !in index
    ensures InOrder(ps, event, env) == []
  {
    if ps != [] {
      NoMemberYet(ps[..|ps| - 1], index, event, env);
    }
  }

  lemma OrderedStep(out: seq<Payload>, ps: seq<Payload>, p: Payload, i: nat, q: Payload)
    requires Ordered(out, ps) && Groupable(p)
    requires i < |out| && Groupable(out[i]) && out[i].event == p.event && out[i].groupKey == p.drift.value.env
    requires q == out[i].(group := out[i].group + [p.drift.value])
    requires forall j :: 0 <= j < |out| && j != i && Groupable(out[j]) ==>
               out[j].event != p.event || out[j].groupKey != p.drift.value.env
    ensures Ordered(out[i := q], ps + [p])
  {
  }

  lemma OrderedNew(out: seq<Payload>, index: map<string, nat>, ps: seq<Payload>, p: Payload, gp: Payload)
    requires Ordered(out, ps) && Indexed(out, index) && AllIndexed(ps, index) && Groupable(p)
    requires gp == p.(groupKey := p.drift.value.env, group := [p.drift.value])
    requires KeyOfGroup(gp) !in index
    ensures Ordered(out + [gp], ps + [p])
  {
    NoMemberYet(ps, index, p.event, p.drift.value.env);
    assert (ps + [p])[..|ps|] == ps;
    assert [] + [p.drift.value] == [p.drift.value];
    forall j | 0 <= j < |out| && Groupable(out[j])
      ensures out[j].event != p.event || out[j].groupKey != p.drift.value.env
    {
      assert KeyOfGroup(out[j]) in index;
    }
  }

  /** What the loop knows after the payloads ps. */
  ghost predicate Grouped(out: seq<Payload>, index: map<string, nat>, ps: seq<Payload>) {
    Indexed(out, index) && AllIndexed(ps, index) && Ordered(out, ps) && AllOut(out) == AllIn(ps)
  }

  lemma {:induction false} AllInAppend(ps: seq<Payload>, p: Payload)
    ensures AllIn(ps + [p]) == AllIn(ps) + multiset{InUnit(p)}
  {
    assert (ps + [p])[..|ps|] == ps;
  }

  lemma OrderedPass(out: seq<Payload>, ps: seq<Payload>, p: Payload)
    requires Ordered(out, ps) && !Groupable(p)
    ensures Ordered(out + [p], ps + [p])
  {
    assert (ps + [p])[..|ps|] == ps;
  }

  lemma IndexedPass(out: seq<Payload>, index: map<string, nat>, ps: seq<Payload>, p: Payload)
    requires Indexed(out, index) && AllIndexed(ps, index) && !Groupable(p)
    ensures Indexed(out + [p], index) && AllIndexed(ps + [p], index)
  {
  }

  lemma PassStep(out: seq<Payload>, index: map<string, nat>, ps: seq<Payload>, p: Payload)
    requires Grouped(out, index, ps) && !Groupable(p)
    ensures Grouped(out + [p], index, ps + [p])
  {
    IndexedPass(out, index, ps, p);
    OrderedPass(out, ps, p);
    AllOutAppend(out, p);
    AllInAppend(ps, p);
  }

  lemma JoinStep(out: seq<Payload>, index: map<string, nat>, ps: seq<Payload>, p: Payload, i: nat, q: Payload)
    requires Grouped(out, index, ps) && Groupable(p)
    requires GroupKey(p.event, p.drift.value.env) in index && i == index[GroupKey(p.event, p.drift.value.env)]
    requires i < |out| && q == out[i].(group := out[i].group + [p.drift.value])
    ensures Grouped(out[i := q], index, ps + [p])
  {
    JoinGroup(out, index, p, i, q);
    GroupKeyIdentifies(p.event, p.drift.value.env, out[i].event, out[i].groupKey);
    OrderedStep(out, ps, p, i, q);
    AllInAppend(ps, p);
  }

  lemma NewStep(out: seq<Payload>, index: map<string, nat>, ps: seq<Payload>, p: Payload, gp: Payload)
    requires Grouped(out, index, ps) && Groupable(p)
    requires gp == p.(groupKey := p.drift.value.env, group := [p.drift.value])
    requires KeyOfGroup(gp) !in index
    ensures Grouped(out + [gp], index[KeyOfGroup(gp) := |out|], ps + [p])
  {
    NewGroupUnits(out, p, gp);
    NewGroup(out, index, gp);
    AllIndexedNew(ps, index, p, |out|);
    OrderedNew(out, index, ps, p, gp);
    AllInAppend(ps, p);
  }

  lemma DistinctGroups(out: seq<Payload>, index: map<string, nat>, i: nat, j: nat)
    requires Indexed(out, index) && i < j < |out| && Groupable(out[i]) && Groupable(out[j])
    ensures KeyOfGroup(out[i]) != KeyOfGroup(out[j])
  {
  }

  // ---------- order of appearance ----------

  /** An output speaks first of the payload that opened it. */
  ghost predicate OpenedBy(q: Payload, p: Payload) {
    if Groupable(p) then q.event == p.event && q.drift == p.drift && q.groupKey == p.drift.value.env else q == p
  }

  /** No payload before position n belongs to the group of q. */
  ghost predicate FirstOfGroup(q: Payload, ps: seq<Payload>, n: nat) {
    forall k :: 0 <= k < |ps| && k < n && Groupable(ps[k]) && Groupable(q) ==>
                  GroupKey(ps[k].event, ps[k].drift.value.env) != KeyOfGroup(q)
  }

  /** Output i was opened by payload at[i]: in order, and each group by its first member. */
  ghost predicate Appears(out: seq<Payload>, ps: seq<Payload>, at: seq<nat>) {
    && |at| == |out|
    && (forall i :: 0 <= i < |at| ==> at[i] < |ps|)
    && (forall i, j :: 0 <= i < j < |at| ==> at[i] < at[j])
    && (forall i :: 0 <= i < |at| ==> at[i] < |ps| && OpenedBy(out[i], ps[at[i]]) && FirstOfGroup(out[i], ps, at[i]))
  }

  lemma AppearsNew(out: seq<Payload>, ps: seq<Payload>, at: seq<nat>, p: Payload, q: Payload)
    requires Appears(out, ps, at) && OpenedBy(q, p) && FirstOfGroup(q, ps, |ps|)
    ensures Appears(out + [q], ps + [p], at + [|ps|])
  {
    AppearsLater(out, ps, at, p);
    assert FirstOfGroup(q, ps + [p], |ps|);
  }

  lemma AppearsLater(out: seq<Payload>, ps: seq<Payload>, at: seq<nat>, p: Payload)
    requires Appears(out, ps, at)
    ensures Appears(out, ps + [p], at)
  {
    forall i | 0 <= i < |at| ensures FirstOfGroup(out[i], ps + [p], at[i]) && OpenedBy(out[i], (ps + [p])[at[i]]) {
      assert (ps + [p])[at[i]] == ps[at[i]];
      assert forall k :: 0 <= k < at[i] ==> (ps + [p])[k] == ps[k];
      assert FirstOfGroup(out[i], ps, at[i]);
    }
  }

  lemma AppearsJoined(out: seq<Payload>, ps: seq<Payload>, at: seq<nat>, p: Payload, i: nat, group: seq<DriftPayload>)
    requires Appears(out, ps, at) && i < |out| && Groupable(out[i])
    ensures Appears(out[i := out[i].(group := group)], ps + [p], at)
  {
    AppearsLater(out, ps, at, p);
    var q := out[i].(group := group);
    assert OpenedBy(out[i], (ps + [p])[at[i]]) && FirstOfGroup(out[i], ps + [p], at[i]);
    assert FirstOfGroup(q, ps + [p], at[i]);
  }

  /** Everything the loop knows after the payloads ps. */
  ghost predicate SoFar(out: seq<Payload>, index: map<string, nat>, ps: seq<Payload>, at: seq<nat>) {
    Grouped(out, index, ps) && Appears(out, ps, at)
  }

  lemma PassedOn(out: seq<Payload>, index: map<string, nat>, ps: seq<Payload>, at: seq<nat>, p: Payload)
    requires SoFar(out, index, ps, at) && !Groupable(p)
    ensures SoFar(out + [p], index, ps + [p], at + [|ps|])
  {
    PassStep(out, index, ps, p);
    AppearsNew(out, ps, at, p, p);
  }

  lemma Joined(out: seq<Payload>, index: map<string, nat>, ps: seq<Payload>, at: seq<nat>, p: Payload, i: nat, q: Payload)
    requires SoFar(out, index, ps, at) && Groupable(p)
    requires GroupKey(p.event, p.drift.value.env) in index && i == index[GroupKey(p.event, p.drift.value.env)]
    requires i < |out| && q == out[i].(group := out[i].group + [p.drift.value])
    ensures SoFar(out[i := q], index, ps + [p], at)
  {
    JoinStep(out, index, ps, p, i, q);
    AppearsJoined(out, ps, at, p, i, q.group);
  }

  lemma Opened(out: seq<Payload>, index: map<string, nat>, ps: seq<Payload>, at: seq<nat>, p: Payload, gp: Payload)
    requires SoFar(out, index, ps, at) && Groupable(p)
    requires gp == p.(groupKey := p.drift.value.env, group := [p.drift.value]) && KeyOfGroup(gp) !in index
    ensures SoFar(out + [gp], index[KeyOfGroup(gp) := |out|], ps + [p], at + [|ps|])
  {
    NewStep(out, index, ps, p, gp);
    AppearsNew(out, ps, at, p, gp);
  }

  /** What by_environment promises: the members told about are exactly the members given, every
      delivery is about a single event and environment and lists its members in the order they
      came, no two are about the same, and they come in the order in which their first members, or
      they themselves, appeared. */
  ghost predicate ByEnvironment(out: seq<Payload>, ps: seq<Payload>) {
    && AllOut(out) == AllIn(ps)
    && (forall i :: 0 <= i < |out| ==> Uniform(out[i]))
    && Ordered(out, ps)
    && (forall i, j :: 0 <= i < j < |out| && Groupable(out[i]) && Groupable(out[j]) ==>
          KeyOfGroup(out[i]) != KeyOfGroup(out[j]))
    && exists at :: Appears(out, ps, at)
  }

  /** Drift alerts of one kind. */
  predicate SameAlert(p: Payload, q: Payload) {
    p.drift.Some? && q.drift.Some? && p.event == q.event && p.event in {"drift_detected", "drift_ongoing", "drift_resolved"}
  }

  /** Of each kind of drift alert there is one message per environment, which tells about the alerts of
      that kind there, and nothing else is merged: what is no drift alert is passed on as it is. */
  lemma {:induction false} OneMessagePerEnvironment(out: seq<Payload>, ps: seq<Payload>)
    requires ByEnvironment(out, ps)
    ensures forall i, j :: 0 <= i < j < |out| && SameAlert(out[i], out[j]) ==> out[i].drift.value.env != out[j].drift.value.env
    ensures forall k :: 0 <= k < |ps| && (ps[k].drift.None? || ps[k].event !in {"drift_detected", "drift_ongoing", "drift_resolved"}) ==>
              ps[k] in out
  {
    forall i, j | 0 <= i < j < |out| && SameAlert(out[i], out[j]) ensures out[i].drift.value.env != out[j].drift.value.env {
      ApartByEnvironment(out, ps, i, j);
    }
    forall k | 0 <= k < |ps| && (ps[k].drift.None? || ps[k].event !in {"drift_detected", "drift_ongoing", "drift_resolved"})
      ensures ps[k] in out
    {
      PassedThrough(out, ps, k);
    }
  }

  lemma {:induction false} ApartByEnvironment(out: seq<Payload>, ps: seq<Payload>, i: nat, j: nat)
    requires ByEnvironment(out, ps) && i < j < |out| && SameAlert(out[i], out[j])
    ensures out[i].drift.value.env != out[j].drift.value.env
  {
    var at :| Appears(out, ps, at);
    assert OpenedBy(out[i], ps[at[i]]) && OpenedBy(out[j], ps[at[j]]);
  }

  lemma {:induction false} PassedThrough(out: seq<Payload>, ps: seq<Payload>, k: nat)
    requires ByEnvironment(out, ps) && k < |ps|
    requires ps[k].drift.None? || ps[k].event !in {"drift_detected", "drift_ongoing", "drift_resolved"}
    ensures ps[k] in out
  {
    ToldIn(ps, k);
    assert Whole(ps[k]) in AllOut(out);
    WholeIsOutput(out, ps[k]);
  }

  lemma {:induction false} ToldIn(ps: seq<Payload>, k: nat)
    requires k < |ps|
    ensures InUnit(ps[k]) in AllIn(ps)
  {
    if k < |ps| - 1 {
      ToldIn(ps[..|ps| - 1], k);
    }
  }

  lemma {:induction false} WholeIsOutput(out: seq<Payload>, p: Payload)
    requires Whole(p) in AllOut(out)
    ensures p in out
  {
    var n := |out| - 1;
    if Whole(p) in AllOut(out[..n]) {
      WholeIsOutput(out[..n], p);
    } else {
      NoWholeMembers(out[n].event, out[n].group, p);
    }
  }

  lemma {:induction false} NoWholeMembers(event: string, group: seq<DriftPayload>, p: Payload)
    ensures Whole(p) !in Members(event, group)
  {
    if group != [] {
      NoWholeMembers(event, group[..|group| - 1], p);
    }
  }

  lemma SoFarSoGood(out: seq<Payload>, index: map<string, nat>, ps: seq<Payload>, at: seq<nat>)
    requires SoFar(out, index, ps, at)
    ensures ByEnvironment(out, ps)
  {
    forall i, j | 0 <= i < j < |out| && Groupable(out[i]) && Groupable(out[j])
      ensures KeyOfGroup(out[i]) != KeyOfGroup(out[j])
    {
      DistinctGroups(out, index, i, j);
    }
  }

  /** One turn of the loop: pass the payload on, let it join its group, or open one. */
  method AddPayload(out: seq<Payload>, index: map<string, nat>, p: Payload, ghost ps: seq<Payload>, ghost at: seq<nat>)
      returns (out': seq<Payload>, index': map<string, nat>, ghost at': seq<nat>)
    requires SoFar(out, index, ps, at)
    ensures SoFar(out', index', ps + [p], at')
  {
    if !Groupable(p) {
      PassedOn(out, index, ps, at, p);
      return out + [p], index, at + [|ps|];
    }
    var key := GroupKey(p.event, p.drift.value.env);
    if key in index {
      var i := index[key];
      var q := out[i].(group := out[i].group + [p.drift.value]);
      Joined(out, index, ps, at, p, i, q);
      return out[i := q], index, at;
    }
    var gp := p.(groupKey := p.drift.value.env, group := [p.drift.value]);
    Opened(out, index, ps, at, p, gp);
    return out + [gp], index[key := |out|], at + [|ps|];
  }

  method GroupPayloads(payloads: seq<Payload>, mode: string) returns (out: seq<Payload>)
    ensures mode == "" || mode == "none" ==> out == payloads
    ensures mode != "" && mode != "none" ==> ByEnvironment(out, payloads)
  {
    if mode == "" || mode == "none" {
      return payloads;
    }
    out := [];
    var index: map<string, nat> := map[];
    ghost var done: seq<Payload>, at: seq<nat> := [], [];
    NothingYet();
    for n := 0 to |payloads|
      invariant done == payloads[..n] && SoFar(out, index, done, at)
    {
      out, index, at := AddPayload(out, index, payloads[n], done, at);
      done := done + [payloads[n]];
    }
    assert done == payloads;
    SoFarSoGood(out, index, done, at);
  }

  lemma NothingYet()
    ensures SoFar([], map[], [], [])
  {
  }
}
