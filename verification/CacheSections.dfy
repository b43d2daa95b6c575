/** The locked sections of internal/auth/cache.go in their own, imperative form: the shared
    fields, updated in place.  Each section is proved to be one step of `CredentialCache`, which
    treats all interleavings of such sections; what is local to one request is its `Request`. */
module CacheSections {
  import opened Base
  import opened CredentialCache

  /** cloneCredential: a fresh environment map, and no cleanup. */
  method CloneCredential(c: Credential) returns (clone: Credential)
    ensures clone == Clone(c)
  {
    var env: map<string, string> := map[];
    var todo := c.env.Keys;
    while todo != {}
      invariant todo <= c.env.Keys
      invariant env.Keys == c.env.Keys - todo && forall k :: k in env ==> env[k] == c.env[k]
      decreases todo
    {
      var key :| key in todo;
      env := env[key := c.env[key]];
      todo := todo - {key};
    }
    assert env == c.env;
    clone := Credential(env, c.kind, c.source, c.expiresAt, false);
  }

  /** Later providers override earlier ones. */
  function Merged(creds: seq<Credential>): map<string, string> {
    if creds == [] then map[] else Merged(creds[..|creds| - 1]) + creds[|creds| - 1].env
  }

  /** The value of a variable is the one of the last credential that sets it. */
  lemma {:induction false} LastOneWins(creds: seq<Credential>, i: nat, key: string)
    requires i < |creds| && key in creds[i].env
    requires forall j :: i < j < |creds| ==> key !in creds[j].env
    ensures key in Merged(creds) && Merged(creds)[key] == creds[i].env[key]
  {
    var n := |creds| - 1;
    if i < n {
      LastOneWins(creds[..n], i, key);
    }
  }

  /** Nothing is set that no credential sets. */
  lemma {:induction false} OnlyTheirs(creds: seq<Credential>, key: string)
    requires key in Merged(creds)
    ensures exists i :: 0 <= i < |creds| && key in creds[i].env
  {
    var n := |creds| - 1;
    if key !in creds[n].env {
      OnlyTheirs(creds[..n], key);
      var i :| 0 <= i < n && key in creds[..n][i].env;
      assert key in creds[i].env;
    }
  }

  /** AcquireAll over what acquireOne answers for each name: the first failure fails it all. */
  method AcquireAll(answers: seq<Result>) returns (ok: bool, env: map<string, string>, creds: seq<Credential>)
    ensures ok <==> forall i :: 0 <= i < |answers| ==> answers[i].Handed?
    ensures ok ==> |creds| == |answers| && forall i :: 0 <= i < |answers| ==> creds[i] == answers[i].value
    ensures ok ==> env == Merged(creds)
    ensures !ok ==> env == map[] && creds == []
  {
    env, creds := map[], [];
    for i := 0 to |answers|
      invariant |creds| == i
      invariant forall k :: 0 <= k < i ==> answers[k].Handed? && creds[k] == answers[k].value
      invariant env == Merged(creds)
    {
      if answers[i].Failed? {
        return false, map[], [];
      }
      env := env + answers[i].value.env;
      ghost var before := creds;
      creds := creds + [answers[i].value];
      assert creds[..i] == before;
    }
    ok := true;
  }

  class Cache {
    const margin: int
    var entries: map<string, Entry>
    var generation: nat
    var owned: seq<nat>
    var closed: bool
    /** The attempts and credentials that entries, owned and requests point at. */
    var attempts: map<nat, Attempt>
    var issued: map<nat, Issued>

    constructor (margin: int)
      ensures this.margin == margin && Init(View(0, map[], Open))
    {
      this.margin := margin;
      entries, generation, owned, closed := map[], 0, [], false;
      attempts, issued := map[], map[];
    }

    /** The state of the machine whose shared part is this object. */
    ghost function View(now: int, requests: map<nat, Request>, closer: Closer): State
      reads this
    {
      State(margin, now, generation, closed, owned, entries, attempts, issued, requests, closer)
    }

    /** acquireOne, first section: answer from the cache, join an attempt, or start one. */
    method Enter(r: nat, q: Request, a: nat, now: int, ghost requests: map<nat, Request>, ghost closer: Closer)
        returns (pc: Pc)
      requires r in requests && requests[r] == q && Enabled(View(now, requests, closer), Step.Enter(r, a))
      modifies this
      ensures View(now, requests[r := q.(pc := pc)], closer) == Next(old(View(now, requests, closer)), Step.Enter(r, a))
    {
      if closed {
        return Finished(Failed);
      }
      var entry := if q.name in entries then entries[q.name] else Entry(None, None);
      if entry.credential.Some? && entry.credential.value in issued {
        var cached := issued[entry.credential.value].value;
        if Usable(cached, now, margin) {
          var clone := CloneCredential(cached);
          return Finished(Handed(clone, entry.credential.value));
        }
      }
      if entry.attempt.Some? {
        return Waiting(entry.attempt.value);
      }
      attempts := attempts[a := Attempt(q.name, r, generation, false, false, false, None)];
      entries := entries[q.name := entry.(attempt := Some(a))];
      pc := Reserved(a);
    }

    /** acquireOne, second section: keep, discard as stale, or find the cache closed. */
    method Settle(r: nat, q: Request, now: int, ghost requests: map<nat, Request>, ghost closer: Closer)
        returns (pc: Pc)
      requires r in requests && requests[r] == q && Enabled(View(now, requests, closer), Step.Settle(r))
      modifies this
      ensures View(now, requests[r := q.(pc := pc)], closer) == Next(old(View(now, requests, closer)), Step.Settle(r))
    {
      var a, got := q.pc.attempt, q.pc.credential;
      if closed {
        if got.Some? {
          issued := issued[got.value := Clean(issued[got.value]).(place := Discarded)];
        }
        return Unwinding(a);
      }
      var stale := generation != attempts[a].startGeneration;
      var entry := if q.name in entries then entries[q.name] else Entry(None, None);
      if got.Some? {
        owned := owned + [got.value];
        issued := issued[got.value := issued[got.value].(place := Owned)];
      }
      if got.Some? && !stale {
        entry := entry.(credential := got);
      }
      if entry.attempt == Some(a) {
        entry := entry.(attempt := None);
      }
      entries := entries[q.name := entry];
      attempts := attempts[a := attempts[a].(done := true, failed := got.None?, retry := got.Some? && stale,
                                             credential := if got.Some? && !stale then got else None)];
      if got.None? {
        return Finished(Failed);
      }
      if stale {
        return Looping;
      }
      var clone := CloneCredential(issued[got.value].value);
      pc := Finished(Handed(clone, got.value));
    }

    /** acquireOne, the section that follows the cleanup when the cache was found closed. */
    method Unwind(r: nat, q: Request, now: int, ghost requests: map<nat, Request>, ghost closer: Closer) returns (pc: Pc)
      requires r in requests && requests[r] == q && Enabled(View(now, requests, closer), Step.Unwind(r))
      modifies this
      ensures View(now, requests[r := q.(pc := pc)], closer) == Next(old(View(now, requests, closer)), Step.Unwind(r))
    {
      var a := q.pc.attempt;
      var entry := if q.name in entries then entries[q.name] else Entry(None, None);
      if entry.attempt == Some(a) {
        entry := entry.(attempt := None);
      }
      entries := entries[q.name := entry];
      attempts := attempts[a := attempts[a].(done := true, failed := true, retry := false, credential := None)];
      pc := Finished(Failed);
    }

    /** InvalidateAll: every cached credential is forgotten, none is cleaned. */
    method InvalidateAll(ghost now: int, ghost requests: map<nat, Request>, ghost closer: Closer) returns (ok: bool)
      modifies this
      ensures ok == !old(closed)
      ensures View(now, requests, closer) == Next(old(View(now, requests, closer)), Step.InvalidateAll)
    {
      if closed {
        return false;
      }
      var todo := entries.Keys;
      while todo != {}
        invariant todo <= entries.Keys && entries.Keys == old(entries).Keys
        invariant forall k :: k in entries ==>
                    entries[k] == if k in todo then old(entries)[k] else old(entries)[k].(credential := None)
        invariant generation == old(generation) && owned == old(owned) && closed == old(closed)
        invariant attempts == old(attempts) && issued == old(issued)
        decreases todo
      {
        var name :| name in todo;
        entries := entries[name := entries[name].(credential := None)];
        todo := todo - {name};
      }
      assert entries == map name | name in old(entries) :: old(entries)[name].(credential := None);
      generation := generation + 1;
      ok := true;
    }

    /** Close, undisturbed: mark closed, then clean what is owned, last acquired first. */
    method Close(ghost now: int, ghost requests: map<nat, Request>)
      requires forall k :: 0 <= k < |owned| ==> owned[k] in issued
      modifies this
      ensures Reachable(old(View(now, requests, Open)), CloseSteps(|owned|), View(now, requests, Closed))
    {
      ghost var s0 := View(now, requests, Open);
      closed := true;
      var i := |owned|;
      assert owned[..i] == owned;
      ghost var steps: seq<Step> := [Step.Close];
      while i > 0
        invariant 0 <= i <= |owned| && owned == old(owned) && closed && forall k :: 0 <= k < |owned| ==> owned[k] in issued
        invariant steps == [Step.Close] + seq(|owned| - i, _ => CloseCleans)
        invariant Reachable(s0, steps, View(now, requests, Cleaning(owned[..i])))
        decreases i
      {
        ghost var s := View(now, requests, Cleaning(owned[..i]));
        i := i - 1;
        assert owned[..i + 1][..i] == owned[..i];
        issued := issued[owned[i] := Clean(issued[owned[i]])];
        ReachableStep(s0, steps, s, CloseCleans);
        assert View(now, requests, Cleaning(owned[..i])) == Next(s, CloseCleans);
        steps := steps + [CloseCleans];
      }
      assert owned[..0] == [];
      ReachableStep(s0, steps, View(now, requests, Cleaning([])), CloseCleans);
      assert steps + [CloseCleans] == CloseSteps(|owned|);
    }
  }

  function CloseSteps(n: nat): seq<Step> {
    [Step.Close] + seq(n + 1, _ => CloseCleans)
  }

  lemma {:induction false} ReachableStep(s0: State, steps: seq<Step>, s: State, step: Step)
    requires Reachable(s0, steps, s) && Enabled(s, step)
    ensures Reachable(s0, steps + [step], Next(s, step))
    decreases |steps|
  {
    if steps == [] {
      assert [] + [step] == [step] && [step][1..] == [];
    } else {
      ReachableStep(Next(s0, steps[0]), steps[1..], s, step);
      assert (steps + [step])[1..] == steps[1..] + [step];
    }
  }
}
