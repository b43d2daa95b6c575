/** The pure stack-lock state machine of internal/core/locks/locks.go.

    Instants are integers counting nanoseconds.  A timestamp that is written to the
    bucket is RFC 3339 text with whole-second precision, so it is modelled by the
    number of whole seconds (`Stamp`).  A stored expiry that the code parses again may
    also be missing or unreadable (`Expiry`). */
module Locks {
  import opened Base

  type Instant = int

  const SECOND: int := 1_000_000_000
  const DEFAULT_PROMOTE_TTL: int := 4 * 3600 * SECOND

  function Stamp(t: Instant): int {
    t / SECOND
  }

  datatype Expiry = Missing | Corrupt | At(sec: int)

  datatype Holder = Holder(
    pr: int, commitSha: string, runId: string, actor: string,
    acquiredAt: int, expiresAt: Expiry, promoted: bool)

  datatype QueueItem = QueueItem(
    pr: int, commitSha: string, runId: string, actor: string, enqueuedAt: int)

  datatype Lock = Lock(
    project: string, stack: string,
    holder: Option<Holder>, queue: seq<QueueItem>, updatedAt: int)

  /** The caller-supplied part of a holder. */
  datatype Applicant = Applicant(pr: int, commitSha: string, runId: string, actor: string)

  datatype Error = ErrAlreadyHolder | ErrAlreadyQueued | ErrHeldBySamePR | ErrNotHolder | ErrHolderActive

  datatype Acquisition = Acquisition(lock: Lock, acquired: bool, error: Option<Error>)

  function NewLock(project: string, stack: string, now: Instant): Lock {
    Lock(project, stack, None, [], Stamp(now))
  }

  // ---------- queue ----------

  predicate Queued(q: seq<QueueItem>, pr: int) {
    exists i :: 0 <= i < |q| && q[i].pr == pr
  }

  /** What removePR computes: the items of other PRs, in order. */
  function WithoutPR(q: seq<QueueItem>, pr: int): (out: seq<QueueItem>)
    ensures |out| <= |q|
    ensures forall x :: x in out <==> x in q && x.pr != pr
  {
    if q == [] then []
    else if q[|q| - 1].pr == pr then WithoutPR(q[..|q| - 1], pr)
    else WithoutPR(q[..|q| - 1], pr) + [q[|q| - 1]]
  }

  method RemovePR(q: seq<QueueItem>, pr: int) returns (out: seq<QueueItem>)
    ensures out == WithoutPR(q, pr)
  {
    out := [];
    for i := 0 to |q|
      invariant out == WithoutPR(q[..i], pr)
    {
      assert q[..i + 1][..i] == q[..i];
      if q[i].pr != pr {
        out := out + [q[i]];
      }
    }
    assert q[..|q|] == q;
  }

  /** The scan of the queue that TryAcquire runs before it enqueues. */
  method IsQueued(q: seq<QueueItem>, pr: int) returns (found: bool)
    ensures found <==> Queued(q, pr)
  {
    for i := 0 to |q|
      invariant !Queued(q[..i], pr)
    {
      if q[i].pr == pr {
        return true;
      }
    }
    assert q[..|q|] == q;
    return false;
  }

  // ---------- expiry and promotion ----------

  predicate Expired(h: Holder, now: Instant) {
    match h.expiresAt
    case Missing => false
    case Corrupt => true
    case At(sec) => now > sec * SECOND
  }

  function PromoteTTL(ttl: int): int {
    if ttl <= 0 then DEFAULT_PROMOTE_TTL else ttl
  }

  function PromoteNext(l: Lock, now: Instant, ttl: int): Lock {
    if l.holder.Some? || l.queue == [] then l
    else
      var next := l.queue[0];
      l.(queue := l.queue[1..],
         holder := Some(Holder(next.pr, next.commitSha, next.runId, next.actor,
                               Stamp(now), At(Stamp(now + ttl)), true)))
  }

  /** Clear the holder and hand the lock to the head of the queue. */
  function HandOver(l: Lock, now: Instant, ttl: int): Lock {
    PromoteNext(l.(holder := None), now, PromoteTTL(ttl))
  }

  function EvictIfExpired(l: Lock, now: Instant, ttl: int): Lock {
    if l.holder.Some? && Expired(l.holder.value, now) then HandOver(l, now, ttl) else l
  }

  function Install(l: Lock, who: Applicant, ttl: int, now: Instant): Lock {
    l.(holder := Some(Holder(who.pr, who.commitSha, who.runId, who.actor,
                             Stamp(now), At(Stamp(now + ttl)), false)),
       queue := WithoutPR(l.queue, who.pr),
       updatedAt := Stamp(now))
  }

  // ---------- transitions ----------

  function TryAcquire(l0: Lock, who: Applicant, ttl: int, now: Instant): Acquisition {
    var l := EvictIfExpired(l0, now, ttl);
    if l.holder.Some? && l.holder.value.pr == who.pr then
      var h := l.holder.value;
      if h.runId != who.runId then
        if !h.promoted then Acquisition(l, false, Some(ErrHeldBySamePR))
        else Acquisition(Install(l, who, ttl, now), true, None)
      else
        var refreshed := h.(expiresAt := At(Stamp(now + ttl)), commitSha := who.commitSha,
                            runId := who.runId, actor := who.actor, promoted := false);
        Acquisition(l.(holder := Some(refreshed), updatedAt := Stamp(now)), true, Some(ErrAlreadyHolder))
    else if l.holder.None? then
      Acquisition(Install(l, who, ttl, now), true, None)
    else if Queued(l.queue, who.pr) then
      Acquisition(l, false, Some(ErrAlreadyQueued))
    else
      var item := QueueItem(who.pr, who.commitSha, who.runId, who.actor, Stamp(now));
      Acquisition(l.(queue := l.queue + [item], updatedAt := Stamp(now)), false, None)
  }

  function Release(l0: Lock, pr: int, runId: string, ttl: int, now: Instant): (Lock, Option<Error>) {
    var l := EvictIfExpired(l0, now, ttl);
    if l.holder.None? || l.holder.value.pr != pr || l.holder.value.runId != runId then
      var q := WithoutPR(l.queue, pr);
      if |q| != |l.queue| then (l.(queue := q, updatedAt := Stamp(now)), None)
      else (l.(queue := q), Some(ErrNotHolder))
    else
      (HandOver(l, now, ttl).(updatedAt := Stamp(now)), None)
  }

  function UnlockPR(l0: Lock, pr: int, runId: string, ttl: int, now: Instant): Lock {
    var l :=
      if && l0.holder.Some?
         && l0.holder.value.pr == pr
         && (runId == "" || l0.holder.value.runId == runId || Expired(l0.holder.value, now))
      then HandOver(l0, now, ttl)
      else l0;
    l.(queue := WithoutPR(l.queue, pr), updatedAt := Stamp(now))
  }

  function Reap(l: Lock, ttl: int, now: Instant): (Lock, bool) {
    if l.holder.Some? && Expired(l.holder.value, now)
    then (HandOver(l, now, ttl).(updatedAt := Stamp(now)), true)
    else (l, false)
  }

  /** Store.ForceUnlock: the admin override, which looks at neither PR nor lease.
      It reads the clock twice. */
  function ForceUnlock(l: Lock, ttl: int, now1: Instant, now2: Instant): Lock {
    HandOver(l, now1, ttl).(updatedAt := Stamp(now2))
  }

  predicate HolderActive(l: Lock, pr: int, runId: string, now: Instant) {
    && l.holder.Some?
    && l.holder.value.pr == pr
    && (runId == "" || l.holder.value.runId == runId)
    && l.holder.value.expiresAt.At?
    && now < l.holder.value.expiresAt.sec * SECOND
  }

  // ---------- one operation of the store, as a whole ----------

  datatype Op =
    | OpAcquire(who: Applicant, ttl: int)
    | OpRelease(pr: int, runId: string, ttl: int)
    | OpUnlock(pr: int, runId: string, ttl: int, force: bool)
    | OpReap(ttl: int)
    | OpForceUnlock(ttl: int)

  /** The closure passed to mutate or maintain: the next lock, the flag and the error. */
  datatype Verdict = Verdict(next: Lock, flag: bool, error: Option<Error>)

  /** t1 <= t2 are the clock readings of the closure; only the unlock closure and
      ForceUnlock read the clock twice. */
  function Transition(l: Lock, op: Op, t1: Instant, t2: Instant): Verdict {
    match op
    case OpAcquire(who, ttl) =>
      var a := TryAcquire(l, who, ttl, t2);
      if a.error == Some(ErrAlreadyHolder) then Verdict(a.lock, true, None)
      else Verdict(a.lock, a.acquired, a.error)
    case OpRelease(pr, runId, ttl) =>
      var (next, err) := Release(l, pr, runId, ttl, t2);
      Verdict(next, false, err)
    case OpUnlock(pr, runId, ttl, force) =>
      if !force && HolderActive(l, pr, runId, t1) then Verdict(l, false, Some(ErrHolderActive))
      else
        var next := UnlockPR(l, pr, runId, ttl, t2);
        Verdict(next, l.holder != next.holder || l.queue != next.queue, None)
    case OpReap(ttl) =>
      var (next, evicted) := Reap(l, ttl, t2);
      Verdict(next, evicted, None)
    case OpForceUnlock(ttl) =>
      Verdict(ForceUnlock(l, ttl, t1, t2), false, None)
  }

  // ---------- the queue discipline ----------

  ghost predicate DistinctPRs(q: seq<QueueItem>) {
    forall i, j :: 0 <= i < j < |q| ==> q[i].pr != q[j].pr
  }

  /** What every lock reachable from NewLock satisfies. */
  ghost predicate WellFormed(l: Lock) {
    && DistinctPRs(l.queue)
    && (l.holder.None? ==> l.queue == [])
    && (l.holder.Some? ==> l.holder.value.expiresAt.At? && !Queued(l.queue, l.holder.value.pr))
  }

  /** p waits somewhere in front of r. */
  ghost predicate Ahead(q: seq<QueueItem>, p: int, r: int) {
    exists i, j :: 0 <= i < j < |q| && q[i].pr == p && q[j].pr == r
  }

  lemma {:induction false} WithoutPRDistinct(q: seq<QueueItem>, pr: int)
    requires DistinctPRs(q)
    ensures DistinctPRs(WithoutPR(q, pr))
  {
    if q != [] {
      var n := |q| - 1;
      WithoutPRDistinct(q[..n], pr);
      var front := WithoutPR(q[..n], pr);
      assert forall k :: 0 <= k < |front| ==> front[k] in q[..n];
    }
  }

  /** Removal keeps the relative order: two kept items are found again at increasing places. */
  lemma {:induction false} WithoutPRKeepsOrder(q: seq<QueueItem>, pr: int, i: nat, j: nat)
      returns (a: nat, b: nat)
    requires i < j < |q| && q[i].pr != pr && q[j].pr != pr
    ensures a < b < |WithoutPR(q, pr)|
    ensures WithoutPR(q, pr)[a] == q[i] && WithoutPR(q, pr)[b] == q[j]
  {
    var n := |q| - 1;
    var front := WithoutPR(q[..n], pr);
    assert WithoutPR(q, pr) == front || WithoutPR(q, pr) == front + [q[n]];
    if j < n {
      a, b := WithoutPRKeepsOrder(q[..n], pr, i, j);
      assert front[a] == q[i] && front[b] == q[j];
    } else {
      assert q[..n][i] == q[i];
      assert q[i] in front;
      a :| 0 <= a < |front| && front[a] == q[i];
      b := |front|;
    }
  }

  lemma {:induction false} WithoutAbsentPR(q: seq<QueueItem>, pr: int)
    requires !Queued(q, pr)
    ensures WithoutPR(q, pr) == q
  {
    if q != [] {
      var n := |q| - 1;
      assert forall i :: 0 <= i < n ==> q[..n][i] == q[i];
      WithoutAbsentPR(q[..n], pr);
      assert q == q[..n] + [q[n]];
    }
  }

  lemma HandOverWellFormed(l: Lock, now: Instant, ttl: int)
    requires WellFormed(l)
    ensures WellFormed(HandOver(l, now, ttl))
    ensures var l' := HandOver(l, now, ttl);
            && l'.holder.Some? == (l.queue != [])
            && (l.queue != [] ==> l'.queue == l.queue[1..] && l'.holder.value.pr == l.queue[0].pr && l'.holder.value.promoted)
            && (l.queue == [] ==> l'.queue == [])
  {
  }

  /** The FIFO property of a single step, for every operation and all inputs:
      - the lock stays well formed, and keeps its project and stack;
      - a new holder PR comes from the queue, or is an applicant that found nobody waiting,
        and whoever waited in front of it gave up its own place in this very step;
      - two PRs that both stay queued keep their order, and a newcomer queues behind them;
      - a PR leaves the queue only by becoming holder or by its own release or unlock. */
  ghost predicate FifoStep(l: Lock, op: Op, l': Lock) {
    && WellFormed(l')
    && l'.project == l.project && l'.stack == l.stack
    && (l'.holder.Some? ==>
          || (l.holder.Some? && l'.holder.value.pr == l.holder.value.pr)
          || Queued(l.queue, l'.holder.value.pr)
          || (l.queue == [] && op.OpAcquire? && l'.holder.value.pr == op.who.pr))
    && (forall p :: l'.holder.Some? && Ahead(l.queue, p, l'.holder.value.pr) ==>
          op.OpRelease? && op.pr == p && !Queued(l'.queue, p))
    && (forall p, r :: Ahead(l.queue, p, r) && Queued(l'.queue, p) && Queued(l'.queue, r) ==> Ahead(l'.queue, p, r))
    && (forall p, r :: Queued(l.queue, p) && Queued(l'.queue, p) && !Queued(l.queue, r) && Queued(l'.queue, r) ==>
          Ahead(l'.queue, p, r))
    && (forall p :: Queued(l.queue, p) && !Queued(l'.queue, p) ==>
          || (l'.holder.Some? && l'.holder.value.pr == p)
          || (op.OpRelease? && op.pr == p)
          || (op.OpUnlock? && op.pr == p))
  }

  lemma TailKeepsOrder(q: seq<QueueItem>, p: int, r: int)
    requires DistinctPRs(q) && q != [] && Ahead(q, p, r) && Queued(q[1..], p)
    ensures Ahead(q[1..], p, r)
  {
  }

  lemma AppendKeepsOrder(q: seq<QueueItem>, x: QueueItem, p: int, r: int)
    requires Ahead(q, p, r)
    ensures Ahead(q + [x], p, r)
  {
    var i, j :| 0 <= i < j < |q| && q[i].pr == p && q[j].pr == r;
    assert (q + [x])[i].pr == p && (q + [x])[j].pr == r;
  }

  lemma QueuedIffMember(q: seq<QueueItem>, pr: int)
    ensures Queued(q, pr) <==> exists x :: x in q && x.pr == pr
  {
  }

  /** Handing the lock over is a FIFO step by itself. */
  lemma HandOverIsFifo(l: Lock, op: Op, now: Instant, ttl: int)
    requires WellFormed(l)
    ensures FifoStep(l, op, HandOver(l, now, ttl))
  {
    HandOverWellFormed(l, now, ttl);
    var l' := HandOver(l, now, ttl);
    if l.queue != [] {
      forall p, r | Ahead(l.queue, p, r) && Queued(l'.queue, p)
        ensures Ahead(l'.queue, p, r)
      {
        TailKeepsOrder(l.queue, p, r);
      }
      forall p | Queued(l.queue, p) && !Queued(l'.queue, p)
        ensures l'.holder.value.pr == p
      {
        var i :| 0 <= i < |l.queue| && l.queue[i].pr == p;
        assert forall k :: 0 < k < |l.queue| ==> l.queue[1..][k - 1] == l.queue[k];
      }
    }
  }

  /** Dropping the queue entries of the PR that asked for it is a FIFO step. */
  lemma {:induction false} DropIsFifo(l: Lock, op: Op, pr: int, updatedAt: int)
    requires WellFormed(l)
    requires (op.OpRelease? && op.pr == pr) || (op.OpUnlock? && op.pr == pr)
    ensures FifoStep(l, op, l.(queue := WithoutPR(l.queue, pr), updatedAt := updatedAt))
  {
    var q := WithoutPR(l.queue, pr);
    WithoutPRDistinct(l.queue, pr);
    forall p ensures Queued(q, p) <==> Queued(l.queue, p) && p != pr {
      QueuedIffMember(q, p);
      QueuedIffMember(l.queue, p);
    }
    forall p, r | Ahead(l.queue, p, r) && Queued(q, p) && Queued(q, r)
      ensures Ahead(q, p, r)
    {
      var i, j :| 0 <= i < j < |l.queue| && l.queue[i].pr == p && l.queue[j].pr == r;
      var a, b := WithoutPRKeepsOrder(l.queue, pr, i, j);
    }
  }

  /** After an eviction that left a holder, a new applicant queues at the end. */
  lemma EnqueueIsFifo(l: Lock, op: Op, m: Lock, item: QueueItem, updatedAt: int)
    requires WellFormed(l) && FifoStep(l, op, m)
    requires op.OpAcquire? && m.holder.Some? && m.holder.value.pr != item.pr && !Queued(m.queue, item.pr)
    ensures FifoStep(l, op, m.(queue := m.queue + [item], updatedAt := updatedAt))
  {
    var q := m.queue + [item];
    // were the newcomer queued in l but not in m, it would be m's holder
    assert !Queued(l.queue, item.pr);
    forall p ensures Queued(q, p) <==> Queued(m.queue, p) || p == item.pr {
      QueuedIffMember(q, p);
      QueuedIffMember(m.queue, p);
    }
    forall p, r | Ahead(m.queue, p, r) ensures Ahead(q, p, r) {
      AppendKeepsOrder(m.queue, item, p, r);
    }
    forall p | Queued(m.queue, p) ensures Ahead(q, p, item.pr) {
      var i :| 0 <= i < |m.queue| && m.queue[i].pr == p;
      assert q[i].pr == p && q[|m.queue|].pr == item.pr;
    }
    forall p, r | Ahead(l.queue, p, r) ensures Queued(l.queue, p) && Queued(l.queue, r) {
    }
  }

  lemma AcquireIsFifo(l: Lock, who: Applicant, ttl: int, now: Instant)
    requires WellFormed(l)
    ensures FifoStep(l, OpAcquire(who, ttl), TryAcquire(l, who, ttl, now).lock)
  {
    var op := OpAcquire(who, ttl);
    var m := EvictIfExpired(l, now, ttl);
    HandOverIsFifo(l, op, now, ttl);
    assert FifoStep(l, op, m);
    var l' := TryAcquire(l, who, ttl, now).lock;
    if m.holder.Some? && m.holder.value.pr == who.pr {
      WithoutAbsentPR(m.queue, who.pr);
      assert l' == m.(holder := l'.holder, updatedAt := l'.updatedAt);
    } else if m.holder.None? {
      HandOverWellFormed(l, now, ttl);
      assert l.queue == [] && l'.queue == [];
    } else if !Queued(m.queue, who.pr) {
      EnqueueIsFifo(l, op, m, QueueItem(who.pr, who.commitSha, who.runId, who.actor, Stamp(now)), Stamp(now));
    }
  }

  /** The lease ran out, the head of the queue was promoted, and the promoted PR releases
      in the same step: two hand-overs, the first of them to the releasing PR itself. */
  lemma DoubleHandOverIsFifo(l: Lock, op: Op, now: Instant, ttl: int)
    requires WellFormed(l) && l.queue != [] && op.OpRelease? && op.pr == l.queue[0].pr
    ensures FifoStep(l, op, HandOver(HandOver(l, now, ttl), now, ttl))
  {
    var m := HandOver(l, now, ttl);
    HandOverIsFifo(l, op, now, ttl);
    HandOverIsFifo(m, op, now, ttl);
    HandOverWellFormed(l, now, ttl);
    HandOverWellFormed(m, now, ttl);
    var l' := HandOver(m, now, ttl);
    assert !Queued(l'.queue, op.pr);
    assert forall k :: 0 <= k < |m.queue| ==> m.queue[k] == l.queue[k + 1];
    if l'.holder.Some? {
      assert l'.holder.value.pr == l.queue[1].pr;
    }
  }

  lemma ReleaseIsFifo(l: Lock, pr: int, runId: string, ttl: int, now: Instant)
    requires WellFormed(l)
    ensures FifoStep(l, OpRelease(pr, runId, ttl), Release(l, pr, runId, ttl, now).0)
  {
    var op := OpRelease(pr, runId, ttl);
    var m := EvictIfExpired(l, now, ttl);
    HandOverIsFifo(l, op, now, ttl);
    HandOverWellFormed(l, now, ttl);
    assert FifoStep(l, op, m);
    var l' := Release(l, pr, runId, ttl, now).0;
    if m.holder.None? || m.holder.value.pr != pr || m.holder.value.runId != runId {
      DropIsFifo(m, op, pr, l'.updatedAt);
      assert l' == m.(queue := WithoutPR(m.queue, pr), updatedAt := l'.updatedAt);
      DropAfterIsFifo(l, op, m, l');
    } else if l.holder.Some? && Expired(l.holder.value, now) {
      DoubleHandOverIsFifo(l, op, now, ttl);
    }
  }

  lemma DropAfterIsFifo(l: Lock, op: Op, m: Lock, l': Lock)
    requires WellFormed(l) && op.OpRelease?
    requires FifoStep(l, op, m) && FifoStep(m, op, l')
    requires l'.holder == m.holder && l'.queue == WithoutPR(m.queue, op.pr)
    ensures FifoStep(l, op, l')
  {
    forall p | Queued(l'.queue, p) ensures Queued(m.queue, p) {
      QueuedIffMember(l'.queue, p);
      QueuedIffMember(m.queue, p);
    }
  }

  lemma UnlockIsFifo(l: Lock, pr: int, runId: string, ttl: int, force: bool, now: Instant)
    requires WellFormed(l)
    ensures FifoStep(l, OpUnlock(pr, runId, ttl, force), UnlockPR(l, pr, runId, ttl, now))
  {
    var op := OpUnlock(pr, runId, ttl, force);
    if && l.holder.Some? && l.holder.value.pr == pr
       && (runId == "" || l.holder.value.runId == runId || Expired(l.holder.value, now)) {
      HandOverIsFifo(l, op, now, ttl);
      var m := HandOver(l, now, ttl);
      HandOverWellFormed(l, now, ttl);
      assert !Queued(m.queue, pr) by {
        assert l.queue != [] ==> forall i :: 0 <= i < |m.queue| ==> m.queue[i] == l.queue[i + 1];
      }
      WithoutAbsentPR(m.queue, pr);
      assert UnlockPR(l, pr, runId, ttl, now) == m.(updatedAt := Stamp(now));
    } else {
      DropIsFifo(l, op, pr, Stamp(now));
    }
  }

  /** Every operation of the lock store, on every well-formed lock and at any time,
      is a FIFO step. */
  lemma TransitionIsFifo(l: Lock, op: Op, t1: Instant, t2: Instant)
    requires WellFormed(l)
    ensures FifoStep(l, op, Transition(l, op, t1, t2).next)
  {
    match op
    case OpAcquire(who, ttl) => AcquireIsFifo(l, who, ttl, t2);
    case OpRelease(pr, runId, ttl) => ReleaseIsFifo(l, pr, runId, ttl, t2);
    case OpUnlock(pr, runId, ttl, force) =>
      UnlockIsFifo(l, pr, runId, ttl, force, t2);
      assert !force && HolderActive(l, pr, runId, t1) ==> FifoStep(l, op, l);
    case OpReap(ttl) => HandOverIsFifo(l, op, t2, ttl);
    case OpForceUnlock(ttl) => HandOverIsFifo(l, op, t1, ttl);
  }

  /** Exactly when an applicant gets the lock, and what it then holds: a fresh lease of
      its own run, never a reservation.  While a lease is unexpired nobody else's request
      changes the holder at all. */
  lemma AcquireDecision(l: Lock, who: Applicant, ttl: int, now: Instant)
    requires WellFormed(l)
    ensures var a := TryAcquire(l, who, ttl, now);
      && (a.acquired <==>
          match l.holder
          case None => true
          case Some(h) =>
            if Expired(h, now) then l.queue == [] || l.queue[0].pr == who.pr
            else h.pr == who.pr && (h.runId == who.runId || h.promoted))
      && (a.acquired ==>
            && a.lock.holder.Some?
            && var h := a.lock.holder.value;
            && (h.pr, h.commitSha, h.runId, h.actor) == (who.pr, who.commitSha, who.runId, who.actor)
            && h.expiresAt == At(Stamp(now + ttl))
            && !h.promoted)
      && (!a.acquired && l.holder.Some? && !Expired(l.holder.value, now) ==> a.lock.holder == l.holder)
      && (!a.acquired && a.error.None? ==> Queued(a.lock.queue, who.pr))
      && (a.error == Some(ErrHeldBySamePR) ==> !Queued(a.lock.queue, who.pr) && a.lock.holder.value.runId != who.runId)
  {
    HandOverWellFormed(l, now, ttl);
    var m := EvictIfExpired(l, now, ttl);
    if m.holder.Some? && m.holder.value.pr != who.pr && !Queued(m.queue, who.pr) {
      assert TryAcquire(l, who, ttl, now).lock.queue[|m.queue|].pr == who.pr;
    }
  }
}
