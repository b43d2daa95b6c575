/** Whole runs of one lock: histories of effective store operations, what they leave in
    the bucket, which leases they grant, and the safety of every such run.

    An event is one conditional write that succeeded.  `LockStore` shows that the
    concurrent retry loops produce exactly such histories. */
module LockHistory {
  import opened Base
  import opened Locks

  /** id names the call; readAt is the clock when the lock was read (used only to stamp a
      lock that did not exist yet); t1 <= t2 are the clock readings of the transition. */
  datatype Event = Event(id: nat, op: Op, readAt: Instant, t1: Instant, t2: Instant)

  datatype Name = Name(project: string, stack: string)

  /** Store.Get: an absent object reads as a fresh free lock. */
  function Current(n: Name, stored: Option<Lock>, readAt: Instant): Lock {
    match stored
    case None => NewLock(n.project, n.stack, readAt)
    case Some(l) => l
  }

  function Effect(n: Name, stored: Option<Lock>, e: Event): Verdict {
    Transition(Current(n, stored, e.readAt), e.op, e.t1, e.t2)
  }

  /** The stored object after a history: the fold of whole transitions, from absence. */
  function Stored(n: Name, h: seq<Event>): Option<Lock> {
    if h == [] then None
    else Some(Effect(n, Stored(n, h[..|h| - 1]), h[|h| - 1]).next)
  }

  /** One nondecreasing clock along the history. */
  ghost predicate Chronological(h: seq<Event>) {
    && (forall i :: 0 <= i < |h| ==> h[i].readAt <= h[i].t1 <= h[i].t2)
    && (forall i, j :: 0 <= i < j < |h| ==> h[i].t2 <= h[j].readAt)
  }

  ghost predicate Past(h: seq<Event>, now: Instant) {
    forall i :: 0 <= i < |h| ==> h[i].t2 <= now
  }

  // ---------- FIFO over whole runs ----------

  /** Every lock that any history leaves behind has distinct queued PRs, a holder that is
      not queued, an empty queue when free, and its own name. */
  lemma {:induction false} ReachableWellFormed(n: Name, h: seq<Event>, readAt: Instant)
    ensures var l := Current(n, Stored(n, h), readAt);
            WellFormed(l) && l.project == n.project && l.stack == n.stack
  {
    if h != [] {
      var k := |h| - 1;
      ReachableWellFormed(n, h[..k], h[k].readAt);
      TransitionIsFifo(Current(n, Stored(n, h[..k]), h[k].readAt), h[k].op, h[k].t1, h[k].t2);
    }
  }

  /** The lock after the first k events. */
  function LockAt(n: Name, h: seq<Event>, k: nat): Lock
    requires k <= |h|
  {
    Current(n, Stored(n, h[..k]), 0)
  }

  ghost predicate HeldBy(l: Lock, pr: int) {
    l.holder.Some? && l.holder.value.pr == pr
  }

  lemma LockAtStep(n: Name, h: seq<Event>, k: nat)
    requires k < |h|
    ensures WellFormed(LockAt(n, h, k))
    ensures FifoStep(LockAt(n, h, k), h[k].op, LockAt(n, h, k + 1))
  {
    var e := h[k];
    assert h[..k + 1][..k] == h[..k];
    ReachableWellFormed(n, h[..k], e.readAt);
    ReachableWellFormed(n, h[..k], 0);
    TransitionIsFifo(Current(n, Stored(n, h[..k]), e.readAt), e.op, e.t1, e.t2);
  }

  /** r is behind p, or out of the game altogether. */
  ghost predicate Behind(l: Lock, p: int, r: int) {
    || Ahead(l.queue, p, r)
    || (!Queued(l.queue, r) && !HeldBy(l, r))
  }

  lemma StaysBehind(l: Lock, op: Op, l': Lock, p: int, r: int)
    requires WellFormed(l) && FifoStep(l, op, l')
    requires Behind(l, p, r) && Queued(l.queue, p) && Queued(l'.queue, p) && p != r
    ensures Behind(l', p, r)
  {
  }

  /** No overtaking.  If p waits in front of r at some moment and p stays queued until a
      later moment, then r has not become holder at any moment in between, whatever the
      operations were: promotion, leaving and re-applying, or an admin override. */
  lemma {:induction false} NoOvertaking(n: Name, h: seq<Event>, i: nat, j: nat, p: int, r: int)
    requires i <= j <= |h|
    requires Behind(LockAt(n, h, i), p, r) && p != r
    requires forall k :: i <= k <= j ==> Queued(LockAt(n, h, k).queue, p)
    ensures Behind(LockAt(n, h, j), p, r) && !HeldBy(LockAt(n, h, j), r)
    decreases j - i
  {
    ReachableWellFormed(n, h[..i], 0);
    if i < j {
      LockAtStep(n, h, i);
      StaysBehind(LockAt(n, h, i), h[i].op, LockAt(n, h, i + 1), p, r);
      NoOvertaking(n, h, i + 1, j, p, r);
    } else if Ahead(LockAt(n, h, i).queue, p, r) {
      assert Queued(LockAt(n, h, i).queue, r);
    }
  }

  /** A PR stops waiting only by becoming holder or at its own request. */
  lemma LeavesQueue(n: Name, h: seq<Event>, k: nat, p: int)
    requires k < |h|
    requires Queued(LockAt(n, h, k).queue, p) && !Queued(LockAt(n, h, k + 1).queue, p)
    ensures || HeldBy(LockAt(n, h, k + 1), p)
            || (h[k].op.OpRelease? && h[k].op.pr == p)
            || (h[k].op.OpUnlock? && h[k].op.pr == p)
  {
    LockAtStep(n, h, k);
  }

  // ---------- leases ----------

  /** Holder identity is PR and run together. */
  datatype Run = Run(pr: int, runId: string)

  /** Leases granted and not given up, each with the expiry the store then held.  A run
      gives its lease up by its release, or by the unlock sweep it runs when it finishes. */
  function LeasesAfter(leases: map<Run, int>, op: Op, v: Verdict): map<Run, int> {
    match op
    case OpAcquire(who, _) =>
      if v.flag && v.next.holder.Some? && v.next.holder.value.expiresAt.At?
      then leases[Run(who.pr, who.runId) := v.next.holder.value.expiresAt.sec]
      else leases
    case OpRelease(pr, runId, _) => leases - {Run(pr, runId)}
    case OpUnlock(pr, runId, _, force) =>
      if force then leases - {Run(pr, runId)} else leases
    case _ => leases
  }

  function Leases(n: Name, h: seq<Event>): map<Run, int> {
    if h == [] then map[]
    else
      var k := |h| - 1;
      LeasesAfter(Leases(n, h[..k]), h[k].op, Effect(n, Stored(n, h[..k]), h[k]))
  }

  /** Everything but the forced unlock of a whole PR and the admin override. */
  predicate Disciplined(op: Op) {
    !op.OpForceUnlock? && !(op.OpUnlock? && op.force && op.runId == "")
  }

  ghost predicate AllDisciplined(h: seq<Event>) {
    forall i :: 0 <= i < |h| ==> Disciplined(h[i].op)
  }

  predicate Live(leases: map<Run, int>, r: Run, now: Instant) {
    r in leases && now < leases[r] * SECOND
  }

  /** r is the actual holder with that expiry, by its own acquire. */
  predicate Backed(stored: Option<Lock>, r: Run, expiry: int) {
    && stored.Some? && stored.value.holder.Some?
    && var h := stored.value.holder.value;
    && h.pr == r.pr && h.runId == r.runId && h.expiresAt == At(expiry) && !h.promoted
  }

  /** r is the actual holder by its own acquire, until some expiry. */
  predicate HeldActively(stored: Option<Lock>, r: Run) {
    && stored.Some? && stored.value.holder.Some?
    && var h := stored.value.holder.value;
    && h.pr == r.pr && h.runId == r.runId && h.expiresAt.At? && !h.promoted
  }

  predicate GivesUp(op: Op, r: Run) {
    || (op.OpRelease? && op.pr == r.pr && op.runId == r.runId)
    || (op.OpUnlock? && op.force && op.pr == r.pr && op.runId == r.runId)
  }

  predicate AcquiresFor(op: Op, r: Run) {
    op.OpAcquire? && op.who.pr == r.pr && op.who.runId == r.runId
  }

  /** One step against a live holder: nothing but the holder's own request, or an undisciplined
      one, changes who holds or until when; its own acquire is granted and moves the expiry. */
  lemma LiveHolderSurvives(l: Lock, op: Op, t1: Instant, t2: Instant, r: Run, expiry: int)
    requires Backed(Some(l), r, expiry)
    requires t1 <= t2 < expiry * SECOND
    requires Disciplined(op) && !GivesUp(op, r)
    ensures var v := Transition(l, op, t1, t2);
      if AcquiresFor(op, r) then v.flag && Backed(Some(v.next), r, Stamp(t2 + op.ttl))
      else v.next.holder == l.holder
  {
  }

  /** Every live lease is backed by the stored holder. */
  lemma {:induction false} LiveLeaseBacked(n: Name, h: seq<Event>, r: Run, now: Instant)
    requires Chronological(h) && Past(h, now) && AllDisciplined(h)
    requires Live(Leases(n, h), r, now)
    ensures Backed(Stored(n, h), r, Leases(n, h)[r])
  {
    var k := |h| - 1;
    var e, before := h[k], Stored(n, h[..k]);
    var v := Effect(n, before, e);
    if AcquiresFor(e.op, r) && v.flag {
      ReachableWellFormed(n, h[..k], e.readAt);
      AcquireDecision(Current(n, before, e.readAt), e.op.who, e.op.ttl, e.t2);
    } else {
      assert r in Leases(n, h[..k]) && Leases(n, h[..k])[r] == Leases(n, h)[r];
      LiveLeaseBacked(n, h[..k], r, now);
      assert !GivesUp(e.op, r);
      LiveHolderSurvives(before.value, e.op, e.t1, e.t2, r, Leases(n, h)[r]);
    }
  }

  /** Mutual exclusion over every run: two different PR and run pairs never both hold a
      granted, unreleased lease that is strictly before its stored expiry. */
  lemma {:induction false} MutualExclusion(n: Name, h: seq<Event>, a: Run, b: Run, now: Instant)
    requires Chronological(h) && Past(h, now) && AllDisciplined(h)
    requires Live(Leases(n, h), a, now) && Live(Leases(n, h), b, now)
    ensures a == b
  {
    LiveLeaseBacked(n, h, a, now);
    LiveLeaseBacked(n, h, b, now);
  }

  /** The admin override is a real exception: PR 1 holds a lease for an hour, an admin
      unlock takes it away, PR 2 acquires, and both leases are live. */
  lemma {:induction false} AdminOverrideBreaksExclusion(n: Name)
    ensures var h := [Event(0, OpAcquire(Applicant(1, "", "r1", ""), 3600 * SECOND), 0, 0, 0),
                      Event(1, OpForceUnlock(0), 0, 0, 0),
                      Event(2, OpAcquire(Applicant(2, "", "r2", ""), 3600 * SECOND), 0, 0, 0)];
            && Chronological(h) && Past(h, 0)
            && Live(Leases(n, h), Run(1, "r1"), 0) && Live(Leases(n, h), Run(2, "r2"), 0)
  {
    var e0 := Event(0, OpAcquire(Applicant(1, "", "r1", ""), 3600 * SECOND), 0, 0, 0);
    var e1 := Event(1, OpForceUnlock(0), 0, 0, 0);
    var e2 := Event(2, OpAcquire(Applicant(2, "", "r2", ""), 3600 * SECOND), 0, 0, 0);
    assert [e0, e1, e2][..2] == [e0, e1];
    assert [e0, e1][..1] == [e0];
    assert [e0][..0] == [];
    assert Stored(n, [e0]).value.holder.Some?;
    assert Leases(n, [e0]) == map[Run(1, "r1") := 3600];
    assert Stored(n, [e0, e1]).value.holder.None?;
    assert Leases(n, [e0, e1]) == Leases(n, [e0]);
  }

  // ---------- heartbeat ----------

  /** StartHeartbeat ticks every third of the ttl. */
  function Interval(ttl: int): int {
    if ttl / 3 <= 0 then SECOND else ttl / 3
  }

  /** A lease taken at t0 is still active, in the sense of the unlock guard, two intervals later. */
  predicate OutlastsTwoIntervals(t0: Instant, ttl: int) {
    t0 + 2 * Interval(ttl) < Stamp(t0 + ttl) * SECOND
  }

  /** How long a run can go without a refresh is decided by the truncation of the stored
      expiry: two intervals fit strictly inside every lease, whenever it is taken, exactly
      when the ttl exceeds two intervals by a whole second. */
  lemma TwoIntervalsFit(ttl: int)
    ensures (forall t0: Instant :: OutlastsTwoIntervals(t0, ttl)) <==> ttl - 2 * Interval(ttl) >= SECOND
  {
    // an acquire that lands one nanosecond before a whole second loses the most
    var worst := SECOND - 1 - ttl;
    assert Stamp(worst + ttl) == 0;
    assert OutlastsTwoIntervals(worst, ttl) <==> ttl - 2 * Interval(ttl) >= SECOND;
    forall t0: Instant | ttl - 2 * Interval(ttl) >= SECOND ensures OutlastsTwoIntervals(t0, ttl) {
      var t := t0 + ttl;
      assert t == Stamp(t) * SECOND + t % SECOND;
    }
  }

  /** The heartbeat ticks every third of the ttl, and so, with a ttl of three seconds or more, it beats in
      time even if a refresh is lost: two intervals leave a whole second of the lease. */
  lemma OneLostRefreshIsTolerated(ttl: int)
    ensures ttl >= 3 ==> 3 * Interval(ttl) <= ttl < 3 * Interval(ttl) + 3
    ensures ttl < 3 ==> Interval(ttl) == SECOND
    ensures ttl >= 3 * SECOND ==> 2 * Interval(ttl) <= ttl - SECOND
  {
  }

  /** A lease taken at t0 is still active, in the sense of the unlock guard, until a second before its ttl
      is over, whatever the truncation takes from it. */
  lemma LastsAllButASecond(t0: Instant, ttl: int, t: Instant)
    requires t - t0 <= ttl - SECOND
    ensures t < Stamp(t0 + ttl) * SECOND
  {
    assert t0 + ttl == Stamp(t0 + ttl) * SECOND + (t0 + ttl) % SECOND;
  }

  /** Every event of es happens while r's last effective refresh has a second left, nobody overrides,
      and r does not give up. */
  ghost predicate Beating(es: seq<Event>, r: Run, ttl: int, last: Instant)
    decreases |es|
  {
    es == [] ||
    (var e := es[0];
     && e.t1 <= e.t2 && e.t2 - last <= ttl - SECOND
     && Disciplined(e.op) && !GivesUp(e.op, r)
     && (AcquiresFor(e.op, r) ==> e.op.ttl == ttl)
     && Beating(es[1..], r, ttl, if AcquiresFor(e.op, r) then e.t2 else last))
  }

  /** The stored object after running es on top of stored. */
  function StoredFrom(n: Name, stored: Option<Lock>, es: seq<Event>): Option<Lock>
    decreases |es|
  {
    if es == [] then stored else StoredFrom(n, Some(Effect(n, stored, es[0]).next), es[1..])
  }

  lemma {:induction false} StoredSplits(n: Name, h: seq<Event>, es: seq<Event>)
    ensures Stored(n, h + es) == StoredFrom(n, Stored(n, h), es)
    decreases |es|
  {
    if es == [] {
      assert h + es == h;
    } else {
      var h1 := h + [es[0]];
      assert h1[..|h1| - 1] == h;
      assert h + es == h1 + es[1..];
      StoredSplits(n, h1, es[1..]);
    }
  }

  /** A beating run stays the holder, for as long as it beats. */
  lemma {:induction false} HeartbeatHolds(n: Name, stored: Option<Lock>, es: seq<Event>, r: Run, ttl: int, last: Instant)
    requires Backed(stored, r, Stamp(last + ttl))
    requires Beating(es, r, ttl, last)
    ensures HeldActively(StoredFrom(n, stored, es), r)
    decreases |es|
  {
    if es != [] {
      var e := es[0];
      LastsAllButASecond(last, ttl, e.t2);
      LiveHolderSurvives(stored.value, e.op, e.t1, e.t2, r, Stamp(last + ttl));
      HeartbeatHolds(n, Some(Effect(n, stored, e).next), es[1..], r, ttl,
                     if AcquiresFor(e.op, r) then e.t2 else last);
    }
  }

  /** The heartbeat bound over whole runs: after any history that ends with a granted
      acquire of r, a run that keeps beating is the holder
      after every further event, whatever the other runs, reapers and non-forced
      unlocks do in between. */
  lemma {:induction false} HeartbeatBound(n: Name, h: seq<Event>, es: seq<Event>, r: Run)
    requires h != [] && AcquiresFor(h[|h| - 1].op, r)
    requires Effect(n, Stored(n, h[..|h| - 1]), h[|h| - 1]).flag
    requires Beating(es, r, h[|h| - 1].op.ttl, h[|h| - 1].t2)
    ensures HeldActively(Stored(n, h + es), r)
  {
    var k := |h| - 1;
    ReachableWellFormed(n, h[..k], h[k].readAt);
    AcquireDecision(Current(n, Stored(n, h[..k]), h[k].readAt), h[k].op.who, h[k].op.ttl, h[k].t2);
    StoredSplits(n, h, es);
    HeartbeatHolds(n, Stored(n, h), es, r, h[k].op.ttl, h[k].t2);
  }

  /** Against a beating holder no other run's acquire is granted. */
  lemma {:induction false} NobodyElse(n: Name, stored: Option<Lock>, es: seq<Event>, r: Run, ttl: int, last: Instant, k: nat)
    requires Backed(stored, r, Stamp(last + ttl)) && Beating(es, r, ttl, last)
    requires k < |es| && es[k].op.OpAcquire? && !AcquiresFor(es[k].op, r)
    ensures !Effect(n, StoredFrom(n, stored, es[..k]), es[k]).flag
    decreases |es|
  {
    var e := es[0];
    LastsAllButASecond(last, ttl, e.t2);
    if k == 0 {
      assert es[..0] == [];
    } else {
      LiveHolderSurvives(stored.value, e.op, e.t1, e.t2, r, Stamp(last + ttl));
      NobodyElse(n, Some(Effect(n, stored, e).next), es[1..], r, ttl, if AcquiresFor(e.op, r) then e.t2 else last, k - 1);
      assert es[..k][0] == e && es[..k][1..] == es[1..][..k - 1];
    }
  }

  /** Over whole runs: from a granted acquire of r on, while r keeps beating, no acquire of any other run is granted. */
  lemma {:induction false} ExclusiveWhileBeating(n: Name, h: seq<Event>, es: seq<Event>, r: Run, k: nat)
    requires h != [] && AcquiresFor(h[|h| - 1].op, r)
    requires Effect(n, Stored(n, h[..|h| - 1]), h[|h| - 1]).flag
    requires Beating(es, r, h[|h| - 1].op.ttl, h[|h| - 1].t2)
    requires k < |es| && es[k].op.OpAcquire? && !AcquiresFor(es[k].op, r)
    ensures !Effect(n, Stored(n, h + es[..k]), es[k]).flag
  {
    var last := h[|h| - 1];
    ReachableWellFormed(n, h[..|h| - 1], last.readAt);
    AcquireDecision(Current(n, Stored(n, h[..|h| - 1]), last.readAt), last.op.who, last.op.ttl, last.t2);
    StoredSplits(n, h, es[..k]);
    NobodyElse(n, Stored(n, h), es, r, last.op.ttl, last.t2, k);
  }

  function RunOf(e: Event): Run
    requires e.op.OpAcquire?
  {
    Run(e.op.who.pr, e.op.who.runId)
  }
}
