/** The lock as a line of waiting runs.  Whoever is first in the line owns the lock; every operation
    of the store (internal/blob/locks/store.go, internal/core/locks/locks.go) is a simple operation
    on the line, and what it replies is where the caller stands. */
module LockLine {
  import opened Base
  import opened Locks

  /** A place in the line is the run that applied for it. */
  function PlaceOf(q: QueueItem): Applicant {
    Applicant(q.pr, q.commitSha, q.runId, q.actor)
  }

  function OwnerOf(h: Holder): Applicant {
    Applicant(h.pr, h.commitSha, h.runId, h.actor)
  }

  function Waiting(q: seq<QueueItem>): (w: seq<Applicant>)
    ensures |w| == |q| && forall i :: 0 <= i < |q| ==> w[i] == PlaceOf(q[i])
  {
    seq(|q|, i requires 0 <= i < |q| => PlaceOf(q[i]))
  }

  /** The holder, if there is one, and the queue behind it. */
  function Line(l: Lock): seq<Applicant> {
    (if l.holder.Some? then [OwnerOf(l.holder.value)] else []) + Waiting(l.queue)
  }

  /** A lease counts up to and including its last second; an unreadable one does not count at all. */
  predicate Lasts(e: Expiry, now: Instant) {
    match e
    case At(sec) => now <= sec * SECOND
    case Missing => true
    case Corrupt => false
  }

  /** The line that counts at a given time: a holder whose lease ran out has lost its place. */
  function LineAt(l: Lock, now: Instant): seq<Applicant> {
    if l.holder.Some? && !Lasts(l.holder.value.expiresAt, now) then Waiting(l.queue) else Line(l)
  }

  /** The first place is a reservation that the next run of its PR may take over: its run was served
      from the queue, now or earlier, and has not acted on it. */
  predicate Reservation(l: Lock, now: Instant) {
    l.holder.Some? && (Lasts(l.holder.value.expiresAt, now) ==> l.holder.value.promoted)
  }

  /** The line without the places of one PR. */
  function Leave(line: seq<Applicant>, pr: int): seq<Applicant> {
    if line == [] then []
    else
      var n := |line| - 1;
      if line[n].pr == pr then Leave(line[..n], pr) else Leave(line[..n], pr) + [line[n]]
  }

  /** The same, but the first in line keeps its place. */
  function LeaveBehind(line: seq<Applicant>, pr: int): seq<Applicant> {
    if line == [] then [] else line[..1] + Leave(line[1..], pr)
  }

  ghost predicate Stands(line: seq<Applicant>, pr: int) {
    exists i :: 0 <= i < |line| && line[i].pr == pr
  }

  lemma {:induction false} WaitingWithout(q: seq<QueueItem>, pr: int)
    ensures Waiting(WithoutPR(q, pr)) == Leave(Waiting(q), pr)
  {
    if q != [] {
      var n := |q| - 1;
      WaitingWithout(q[..n], pr);
      assert Waiting(q)[..n] == Waiting(q[..n]);
    }
  }

  lemma StandsInQueue(q: seq<QueueItem>, pr: int)
    ensures Stands(Waiting(q), pr) <==> Queued(q, pr)
  {
  }

  /** A hand-over serves the line from the front, and a new owner comes in as a reservation with
      a lease of its own. */
  lemma HandOverServes(l: Lock, now: Instant, ttl: int)
    ensures var l' := HandOver(l, now, ttl);
      && Line(l') == Waiting(l.queue)
      && (l'.holder.Some? <==> l.queue != [])
      && (l'.holder.Some? ==> l'.holder.value.promoted && l'.holder.value.expiresAt == At(Stamp(now + PromoteTTL(ttl))))
  {
  }

  lemma EvictedLine(l: Lock, now: Instant, ttl: int)
    ensures Line(EvictIfExpired(l, now, ttl)) == LineAt(l, now)
  {
  }

  // ---------- what each operation does to the line ----------

  /** Acquire: an empty line is entered as owner; the owner's PR keeps the first place, under the
      applicant's run if the lock was granted; others join at the end, once.  It is granted to the first
      in line: to the same run, or to another run of the PR if the place is only reserved. */
  lemma AcquireOnLine(l: Lock, who: Applicant, ttl: int, t1: Instant, t2: Instant)
    requires WellFormed(l)
    ensures var line, v := LineAt(l, t2), Transition(l, OpAcquire(who, ttl), t1, t2);
      && Line(v.next) ==
           (if line == [] then [who]
            else if line[0].pr == who.pr then (if v.flag then [who] + line[1..] else line)
            else if Stands(line, who.pr) then line
            else line + [who])
      && (v.flag <==> line == [] || (line[0].pr == who.pr && (line[0].runId == who.runId || Reservation(l, t2))))
  {
    var m := EvictIfExpired(l, t2, ttl);
    EvictedLine(l, t2, ttl);
    HandOverWellFormed(l, t2, ttl);
    var line := LineAt(l, t2);
    if m.holder.None? {
      assert m.queue == [];
    } else if m.holder.value.pr == who.pr {
      assert line[1..] == Waiting(m.queue);
      WithoutAbsentPR(m.queue, who.pr);
    } else {
      JoinOnLine(m, QueueItem(who.pr, who.commitSha, who.runId, who.actor, Stamp(t2)));
    }
  }

  lemma JoinOnLine(m: Lock, item: QueueItem)
    requires m.holder.Some? && m.holder.value.pr != item.pr
    ensures Stands(Line(m), item.pr) <==> Queued(m.queue, item.pr)
    ensures Line(m.(queue := m.queue + [item])) == Line(m) + [PlaceOf(item)]
  {
    assert Line(m)[1..] == Waiting(m.queue);
    StandsInQueue(m.queue, item.pr);
    StandsBehind(Line(m), item.pr);
    assert Waiting(m.queue + [item]) == Waiting(m.queue) + [PlaceOf(item)];
  }

  /** What the applicant is told is where it stands. */
  lemma AcquireReply(l: Lock, who: Applicant, ttl: int, t1: Instant, t2: Instant)
    requires WellFormed(l)
    ensures var line, v := LineAt(l, t2), Transition(l, OpAcquire(who, ttl), t1, t2);
      && (v.error == None <==> v.flag || !Stands(line, who.pr))
      && (v.error == Some(ErrHeldBySamePR) <==> !v.flag && line != [] && line[0].pr == who.pr)
      && (v.error == Some(ErrAlreadyQueued) <==> line != [] && line[0].pr != who.pr && Stands(line, who.pr))
  {
    var m := EvictIfExpired(l, t2, ttl);
    EvictedLine(l, t2, ttl);
    HandOverWellFormed(l, t2, ttl);
    if m.holder.None? {
      assert m.queue == [];
    } else if m.holder.value.pr != who.pr {
      JoinOnLine(m, QueueItem(who.pr, who.commitSha, who.runId, who.actor, Stamp(t2)));
    } else {
      assert LineAt(l, t2)[0].pr == who.pr;
    }
  }

  lemma StandsBehind(line: seq<Applicant>, pr: int)
    requires line != [] && line[0].pr != pr
    ensures Stands(line, pr) <==> Stands(line[1..], pr)
  {
  }

  /** Release: the owner's own run leaves the front and the next one moves up; anyone else only
      gives up the places its PR has behind the owner, and is told so when there is none. */
  lemma ReleaseOnLine(l: Lock, pr: int, runId: string, ttl: int, t1: Instant, t2: Instant)
    requires WellFormed(l)
    ensures var line, v := LineAt(l, t2), Transition(l, OpRelease(pr, runId, ttl), t1, t2);
      var owns := line != [] && line[0].pr == pr && line[0].runId == runId;
      && Line(v.next) == (if owns then line[1..] else LeaveBehind(line, pr))
      && (v.error == Some(ErrNotHolder) <==> !owns && (line == [] || !Stands(line[1..], pr)))
      && (v.error.Some? ==> v.error.value == ErrNotHolder)
  {
    var m := EvictIfExpired(l, t2, ttl);
    EvictedLine(l, t2, ttl);
    HandOverWellFormed(l, t2, ttl);
    var line := LineAt(l, t2);
    WaitingWithout(m.queue, pr);
    StandsInQueue(m.queue, pr);
    LeaveLength(m.queue, pr);
    if m.holder.Some? {
      assert line[1..] == Waiting(m.queue);
      HandOverServes(m, t2, ttl);
    }
  }

  lemma {:induction false} LeaveLength(q: seq<QueueItem>, pr: int)
    ensures |WithoutPR(q, pr)| == |q| <==> !Queued(q, pr)
  {
    if q != [] {
      var n := |q| - 1;
      LeaveLength(q[..n], pr);
      assert forall i :: 0 <= i < n ==> q[..n][i] == q[i];
      if Queued(q, pr) && q[n].pr != pr {
        var i :| 0 <= i < |q| && q[i].pr == pr;
        assert q[..n][i].pr == pr;
      }
    }
  }

  /** The owner is this PR's, and this run's if one is named. */
  predicate OwnedBy(l: Lock, pr: int, runId: string) {
    l.holder.Some? && l.holder.value.pr == pr && (runId == "" || l.holder.value.runId == runId)
  }

  /** Whether an unlock for this PR and run may clear the owner. */
  predicate Clears(l: Lock, pr: int, runId: string, now: Instant) {
    OwnedBy(l, pr, runId) || (l.holder.Some? && l.holder.value.pr == pr && !Lasts(l.holder.value.expiresAt, now))
  }

  /** Unlock: refused exactly if it is not forced and would clear an owner with time left.  Otherwise the
      PR loses every place behind the owner, and the front one if the unlock reaches it. */
  lemma {:induction false} UnlockOnLine(l: Lock, pr: int, runId: string, ttl: int, force: bool, t1: Instant, t2: Instant)
    requires WellFormed(l)
    ensures var line, v := Line(l), Transition(l, OpUnlock(pr, runId, ttl, force), t1, t2);
      && (v.error == Some(ErrHolderActive) <==> !force && OwnedBy(l, pr, runId) && t1 < l.holder.value.expiresAt.sec * SECOND)
      && (v.error.None? ==>
            && Line(v.next) == (if Clears(l, pr, runId, t2) then Leave(line, pr) else LeaveBehind(line, pr))
            && !Queued(v.next.queue, pr))
      && (v.error.Some? ==> v.error == Some(ErrHolderActive) && v.next == l)
  {
    UnlockRefusal(l, pr, runId, ttl, force, t1, t2);
    UnlockLine(l, pr, runId, ttl, t2);
    NotQueuedAfterUnlock(l, pr, runId, ttl, t2);
  }

  lemma {:induction false} UnlockRefusal(l: Lock, pr: int, runId: string, ttl: int, force: bool, t1: Instant, t2: Instant)
    requires WellFormed(l)
    ensures var v := Transition(l, OpUnlock(pr, runId, ttl, force), t1, t2);
      var refused := !force && OwnedBy(l, pr, runId) && t1 < l.holder.value.expiresAt.sec * SECOND;
      && v.error == (if refused then Some(ErrHolderActive) else None)
      && v.next == (if refused then l else UnlockPR(l, pr, runId, ttl, t2))
  {
  }

  lemma {:induction false} NotQueuedAfterUnlock(l: Lock, pr: int, runId: string, ttl: int, now: Instant)
    ensures !Queued(UnlockPR(l, pr, runId, ttl, now).queue, pr)
  {
  }

  lemma {:induction false} UnlockLine(l: Lock, pr: int, runId: string, ttl: int, now: Instant)
    requires WellFormed(l)
    ensures Line(UnlockPR(l, pr, runId, ttl, now)) ==
              (if Clears(l, pr, runId, now) then Leave(Line(l), pr) else LeaveBehind(Line(l), pr))
  {
    if Clears(l, pr, runId, now) {
      UnlockReaches(l, pr, runId, ttl, now);
    } else {
      WaitingWithout(l.queue, pr);
      if l.holder.Some? {
        assert Line(l)[1..] == Waiting(l.queue);
      }
    }
  }

  /** An unlock that reaches the owner leaves no place to its PR. */
  lemma {:induction false} UnlockReaches(l: Lock, pr: int, runId: string, ttl: int, now: Instant)
    requires WellFormed(l) && Clears(l, pr, runId, now)
    ensures Line(UnlockPR(l, pr, runId, ttl, now)) == Leave(Line(l), pr) == Waiting(l.queue)
    ensures !Stands(Waiting(l.queue), pr)
  {
    var m := HandOver(l, now, ttl);
    assert WithoutPR(m.queue, pr) == m.queue by {
      assert l.queue != [] ==> forall i :: 0 <= i < |m.queue| ==> m.queue[i] == l.queue[i + 1];
      assert !Queued(m.queue, pr);
      WithoutAbsentPR(m.queue, pr);
    }
    assert Line(m) == Waiting(l.queue) by {
      HandOverServes(l, now, ttl);
    }
    assert Leave(Waiting(l.queue), pr) == Waiting(l.queue) by {
      WaitingWithout(l.queue, pr);
      WithoutAbsentPR(l.queue, pr);
    }
    assert Line(l)[1..] == Waiting(l.queue);
    LeaveFirst(Line(l), pr);
    StandsInQueue(l.queue, pr);
  }

  lemma {:induction false} LeaveFirst(line: seq<Applicant>, pr: int)
    requires line != [] && line[0].pr == pr
    ensures Leave(line, pr) == Leave(line[1..], pr)
  {
    var n := |line| - 1;
    if n > 0 {
      LeaveFirst(line[..n], pr);
      assert line[1..][..n - 1] == line[..n][1..];
    } else {
      assert line[..n] == [];
    }
  }

  /** Reap: nobody who still counts loses a place. */
  lemma ReapOnLine(l: Lock, ttl: int, t1: Instant, t2: Instant)
    ensures var v := Transition(l, OpReap(ttl), t1, t2);
      Line(v.next) == LineAt(l, t2) && v.error.None? && (Line(v.next) == Line(l) && v.next.holder == l.holder ==> v.next == l)
  {
  }

  /** The admin override: the owner loses the first place, whoever it is. */
  lemma ForceUnlockOnLine(l: Lock, ttl: int, t1: Instant, t2: Instant)
    requires WellFormed(l)
    ensures var v := Transition(l, OpForceUnlock(ttl), t1, t2);
      Line(v.next) == (if Line(l) == [] then [] else Line(l)[1..]) && v.error.None?
  {
  }

  // ---------- leases and stamps ----------

  /** Whoever is served from the queue holds a reservation from then on, of the ttl given or of four hours. */
  ghost predicate Served(h: Holder, ttl: int, now: Instant) {
    && h.promoted && h.acquiredAt == Stamp(now)
    && h.expiresAt == At(Stamp(now + if ttl > 0 then ttl else 4 * 3600 * SECOND))
  }

  /** The lease after each operation: a granted acquire gets the ttl it asked for, an owner that stays keeps
      its own, and everybody else is served from the queue. */
  lemma LeaseAfter(l: Lock, op: Op, t1: Instant, t2: Instant)
    requires WellFormed(l)
    ensures var v := Transition(l, op, t1, t2);
      v.next.holder.Some? && v.next.holder != l.holder ==>
        var h := v.next.holder.value;
        if op.OpAcquire? && v.flag then h.expiresAt == At(Stamp(t2 + op.ttl)) && !h.promoted
        else Served(h, op.ttl, if op.OpForceUnlock? then t1 else t2)
  {
    ServedByHandOver(l, op.ttl, t1);
    ServedByHandOver(l, op.ttl, t2);
    ServedByHandOver(HandOver(l, t2, op.ttl), op.ttl, t2);
    match op
    case OpAcquire(who, ttl) => AcquireDecision(l, who, ttl, t2);
    case OpRelease(_, _, _) =>
    case OpUnlock(pr, runId, ttl, force) => UnlockRefusal(l, pr, runId, ttl, force, t1, t2);
    case OpReap(_) =>
    case OpForceUnlock(_) =>
  }

  lemma ServedByHandOver(l: Lock, ttl: int, now: Instant)
    ensures var h := HandOver(l, now, ttl).holder; h.Some? ==> Served(h.value, ttl, now)
  {
  }

  /** Refreshing keeps the time of acquisition; every other grant sets it. */
  lemma AcquiredWhen(l: Lock, who: Applicant, ttl: int, t1: Instant, t2: Instant)
    requires WellFormed(l)
    ensures var v := Transition(l, OpAcquire(who, ttl), t1, t2);
      var refresh := l.holder.Some? && Lasts(l.holder.value.expiresAt, t2) && l.holder.value.runId == who.runId;
      v.flag ==> v.next.holder.Some? && v.next.holder.value.acquiredAt == if refresh then l.holder.value.acquiredAt else Stamp(t2)
  {
    AcquireDecision(l, who, ttl, t2);
  }

  /** When an operation was last of effect: the stamp is renewed by a grant, a new place, a release, a
      withdrawal, an eviction by reap and every unlock, and by nothing else. */
  lemma UpdatedWhen(l: Lock, op: Op, t1: Instant, t2: Instant)
    requires WellFormed(l)
    ensures var v := Transition(l, op, t1, t2);
      v.next.updatedAt == Stamp(t2) ||
      (v.next.updatedAt == l.updatedAt &&
       match op
       case OpAcquire(who, _) => !v.flag && Stands(LineAt(l, t2), who.pr)
       case OpReap(_) => Line(l) == LineAt(l, t2)
       case OpForceUnlock(_) => false
       case _ => v.error.Some?)
  {
    if op.OpAcquire? {
      AcquireReply(l, op.who, op.ttl, t1, t2);
    }
  }
}
