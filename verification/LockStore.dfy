/** The compare-and-swap loops of internal/blob/locks/store.go, run concurrently.

    Any number of mutate and maintain calls on one key interleave at the granularity of
    one bucket request or one clock reading.  The bucket honours If-Match: every write
    gets a new version, and a conditional write takes effect only if the version is still
    the one that was read (version 0 stands for "absent", the empty tag). */
module LockStore {
  import opened Base
  import opened Locks
  import opened LockHistory
  import LL = LockLine

  datatype Reply =
    | Applied(verdict: Verdict)            // the conditional write succeeded
    | Unwritten(error: Option<Error>)      // maintain: refused, or nothing to change
    | Exhausted                            // lost every race
    | Stopped                              // backend error, cancellation or crash before the write
    | ReplyLost                            // the write took effect but its reply never arrived

  datatype Phase =
    | Reading
    | Snapshot(etag: nat, readAt: Instant)
    | Writing(etag: nat, readAt: Instant, t1: Instant, t2: Instant)
    | Done(reply: Reply)

  /** tries counts the conditional writes that failed so far. */
  datatype Call = Call(op: Op, phase: Phase, tries: nat, snapshot: Lock)

  datatype State = State(
    name: Name, maxRetries: nat, now: Instant,
    stored: Option<Lock>, version: nat,
    calls: map<nat, Call>,
    history: seq<Event>)

  /** maintain skips the write when the closure reports an error or no change;
      mutate writes whatever the closure returned, even next to an error. */
  predicate IsMaintenance(op: Op) {
    op.OpUnlock? || op.OpReap?
  }

  predicate Skips(op: Op, v: Verdict) {
    IsMaintenance(op) && (v.error.Some? || !v.flag)
  }

  datatype Step =
    | Tick(t: Instant)
    | Start(id: nat, op: Op)
    | Read(id: nat)
    | Compute(id: nat, t1: Instant)
    | Write(id: nat, replyLost: bool)
    | Stop(id: nat)

  predicate Init(s: State) {
    s.stored == None && s.version == 0 && s.calls == map[] && s.history == []
  }

  predicate Enabled(s: State, step: Step) {
    match step
    case Tick(t) => s.now <= t
    case Start(id, op) => id !in s.calls
    case Read(id) => id in s.calls && s.calls[id].phase.Reading?
    case Compute(id, t1) => id in s.calls && s.calls[id].phase.Snapshot? && s.calls[id].phase.readAt <= t1 <= s.now
    case Write(id, _) => id in s.calls && s.calls[id].phase.Writing?
    case Stop(id) => id in s.calls && !s.calls[id].phase.Done?
  }

  function Next(s: State, step: Step): State
    requires Enabled(s, step)
  {
    match step
    case Tick(t) => s.(now := t)
    case Start(id, op) =>
      s.(calls := s.calls[id := Call(op, Reading, 0, NewLock("", "", s.now))])
    case Read(id) =>
      var c := s.calls[id];
      s.(calls := s.calls[id := c.(phase := Snapshot(s.version, s.now),
                                   snapshot := Current(s.name, s.stored, s.now))])
    case Compute(id, t1) =>
      var c := s.calls[id];
      var v := Transition(c.snapshot, c.op, t1, s.now);
      var phase :=
        if Skips(c.op, v) then Done(Unwritten(v.error))
        else Writing(c.phase.etag, c.phase.readAt, t1, s.now);
      s.(calls := s.calls[id := c.(phase := phase)])
    case Write(id, replyLost) =>
      var c := s.calls[id];
      var w := c.phase;
      if w.etag == s.version then
        var v := Transition(c.snapshot, c.op, w.t1, w.t2);
        s.(stored := Some(v.next),
           version := s.version + 1,
           calls := s.calls[id := c.(phase := Done(if replyLost then ReplyLost else Applied(v)))],
           history := s.history + [Event(id, c.op, w.readAt, w.t1, w.t2)])
      else if c.tries == s.maxRetries then
        s.(calls := s.calls[id := c.(phase := Done(Exhausted))])
      else
        s.(calls := s.calls[id := c.(phase := Reading, tries := c.tries + 1)])
    case Stop(id) =>
      s.(calls := s.calls[id := s.calls[id].(phase := Done(Stopped))])
  }

  ghost predicate Reachable(s0: State, steps: seq<Step>, s: State)
    decreases |steps|
  {
    if steps == [] then s == s0
    else Enabled(s0, steps[0]) && Reachable(Next(s0, steps[0]), steps[1..], s)
  }

  // ---------- the invariant of the loops ----------

  ghost predicate HasEffect(c: Call) {
    c.phase.Done? && (c.phase.reply.Applied? || c.phase.reply.ReplyLost?)
  }

  /** What a call holds between its read and its write: the fold of the prefix of the
      history it has read, and clock readings from after that prefix. */
  ghost predicate CallInv(s: State, c: Call) {
    && c.tries <= s.maxRetries
    && (c.phase.Snapshot? || c.phase.Writing? ==>
          && c.phase.etag <= |s.history|
          && c.snapshot == Current(s.name, Stored(s.name, s.history[..c.phase.etag]), c.phase.readAt)
          && Past(s.history[..c.phase.etag], c.phase.readAt)
          && c.phase.readAt <= s.now)
    && (c.phase.Writing? ==> c.phase.readAt <= c.phase.t1 <= c.phase.t2 <= s.now)
  }

  ghost predicate CallsInv(s: State) {
    forall id :: id in s.calls ==> CallInv(s, s.calls[id])
  }

  ghost predicate HistoryInv(s: State) {
    && s.version == |s.history|
    && s.stored == Stored(s.name, s.history)
    && Chronological(s.history) && Past(s.history, s.now)
  }

  /** The i-th event belongs to a call that took effect, which was told the truth about it. */
  ghost predicate EventInv(s: State, i: nat)
    requires i < |s.history|
  {
    var e := s.history[i];
    && e.id in s.calls && HasEffect(s.calls[e.id]) && e.op == s.calls[e.id].op
    && (s.calls[e.id].phase.reply.Applied? ==>
          s.calls[e.id].phase.reply.verdict == Effect(s.name, Stored(s.name, s.history[..i]), e))
  }

  ghost predicate InHistory(s: State, id: nat) {
    exists i :: 0 <= i < |s.history| && s.history[i].id == id
  }

  ghost predicate EffectsInv(s: State) {
    && (forall i :: 0 <= i < |s.history| ==> EventInv(s, i))
    && (forall i, j :: 0 <= i < j < |s.history| ==> s.history[i].id != s.history[j].id)
    && (forall id :: id in s.calls && HasEffect(s.calls[id]) ==> InHistory(s, id))
  }

  ghost predicate Inv(s: State) {
    HistoryInv(s) && CallsInv(s) && EffectsInv(s)
  }

  ghost predicate Commits(s: State, step: Step)
    requires Enabled(s, step)
  {
    step.Write? && s.calls[step.id].phase.etag == s.version
  }

  lemma StepKeepsHistory(s: State, step: Step)
    requires HistoryInv(s) && CallsInv(s) && Enabled(s, step)
    ensures HistoryInv(Next(s, step))
  {
    if Commits(s, step) {
      assert CallInv(s, s.calls[step.id]);
      assert s.history[..|s.history|] == s.history;
      assert Next(s, step).history[..|s.history|] == s.history;
    }
  }

  lemma StepKeepsCalls(s: State, step: Step)
    requires HistoryInv(s) && CallsInv(s) && Enabled(s, step)
    ensures CallsInv(Next(s, step))
  {
    var s' := Next(s, step);
    assert s.history[..|s.history|] == s.history;
    forall k | k in s'.calls ensures CallInv(s', s'.calls[k]) {
      if k in s.calls {
        assert CallInv(s, s.calls[k]);
        var c := s'.calls[k];
        if c.phase.Snapshot? || c.phase.Writing? {
          assert s'.history[..c.phase.etag] == s.history[..c.phase.etag];
        }
      }
    }
  }

  lemma EarlierEventKept(s: State, step: Step, i: nat)
    requires Inv(s) && Enabled(s, step) && Commits(s, step) && i < |s.history|
    ensures EventInv(Next(s, step), i) && s.history[i].id != step.id
  {
    assert EventInv(s, i);
    assert Next(s, step).history[..i] == s.history[..i];
  }

  lemma CommittedEvent(s: State, step: Step)
    requires Inv(s) && Enabled(s, step) && Commits(s, step)
    ensures EventInv(Next(s, step), |s.history|)
  {
    var n := |s.history|;
    assert CallInv(s, s.calls[step.id]);
    assert s.history[..n] == s.history && Next(s, step).history[..n] == s.history;
  }

  lemma CommitKeepsEffects(s: State, step: Step)
    requires Inv(s) && Enabled(s, step) && Commits(s, step)
    ensures EffectsInv(Next(s, step))
  {
    var s', n := Next(s, step), |s.history|;
    forall i | 0 <= i < n ensures EventInv(s', i) && s.history[i].id != step.id {
      EarlierEventKept(s, step, i);
    }
    CommittedEvent(s, step);
    forall k | k in s'.calls && HasEffect(s'.calls[k]) ensures InHistory(s', k) {
      if k == step.id {
        assert s'.history[n].id == k;
      } else {
        assert InHistory(s, k);
        var i :| 0 <= i < n && s.history[i].id == k;
        assert s'.history[i].id == k;
      }
    }
  }

  lemma OtherStepKeepsEffects(s: State, step: Step)
    requires Inv(s) && Enabled(s, step) && !Commits(s, step)
    ensures EffectsInv(Next(s, step))
  {
    var s' := Next(s, step);
    assert s'.history == s.history;
    forall i | 0 <= i < |s.history| ensures EventInv(s', i) {
      assert EventInv(s, i);
    }
    forall k | k in s'.calls && HasEffect(s'.calls[k]) ensures InHistory(s', k) {
      assert InHistory(s, k);
    }
  }

  lemma StepKeepsInv(s: State, step: Step)
    requires Inv(s) && Enabled(s, step)
    ensures Inv(Next(s, step))
  {
    StepKeepsHistory(s, step);
    StepKeepsCalls(s, step);
    if Commits(s, step) {
      CommitKeepsEffects(s, step);
    } else {
      OtherStepKeepsEffects(s, step);
    }
  }

  lemma {:induction false} ReachableInv(s0: State, steps: seq<Step>, s: State)
    requires Inv(s0) && Reachable(s0, steps, s)
    ensures Inv(s) && s.name == s0.name
    decreases |steps|
  {
    if steps != [] {
      StepKeepsInv(s0, steps[0]);
      ReachableInv(Next(s0, steps[0]), steps[1..], s);
    }
  }

  /** The loops linearize.  In every state that any interleaving reaches:
      - the stored lock is the fold of whole transitions, in the order of the history;
      - the clock readings used are nondecreasing along that order, and in the past;
      - each call takes effect at most once, and exactly when its write succeeded: a call
        that lost every race, stopped, or found nothing to maintain is not in the history;
      - a call that got a reply was told the verdict of its own place in the order. */
  lemma {:induction false} Linearizes(s0: State, steps: seq<Step>, s: State)
    requires Init(s0) && Reachable(s0, steps, s)
    ensures s.stored == Stored(s.name, s.history)
    ensures Chronological(s.history) && Past(s.history, s.now)
    ensures forall i, j :: 0 <= i < j < |s.history| ==> s.history[i].id != s.history[j].id
    ensures forall id :: id in s.calls ==> (HasEffect(s.calls[id]) <==> InHistory(s, id))
    ensures forall i :: 0 <= i < |s.history| ==> EventInv(s, i)
    ensures forall id :: id in s.calls ==> s.calls[id].tries <= s.maxRetries
  {
    ReachableInv(s0, steps, s);
    assert forall id :: id in s.calls ==> CallInv(s, s.calls[id]);
    forall id | id in s.calls && InHistory(s, id) ensures HasEffect(s.calls[id]) {
      var i :| 0 <= i < |s.history| && s.history[i].id == id;
      assert EventInv(s, i);
    }
  }

  /** Mutual exclusion for the concurrent store: in every reachable state in which no
      override has taken effect, at most one run holds a live lease, and the bucket names it. */
  lemma {:induction false} ConcurrentMutualExclusion(s0: State, steps: seq<Step>, s: State, a: Run, b: Run)
    requires Init(s0) && Reachable(s0, steps, s) && AllDisciplined(s.history)
    requires Live(Leases(s.name, s.history), a, s.now) && Live(Leases(s.name, s.history), b, s.now)
    ensures a == b && Backed(s.stored, a, Leases(s.name, s.history)[a])
  {
    ReachableInv(s0, steps, s);
    MutualExclusion(s.name, s.history, a, b, s.now);
    LiveLeaseBacked(s.name, s.history, a, s.now);
  }

  // ---------- what a maintenance call that writes nothing says ----------

  /** Maintenance skips the write exactly if it refuses or there is nothing to change. */
  lemma SkipsIffUnchanged(l: Lock, op: Op, t1: Instant, t2: Instant)
    requires WellFormed(l) && (op.OpUnlock? || op.OpReap?)
    ensures var v := Transition(l, op, t1, t2);
            Skips(op, v) <==> v.error.Some? || (v.next.holder == l.holder && v.next.queue == l.queue)
  {
  }

  /** The lock that was in the bucket at some place in the history, as a reader saw it. */
  ghost predicate WasStored(s: State, l: Lock) {
    exists k: nat, t :: k <= |s.history| && l == Current(s.name, Stored(s.name, s.history[..k]), t)
  }

  /** What a call is about to write, or was told, is the verdict of its operation on the lock it read:
      written if the verdict is not skipped, declined if it is. */
  ghost predicate Answered(s: State, c: Call) {
    match c.phase
    case Writing(_, _, t1, t2) => !Skips(c.op, Transition(c.snapshot, c.op, t1, t2))
    case Done(Applied(v)) => WasStored(s, c.snapshot) && !Skips(c.op, v) && exists t1, t2 :: v == Transition(c.snapshot, c.op, t1, t2)
    case Done(Unwritten(error)) =>
      WasStored(s, c.snapshot) && exists t1, t2 :: SkipsWith(c.op, Transition(c.snapshot, c.op, t1, t2), error)
    case Done(Exhausted) => c.tries == s.maxRetries
    case _ => true
  }

  predicate SkipsWith(op: Op, v: Verdict, error: Option<Error>) {
    Skips(op, v) && v.error == error
  }

  ghost predicate AnsweredInv(s: State) {
    forall id :: id in s.calls ==> Answered(s, s.calls[id])
  }

  lemma StillWasStored(s: State, s': State, l: Lock)
    requires WasStored(s, l) && s.history <= s'.history && s.name == s'.name
    ensures WasStored(s', l)
  {
    var k: nat, t :| k <= |s.history| && l == Current(s.name, Stored(s.name, s.history[..k]), t);
    assert s'.history[..k] == s.history[..k];
  }

  lemma StepKeepsAnswered(s: State, step: Step)
    requires Inv(s) && AnsweredInv(s) && Enabled(s, step)
    ensures AnsweredInv(Next(s, step))
  {
    var s' := Next(s, step);
    forall id | id in s'.calls ensures Answered(s', s'.calls[id]) {
      var c := s'.calls[id];
      if id in s.calls {
        assert CallInv(s, s.calls[id]) && Answered(s, s.calls[id]);
        if s.calls[id] == c {
          if c.phase.Done? && (c.phase.reply.Applied? || c.phase.reply.Unwritten?) {
            StillWasStored(s, s', c.snapshot);
          }
        } else if c.phase.Done? && (c.phase.reply.Applied? || c.phase.reply.Unwritten?) {
          ActedOnStored(s, s', s.calls[id]);
          assert step.Compute? ==> SkipsWith(c.op, Transition(c.snapshot, c.op, step.t1, s.now), c.phase.reply.error);
        }
      }
    }
  }

  lemma ActedOnStored(s: State, s': State, c: Call)
    requires CallInv(s, c) && (c.phase.Snapshot? || c.phase.Writing?) && s.history <= s'.history && s.name == s'.name
    ensures WasStored(s', c.snapshot)
  {
    assert s'.history[..c.phase.etag] == s.history[..c.phase.etag];
  }

  lemma {:induction false} RunKeepsAnswered(s0: State, steps: seq<Step>, s: State)
    requires Inv(s0) && AnsweredInv(s0) && Reachable(s0, steps, s)
    ensures AnsweredInv(s)
    decreases |steps|
  {
    if steps != [] {
      StepKeepsInv(s0, steps[0]);
      StepKeepsAnswered(s0, steps[0]);
      RunKeepsAnswered(Next(s0, steps[0]), steps[1..], s);
    }
  }

  /** An unlock that reports success leaves the PR no place in the queue of the lock it acted on: the one
      it wrote, or the one it read and found nothing to change in.  It acted on a lock that was in the
      bucket, and is refused only for an owner of that PR. */
  lemma {:induction false} UnlockReplies(s0: State, steps: seq<Step>, s: State, id: nat)
    requires Init(s0) && Reachable(s0, steps, s) && id in s.calls
    requires s.calls[id].op.OpUnlock? && s.calls[id].phase.Done?
    ensures var c := s.calls[id];
      match c.phase.reply
      case Applied(v) => WasStored(s, c.snapshot) && v.error.None? && !Queued(v.next.queue, c.op.pr)
      case Unwritten(error) =>
        && WasStored(s, c.snapshot)
        && (error.None? ==> !Queued(c.snapshot.queue, c.op.pr))
        && (error.Some? ==> error == Some(ErrHolderActive) && !c.op.force && c.snapshot.holder.Some? && c.snapshot.holder.value.pr == c.op.pr)
      case _ => true
  {
    var c := s.calls[id];
    RunKeepsAnswered(s0, steps, s);
    assert Answered(s, c);
    match c.phase.reply
    case Applied(v) =>
      var t1, t2 :| v == Transition(c.snapshot, c.op, t1, t2);
      LL.NotQueuedAfterUnlock(c.snapshot, c.op.pr, c.op.runId, c.op.ttl, t2);
    case Unwritten(error) =>
      var t1, t2 :| SkipsWith(c.op, Transition(c.snapshot, c.op, t1, t2), error);
      LL.NotQueuedAfterUnlock(c.snapshot, c.op.pr, c.op.runId, c.op.ttl, t2);
    case _ =>
  }

  /** A call gives up only after it has lost as many races as it may. */
  lemma {:induction false} ExhaustedMeansTried(s0: State, steps: seq<Step>, s: State, id: nat)
    requires Init(s0) && Reachable(s0, steps, s)
    requires id in s.calls && s.calls[id].phase.Done? && s.calls[id].phase.reply.Exhausted?
    ensures s.calls[id].tries == s0.maxRetries
  {
    ReachableInv(s0, steps, s);
    RunKeepsAnswered(s0, steps, s);
    KeepsLimit(s0, steps, s);
    assert Answered(s, s.calls[id]);
  }

  lemma {:induction false} KeepsLimit(s0: State, steps: seq<Step>, s: State)
    requires Reachable(s0, steps, s)
    ensures s.maxRetries == s0.maxRetries
    decreases |steps|
  {
    if steps != [] {
      KeepsLimit(Next(s0, steps[0]), steps[1..], s);
    }
  }

  /** A pass that no commit of another call disturbs ends the call: with its verdict and its event in the
      history, or with nothing written if the verdict is skipped.  What went before, how often the call
      lost, and what others do short of committing, plays no part. */
  lemma {:induction false} UndisturbedPassEnds(s: State, id: nat, s1: State, t1: Instant, s2: State)
    requires Inv(s) && Enabled(s, Read(id))
    requires s1.calls == Next(s, Read(id)).calls && s1.name == s.name && s.now <= s1.now && Enabled(s1, Compute(id, t1))
    requires var t := Next(s1, Compute(id, t1)); id in s2.calls && s2.calls[id] == t.calls[id]
    requires s2.history == s.history && s2.version == s.version && s2.name == s.name
    ensures var cur, op := Current(s.name, s.stored, s.now), s.calls[id].op;
      var v := Transition(cur, op, t1, s1.now);
      if IsMaintenance(op) && (v.error.Some? || (v.next.holder == cur.holder && v.next.queue == cur.queue))
      then s2.calls[id].phase == Done(Unwritten(v.error))
      else
        && Enabled(s2, Write(id, false))
        && var w := Next(s2, Write(id, false));
        && w.calls[id].phase == Done(Applied(v)) && w.stored == Some(v.next)
        && w.history == s.history + [Event(id, op, s.now, t1, s1.now)]
  {
    var cur := Current(s.name, s.stored, s.now);
    LockHistory.ReachableWellFormed(s.name, s.history, s.now);
    if IsMaintenance(s.calls[id].op) {
      SkipsIffUnchanged(cur, s.calls[id].op, t1, s1.now);
    }
  }

  /** How often a call of this run lost a race: a write of it that did not commit. */
  ghost function Losses(s0: State, steps: seq<Step>, id: nat): nat
    decreases |steps|
  {
    if steps == [] || !Enabled(s0, steps[0]) then 0
    else
      var lost := steps[0].Write? && steps[0].id == id && Next(s0, steps[0]).history == s0.history;
      (if lost then 1 else 0) + Losses(Next(s0, steps[0]), steps[1..], id)
  }

  function LostSoFar(s: State, id: nat): nat {
    if id !in s.calls then 0
    else s.calls[id].tries + if s.calls[id].phase.Done? && s.calls[id].phase.reply.Exhausted? then 1 else 0
  }

  /** Every lost race is counted: a call loses at most one more race than it has retries. */
  lemma {:induction false} LossesAreCounted(s0: State, steps: seq<Step>, s: State, id: nat)
    requires Init(s0) && Reachable(s0, steps, s) && id in s.calls
    ensures Losses(s0, steps, id) <= s0.maxRetries + 1
    ensures s.calls[id].phase.Done? && s.calls[id].phase.reply.Exhausted? ==> Losses(s0, steps, id) == s0.maxRetries + 1
  {
    LossesAre(s0, steps, s, id);
    ReachableInv(s0, steps, s);
    KeepsLimit(s0, steps, s);
    RunKeepsAnswered(s0, steps, s);
    assert CallInv(s, s.calls[id]) && Answered(s, s.calls[id]);
  }

  lemma {:induction false} LossesAre(s0: State, steps: seq<Step>, s: State, id: nat)
    requires Inv(s0) && Reachable(s0, steps, s)
    ensures LostSoFar(s, id) == LostSoFar(s0, id) + Losses(s0, steps, id)
    decreases |steps|
  {
    if steps != [] {
      StepKeepsInv(s0, steps[0]);
      StepLoses(s0, steps[0], id);
      LossesAre(Next(s0, steps[0]), steps[1..], s, id);
    }
  }

  lemma StepLoses(s: State, step: Step, id: nat)
    requires Inv(s) && Enabled(s, step)
    ensures LostSoFar(Next(s, step), id) ==
              LostSoFar(s, id) + if step.Write? && step.id == id && Next(s, step).history == s.history then 1 else 0
  {
  }
}
