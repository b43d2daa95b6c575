/** The per-stack loop of internal/run/apply.go and its terminal outcome.

    What the outside world answers for one target is an oracle: cancellation, the lock store's
    reply, the gate inputs, policy hooks, credentials and the engine.  What the loop does to the
    outside world is recorded as a log per target. */
module Apply {
  import opened Base
  import opened Gates
  import L = Locks
  import LS = LockStore
  import LH = LockHistory

  datatype Engine = EngineFails | EngineReturns(error: bool, changes: nat)

  /** Policy hooks: whether any are configured, their verdict, whether they could be run at all,
      and whether the preview stored a plan to run them on. */
  datatype Hooks = Hooks(configured: bool, passed: bool, failed: bool, hasPlan: bool)

  datatype Target = Target(
    ref: string, cancelled: bool,
    lock: LS.Reply, inputs: Inputs, hooks: Hooks,
    stateAuthFails: bool, loginFails: bool, authFails: bool,
    engine: Engine)

  datatype Status = Planned | NoOp | StackBlocked | StackError

  datatype Summary = Summary(ref: string, status: Status)

  /** What the loop does to the outside world for one target. */
  datatype Action = TryLock(granted: bool) | StartHeartbeat | RunEngine | StopHeartbeat | ReleaseLock

  // ---------- the lock reply ----------

  /** How the loop reads the reply of Store.TryAcquire. */
  datatype LockAnswer = SamePR | LockFailed | Answer(acquired: bool)

  function ReadReply(r: LS.Reply): LockAnswer {
    match r
    case Applied(v) =>
      if v.error == Some(L.ErrHeldBySamePR) then SamePR
      else if v.error.Some? then LockFailed
      else Answer(v.flag)
    case _ => LockFailed
  }

  predicate Acquired(r: LS.Reply) {
    ReadReply(r) == Answer(true)
  }

  /** The loop never mistakes an acquired lock for an error: an acquire that is granted reports
      none, and then the stored holder is the applicant itself, with a live lease of its own. */
  lemma GrantedMeansHolder(l: L.Lock, who: L.Applicant, ttl: int, t1: L.Instant, t2: L.Instant)
    requires L.WellFormed(l)
    ensures var v := L.Transition(l, L.OpAcquire(who, ttl), t1, t2);
      && (v.flag <==> Acquired(LS.Applied(v)))
      && (v.flag ==> LH.Backed(Some(v.next), LH.Run(who.pr, who.runId), L.Stamp(t2 + ttl)))
  {
  }

  // ---------- one target ----------

  /** The gate inputs of a target, with what is known of its lock and its policy hooks. */
  function With(i: Inputs, lock: bool, policy: Option<bool>): Inputs {
    i.(lockAcquirable := lock, policyPassed := policy)
  }

  /** The gate inputs of the first pass: policy not yet known. */
  function FirstInputs(t: Target): Inputs {
    With(t.inputs, Acquired(t.lock), None)
  }

  function PolicyVerdict(h: Hooks): bool {
    h.passed && h.hasPlan && !h.failed
  }

  ghost predicate AllMet(cfg: Config, i: Inputs) {
    forall g :: Demand(g, cfg, i)
  }

  /** The inputs of the decisive evaluation: hooks run only once the independent gates passed. */
  ghost function FinalInputs(cfg: Config, t: Target): Inputs {
    if AllMet(cfg, FirstInputs(t)) && t.hooks.configured
    then With(t.inputs, Acquired(t.lock), Some(PolicyVerdict(t.hooks)))
    else FirstInputs(t)
  }

  /** The facts about a target whose lock was granted, with the hooks' verdict if there are hooks. */
  function Facts(t: Target): Inputs {
    With(t.inputs, true, if t.hooks.configured then Some(PolicyVerdict(t.hooks)) else None)
  }

  /** Everything that must hold before a target may be applied. */
  ghost predicate Cleared(cfg: Config, t: Target) {
    !t.cancelled && Acquired(t.lock) && AllMet(cfg, Facts(t))
  }

  /** Credentials once obtained serve the rest of the run. */
  datatype Session = Session(stateAuth: bool, login: bool)

  /** The credentials a target needs are there. */
  predicate Equipped(t: Target, s: Session) {
    (s.stateAuth || !t.stateAuthFails) && (s.login || !t.loginFails) && !t.authFails
  }

  /** Each credential is obtained by the first cleared target that gets it. */
  ghost function NextSession(cfg: Config, t: Target, s: Session): Session {
    if !Cleared(cfg, t) then s
    else
      var stateAuth := s.stateAuth || !t.stateAuthFails;
      Session(stateAuth, s.login || (stateAuth && !t.loginFails))
  }

  function EngineStatus(e: Engine): Status {
    match e
    case EngineFails => StackError
    case EngineReturns(error, changes) => if error then StackError else if changes == 0 then NoOp else Planned
  }

  /** The status of a target: an error before the gates, blocked by them, an error after them, or
      what the engine made of it. */
  ghost function ExpectedStatus(cfg: Config, t: Target, s: Session): Status {
    if t.cancelled || ReadReply(t.lock).LockFailed? then StackError
    else if !Cleared(cfg, t) then StackBlocked
    else if !Equipped(t, s) then StackError
    else EngineStatus(t.engine)
  }

  /** Gates are evaluated for a target that was neither cancelled nor refused by the lock store. */
  predicate Evaluated(t: Target) {
    !t.cancelled && ReadReply(t.lock).Answer?
  }

  /** The first pass asks no more than the second. */
  lemma AskingLessOfPolicy(cfg: Config, i: Inputs, policy: Option<bool>)
    ensures AllMet(cfg, With(i, true, policy)) ==> AllMet(cfg, With(i, true, None))
  {
    if AllMet(cfg, With(i, true, policy)) {
      forall g: GateId ensures Demand(g, cfg, With(i, true, None)) {
        assert Demand(g, cfg, With(i, true, policy));
      }
    }
  }

  lemma NoLockNoApply(cfg: Config, i: Inputs)
    requires !i.lockAcquirable
    ensures !AllMet(cfg, i)
  {
    assert !Demand(LockGate, cfg, i);
  }

  /** The two evaluations together admit a target exactly if every demand is met. */
  lemma AdmittedMeansCleared(cfg: Config, t: Target)
    requires !t.cancelled
    ensures AllMet(cfg, FinalInputs(cfg, t)) <==> Cleared(cfg, t)
    ensures Cleared(cfg, t) ==> FinalInputs(cfg, t) == Facts(t)
  {
    if Acquired(t.lock) {
      AskingLessOfPolicy(cfg, t.inputs, Some(PolicyVerdict(t.hooks)));
    } else {
      NoLockNoApply(cfg, FinalInputs(cfg, t));
    }
  }

  /** The gates: first pass, then hooks and the second pass. */
  method DecideGates(cfg: Config, t: Target) returns (res: Result)
    ensures !res.blocked <==> AllMet(cfg, FinalInputs(cfg, t))
    ensures |res.gates| <= |GATE_ORDER| && res.overridden == Overrides(cfg, FinalInputs(cfg, t), |res.gates|)
    ensures !res.blocked ==> |res.gates| == |GATE_ORDER|
  {
    var inputs := FirstInputs(t);
    res := Evaluate(cfg, inputs);
    AdmissionRule(cfg, inputs);
    if !res.blocked && t.hooks.configured {
      var policyPassed := t.hooks.passed;
      if !t.hooks.hasPlan || t.hooks.failed {
        policyPassed := false;
      }
      inputs := With(t.inputs, Acquired(t.lock), Some(policyPassed));
      res := Evaluate(cfg, inputs);
      AdmissionRule(cfg, inputs);
    }
  }

  // ---------- conduct ----------

  /** How far a run has come with one target's lock and engine. */
  datatype Conduct = Idle | Refused | Holding | Beating | Ran | Settled | Released | Broken

  /** What may follow what.  The engine runs only under a held lock with the heartbeat going, once;
      a held lock is released once, with no heartbeat left; and nothing follows. */
  function Proceed(c: Conduct, a: Action): Conduct {
    match (c, a)
    case (Idle, TryLock(granted)) => if granted then Holding else Refused
    case (Holding, StartHeartbeat) => Beating
    case (Beating, RunEngine) => Ran
    case (Ran, StopHeartbeat) => Settled
    case (Holding, ReleaseLock) => Released
    case (Settled, ReleaseLock) => Released
    case _ => Broken
  }

  function ConductOf(log: seq<Action>): Conduct {
    if log == [] then Idle else Proceed(ConductOf(log[..|log| - 1]), log[|log| - 1])
  }

  lemma {:induction false} ConductStep(log: seq<Action>, a: Action)
    ensures ConductOf(log + [a]) == Proceed(ConductOf(log), a)
  {
    assert (log + [a])[..|log|] == log;
  }

  ghost function Count(log: seq<Action>, a: Action): nat {
    multiset(log)[a]
  }

  lemma CountStep(log: seq<Action>, a: Action, x: Action)
    ensures Count(log + [a], x) == Count(log, x) + (if a == x then 1 else 0)
  {
  }

  /** What each stage says about the log so far. */
  ghost predicate LogSoFar(log: seq<Action>, c: Conduct) {
    && (Count(log, ReleaseLock) == if c.Released? then 1 else 0)
    && (c.Idle? || c.Refused? || c.Holding? || c.Beating? ==> Count(log, RunEngine) == 0)
    && (c.Ran? || c.Settled? ==> Count(log, RunEngine) == 1)
    && Count(log, RunEngine) <= 1
    && (Count(log, TryLock(true)) == if c.Idle? || c.Refused? then 0 else 1)
    && (Count(log, StartHeartbeat) == 0 <== c.Idle? || c.Refused? || c.Holding?)
    && (Count(log, StartHeartbeat) == 1 <== c.Beating? || c.Ran? || c.Settled?)
    && (Count(log, StopHeartbeat) == 0 <== c.Idle? || c.Refused? || c.Holding? || c.Beating? || c.Ran?)
  }

  lemma {:induction false} ConductCounts(log: seq<Action>)
    requires !ConductOf(log).Broken?
    ensures LogSoFar(log, ConductOf(log))
  {
    if log != [] {
      var n := |log| - 1;
      ConductCounts(log[..n]);
      assert log == log[..n] + [log[n]];
      forall x: Action ensures Count(log, x) == Count(log[..n], x) + (if log[n] == x then 1 else 0) {
        CountStep(log[..n], log[n], x);
      }
    }
  }

  /** A prefix of an unbroken log is unbroken. */
  lemma {:induction false} PrefixUnbroken(log: seq<Action>, i: nat)
    requires i <= |log| && !ConductOf(log).Broken?
    ensures !ConductOf(log[..i]).Broken?
  {
    if i < |log| {
      assert log[..|log| - 1][..i] == log[..i];
      PrefixUnbroken(log[..|log| - 1], i);
    } else {
      assert log[..i] == log;
    }
  }

  /** At position i the lock has been granted and not given back, and the heartbeat is going. */
  ghost predicate UnderLock(log: seq<Action>, i: nat)
    requires i < |log|
  {
    && TryLock(true) in log[..i] && ReleaseLock !in log[..i]
    && StartHeartbeat in log[..i] && StopHeartbeat !in log[..i]
  }

  /** For every log that was not broken: the engine ran at most once, and wherever it ran the lock
      was held and the heartbeat going. */
  lemma {:induction false} EngineRunsUnderLock(log: seq<Action>, i: nat)
    requires !ConductOf(log).Broken? && i < |log| && log[i] == RunEngine
    ensures UnderLock(log, i) && Count(log, RunEngine) == 1
  {
    PrefixUnbroken(log, i);
    PrefixUnbroken(log, i + 1);
    assert log[..i + 1] == log[..i] + [log[i]];
    ConductStep(log[..i], log[i]);
    ConductCounts(log[..i]);
    ConductCounts(log);
    assert RunEngine in log;
  }

  // ---------- one iteration ----------

  /** Credentials and engine, after the gates admitted the target.  The lock is released on every
      way out. */
  method Execute(t: Target, s: Session, before: seq<Action>) returns (status: Status, log: seq<Action>, s': Session)
    requires ConductOf(before) == Holding
    ensures ConductOf(log) == Released && (RunEngine in log <==> Equipped(t, s))
    ensures status == if Equipped(t, s) then EngineStatus(t.engine) else StackError
    ensures s'.stateAuth == (s.stateAuth || !t.stateAuthFails)
    ensures s'.login == (s.login || (s'.stateAuth && !t.loginFails))
  {
    log, s' := before, s;
    ConductCounts(before);
    if !s'.stateAuth {
      if t.stateAuthFails {
        ConductStep(log, ReleaseLock);
        log := log + [ReleaseLock];
        return StackError, log, s';
      }
      s' := s'.(stateAuth := true);
    }
    if !s'.login {
      if t.loginFails {
        ConductStep(log, ReleaseLock);
        log := log + [ReleaseLock];
        return StackError, log, s';
      }
      s' := s'.(login := true);
    }
    if t.authFails {
      ConductStep(log, ReleaseLock);
      log := log + [ReleaseLock];
      return StackError, log, s';
    }
    status, log := RunAndRelease(t, log);
  }

  method RunAndRelease(t: Target, before: seq<Action>) returns (status: Status, log: seq<Action>)
    requires ConductOf(before) == Holding
    ensures ConductOf(log) == Released && RunEngine in log && status == EngineStatus(t.engine)
  {
    ConductStep(before, StartHeartbeat);
    log := before + [StartHeartbeat];
    ConductStep(log, RunEngine);
    log := log + [RunEngine];
    ConductStep(log, StopHeartbeat);
    log := log + [StopHeartbeat];
    ConductStep(log, ReleaseLock);
    if t.engine.EngineFails? {
      log := log + [ReleaseLock];
      return StackError, log;
    }
    if t.engine.error {
      status := StackError;
    } else if t.engine.changes == 0 {
      status := NoOp;
    } else {
      status := Planned;
    }
    log := log + [ReleaseLock];
  }

  /** A run ends with every lock it was granted given back, once, and a lock is granted only as the
      lock store says. */
  ghost predicate Closed(t: Target, log: seq<Action>) {
    if t.cancelled then log == []
    else ConductOf(log) == (if Acquired(t.lock) then Released else Refused)
  }

  lemma {:induction false} AllOverridesAreReal(cfg: Config, i: Inputs, k: nat)
    requires k <= |GATE_ORDER|
    ensures forall g :: g in Overrides(cfg, i, k) <==> Position(g) < k && RealOverride(g, cfg, i)
  {
    forall g: GateId ensures g in Overrides(cfg, i, k) <==> Position(g) < k && RealOverride(g, cfg, i) {
      OverridesAreReal(cfg, i, k, g);
    }
  }

  /** One iteration of the loop. */
  method ApplyTarget(cfg: Config, t: Target, s: Session)
      returns (summary: Summary, blocked: bool, overridden: seq<GateId>, log: seq<Action>, s': Session)
    ensures summary == Summary(t.ref, ExpectedStatus(cfg, t, s))
    ensures blocked <==> summary.status == StackBlocked
    ensures Closed(t, log) && (RunEngine in log <==> Cleared(cfg, t) && Equipped(t, s))
    ensures s' == NextSession(cfg, t, s)
    ensures forall g :: g in overridden ==> Evaluated(t) && RealOverride(g, cfg, FinalInputs(cfg, t))
    ensures forall g :: AppliedOver(g, cfg, t) ==> g in overridden
  {
    blocked, overridden, log, s' := false, [], [], s;
    if t.cancelled {
      return Summary(t.ref, StackError), false, [], [], s;
    }
    var answer := ReadReply(t.lock);
    log := [TryLock(Acquired(t.lock))];
    ConductStep([], log[0]);
    assert [] + [log[0]] == log;
    AdmittedMeansCleared(cfg, t);
    if answer.SamePR? {
      return Summary(t.ref, StackBlocked), true, [], log, s;
    }
    if answer.LockFailed? {
      return Summary(t.ref, StackError), false, [], log, s;
    }
    var res := DecideGates(cfg, t);
    overridden := res.overridden;
    AllOverridesAreReal(cfg, FinalInputs(cfg, t), |res.gates|);
    if res.blocked {
      if answer.acquired {
        ConductStep(log, ReleaseLock);
        log := log + [ReleaseLock];
      }
      return Summary(t.ref, StackBlocked), true, overridden, log, s;
    }
    var status;
    status, log, s' := Execute(t, s, log);
    summary := Summary(t.ref, status);
  }

  // ---------- the whole run ----------

  /** Target i was handled as expected: its summary, its log, and the credentials before and after. */
  ghost predicate Handled(cfg: Config, t: Target, before: Session, after: Session, summary: Summary, log: seq<Action>) {
    && summary == Summary(t.ref, ExpectedStatus(cfg, t, before))
    && Closed(t, log) && (RunEngine in log <==> Cleared(cfg, t) && Equipped(t, before))
    && after == NextSession(cfg, t, before)
  }

  /** One summary and one log per target, in order, starting without credentials. */
  ghost predicate RunOf(cfg: Config, targets: seq<Target>, ss: seq<Session>, summaries: seq<Summary>, logs: seq<seq<Action>>) {
    && |ss| == |targets| + 1 && ss[0] == Session(false, false)
    && |summaries| == |targets| == |logs|
    && forall i :: 0 <= i < |targets| ==> Handled(cfg, targets[i], ss[i], ss[i + 1], summaries[i], logs[i])
  }

  /** The target was admitted although gate g would have refused it without break-glass. */
  ghost predicate AppliedOver(g: GateId, cfg: Config, t: Target) {
    Cleared(cfg, t) && RealOverride(g, cfg, Facts(t))
  }

  ghost predicate Recorded(overridden: seq<GateId>, cfg: Config, targets: seq<Target>) {
    forall i, g :: 0 <= i < |targets| && AppliedOver(g, cfg, targets[i]) ==> g in overridden
  }

  /** What is recorded was overridden for some target whose gates were evaluated. */
  ghost predicate OnlyReal(overridden: seq<GateId>, cfg: Config, targets: seq<Target>) {
    forall g :: g in overridden ==>
      exists t :: t in targets && !t.cancelled && t.lock.Applied? && RealOverride(g, cfg, FinalInputs(cfg, t))
  }

  lemma OnlyRealStep(cfg: Config, targets: seq<Target>, t: Target, before: seq<GateId>, gates: seq<GateId>, after: seq<GateId>)
    requires OnlyReal(before, cfg, targets) && forall g :: g in after ==> g in before || g in gates
    requires forall g :: g in gates ==> Evaluated(t) && RealOverride(g, cfg, FinalInputs(cfg, t))
    ensures OnlyReal(after, cfg, targets + [t])
  {
    forall g | g in after
      ensures exists u :: u in targets + [t] && !u.cancelled && u.lock.Applied? && RealOverride(g, cfg, FinalInputs(cfg, u))
    {
      if g in before {
        var u :| u in targets && !u.cancelled && u.lock.Applied? && RealOverride(g, cfg, FinalInputs(cfg, u));
        assert u in targets + [t];
      } else {
        assert t in targets + [t];
      }
    }
  }

  lemma RunOfStep(cfg: Config, targets: seq<Target>, t: Target, ss: seq<Session>, s': Session,
                  summaries: seq<Summary>, summary: Summary, logs: seq<seq<Action>>, log: seq<Action>)
    requires RunOf(cfg, targets, ss, summaries, logs) && Handled(cfg, t, ss[|targets|], s', summary, log)
    ensures RunOf(cfg, targets + [t], ss + [s'], summaries + [summary], logs + [log])
  {
  }

  lemma RecordedStep(cfg: Config, targets: seq<Target>, t: Target, before: seq<GateId>, after: seq<GateId>)
    requires Recorded(before, cfg, targets) && forall g :: g in before ==> g in after
    requires forall g :: AppliedOver(g, cfg, t) ==> g in after
    ensures Recorded(after, cfg, targets + [t])
  {
  }

  /** The record of overrides: every gate that was overridden for an applied target, and none that was not
      overridden at all. */
  ghost predicate RecordOf(overridden: seq<GateId>, cfg: Config, targets: seq<Target>) {
    Recorded(overridden, cfg, targets) && OnlyReal(overridden, cfg, targets)
  }

  lemma RecordStep(cfg: Config, targets: seq<Target>, t: Target, before: seq<GateId>, gates: seq<GateId>, after: seq<GateId>)
    requires RecordOf(before, cfg, targets) && forall g :: g in after <==> g in before || g in gates
    requires forall g :: g in gates ==> Evaluated(t) && RealOverride(g, cfg, FinalInputs(cfg, t))
    requires forall g :: AppliedOver(g, cfg, t) ==> g in gates
    ensures RecordOf(after, cfg, targets + [t])
  {
    RecordedStep(cfg, targets, t, before, after);
    OnlyRealStep(cfg, targets, t, before, gates, after);
  }

  /** The loop over all targets, and a duplicate-free record of what break-glass overrode. */
  method ApplyAll(cfg: Config, targets: seq<Target>)
      returns (summaries: seq<Summary>, anyBlocked: bool, overridden: seq<GateId>, logs: seq<seq<Action>>,
               ghost sessions: seq<Session>)
    ensures RunOf(cfg, targets, sessions, summaries, logs)
    ensures anyBlocked <==> exists i :: 0 <= i < |summaries| && summaries[i].status == StackBlocked
    ensures forall j, k :: 0 <= j < k < |overridden| ==> overridden[j] != overridden[k]
    ensures RecordOf(overridden, cfg, targets)
  {
    summaries, anyBlocked, overridden, logs := [], false, [], [];
    var s := Session(false, false);
    sessions := [s];
    for n := 0 to |targets|
      invariant RunOf(cfg, targets[..n], sessions, summaries, logs) && sessions[n] == s
      invariant anyBlocked <==> exists i :: 0 <= i < n && summaries[i].status == StackBlocked
      invariant forall j, k :: 0 <= j < k < |overridden| ==> overridden[j] != overridden[k]
      invariant RecordOf(overridden, cfg, targets[..n])
    {
      assert targets[..n + 1] == targets[..n] + [targets[n]];
      var summary, blocked, gates, log, s' := ApplyTarget(cfg, targets[n], s);
      var after := AddNew(overridden, gates);
      RunOfStep(cfg, targets[..n], targets[n], sessions, s', summaries, summary, logs, log);
      RecordStep(cfg, targets[..n], targets[n], overridden, gates, after);
      ghost var prev := summaries;
      summaries, logs, overridden := summaries + [summary], logs + [log], after;
      assert forall i :: 0 <= i < n ==> summaries[i] == prev[i];
      if blocked {
        anyBlocked := true;
      }
      assert summaries[n] == summary;
      s := s';
      sessions := sessions + [s];
    }
    assert targets[..|targets|] == targets;
  }

  /** Appending without repeating. */
  method AddNew(seen: seq<GateId>, gates: seq<GateId>) returns (out: seq<GateId>)
    requires forall j, k :: 0 <= j < k < |seen| ==> seen[j] != seen[k]
    ensures forall j, k :: 0 <= j < k < |out| ==> out[j] != out[k]
    ensures forall g :: g in out <==> g in seen || g in gates
  {
    out := seen;
    for i := 0 to |gates|
      invariant forall j, k :: 0 <= j < k < |out| ==> out[j] != out[k]
      invariant forall g :: g in out <==> g in seen || g in gates[..i]
    {
      if gates[i] !in out {
        out := out + [gates[i]];
      }
    }
    assert gates[..|gates|] == gates;
  }

  datatype RunOutcome = RunFailed | RunBlocked | RunSuccess

  method AggregateOutcome(ss: seq<Summary>, anyBlocked: bool) returns (o: RunOutcome)
    ensures o == RunFailed <==> exists i :: 0 <= i < |ss| && ss[i].status == StackError
    ensures o == RunBlocked <==> anyBlocked && forall i :: 0 <= i < |ss| ==> ss[i].status != StackError
  {
    for i := 0 to |ss|
      invariant forall k :: 0 <= k < i ==> ss[k].status != StackError
    {
      if ss[i].status == StackError {
        return RunFailed;
      }
    }
    o := if anyBlocked then RunBlocked else RunSuccess;
  }

  // ---------- safety of the whole run ----------

  /** The lock is given back exactly once by every iteration that was granted it and by no other;
      the engine runs at most once, only for a target that is cleared (lock granted, every gate's
      demand met, break-glass included), and while the lock is held and the heartbeat going. */
  ghost predicate Safe(cfg: Config, t: Target, log: seq<Action>) {
    && Count(log, ReleaseLock) == (if !t.cancelled && Acquired(t.lock) then 1 else 0)
    && Count(log, RunEngine) <= 1
    && (forall i :: 0 <= i < |log| && log[i] == RunEngine ==> Cleared(cfg, t) && UnderLock(log, i))
  }

  lemma ClosedIsSafe(cfg: Config, t: Target, log: seq<Action>)
    requires Closed(t, log) && (RunEngine in log ==> Cleared(cfg, t))
    ensures Safe(cfg, t, log)
  {
    ConductCounts(log);
    forall i | 0 <= i < |log| && log[i] == RunEngine ensures UnderLock(log, i) {
      EngineRunsUnderLock(log, i);
    }
  }

  lemma RunIsSafe(cfg: Config, targets: seq<Target>, ss: seq<Session>, summaries: seq<Summary>, logs: seq<seq<Action>>)
    requires RunOf(cfg, targets, ss, summaries, logs)
    ensures forall i :: 0 <= i < |targets| ==> Safe(cfg, targets[i], logs[i])
  {
    forall i | 0 <= i < |targets| ensures Safe(cfg, targets[i], logs[i]) {
      assert Handled(cfg, targets[i], ss[i], ss[i + 1], summaries[i], logs[i]);
      ClosedIsSafe(cfg, targets[i], logs[i]);
    }
  }

  /** The lock store said yes: its write took effect, without an error and with the flag set. */
  predicate Granted(r: LS.Reply) {
    r.Applied? && r.verdict.error.None? && r.verdict.flag
  }

  /** What the policy gate is told once the others passed: nothing if no hooks are configured. */
  function HookInputs(t: Target): Inputs {
    t.inputs.(lockAcquirable := true,
              policyPassed := if !t.hooks.configured then None else Some(t.hooks.passed && t.hooks.hasPlan && !t.hooks.failed))
  }

  /** The target may be applied, in terms of what the world answered. */
  ghost predicate MayApply(cfg: Config, t: Target) {
    !t.cancelled && Granted(t.lock) && forall g :: Demand(g, cfg, HookInputs(t))
  }

  lemma ClearedIff(cfg: Config, t: Target)
    ensures Cleared(cfg, t) <==> MayApply(cfg, t)
  {
    assert Facts(t) == HookInputs(t);
  }

  /** The summary of a target says what its engine did, if it ran: no-op means that it returned without
      an error and without changes, planned that it returned without an error and with some.  If it did
      not run, the target is blocked by the lock or a gate, and everything else is an error. */
  ghost predicate Tells(cfg: Config, t: Target, summary: Summary, log: seq<Action>) {
    && summary.ref == t.ref
    && (RunEngine in log ==> MayApply(cfg, t))
    && (summary.status == NoOp <==> RunEngine in log && t.engine == EngineReturns(false, 0))
    && (summary.status == Planned <==> RunEngine in log && t.engine.EngineReturns? && !t.engine.error && t.engine.changes > 0)
    && (summary.status == StackBlocked <==>
          && !t.cancelled && t.lock.Applied? && t.lock.verdict.error in {None, Some(L.ErrHeldBySamePR)}
          && !MayApply(cfg, t))
  }

  lemma HandledTells(cfg: Config, t: Target, before: Session, after: Session, summary: Summary, log: seq<Action>)
    requires Handled(cfg, t, before, after, summary, log)
    ensures Tells(cfg, t, summary, log)
  {
    ClearedIff(cfg, t);
  }

  /** Some target before the n-th was cleared and got the credentials of the state backend. */
  ghost predicate GotState(cfg: Config, targets: seq<Target>, n: nat) {
    exists j :: 0 <= j < n && j < |targets| && MayApply(cfg, targets[j]) && !targets[j].stateAuthFails
  }

  /** ... and logged in, having the first. */
  ghost predicate GotLogin(cfg: Config, targets: seq<Target>, n: nat) {
    exists j: nat :: j < n && j < |targets| && MayApply(cfg, targets[j]) && !targets[j].loginFails && GotState(cfg, targets, j + 1)
  }

  /** Credentials once obtained serve the rest of the run. */
  lemma {:induction false} SessionIs(cfg: Config, targets: seq<Target>, ss: seq<Session>, summaries: seq<Summary>, logs: seq<seq<Action>>, n: nat)
    requires RunOf(cfg, targets, ss, summaries, logs) && n <= |targets|
    ensures ss[n].stateAuth <==> GotState(cfg, targets, n)
    ensures ss[n].login <==> GotLogin(cfg, targets, n)
  {
    if n > 0 {
      SessionIs(cfg, targets, ss, summaries, logs, n - 1);
      ClearedIff(cfg, targets[n - 1]);
      assert Handled(cfg, targets[n - 1], ss[n - 1], ss[n], summaries[n - 1], logs[n - 1]);
      assert GotState(cfg, targets, n) <==> GotState(cfg, targets, n - 1) || (MayApply(cfg, targets[n - 1]) && !targets[n - 1].stateAuthFails);
    }
  }

  /** Exactly which engines run: those of the targets that may be applied, once the credentials are there. */
  lemma {:induction false} EngineRanIff(cfg: Config, targets: seq<Target>, ss: seq<Session>, summaries: seq<Summary>, logs: seq<seq<Action>>, i: nat)
    requires RunOf(cfg, targets, ss, summaries, logs) && i < |targets|
    ensures RunEngine in logs[i] <==>
              MayApply(cfg, targets[i]) && !targets[i].authFails && GotState(cfg, targets, i + 1) && GotLogin(cfg, targets, i + 1)
  {
    SessionIs(cfg, targets, ss, summaries, logs, i);
    SessionIs(cfg, targets, ss, summaries, logs, i + 1);
    ClearedIff(cfg, targets[i]);
    assert Handled(cfg, targets[i], ss[i], ss[i + 1], summaries[i], logs[i]);
  }

  /** A whole run, up to the applied marker: every target is handled safely, its summary says what its
      engine did, and the marker is written exactly if every target was cleared and its engine ran and
      returned without an error. */
  method RunApply(cfg: Config, targets: seq<Target>)
      returns (summaries: seq<Summary>, logs: seq<seq<Action>>, appliedMarker: bool, ghost sessions: seq<Session>)
    ensures RunOf(cfg, targets, sessions, summaries, logs)
    ensures forall i :: 0 <= i < |targets| ==> Safe(cfg, targets[i], logs[i])
    ensures forall i :: 0 <= i < |targets| ==> Tells(cfg, targets[i], summaries[i], logs[i])
    ensures forall i :: 0 <= i < |targets| && RunEngine in logs[i] && (targets[i].engine.EngineFails? || targets[i].engine.error) ==>
              summaries[i].status == StackError
    ensures appliedMarker <==> forall i :: 0 <= i < |summaries| ==> summaries[i].status in {Planned, NoOp}
    ensures appliedMarker <==> forall i :: 0 <= i < |targets| ==>
              RunEngine in logs[i] && targets[i].engine.EngineReturns? && !targets[i].engine.error
  {
    var anyBlocked, overridden;
    summaries, anyBlocked, overridden, logs, sessions := ApplyAll(cfg, targets);
    RunIsSafe(cfg, targets, sessions, summaries, logs);
    forall i | 0 <= i < |targets| ensures Tells(cfg, targets[i], summaries[i], logs[i]) {
      HandledTells(cfg, targets[i], sessions[i], sessions[i + 1], summaries[i], logs[i]);
    }
    var outcome := AggregateOutcome(summaries, anyBlocked);
    appliedMarker := outcome == RunSuccess;
  }

  /** From the log to the bucket: if the engine ran for a target, and the lock store's reply was the
      verdict of this run's acquire at its place in the history, then right after that place the
      bucket named this run as the holder, by its own acquire and with a lease of the full ttl. */
  lemma {:induction false} EngineRunsAsHolder(cfg: Config, t: Target, log: seq<Action>, n: LH.Name, h: seq<LH.Event>, e: LH.Event)
    requires Safe(cfg, t, log) && RunEngine in log
    requires e.op.OpAcquire? && t.lock == LS.Applied(LH.Effect(n, LH.Stored(n, h), e))
    ensures LH.Backed(LH.Stored(n, h + [e]), LH.Run(e.op.who.pr, e.op.who.runId), L.Stamp(e.t2 + e.op.ttl))
  {
    LH.ReachableWellFormed(n, h, e.readAt);
    GrantedMeansHolder(LH.Current(n, LH.Stored(n, h), e.readAt), e.op.who, e.op.ttl, e.t1, e.t2);
    assert (h + [e])[..|h|] == h;
  }

  /** The lock reply of a target is the verdict of event e at its place in the stack's lock history. */
  ghost predicate TookPlace(t: Target, n: LH.Name, before: seq<LH.Event>, e: LH.Event) {
    e.op.OpAcquire? && t.lock == LS.Applied(LH.Effect(n, LH.Stored(n, before), e))
  }

  /** An engine that ran was granted its acquire at its place. */
  lemma {:induction false} GrantedAt(cfg: Config, t: Target, log: seq<Action>, n: LH.Name, before: seq<LH.Event>, e: LH.Event)
    requires Safe(cfg, t, log) && RunEngine in log && TookPlace(t, n, before, e)
    ensures LH.Effect(n, LH.Stored(n, before), e).flag
  {
    var i :| 0 <= i < |log| && log[i] == RunEngine;
    assert Cleared(cfg, t);
    LH.ReachableWellFormed(n, before, e.readAt);
    GrantedMeansHolder(LH.Current(n, LH.Stored(n, before), e.readAt), e.op.who, e.op.ttl, e.t1, e.t2);
  }

  /** End to end: the engines of two runs never overlap on one stack.  Target a acquired its lock
      right after the history before, by event e, and its engine ran, under the lock and with the
      heartbeat going.  While the heartbeat goes, through the events during, no target of another
      run whose acquire falls among them has its engine run, whatever its world and its loop say. */
  lemma {:induction false} EnginesNeverOverlap(cfgA: Config, a: Target, logA: seq<Action>, cfgB: Config, b: Target, logB: seq<Action>,
                            n: LH.Name, before: seq<LH.Event>, e: LH.Event, during: seq<LH.Event>, k: nat)
    requires Safe(cfgA, a, logA) && RunEngine in logA && TookPlace(a, n, before, e)
    requires LH.Beating(during, LH.RunOf(e), e.op.ttl, e.t2)
    requires k < |during| && Safe(cfgB, b, logB) && TookPlace(b, n, before + [e] + during[..k], during[k])
    requires LH.RunOf(during[k]) != LH.RunOf(e)
    ensures RunEngine !in logB
  {
    var h := before + [e];
    assert h[..|h| - 1] == before && h[|h| - 1] == e;
    GrantedAt(cfgA, a, logA, n, before, e);
    LH.ExclusiveWhileBeating(n, h, during, LH.RunOf(e), k);
    if RunEngine in logB {
      GrantedAt(cfgB, b, logB, n, h + during[..k], during[k]);
    }
  }

  /** The lock reply of a target is what a call of the concurrent store returned. */
  ghost predicate ToldBy(t: Target, s: LS.State, id: nat) {
    id in s.calls && s.calls[id].op.OpAcquire? && s.calls[id].phase.Done? && t.lock == s.calls[id].phase.reply
  }

  /** If the engine ran, that call has its place in the order in which the store's writes took effect. */
  lemma {:induction false} ReplyTookPlace(cfg: Config, t: Target, log: seq<Action>, s0: LS.State, steps: seq<LS.Step>, s: LS.State, id: nat)
      returns (x: nat)
    requires LS.Init(s0) && LS.Reachable(s0, steps, s) && ToldBy(t, s, id)
    requires Safe(cfg, t, log) && RunEngine in log
    ensures x < |s.history| && s.history[x].id == id && s.history[x].op == s.calls[id].op
    ensures TookPlace(t, s.name, s.history[..x], s.history[x])
  {
    var i :| 0 <= i < |log| && log[i] == RunEngine;
    assert Cleared(cfg, t);
    LS.Linearizes(s0, steps, s);
    assert LS.HasEffect(s.calls[id]) && LS.InHistory(s, id);
    x :| 0 <= x < |s.history| && s.history[x].id == id;
    assert LS.EventInv(s, x);
  }

  /** The run that acquired at x did not keep beating up to and including the acquire at y. */
  ghost predicate FellSilent(h: seq<LH.Event>, x: nat, y: nat) {
    x < y < |h| && h[x].op.OpAcquire? && !LH.Beating(h[x + 1..y + 1], LH.RunOf(h[x]), h[x].op.ttl, h[x].t2)
  }

  /** For the concurrent store: in every state that any interleaving of its calls reaches, if the engines
      of two runs both ran on the stack, then the one that acquired first was no longer beating when the
      other acquired, whichever of the two that is: it had given up, or let its lease run down to the last
      second, or there was an override. */
  lemma {:induction false} ConcurrentEnginesNeverOverlap(
      cfgA: Config, a: Target, logA: seq<Action>, idA: nat, cfgB: Config, b: Target, logB: seq<Action>, idB: nat,
      s0: LS.State, steps: seq<LS.Step>, s: LS.State) returns (x: nat, y: nat)
    requires LS.Init(s0) && LS.Reachable(s0, steps, s) && ToldBy(a, s, idA) && ToldBy(b, s, idB)
    requires Safe(cfgA, a, logA) && RunEngine in logA && Safe(cfgB, b, logB) && RunEngine in logB
    requires var u, v := s.calls[idA].op, s.calls[idB].op;
             (u.who.pr, u.who.runId) != (v.who.pr, v.who.runId)
    ensures var h := s.history;
      && x < |h| && y < |h| && x != y && h[x].id == idA && h[y].id == idB
      && TookPlace(a, s.name, h[..x], h[x]) && TookPlace(b, s.name, h[..y], h[y])
      && (x < y ==> FellSilent(h, x, y)) && (y < x ==> FellSilent(h, y, x))
  {
    x := ReplyTookPlace(cfgA, a, logA, s0, steps, s, idA);
    y := ReplyTookPlace(cfgB, b, logB, s0, steps, s, idB);
    if x < y {
      LaterFindsItSilent(cfgA, a, logA, cfgB, b, logB, s.name, s.history, x, y);
    } else {
      LaterFindsItSilent(cfgB, b, logB, cfgA, a, logA, s.name, s.history, y, x);
    }
  }

  lemma CutAt<T>(h: seq<T>, x: nat, y: nat)
    requires x < y < |h|
    ensures var during := h[x + 1..y + 1]; during[y - x - 1] == h[y] && h[..x] + [h[x]] + during[..y - x - 1] == h[..y]
  {
    assert h[x + 1..y + 1][..y - x - 1] == h[x + 1..y];
  }

  lemma {:induction false} LaterFindsItSilent(cfgA: Config, a: Target, logA: seq<Action>, cfgB: Config, b: Target, logB: seq<Action>,
                            n: LH.Name, h: seq<LH.Event>, x: nat, y: nat)
    requires x < y < |h| && TookPlace(a, n, h[..x], h[x]) && TookPlace(b, n, h[..y], h[y])
    requires Safe(cfgA, a, logA) && RunEngine in logA && Safe(cfgB, b, logB) && RunEngine in logB
    requires LH.RunOf(h[x]) != LH.RunOf(h[y])
    ensures FellSilent(h, x, y)
  {
    var e, during, k := h[x], h[x + 1..y + 1], y - x - 1;
    if LH.Beating(during, LH.RunOf(e), e.op.ttl, e.t2) {
      CutAt(h, x, y);
      EnginesNeverOverlap(cfgA, a, logA, cfgB, b, logB, n, h[..x], e, during, k);
    }
  }
}
