/** The apply preconditions of internal/core/preconditions/gates.go.  Reasons are display text
    and are left out. */
module Gates {
  import opened Base

  datatype GateId =
    | Fork | Draft | UpToDate | ChecksGreen | PreviewOK | PreviewFresh
    | Approvals | LockGate | Freeze | Policy

  const GATE_ORDER: seq<GateId> :=
    [Fork, Draft, UpToDate, ChecksGreen, PreviewOK, PreviewFresh, Approvals, LockGate, Freeze, Policy]

  datatype Outcome = Pass | Fail | Warning | Skipped

  datatype Config = Config(
    requireUpToDate: bool, requireChecksPassing: bool,
    previewFreshness: int, previewMaxCommitsBehind: int)

  datatype Inputs = Inputs(
    prIsFork: bool, prIsDraft: bool, forkOptInAllowed: bool,
    upToDate: bool, commitsBehind: int, checksGreen: bool,
    hasFreshPreview: bool, previewAge: int, previewSucceeded: bool,
    policyPassed: Option<bool>, approvalsSatisfied: bool, lockAcquirable: bool,
    inFreeze: bool,
    breakGlass: bool, breakGlassOverrideFreeze: bool, previewHistoryUnavailable: bool)

  function EvalGateBase(g: GateId, cfg: Config, i: Inputs): Outcome {
    match g
    case Fork => if i.prIsFork && !i.forkOptInAllowed then Fail else if !i.prIsFork then Skipped else Pass
    case Draft => if i.prIsDraft then Fail else Skipped
    case UpToDate =>
      if !cfg.requireUpToDate then Skipped
      else if i.upToDate then Pass
      else if cfg.previewMaxCommitsBehind > 0 && i.commitsBehind <= cfg.previewMaxCommitsBehind then Warning
      else Fail
    case ChecksGreen => if !cfg.requireChecksPassing then Skipped else if i.checksGreen then Pass else Fail
    case PreviewOK => if i.previewSucceeded then Pass else Fail
    case PreviewFresh =>
      if cfg.previewFreshness == 0 then Skipped
      else if !i.hasFreshPreview then Fail
      else if i.previewAge > cfg.previewFreshness then Fail
      else Pass
    case Policy => if i.policyPassed.None? then Skipped else if i.policyPassed.value then Pass else Fail
    case Approvals => if i.approvalsSatisfied then Pass else Fail
    case LockGate => if i.lockAcquirable then Pass else Fail
    case Freeze => if i.inFreeze then Fail else Pass
  }

  /** The outcome, and whether break-glass overrode a failure. */
  function EvalGate(g: GateId, cfg: Config, i: Inputs): (Outcome, bool) {
    var base := EvalGateBase(g, cfg, i);
    if i.breakGlass && g == Approvals then
      if i.approvalsSatisfied then (Pass, false) else (Warning, true)
    else if i.breakGlass && g == Freeze && i.inFreeze && i.breakGlassOverrideFreeze then
      (Warning, true)
    else if i.breakGlass && (g == PreviewOK || g == PreviewFresh) && i.previewHistoryUnavailable then
      if base == Fail then (Warning, true) else (base, false)
    else (base, false)
  }

  predicate Fails(g: GateId, cfg: Config, i: Inputs) {
    EvalGate(g, cfg, i).0 == Fail
  }

  ghost predicate Blocked(cfg: Config, i: Inputs) {
    exists k :: 0 <= k < |GATE_ORDER| && Fails(GATE_ORDER[k], cfg, i)
  }

  datatype Result = Result(gates: seq<(GateId, Outcome)>, blocked: bool, overridden: seq<GateId>)

  /** The trace of the first k gates. */
  function Trace(cfg: Config, i: Inputs, k: nat): seq<(GateId, Outcome)>
    requires k <= |GATE_ORDER|
  {
    if k == 0 then []
    else Trace(cfg, i, k - 1) + [(GATE_ORDER[k - 1], EvalGate(GATE_ORDER[k - 1], cfg, i).0)]
  }

  /** The gates among the first k that break-glass overrode. */
  function Overrides(cfg: Config, i: Inputs, k: nat): seq<GateId>
    requires k <= |GATE_ORDER|
  {
    if k == 0 then []
    else Overrides(cfg, i, k - 1)
         + (if EvalGate(GATE_ORDER[k - 1], cfg, i).1 then [GATE_ORDER[k - 1]] else [])
  }

  /** Fail-fast: the trace stops at the first failure. */
  method Evaluate(cfg: Config, i: Inputs) returns (res: Result)
    ensures res.blocked <==> Blocked(cfg, i)
    ensures |res.gates| <= |GATE_ORDER|
    ensures res.gates == Trace(cfg, i, |res.gates|) && res.overridden == Overrides(cfg, i, |res.gates|)
    ensures forall k :: 0 <= k < |res.gates| - 1 ==> !Fails(GATE_ORDER[k], cfg, i)
    ensures if res.blocked then 0 < |res.gates| && Fails(GATE_ORDER[|res.gates| - 1], cfg, i)
            else |res.gates| == |GATE_ORDER|
  {
    res := Result([], false, []);
    for k := 0 to |GATE_ORDER|
      invariant res.gates == Trace(cfg, i, k) && |res.gates| == k
      invariant res.overridden == Overrides(cfg, i, k) && !res.blocked
      invariant forall j :: 0 <= j < k ==> !Fails(GATE_ORDER[j], cfg, i)
    {
      var g := GATE_ORDER[k];
      var (outcome, overridden) := EvalGate(g, cfg, i);
      res := res.(gates := res.gates + [(g, outcome)]);
      if overridden {
        res := res.(overridden := res.overridden + [g]);
      }
      if outcome == Fail {
        return res.(blocked := true);
      }
    }
  }

  /** Report-only: every gate, no stop. */
  method EvaluateAll(cfg: Config, i: Inputs) returns (res: Result)
    ensures res.blocked <==> Blocked(cfg, i)
    ensures res.gates == Trace(cfg, i, |GATE_ORDER|) && res.overridden == Overrides(cfg, i, |GATE_ORDER|)
  {
    res := Result([], false, []);
    for k := 0 to |GATE_ORDER|
      invariant res.gates == Trace(cfg, i, k) && res.overridden == Overrides(cfg, i, k)
      invariant res.blocked <==> exists j :: 0 <= j < k && Fails(GATE_ORDER[j], cfg, i)
    {
      var g := GATE_ORDER[k];
      var (outcome, overridden) := EvalGate(g, cfg, i);
      res := res.(gates := res.gates + [(g, outcome)]);
      if overridden {
        res := res.(overridden := res.overridden + [g]);
      }
      if outcome == Fail {
        res := res.(blocked := true);
      }
    }
  }

  /** Where a gate stands in the order: every gate stands somewhere. */
  function Position(g: GateId): (k: nat)
    ensures k < |GATE_ORDER| && GATE_ORDER[k] == g
  {
    match g
    case Fork => 0
    case Draft => 1
    case UpToDate => 2
    case ChecksGreen => 3
    case PreviewOK => 4
    case PreviewFresh => 5
    case Approvals => 6
    case LockGate => 7
    case Freeze => 8
    case Policy => 9
  }

  /** What each gate demands.  The lock, fork, draft, up-to-date, checks and policy demands have
      no break-glass exception. */
  predicate Demand(g: GateId, cfg: Config, i: Inputs) {
    match g
    case Fork => i.prIsFork ==> i.forkOptInAllowed
    case Draft => !i.prIsDraft
    case UpToDate =>
      cfg.requireUpToDate && !i.upToDate ==>
        0 < cfg.previewMaxCommitsBehind && i.commitsBehind <= cfg.previewMaxCommitsBehind
    case ChecksGreen => cfg.requireChecksPassing ==> i.checksGreen
    case PreviewOK => i.previewSucceeded || (i.breakGlass && i.previewHistoryUnavailable)
    case PreviewFresh =>
      cfg.previewFreshness != 0 ==>
        || (i.hasFreshPreview && i.previewAge <= cfg.previewFreshness)
        || (i.breakGlass && i.previewHistoryUnavailable)
    case Approvals => i.approvalsSatisfied || i.breakGlass
    case LockGate => i.lockAcquirable
    case Freeze => i.inFreeze ==> i.breakGlass && i.breakGlassOverrideFreeze
    case Policy => i.policyPassed != Some(false)
  }

  lemma DemandMeansNoFailure(g: GateId, cfg: Config, i: Inputs)
    ensures Demand(g, cfg, i) <==> !Fails(g, cfg, i)
  {
  }

  /** Exactly when a stack may be applied: every gate's demand is met. */
  lemma AdmissionRule(cfg: Config, i: Inputs)
    ensures !Blocked(cfg, i) <==> forall g :: Demand(g, cfg, i)
  {
    if Blocked(cfg, i) {
      var k :| 0 <= k < |GATE_ORDER| && Fails(GATE_ORDER[k], cfg, i);
      DemandMeansNoFailure(GATE_ORDER[k], cfg, i);
    } else {
      forall g: GateId ensures Demand(g, cfg, i) {
        assert !Fails(GATE_ORDER[Position(g)], cfg, i);
        DemandMeansNoFailure(g, cfg, i);
      }
    }
  }

  /** What is recorded as overridden would have failed without break-glass, and is one of the
      four gates that break-glass may override at all. */
  ghost predicate RealOverride(g: GateId, cfg: Config, i: Inputs) {
    && i.breakGlass && Fails(g, cfg, i.(breakGlass := false)) && !Fails(g, cfg, i)
    && g in {Approvals, Freeze, PreviewOK, PreviewFresh}
  }

  lemma OverrideIsReal(g: GateId, cfg: Config, i: Inputs)
    ensures EvalGate(g, cfg, i).1 <==> RealOverride(g, cfg, i)
  {
  }

  /** Which failures break-glass overrides, in terms of the inputs. */
  predicate Overridable(g: GateId, cfg: Config, i: Inputs) {
    i.breakGlass &&
    match g
    case Approvals => !i.approvalsSatisfied
    case Freeze => i.inFreeze && i.breakGlassOverrideFreeze
    case PreviewOK => i.previewHistoryUnavailable && !i.previewSucceeded
    case PreviewFresh =>
      && i.previewHistoryUnavailable && cfg.previewFreshness != 0
      && (!i.hasFreshPreview || i.previewAge > cfg.previewFreshness)
    case _ => false
  }

  lemma OverriddenIff(g: GateId, cfg: Config, i: Inputs)
    ensures EvalGate(g, cfg, i).1 <==> Overridable(g, cfg, i)
  {
    match g
    case PreviewOK =>
    case PreviewFresh =>
    case _ =>
  }

  /** The gate is in force for these inputs at all. */
  predicate InForce(g: GateId, cfg: Config, i: Inputs) {
    match g
    case Fork => i.prIsFork
    case Draft => i.prIsDraft
    case UpToDate => cfg.requireUpToDate
    case ChecksGreen => cfg.requireChecksPassing
    case PreviewFresh => cfg.previewFreshness != 0
    case Policy => i.policyPassed.Some?
    case _ => true
  }

  /** The branch is behind its base, but not too far. */
  predicate SlightlyBehind(cfg: Config, i: Inputs) {
    cfg.requireUpToDate && !i.upToDate && cfg.previewMaxCommitsBehind > 0 && i.commitsBehind <= cfg.previewMaxCommitsBehind
  }

  /** What each entry of the trace means: a failure, a warning about what was let through all the same,
      a gate not in force, or a pass. */
  lemma OutcomeMeans(g: GateId, cfg: Config, i: Inputs)
    ensures EvalGate(g, cfg, i).0 ==
              if !Demand(g, cfg, i) then Fail
              else if Overridable(g, cfg, i) || (g == UpToDate && SlightlyBehind(cfg, i)) then Warning
              else if !InForce(g, cfg, i) then Skipped
              else Pass
  {
    DemandMeansNoFailure(g, cfg, i);
  }

  /** What fail-fast evaluation reports of a blocked stack.  The first gate that failed is the last entry
      and everything before it is met; a fork without an opt-in is told nothing else, and the policy
      hooks are blamed only if nothing else is wrong. */
  lemma {:induction false} FirstFailure(cfg: Config, i: Inputs, n: nat)
    requires 0 < n <= |GATE_ORDER| && Fails(GATE_ORDER[n - 1], cfg, i)
    requires forall k :: 0 <= k < n - 1 ==> !Fails(GATE_ORDER[k], cfg, i)
    ensures !Demand(Fork, cfg, i) ==> Trace(cfg, i, n) == [(Fork, Fail)]
    ensures (Policy, Fail) in Trace(cfg, i, n) ==> forall g :: g != Policy ==> Demand(g, cfg, i)
    ensures |Trace(cfg, i, n)| == n && Trace(cfg, i, n)[n - 1] == (GATE_ORDER[n - 1], Fail)
  {
    DemandMeansNoFailure(Fork, cfg, i);
    TraceIs(cfg, i, n);
    if !Demand(Fork, cfg, i) {
      assert Position(Fork) == 0 && n == 1;
      assert Trace(cfg, i, 0) == [];
    }
    if (Policy, Fail) in Trace(cfg, i, n) {
      var k :| 0 <= k < n && Trace(cfg, i, n)[k] == (Policy, Fail);
      PositionIsUnique(k);
      forall g: GateId | g != Policy ensures Demand(g, cfg, i) {
        DemandMeansNoFailure(g, cfg, i);
        assert GATE_ORDER[Position(g)] == g && Position(g) != Position(Policy) && Position(g) < n - 1;
      }
    }
  }

  lemma {:induction false} TraceIs(cfg: Config, i: Inputs, n: nat)
    requires n <= |GATE_ORDER|
    ensures |Trace(cfg, i, n)| == n
    ensures forall k :: 0 <= k < n ==> Trace(cfg, i, n)[k] == (GATE_ORDER[k], EvalGate(GATE_ORDER[k], cfg, i).0)
  {
    if n > 0 {
      TraceIs(cfg, i, n - 1);
    }
  }

  /** A ready pull request whose preview failed, with the preview history unreadable. */
  const FAILED_PREVIEW: Inputs :=
    Inputs(false, false, false, true, 0, true, true, 0, false, None, true, true, false, true, false, true)

  /** Break-glass does override preview state: this preview did not succeed, nothing else is in the
      way, and the stack is admitted; without break-glass it is refused. */
  lemma {:induction false} PreviewIsOverridden(cfg: Config)
    ensures !Blocked(cfg, FAILED_PREVIEW) && PreviewOK in Overrides(cfg, FAILED_PREVIEW, |GATE_ORDER|)
    ensures Blocked(cfg, FAILED_PREVIEW.(breakGlass := false))
  {
    AdmissionRule(cfg, FAILED_PREVIEW);
    OverridesAreReal(cfg, FAILED_PREVIEW, |GATE_ORDER|, PreviewOK);
    AdmissionRule(cfg, FAILED_PREVIEW.(breakGlass := false));
    assert !Demand(PreviewOK, cfg, FAILED_PREVIEW.(breakGlass := false));
  }

  lemma {:induction false} OverridesAreReal(cfg: Config, i: Inputs, k: nat, g: GateId)
    requires k <= |GATE_ORDER|
    ensures g in Overrides(cfg, i, k) <==> Position(g) < k && RealOverride(g, cfg, i)
  {
    if k > 0 {
      OverridesAreReal(cfg, i, k - 1, g);
      OverrideIsReal(GATE_ORDER[k - 1], cfg, i);
      assert GATE_ORDER[k - 1] == g <==> Position(g) == k - 1 by {
        PositionIsUnique(k - 1);
      }
    }
  }

  lemma PositionIsUnique(k: nat)
    requires k < |GATE_ORDER|
    ensures Position(GATE_ORDER[k]) == k
  {
  }
}
