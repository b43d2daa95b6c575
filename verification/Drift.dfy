/** Drift episodes and alerts: the classification of internal/drift/state.go, its flap
    damping, and the tail of runOne in internal/drift/runner.go that composes them, over
    unbounded histories of checks.

    A zero time.Time is None.  Baseline bootstrap and permanent suppression are not modelled. */
module Drift {
  import opened Base

  type Instant = int

  datatype Outcome = NeverChecked | NoDrift | DriftFound | CheckError | Skipped

  datatype Event = Detected | Ongoing | Resolved | CheckFailed | Silent

  datatype State = State(
    lastOutcome: Outcome,
    lastCheckedAt: Option<Instant>,
    lastSuccessfulAt: Option<Instant>,
    ongoingSince: Option<Instant>,
    fingerprint: string,
    consecutiveErrors: nat,
    lastNotifiedAt: Option<Instant>)

  const FRESH: State := State(NeverChecked, None, None, None, "", 0, None)

  datatype Result = Result(outcome: Outcome, fingerprint: string, checkedAt: Instant)

  function Classify(prev: State, cur: Result): (Event, State) {
    var next := prev.(lastOutcome := cur.outcome, lastCheckedAt := Some(cur.checkedAt));
    match cur.outcome
    case CheckError =>
      (CheckFailed, next.(lastOutcome := prev.lastOutcome, consecutiveErrors := prev.consecutiveErrors + 1))
    case NoDrift =>
      (if prev.lastOutcome == DriftFound then Resolved else Silent,
       next.(consecutiveErrors := 0, lastSuccessfulAt := Some(cur.checkedAt), fingerprint := "", ongoingSince := None))
    case DriftFound =>
      var found := next.(consecutiveErrors := 0, lastSuccessfulAt := Some(cur.checkedAt), fingerprint := cur.fingerprint);
      if prev.lastOutcome != DriftFound then (Detected, found.(ongoingSince := Some(cur.checkedAt)))
      else
        var since := if prev.ongoingSince.None? then Some(cur.checkedAt) else prev.ongoingSince;
        (if cur.fingerprint != prev.fingerprint then Detected else Ongoing, found.(ongoingSince := since))
    case _ => (Silent, next)
  }

  // ---------- check errors are transparent ----------

  /** The part of the state that decides later classifications. */
  datatype Core = Core(lastOutcome: Outcome, ongoingSince: Option<Instant>, fingerprint: string)

  function CoreOf(s: State): Core {
    Core(s.lastOutcome, s.ongoingSince, s.fingerprint)
  }

  function Fold(s: State, rs: seq<Result>): State
    decreases |rs|
  {
    if rs == [] then s else Fold(Classify(s, rs[0]).1, rs[1..])
  }

  /** The events of the results that are not check errors, in order. */
  function Decisions(s: State, rs: seq<Result>): seq<Event>
    decreases |rs|
  {
    if rs == [] then []
    else
      var (ev, next) := Classify(s, rs[0]);
      (if rs[0].outcome.CheckError? then [] else [ev]) + Decisions(next, rs[1..])
  }

  function WithoutErrors(rs: seq<Result>): (out: seq<Result>)
    ensures |out| <= |rs|
  {
    if rs == [] then []
    else (if rs[0].outcome.CheckError? then [] else [rs[0]]) + WithoutErrors(rs[1..])
  }

  /** Deleting every check error from a history changes none of the other events, nor the
      outcome, episode start and fingerprint it ends with; from equal cores, not just equal states. */
  lemma {:induction false} ErrorsAreTransparent(s: State, s': State, rs: seq<Result>)
    requires CoreOf(s) == CoreOf(s')
    ensures CoreOf(Fold(s, rs)) == CoreOf(Fold(s', WithoutErrors(rs)))
    ensures Decisions(s, rs) == Decisions(s', WithoutErrors(rs))
    decreases |rs|
  {
    if rs != [] {
      if rs[0].outcome.CheckError? {
        ErrorsAreTransparent(Classify(s, rs[0]).1, s', rs[1..]);
        assert WithoutErrors(rs) == WithoutErrors(rs[1..]);
        assert Decisions(s, rs) == Decisions(Classify(s, rs[0]).1, rs[1..]);
      } else {
        ErrorsAreTransparent(Classify(s, rs[0]).1, Classify(s', rs[0]).1, rs[1..]);
        assert WithoutErrors(rs)[1..] == WithoutErrors(rs[1..]);
      }
    }
  }

  // ---------- flap damping ----------

  /** The event to dispatch, and whether a drift alert goes out now. */
  function Damp(prev: State, ev: Event, now: Instant, renotify: int): (Event, bool) {
    match ev
    case Detected =>
      if renotify > 0 && prev.lastNotifiedAt.Some? && now - prev.lastNotifiedAt.value < renotify
      then (Silent, false)
      else (Detected, true)
    case Ongoing =>
      if renotify <= 0 then (Ongoing, false)
      else if prev.lastNotifiedAt.None? || now - prev.lastNotifiedAt.value >= renotify then (Detected, true)
      else (Silent, false)
    case Resolved =>
      // the zero time is before every other time
      if prev.lastNotifiedAt.None? || prev.ongoingSince.None? || prev.lastNotifiedAt.value >= prev.ongoingSince.value
      then (Resolved, false)
      else (Silent, false)
    case _ => (ev, false)
  }

  /** What one check of one stack produces: the tail of runOne. */
  datatype Item = Item(event: Event, notify: Event, alerted: bool, recovered: bool, next: State)

  function Observe(prev: State, cur: Result, renotify: int): Item {
    var (ev, next) := Classify(prev, cur);
    var (notify, alerted) := Damp(prev, ev, cur.checkedAt, renotify);
    Item(ev, notify, alerted,
         prev.consecutiveErrors > 0 && !cur.outcome.CheckError?,
         if alerted then next.(lastNotifiedAt := Some(cur.checkedAt)) else next)
  }

  /** One check in a run: the state loaded, the result, and what came of it. */
  datatype Check = Check(before: State, result: Result, item: Item)

  ghost predicate Step(run: seq<Check>, i: nat, renotify: int)
    requires i < |run|
  {
    && run[i].before == (if i == 0 then FRESH else run[i - 1].item.next)
    && run[i].item == Observe(run[i].before, run[i].result, renotify)
  }

  /** Successive checks of one stack, each starting from the state the one before saved:
      later checks have later times, and every check has a verdict or fails. */
  ghost predicate Run(run: seq<Check>, renotify: int) {
    && (forall i: nat :: i < |run| ==> Step(run, i, renotify))
    && (forall i, j :: 0 <= i < j < |run| ==> run[i].result.checkedAt < run[j].result.checkedAt)
    && (forall i :: 0 <= i < |run| ==> run[i].result.outcome in {NoDrift, DriftFound, CheckError})
  }

  // ---------- what is saved, and what is reported ----------

  /** Check i is the last one before j that had a verdict. */
  ghost predicate LastVerdict(run: seq<Check>, i: nat, j: nat) {
    && i < j <= |run| && run[i].result.outcome != CheckError
    && forall k :: i < k < j ==> run[k].result.outcome == CheckError
  }

  ghost predicate NoVerdict(run: seq<Check>, j: nat) {
    j <= |run| && forall k :: 0 <= k < j ==> run[k].result.outcome == CheckError
  }

  /** The saved outcome and fingerprint are those of the last check that had a verdict, a clean one having
      none; the time of success is its time, and the failures since are counted. */
  lemma {:induction false} SavedIsLastVerdict(run: seq<Check>, j: nat, renotify: int) returns (i: nat)
    requires Run(run, renotify) && j < |run|
    ensures var s := run[j].before;
      if s.lastOutcome == NeverChecked then
        NoVerdict(run, j) && s.fingerprint == "" && s.lastSuccessfulAt.None? && s.consecutiveErrors == j
      else
        && LastVerdict(run, i, j) && s.lastOutcome == run[i].result.outcome
        && s.fingerprint == (if run[i].result.outcome == DriftFound then run[i].result.fingerprint else "")
        && s.lastSuccessfulAt == Some(run[i].result.checkedAt) && s.consecutiveErrors == j - i - 1
    ensures run[j].before.lastCheckedAt == if j == 0 then None else Some(run[j - 1].result.checkedAt)
  {
    i := 0;
    assert Step(run, j, renotify);
    if j > 0 {
      assert Step(run, j - 1, renotify);
      i := SavedIsLastVerdict(run, j - 1, renotify);
      if run[j - 1].result.outcome != CheckError {
        i := j - 1;
      }
    }
  }

  /** The last verdict before j was drift. */
  ghost predicate WasDrifted(run: seq<Check>, j: nat) {
    exists i: nat :: LastVerdict(run, i, j) && run[i].result.outcome == DriftFound
  }

  /** ... of the same shape. */
  ghost predicate WasDriftedAlike(run: seq<Check>, j: nat)
    requires j < |run|
  {
    exists i: nat :: LastVerdict(run, i, j) && run[i].result.outcome == DriftFound && run[i].result.fingerprint == run[j].result.fingerprint
  }

  lemma OneLastVerdict(run: seq<Check>, i: nat, k: nat, j: nat)
    requires LastVerdict(run, i, j) && LastVerdict(run, k, j)
    ensures i == k
  {
  }

  /** What every check reports, over whole runs: drift is ongoing exactly if the last verdict was drift
      with the same fingerprint, and detected otherwise; a clean check resolves exactly if the last
      verdict was drift. */
  lemma EventOf(run: seq<Check>, j: nat, renotify: int)
    requires Run(run, renotify) && j < |run|
    ensures run[j].item.event ==
              match run[j].result.outcome
              case DriftFound => (if WasDriftedAlike(run, j) then Ongoing else Detected)
              case NoDrift => (if WasDrifted(run, j) then Resolved else Silent)
              case _ => CheckFailed
  {
    assert Step(run, j, renotify);
    var i := SavedIsLastVerdict(run, j, renotify);
    forall k: nat | LastVerdict(run, k, j) ensures run[j].before.lastOutcome != NeverChecked && k == i {
      if run[j].before.lastOutcome != NeverChecked {
        OneLastVerdict(run, i, k, j);
      }
    }
    if run[j].before.lastOutcome == DriftFound {
      assert LastVerdict(run, i, j) && run[i].result.outcome == DriftFound;
    }
  }

  // ---------- episodes ----------

  /** Check i opened the episode that is still open just before check j. */
  ghost predicate Opens(run: seq<Check>, i: nat, j: nat) {
    && i < j < |run|
    && run[i].item.event == Detected
    && run[i].before.lastOutcome != DriftFound
    && (forall k :: i < k < j ==> run[k].result.outcome != NoDrift)
  }

  /** While the saved outcome is drift there is an opening check, it was a detection, and the
      recorded episode start is its time; otherwise no episode start is recorded. */
  lemma {:induction false} EpisodeHasStart(run: seq<Check>, j: nat, renotify: int) returns (i: nat)
    requires Run(run, renotify) && j < |run|
    ensures run[j].before.lastOutcome in {NeverChecked, NoDrift, DriftFound}
    ensures run[j].before.lastOutcome != DriftFound ==> run[j].before.ongoingSince.None?
    ensures run[j].before.lastOutcome == DriftFound ==>
              Opens(run, i, j) && run[j].before.ongoingSince == Some(run[i].result.checkedAt)
  {
    i := 0;
    assert Step(run, j, renotify);
    if j > 0 {
      assert Step(run, j - 1, renotify);
      i := EpisodeHasStart(run, j - 1, renotify);
      if run[j - 1].result.outcome == DriftFound && run[j - 1].before.lastOutcome != DriftFound {
        i := j - 1;
      }
    }
  }

  /** Every resolution closes an episode that a detection opened, with no clean check in between. */
  lemma ResolvedClosesEpisode(run: seq<Check>, j: nat, renotify: int)
    requires Run(run, renotify) && j < |run| && run[j].item.event == Resolved
    ensures exists i :: Opens(run, i, j)
  {
    assert Step(run, j, renotify);
    var i := EpisodeHasStart(run, j, renotify);
  }

  lemma {:induction false} StaysDrifted(run: seq<Check>, i: nat, k: nat, renotify: int)
    requires Run(run, renotify) && i < k < |run| && run[i].item.event == Detected
    requires forall m :: i < m < k ==> run[m].result.outcome != NoDrift
    ensures run[k].before.lastOutcome == DriftFound
  {
    assert Step(run, k, renotify) && Step(run, k - 1, renotify);
    if i + 1 < k {
      StaysDrifted(run, i, k - 1, renotify);
    }
  }

  lemma OneStart(run: seq<Check>, i: nat, k: nat, j: nat, renotify: int)
    requires Run(run, renotify) && Opens(run, i, j) && Opens(run, k, j)
    ensures i == k
  {
    if i < k {
      StaysDrifted(run, i, k, renotify);
    } else if k < i {
      StaysDrifted(run, k, i, renotify);
    }
  }

  // ---------- alerts ----------

  /** i is the last alert among the first j checks. */
  ghost predicate LastAlert(run: seq<Check>, i: nat, j: nat) {
    && i < j <= |run| && run[i].item.alerted
    && forall k :: i < k < j ==> !run[k].item.alerted
  }

  /** The notification time is stamped by an alert and by nothing else, and an alert waits for the window. */
  lemma Stamp(prev: State, cur: Result, renotify: int)
    ensures var item := Observe(prev, cur, renotify);
      && item.next.lastNotifiedAt == (if item.alerted then Some(cur.checkedAt) else prev.lastNotifiedAt)
      && (item.alerted && renotify > 0 && prev.lastNotifiedAt.Some? ==> cur.checkedAt - prev.lastNotifiedAt.value >= renotify)
      && (cur.outcome == DriftFound && renotify > 0 && !item.alerted ==>
            prev.lastNotifiedAt.Some? && cur.checkedAt - prev.lastNotifiedAt.value < renotify)
  {
  }

  /** The saved notification time is the time of the last alert. */
  lemma {:induction false} SavedTimeIsLastAlert(run: seq<Check>, j: nat, renotify: int) returns (i: nat)
    requires Run(run, renotify) && j < |run|
    ensures var last := run[j].before.lastNotifiedAt;
            if last.None? then forall k :: 0 <= k < j ==> !run[k].item.alerted
            else LastAlert(run, i, j) && run[i].result.checkedAt == last.value
  {
    i := 0;
    assert Step(run, j, renotify);
    if j > 0 {
      assert Step(run, j - 1, renotify);
      i := SavedTimeIsLastAlert(run, j - 1, renotify);
      Stamp(run[j - 1].before, run[j - 1].result, renotify);
      if run[j - 1].item.alerted {
        i := j - 1;
      }
    }
  }

  /** Damping never lets two alerts come closer than the window. */
  lemma AlertsAreSpaced(run: seq<Check>, i: nat, j: nat, renotify: int)
    requires Run(run, renotify) && renotify > 0 && i < j < |run|
    requires run[i].item.alerted && run[j].item.alerted
    ensures run[j].result.checkedAt - run[i].result.checkedAt >= renotify
  {
    assert Step(run, j, renotify);
    var k := SavedTimeIsLastAlert(run, j, renotify);
    Stamp(run[j].before, run[j].result, renotify);
    assert i <= k;
  }

  /** ... and never lets drift go unannounced for a window: after every drifted check the last
      alert is less than a window old. */
  lemma DriftIsAnnounced(run: seq<Check>, j: nat, renotify: int) returns (i: nat)
    requires Run(run, renotify) && renotify > 0 && j < |run| && run[j].result.outcome == DriftFound
    ensures LastAlert(run, i, j + 1) && run[j].result.checkedAt - run[i].result.checkedAt < renotify
  {
    assert Step(run, j, renotify);
    i := SavedTimeIsLastAlert(run, j, renotify);
    Stamp(run[j].before, run[j].result, renotify);
    if run[j].item.alerted {
      i := j;
    }
  }

  /** A resolution is delivered exactly when its own episode alerted. */
  lemma ResolutionMatchesAlert(run: seq<Check>, start: nat, j: nat, renotify: int)
    requires Run(run, renotify) && renotify > 0 && j < |run|
    requires run[j].item.event == Resolved && Opens(run, start, j)
    ensures run[j].item.notify == Resolved <==> exists i :: start <= i < j && run[i].item.alerted
    ensures run[j].item.notify in {Resolved, Silent}
  {
    assert Step(run, j, renotify) && Step(run, start, renotify);
    var first := EpisodeHasStart(run, j, renotify);
    OneStart(run, first, start, j, renotify);
    var announced := DriftIsAnnounced(run, start, renotify);
    var last := SavedTimeIsLastAlert(run, j, renotify);
    assert run[announced].item.alerted && announced < j;
    assert run[last].result.checkedAt >= run[start].result.checkedAt <==> last >= start;
  }

  /** Exactly when an alert goes out.  With damping off, with every detection; with damping on, with every
      drifted check that comes a window or more after all earlier alerts. */
  lemma AlertIff(run: seq<Check>, j: nat, renotify: int)
    requires Run(run, renotify) && j < |run|
    ensures run[j].item.alerted <==>
              && run[j].result.outcome == DriftFound
              && if renotify <= 0 then !WasDriftedAlike(run, j)
                 else forall i :: 0 <= i < j && run[i].item.alerted ==> run[j].result.checkedAt - run[i].result.checkedAt >= renotify
  {
    assert Step(run, j, renotify);
    EventOf(run, j, renotify);
    var last := SavedTimeIsLastAlert(run, j, renotify);
    Stamp(run[j].before, run[j].result, renotify);
  }

  /** With damping off the channels are told what the check reports, resolutions included. */
  lemma UndampedPassesThrough(run: seq<Check>, j: nat, renotify: int)
    requires Run(run, renotify) && renotify <= 0 && j < |run|
    ensures run[j].item.notify == run[j].item.event
  {
    assert Step(run, j, renotify);
    if run[j].item.event == Resolved {
      var start := EpisodeHasStart(run, j, renotify);
      assert Step(run, start, renotify);
      var last := SavedTimeIsLastAlert(run, j, renotify);
      assert run[start].item.alerted && start <= last;
    }
  }

  /** With damping on, the only drift alert a channel ever sees is drift_detected, it sees one
      exactly when the notification time is stamped, and failed checks are never damped. */
  lemma AlertsAreDetections(run: seq<Check>, i: nat, renotify: int)
    requires Run(run, renotify) && renotify > 0 && i < |run|
    ensures run[i].item.notify == Detected <==> run[i].item.alerted
    ensures run[i].item.notify != Ongoing
    ensures run[i].item.notify == Silent <==>
              match run[i].result.outcome
              case DriftFound => !run[i].item.alerted
              case NoDrift => run[i].item.notify != Resolved
              case _ => false
    ensures run[i].item.notify == CheckFailed <==> run[i].result.outcome == CheckError
  {
    assert Step(run, i, renotify);
  }

  /** The all-clear: check_recovered comes with exactly the first verdict after failed checks. */
  lemma RecoveryFollowsFailure(run: seq<Check>, j: nat, renotify: int)
    requires Run(run, renotify) && j < |run|
    ensures run[j].item.recovered <==>
              run[j].result.outcome != CheckError && j > 0 && run[j - 1].result.outcome == CheckError
  {
    assert Step(run, j, renotify);
    if j > 0 {
      assert Step(run, j - 1, renotify);
    }
  }
}
