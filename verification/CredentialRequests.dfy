/** What requests to the credential cache of internal/auth/cache.go are answered: when a cached
    credential is handed out, what becomes of an acquisition, and what those who joined it get. */
module CredentialRequests {
  import opened Base
  import opened CredentialCache

  /** It has no expiry, or one later than the margin from now. */
  predicate LastsFrom(c: Credential, now: int, margin: int) {
    c.expiresAt.Some? ==> c.expiresAt.value - now > margin
  }

  /** The credential that is cached under a name and lasts. */
  predicate Serves(s: State, name: string, c: nat) {
    && name in s.entries && s.entries[name].credential == Some(c)
    && c in s.issued && LastsFrom(s.issued[c].value, s.now, s.margin)
  }

  /** Some request for that name is working on this attempt. */
  ghost predicate Working(s: State, name: string, a: nat) {
    exists r :: r in s.requests && s.requests[r].name == name && Owns(s.requests[r].pc) && s.requests[r].pc.attempt == a
  }

  /** An attempt is entered under its name as long as somebody works on it, and no longer. */
  lemma {:induction false} AttemptInFlight(s0: State, steps: seq<Step>, s: State, name: string, a: nat)
    requires Init(s0) && Reachable(s0, steps, s)
    ensures EntryOf(s, name).attempt == Some(a) <==> Working(s, name, a)
  {
    RunGrows(s0, steps, s);
    RunKeepsAttended(s0, steps, s);
    if EntryOf(s, name).attempt == Some(a) {
      assert EntryInv(s, name) && Attended(s, a);
      assert RequestInv(s, s.attempts[a].owner);
    }
    if r :| r in s.requests && s.requests[r].name == name && Owns(s.requests[r].pc) && s.requests[r].pc.attempt == a {
      assert RequestInv(s, r);
    }
  }

  /** What a request finds.  A closed cache fails it, and only that does; a cached credential that lasts
      is handed to it, without its cleanup; otherwise it joins whoever is working on that name, or
      starts an attempt if nobody is.  Only then does anything change. */
  lemma {:induction false} EnterDecides(s0: State, steps: seq<Step>, s: State, r: nat, a: nat)
    requires Init(s0) && Reachable(s0, steps, s) && Enabled(s, Enter(r, a))
    ensures var name, s' := s.requests[r].name, Next(s, Enter(r, a));
      && (match s'.requests[r].pc
          case Finished(Failed) => s.closed
          case Finished(Handed(value, c)) => !s.closed && Serves(s, name, c) && value == s.issued[c].value.(cleanup := false)
          case Waiting(b) => !s.closed && Working(s, name, b) && forall c :: !Serves(s, name, c)
          case Reserved(b) => !s.closed && b == a && (forall c :: !Working(s, name, c)) && forall c :: !Serves(s, name, c)
          case _ => false)
      && (!s'.requests[r].pc.Reserved? ==> s' == s.(requests := s'.requests))
  {
    var name := s.requests[r].name;
    forall b: nat ensures EntryOf(s, name).attempt == Some(b) <==> Working(s, name, b) {
      AttemptInFlight(s0, steps, s, name, b);
    }
    RunGrows(s0, steps, s);
    if name in s.entries {
      assert EntryInv(s, name);
    }
  }

  // ---------- what steps preserve ----------

  /** Attempts and credentials keep what they were born with, a finished attempt keeps everything, and
      time only advances. */
  ghost predicate Persists(s: State, s': State) {
    && (forall a :: a in s.attempts ==> a in s'.attempts && s'.attempts[a].startGeneration == s.attempts[a].startGeneration)
    && (forall a :: a in s.attempts && s.attempts[a].done ==> s'.attempts[a] == s.attempts[a])
    && (forall c :: c in s.issued ==> c in s'.issued && s'.issued[c].value == s.issued[c].value)
    && s.now <= s'.now && s.margin == s'.margin && (s.closed ==> s'.closed)
  }

  lemma SettlePersists(s: State, r: nat)
    requires Inv(s) && Enabled(s, Settle(r))
    ensures Persists(s, Next(s, Settle(r)))
  {
    assert RequestInv(s, r);
  }

  lemma UnwindPersists(s: State, r: nat)
    requires Inv(s) && Enabled(s, Unwind(r))
    ensures Persists(s, DoUnwind(s, r))
  {
    assert RequestInv(s, r);
  }

  lemma ReturnPersists(s: State, r: nat, c: nat, outcome: Outcome)
    requires Enabled(s, Return(r, c, outcome))
    ensures Persists(s, DoReturn(s, r, c, outcome))
  {
  }

  lemma EnterPersists(s: State, r: nat, a: nat)
    requires Enabled(s, Enter(r, a))
    ensures Persists(s, DoEnter(s, r, a))
  {
  }

  lemma ClosePersists(s: State, step: Step)
    requires Enabled(s, step) && (step.Close? || step.CloseCleans? || step.InvalidateAll? || step.Tick? || step.Begin? || step.Wake?)
    ensures Persists(s, Next(s, step))
  {
  }

  lemma StepPersists(s: State, step: Step)
    requires Inv(s) && Enabled(s, step)
    ensures Persists(s, Next(s, step))
  {
    match step
    case Settle(r) => SettlePersists(s, r);
    case Unwind(r) => UnwindPersists(s, r);
    case Return(r, c, outcome) => ReturnPersists(s, r, c, outcome);
    case Enter(r, a) => EnterPersists(s, r, a);
    case Call(_) =>
    case Cancel(_) =>
    case _ => ClosePersists(s, step);
  }

  lemma {:induction false} RunPersists(s0: State, steps: seq<Step>, s: State)
    requires Inv(s0) && Reachable(s0, steps, s)
    ensures Persists(s0, s)
    decreases |steps|
  {
    if steps != [] {
      StepPersists(s0, steps[0]);
      StepKeepsInv(s0, steps[0]);
      RunPersists(Next(s0, steps[0]), steps[1..], s);
    }
  }

  // ---------- what becomes of an acquisition ----------

  /** The provider succeeded: a credential, no error next to it, and it lasts. */
  predicate Succeeds(outcome: Outcome, now: int, margin: int) {
    outcome.Got? && !outcome.withError && LastsFrom(outcome.value, now, margin)
  }

  /** From the start of an attempt to its end, with anything happening in between.  The request is handed
      what the provider returned exactly if the cache is open, the provider succeeded, and nothing was
      invalidated since the attempt began; if only that went wrong it tries again, and otherwise it
      fails. */
  lemma {:induction false} AcquisitionDecides(s0: State, r: nat, a: nat, waiting: seq<Step>, s1: State, c: nat, outcome: Outcome,
                             meanwhile: seq<Step>, s2: State)
    requires Inv(s0) && Enabled(s0, Enter(r, a)) && Next(s0, Enter(r, a)).requests[r].pc == Reserved(a)
    requires Reachable(Next(s0, Enter(r, a)), waiting, s1)
    requires Enabled(s1, Return(r, c, outcome)) && s1.requests[r].pc.attempt == a
    requires Reachable(Next(s1, Return(r, c, outcome)), meanwhile, s2)
    requires r in s2.requests && s2.requests[r].pc == Next(s1, Return(r, c, outcome)).requests[r].pc
    ensures Enabled(s2, Settle(r))
    ensures Next(s2, Settle(r)).requests[r].pc ==
              if s2.closed then Unwinding(a)
              else if !Succeeds(outcome, s1.now, s1.margin) then Finished(Failed)
              else if s2.generation != s0.generation then Looping
              else Finished(Handed(outcome.value.(cleanup := false), c))
  {
    AttemptReaches(s0, r, a, waiting, s1);
    SettleAfterReturn(s0.generation, s1, r, a, c, outcome, meanwhile, s2);
  }

  /** Up to the return of the provider the attempt keeps the generation it began in. */
  lemma {:induction false} AttemptReaches(s0: State, r: nat, a: nat, waiting: seq<Step>, s1: State)
    requires Inv(s0) && Enabled(s0, Enter(r, a)) && Next(s0, Enter(r, a)).requests[r].pc == Reserved(a)
    requires Reachable(Next(s0, Enter(r, a)), waiting, s1)
    ensures Inv(s1) && a in s1.attempts && s1.attempts[a].startGeneration == s0.generation
  {
    var t0 := Next(s0, Enter(r, a));
    StepKeepsInv(s0, Enter(r, a));
    RunGrows(t0, waiting, s1);
    RunPersists(t0, waiting, s1);
    assert t0.attempts[a].startGeneration == s0.generation;
  }

  lemma {:induction false} SettleAfterReturn(g: nat, s1: State, r: nat, a: nat, c: nat, outcome: Outcome, meanwhile: seq<Step>, s2: State)
    requires Inv(s1) && a in s1.attempts && s1.attempts[a].startGeneration == g
    requires Enabled(s1, Return(r, c, outcome)) && s1.requests[r].pc.attempt == a
    requires Reachable(Next(s1, Return(r, c, outcome)), meanwhile, s2)
    requires r in s2.requests && s2.requests[r].pc == Next(s1, Return(r, c, outcome)).requests[r].pc
    ensures Enabled(s2, Settle(r))
    ensures Next(s2, Settle(r)).requests[r].pc ==
              if s2.closed then Unwinding(a)
              else if !Succeeds(outcome, s1.now, s1.margin) then Finished(Failed)
              else if s2.generation != g then Looping
              else Finished(Handed(outcome.value.(cleanup := false), c))
  {
    var t1 := Next(s1, Return(r, c, outcome));
    StepKeepsInv(s1, Return(r, c, outcome));
    ReturnPersists(s1, r, c, outcome);
    RunGrows(t1, meanwhile, s2);
    RunPersists(t1, meanwhile, s2);
    ReturnedWhat(s1, r, c, outcome);
    SettleAnswers(s2, r);
  }

  lemma ReturnedWhat(s: State, r: nat, c: nat, outcome: Outcome)
    requires Enabled(s, Return(r, c, outcome))
    ensures var t := Next(s, Return(r, c, outcome));
      && t.requests[r].pc == Returned(s.requests[r].pc.attempt, if Succeeds(outcome, s.now, s.margin) then Some(c) else None)
      && (outcome.Got? ==> c in t.issued && t.issued[c].value == outcome.value)
  {
  }

  lemma SettleAnswers(s: State, r: nat)
    requires Inv(s) && r in s.requests && s.requests[r].pc.Returned?
    ensures Enabled(s, Settle(r))
    ensures var a, got := s.requests[r].pc.attempt, s.requests[r].pc.credential;
      Next(s, Settle(r)).requests[r].pc ==
        if s.closed then Unwinding(a)
        else if got.None? then Finished(Failed)
        else if s.generation != s.attempts[a].startGeneration then Looping
        else Finished(Handed(s.issued[got.value].value.(cleanup := false), got.value))
  {
    assert RequestInv(s, r);
  }

  /** The attempt ends, with its answer to the request that worked on it. */
  predicate Ends(s: State, step: Step) {
    Enabled(s, step) && ((step.Settle? && !s.closed) || step.Unwind?)
  }

  /** Whoever waits for an attempt gets the same answer as the request that worked on it: the same
      credential, the failure, or another try. */
  lemma {:induction false} JoinersGetTheSame(s: State, step: Step, steps: seq<Step>, s2: State, w: nat)
    requires Inv(s) && Ends(s, step) && Reachable(Next(s, step), steps, s2)
    requires w in s2.requests && s2.requests[w].pc == Waiting(s.requests[step.r].pc.attempt)
    ensures Enabled(s2, Wake(w))
    ensures Next(s2, Wake(w)).requests[w].pc == Next(s, step).requests[step.r].pc
  {
    assert RequestInv(s, step.r);
    StepKeepsInv(s, step);
    RunPersists(Next(s, step), steps, s2);
  }

  // ---------- reuse ----------

  ghost predicate Holds(s: State, name: string, c: nat) {
    Inv(s) && name in s.entries && s.entries[name] == Entry(Some(c), None) && c in s.issued
  }

  /** A cached credential that lasts is neither dropped nor replaced without an invalidation. */
  lemma StepHolds(s: State, step: Step, name: string, c: nat)
    requires Holds(s, name, c) && Enabled(s, step) && Next(s, step).generation == s.generation
    requires LastsFrom(s.issued[c].value, s.now, s.margin)
    ensures Holds(Next(s, step), name, c)
  {
    StepKeepsInv(s, step);
    match step
    case Settle(r) => OwnerHasOtherName(s, r, name);
    case Unwind(r) => OwnerHasOtherName(s, r, name);
    case Return(_, _, _) =>
    case Enter(r, a) => EnterKeepsEntry(s, r, a, name, c);
    case CloseCleans =>
    case _ =>
  }

  lemma OwnerHasOtherName(s: State, r: nat, name: string)
    requires Inv(s) && r in s.requests && Owns(s.requests[r].pc) && name in s.entries && s.entries[name].attempt.None?
    ensures s.requests[r].name != name
  {
    assert RequestInv(s, r);
  }

  lemma EnterKeepsEntry(s: State, r: nat, a: nat, name: string, c: nat)
    requires Enabled(s, Enter(r, a)) && name in s.entries && s.entries[name] == Entry(Some(c), None) && c in s.issued
    requires LastsFrom(s.issued[c].value, s.now, s.margin)
    ensures var s' := DoEnter(s, r, a); name in s'.entries && s'.entries[name] == s.entries[name] && c in s'.issued
  {
  }

  lemma {:induction false} RunHolds(s0: State, steps: seq<Step>, s: State, name: string, c: nat)
    requires Holds(s0, name, c) && Reachable(s0, steps, s) && s.generation == s0.generation
    requires LastsFrom(s0.issued[c].value, s.now, s.margin)
    ensures Holds(s, name, c)
    decreases |steps|
  {
    if steps != [] {
      var s1 := Next(s0, steps[0]);
      RunPersists(s0, steps, s);
      StepKeepsInv(s0, steps[0]);
      StepGrows(s0, steps[0]);
      StepPersists(s0, steps[0]);
      RunGrows(s1, steps[1..], s);
      StepHolds(s0, steps[0], name, c);
      RunHolds(s1, steps[1..], s, name, c);
    }
  }

  /** One provider call serves everybody: once a request was handed what its provider returned, every
      later request for that name is handed the same at once, as long as the cache is open, nothing was
      invalidated, and the credential lasts. */
  lemma {:induction false} CachedCredentialIsReused(s0: State, r: nat, steps: seq<Step>, s: State, r2: nat, a2: nat)
    requires Inv(s0) && Enabled(s0, Settle(r)) && Reachable(Next(s0, Settle(r)), steps, s)
    requires var pc := Next(s0, Settle(r)).requests[r].pc;
             pc.Finished? && pc.result.Handed? && LastsFrom(pc.result.value, s.now, s.margin)
    requires s.generation == s0.generation && !s.closed
    requires Enabled(s, Enter(r2, a2)) && s.requests[r2].name == s0.requests[r].name
    ensures Next(s, Enter(r2, a2)) == Goto(s, r2, Next(s0, Settle(r)).requests[r].pc)
  {
    var s1, name := Next(s0, Settle(r)), s0.requests[r].name;
    var c := s1.requests[r].pc.result.origin;
    assert RequestInv(s0, r);
    StepKeepsInv(s0, Settle(r));
    RunPersists(s1, steps, s);
    RunHolds(s1, steps, s, name, c);
  }

  /** The generation counts the invalidations of an open cache, and only Close closes it. */
  lemma GenerationCounts(s: State, step: Step)
    requires Enabled(s, step)
    ensures Next(s, step).generation == s.generation + (if step.InvalidateAll? && !s.closed then 1 else 0)
    ensures Next(s, step).closed <==> s.closed || step.Close?
  {
  }
}
