/** The single-flight credential cache of internal/auth/cache.go under concurrency.

    Each step is one section that the code runs under its mutex, one provider call
    boundary, one cleanup call of Close, or a context cancellation; any number of requests
    interleave.  Credentials and attempts are named by numbers, a fresh one for each value
    the code allocates. */
module CredentialCache {
  import opened Base

  datatype Credential = Credential(
    env: map<string, string>, kind: string, source: string,
    expiresAt: Option<int>, cleanup: bool)

  /** cloneCredential: the copy handed to consumers never carries the cleanup. */
  function Clone(c: Credential): Credential {
    Credential(c.env, c.kind, c.source, c.expiresAt, false)
  }

  predicate Usable(c: Credential, now: int, margin: int) {
    c.expiresAt.None? || c.expiresAt.value > now + margin
  }

  function Weight(c: Credential): nat {
    if c.cleanup then 1 else 0
  }

  /** Where the responsibility for cleaning a credential lies. */
  datatype Place = InHand(request: nat) | Owned | Discarded

  /** A credential some provider returned; began is the generation when that call began. */
  datatype Issued = Issued(name: string, value: Credential, began: nat, place: Place, cleanups: nat)

  datatype Attempt = Attempt(
    name: string, owner: nat, startGeneration: nat,
    done: bool, failed: bool, retry: bool, credential: Option<nat>)

  datatype Entry = Entry(credential: Option<nat>, attempt: Option<nat>)

  datatype Result = Handed(value: Credential, origin: nat) | Failed

  datatype Pc =
    | Looping                                           // about to lock
    | Waiting(attempt: nat)                             // joined another request's attempt
    | Reserved(attempt: nat)                            // owns the attempt, lock released
    | Calling(attempt: nat, began: nat)                 // inside provider.Acquire
    | Returned(attempt: nat, credential: Option<nat>)   // provider done; None after a failure
    | Unwinding(attempt: nat)                           // found the cache closed
    | Finished(result: Result)

  /** since is the generation when the request began. */
  datatype Request = Request(name: string, since: nat, pc: Pc)

  datatype Closer = Open | Cleaning(left: seq<nat>) | Closed

  datatype State = State(
    margin: int, now: int,
    generation: nat, closed: bool, owned: seq<nat>,
    entries: map<string, Entry>, attempts: map<nat, Attempt>,
    issued: map<nat, Issued>, requests: map<nat, Request>,
    closer: Closer)

  /** What a provider may return: nothing, or a credential with or without an error. */
  datatype Outcome = NoCredential | Got(value: Credential, withError: bool)

  datatype Step =
    | Tick(t: int)
    | Begin(r: nat, name: string)
    | Enter(r: nat, a: nat)
    | Call(r: nat)
    | Return(r: nat, c: nat, outcome: Outcome)
    | Settle(r: nat)
    | Unwind(r: nat)
    | Wake(r: nat)
    | Cancel(r: nat)
    | InvalidateAll
    | Close
    | CloseCleans

  function EntryOf(s: State, name: string): Entry {
    if name in s.entries then s.entries[name] else Entry(None, None)
  }


  predicate Enabled(s: State, step: Step) {
    match step
    case Tick(t) => s.now <= t
    case Begin(r, name) => r !in s.requests
    case Enter(r, a) => r in s.requests && s.requests[r].pc.Looping? && a !in s.attempts
    case Call(r) => r in s.requests && s.requests[r].pc.Reserved?
    case Return(r, c, _) => r in s.requests && s.requests[r].pc.Calling? && c !in s.issued
    case Settle(r) =>
      && r in s.requests && s.requests[r].pc.Returned? && s.requests[r].pc.attempt in s.attempts
      && (s.requests[r].pc.credential.Some? ==> s.requests[r].pc.credential.value in s.issued)
    case Unwind(r) =>
      r in s.requests && s.requests[r].pc.Unwinding? && s.requests[r].pc.attempt in s.attempts
    case Wake(r) =>
      && r in s.requests && s.requests[r].pc.Waiting?
      && s.requests[r].pc.attempt in s.attempts && s.attempts[s.requests[r].pc.attempt].done
    case Cancel(r) => r in s.requests && s.requests[r].pc.Waiting?
    case InvalidateAll => true
    case Close => s.closer.Open?
    case CloseCleans =>
      && s.closer.Cleaning?
      && (s.closer.left != [] ==> s.closer.left[|s.closer.left| - 1] in s.issued)
  }

  function Goto(s: State, r: nat, pc: Pc): State
    requires r in s.requests
  {
    s.(requests := s.requests[r := s.requests[r].(pc := pc)])
  }

  function Hand(s: State, c: nat): Result {
    if c in s.issued then Handed(Clone(s.issued[c].value), c) else Failed
  }

  function Clean(i: Issued): Issued {
    i.(cleanups := i.cleanups + Weight(i.value))
  }

  /** Start a new attempt and become its owner. */
  function Reserve(s: State, r: nat, a: nat): State
    requires r in s.requests
  {
    var name := s.requests[r].name;
    Goto(s, r, Reserved(a)).(
      attempts := s.attempts[a := Attempt(name, r, s.generation, false, false, false, None)],
      entries := s.entries[name := EntryOf(s, name).(attempt := Some(a))])
  }

  /** The first locked section of acquireOne. */
  function DoEnter(s: State, r: nat, a: nat): State
    requires Enabled(s, Enter(r, a))
  {
    var name := s.requests[r].name;
    var e := EntryOf(s, name);
    if s.closed then Goto(s, r, Finished(Failed))
    else if e.credential.Some? && e.credential.value in s.issued
         && Usable(s.issued[e.credential.value].value, s.now, s.margin)
    then Goto(s, r, Finished(Hand(s, e.credential.value)))
    else if e.attempt.Some? then Goto(s, r, Waiting(e.attempt.value))
    else Reserve(s, r, a)
  }

  /** The provider returns.  A failure is cleaned up at once, outside the lock. */
  function DoReturn(s: State, r: nat, c: nat, outcome: Outcome): State
    requires Enabled(s, Return(r, c, outcome))
  {
    var q := s.requests[r];
    match outcome
    case NoCredential => Goto(s, r, Returned(q.pc.attempt, None))
    case Got(value, withError) =>
      if withError || !Usable(value, s.now, s.margin) then
        Goto(s, r, Returned(q.pc.attempt, None)).(
          issued := s.issued[c := Issued(q.name, value, q.pc.began, Discarded, Weight(value))])
      else
        Goto(s, r, Returned(q.pc.attempt, Some(c))).(
          issued := s.issued[c := Issued(q.name, value, q.pc.began, InHand(r), 0)])
  }

  /** The second locked section, cache still open. */
  function DoSettleOpen(s: State, r: nat): State
    requires Enabled(s, Settle(r)) && !s.closed
  {
    var q := s.requests[r];
    var a, got := q.pc.attempt, q.pc.credential;
    var stale := s.generation != s.attempts[a].startGeneration;
    var e := EntryOf(s, q.name);
    var entry' := Entry(if got.Some? && !stale then got else e.credential,
                        if e.attempt == Some(a) then None else e.attempt);
    var attempt' := s.attempts[a].(done := true, failed := got.None?, retry := got.Some? && stale,
                                   credential := if got.Some? && !stale then got else None);
    var pc' := if got.None? then Finished(Failed)
               else if stale then Looping
               else Finished(Hand(s, got.value));
    Goto(s, r, pc').(
      owned := if got.Some? then s.owned + [got.value] else s.owned,
      issued := if got.Some? then s.issued[got.value := s.issued[got.value].(place := Owned)] else s.issued,
      entries := s.entries[q.name := entry'],
      attempts := s.attempts[a := attempt'])
  }

  /** The second locked section, cache closed meanwhile: unlock and clean. */
  function DoSettleClosed(s: State, r: nat): State
    requires Enabled(s, Settle(r)) && s.closed
  {
    var a, got := s.requests[r].pc.attempt, s.requests[r].pc.credential;
    Goto(s, r, Unwinding(a)).(
      issued := if got.Some? then s.issued[got.value := Clean(s.issued[got.value]).(place := Discarded)] else s.issued)
  }

  function DoUnwind(s: State, r: nat): State
    requires Enabled(s, Unwind(r))
  {
    var q := s.requests[r];
    var a, e := q.pc.attempt, EntryOf(s, q.name);
    Goto(s, r, Finished(Failed)).(
      entries := s.entries[q.name := e.(attempt := if e.attempt == Some(a) then None else e.attempt)],
      attempts := s.attempts[a := s.attempts[a].(done := true, failed := true, retry := false, credential := None)])
  }

  function DoWake(s: State, r: nat): State
    requires Enabled(s, Wake(r))
  {
    var t := s.attempts[s.requests[r].pc.attempt];
    Goto(s, r, if t.failed then Finished(Failed)
               else if t.retry then Looping
               else if t.credential.Some? then Finished(Hand(s, t.credential.value))
               else Finished(Failed))
  }

  function DoInvalidate(s: State): State {
    if s.closed then s
    else s.(entries := map name | name in s.entries :: s.entries[name].(credential := None),
            generation := s.generation + 1)
  }

  function DoCloseCleans(s: State): State
    requires Enabled(s, CloseCleans)
  {
    var left := s.closer.left;
    if left == [] then s.(closer := Closed)
    else
      var n := |left| - 1;
      s.(closer := Cleaning(left[..n]), issued := s.issued[left[n] := Clean(s.issued[left[n]])])
  }

  function Next(s: State, step: Step): State
    requires Enabled(s, step)
  {
    match step
    case Tick(t) => s.(now := t)
    case Begin(r, name) => s.(requests := s.requests[r := Request(name, s.generation, Looping)])
    case Enter(r, a) => DoEnter(s, r, a)
    case Call(r) => Goto(s, r, Calling(s.requests[r].pc.attempt, s.generation))
    case Return(r, c, outcome) => DoReturn(s, r, c, outcome)
    case Settle(r) => if s.closed then DoSettleClosed(s, r) else DoSettleOpen(s, r)
    case Unwind(r) => DoUnwind(s, r)
    case Wake(r) => DoWake(s, r)
    case Cancel(r) => Goto(s, r, Finished(Failed))
    case InvalidateAll => DoInvalidate(s)
    case Close => s.(closed := true, closer := Cleaning(s.owned))
    case CloseCleans => DoCloseCleans(s)
  }

  // ---------- invariant ----------

  predicate Owns(pc: Pc) {
    pc.Reserved? || pc.Calling? || pc.Returned? || pc.Unwinding?
  }

  ghost predicate RequestInv(s: State, r: nat)
    requires r in s.requests
  {
    var q := s.requests[r];
    && q.since <= s.generation
    && (Owns(q.pc) ==>
          && q.pc.attempt in s.attempts
          && var t := s.attempts[q.pc.attempt];
          && t.owner == r && t.name == q.name && !t.done
          && q.since <= t.startGeneration <= s.generation
          && EntryOf(s, q.name).attempt == Some(q.pc.attempt)
          && (q.pc.Calling? ==> t.startGeneration <= q.pc.began <= s.generation)
          && (q.pc.Unwinding? ==> s.closed)
          && (q.pc.Returned? && q.pc.credential.Some? ==>
                && q.pc.credential.value in s.issued
                && var i := s.issued[q.pc.credential.value];
                i.place == InHand(r) && i.name == q.name && t.startGeneration <= i.began <= s.generation))
    && (q.pc.Waiting? ==>
          && q.pc.attempt in s.attempts
          && var t := s.attempts[q.pc.attempt];
          && t.name == q.name
          && (t.done && !t.failed && !t.retry ==> t.credential.Some? && Fresh(s, t.credential.value, q)))
    && (q.pc.Finished? && q.pc.result.Handed? ==>
          && Fresh(s, q.pc.result.origin, q)
          && q.pc.result.value == Clone(s.issued[q.pc.result.origin].value))
  }

  /** c came from the request's own provider, by a call that began after the request's
      last preceding invalidation, and the cache owns it. */
  ghost predicate Fresh(s: State, c: nat, q: Request) {
    c in s.issued && s.issued[c].name == q.name && q.since <= s.issued[c].began && s.issued[c].place.Owned?
  }

  ghost predicate EntryInv(s: State, name: string)
    requires name in s.entries
  {
    var e := s.entries[name];
    && (e.attempt.Some? ==>
          && e.attempt.value in s.attempts
          && s.attempts[e.attempt.value].name == name && !s.attempts[e.attempt.value].done)
    && (e.credential.Some? ==>
          && e.credential.value in s.issued
          && var i := s.issued[e.credential.value];
          i.name == name && i.place.Owned? && s.generation <= i.began)
  }

  /** How often a credential's cleanup has run, according to where it is. */
  ghost predicate IssuedInv(s: State, c: nat)
    requires c in s.issued
  {
    var i := s.issued[c];
    && i.began <= s.generation
    && match i.place
       case InHand(r) =>
         && i.cleanups == 0 && c !in s.owned
         && r in s.requests && s.requests[r].pc.Returned? && s.requests[r].pc.credential == Some(c)
       case Owned =>
         && c in s.owned
         && i.cleanups == if s.closer.Open? || (s.closer.Cleaning? && c in s.closer.left) then 0 else Weight(i.value)
       case Discarded => i.cleanups == Weight(i.value) && c !in s.owned
  }

  ghost predicate OwnedInv(s: State) {
    && (forall k :: 0 <= k < |s.owned| ==> s.owned[k] in s.issued && s.issued[s.owned[k]].place.Owned?)
    && (forall j, k :: 0 <= j < k < |s.owned| ==> s.owned[j] != s.owned[k])
    && s.closed == !s.closer.Open?
    && (s.closer.Cleaning? ==> |s.closer.left| <= |s.owned| && s.closer.left == s.owned[..|s.closer.left|])
  }

  ghost predicate RequestsInv(s: State) {
    forall r :: r in s.requests ==> RequestInv(s, r)
  }

  ghost predicate EntriesInv(s: State) {
    forall name :: name in s.entries ==> EntryInv(s, name)
  }

  ghost predicate IssuesInv(s: State) {
    forall c :: c in s.issued ==> IssuedInv(s, c)
  }

  ghost predicate Inv(s: State) {
    RequestsInv(s) && EntriesInv(s) && IssuesInv(s) && OwnedInv(s)
  }

  lemma SettleOpenKeepsRequests(s: State, r: nat)
    requires Inv(s) && Enabled(s, Settle(r)) && !s.closed
    ensures RequestsInv(Next(s, Settle(r)))
  {
    var s' := Next(s, Settle(r));
    assert RequestInv(s, r);
    forall k | k in s'.requests ensures RequestInv(s', k) {
      assert RequestInv(s, k);
    }
  }

  lemma SettleOpenKeepsInv(s: State, r: nat)
    requires Inv(s) && Enabled(s, Settle(r)) && !s.closed
    ensures Inv(Next(s, Settle(r)))
  {
    var s' := Next(s, Settle(r));
    SettleOpenKeepsRequests(s, r);
    assert RequestInv(s, r);
    forall name | name in s'.entries ensures EntryInv(s', name) {
      assert name in s.entries ==> EntryInv(s, name);
    }
    forall c | c in s'.issued ensures IssuedInv(s', c) {
      assert IssuedInv(s, c);
    }
  }

  lemma SettleClosedKeepsRequests(s: State, r: nat)
    requires Inv(s) && Enabled(s, Settle(r)) && s.closed
    ensures RequestsInv(DoSettleClosed(s, r))
  {
    var s' := DoSettleClosed(s, r);
    assert RequestInv(s, r);
    forall k | k in s'.requests ensures RequestInv(s', k) {
      assert RequestInv(s, k);
    }
  }

  lemma SettleClosedKeepsIssues(s: State, r: nat)
    requires Inv(s) && Enabled(s, Settle(r)) && s.closed
    ensures IssuesInv(DoSettleClosed(s, r))
  {
    var s' := DoSettleClosed(s, r);
    assert RequestInv(s, r);
    forall c | c in s'.issued ensures IssuedInv(s', c) {
      assert IssuedInv(s, c);
    }
  }

  lemma SettleClosedKeepsInv(s: State, r: nat)
    requires Inv(s) && Enabled(s, Settle(r)) && s.closed
    ensures Inv(DoSettleClosed(s, r))
  {
    var s' := DoSettleClosed(s, r);
    SettleClosedKeepsRequests(s, r);
    SettleClosedKeepsIssues(s, r);
    assert RequestInv(s, r);
    forall name | name in s'.entries ensures EntryInv(s', name) {
      assert EntryInv(s, name);
    }
  }

  lemma UnwindKeepsInv(s: State, r: nat)
    requires Inv(s) && Enabled(s, Unwind(r))
    ensures Inv(Next(s, Unwind(r)))
  {
    var s' := Next(s, Unwind(r));
    forall k | k in s'.requests ensures RequestInv(s', k) {
      assert k in s.requests ==> RequestInv(s, k);
      assert RequestInv(s, r);
    }
    forall name | name in s'.entries ensures EntryInv(s', name) {
      assert name in s.entries ==> EntryInv(s, name);
      assert RequestInv(s, r);
    }
    forall c | c in s'.issued ensures IssuedInv(s', c) {
      assert c in s.issued ==> IssuedInv(s, c);
    }
  }

  /** Moving one request along, when that request holds no credential. */
  lemma GotoKeepsInv(s: State, r: nat, pc: Pc)
    requires Inv(s) && r in s.requests && !s.requests[r].pc.Returned?
    requires RequestInv(Goto(s, r, pc), r)
    ensures Inv(Goto(s, r, pc))
  {
    var s' := Goto(s, r, pc);
    forall k | k in s'.requests ensures RequestInv(s', k) {
      assert RequestInv(s, k);
    }
    forall name | name in s'.entries ensures EntryInv(s', name) {
      assert EntryInv(s, name);
    }
    forall c | c in s'.issued ensures IssuedInv(s', c) {
      assert IssuedInv(s, c);
    }
  }

  lemma ReserveKeepsRequests(s: State, r: nat, a: nat)
    requires RequestsInv(s) && Enabled(s, Enter(r, a)) && EntryOf(s, s.requests[r].name).attempt.None?
    ensures RequestsInv(Reserve(s, r, a))
  {
  }

  lemma ReserveKeepsInv(s: State, r: nat, a: nat)
    requires Inv(s) && Enabled(s, Enter(r, a)) && EntryOf(s, s.requests[r].name).attempt.None?
    ensures Inv(Reserve(s, r, a))
  {
    var s' := Reserve(s, r, a);
    ReserveKeepsRequests(s, r, a);
    forall name | name in s'.entries ensures EntryInv(s', name) {
      assert name in s.entries ==> EntryInv(s, name);
    }
    forall c | c in s'.issued ensures IssuedInv(s', c) {
      assert IssuedInv(s, c);
    }
  }

  lemma EnterKeepsInv(s: State, r: nat, a: nat)
    requires Inv(s) && Enabled(s, Enter(r, a))
    ensures Inv(DoEnter(s, r, a))
  {
    var name := s.requests[r].name;
    assert RequestInv(s, r);
    assert name in s.entries ==> EntryInv(s, name);
    var pc := DoEnter(s, r, a).requests[r].pc;
    if pc.Reserved? {
      ReserveKeepsInv(s, r, a);
    } else {
      GotoKeepsInv(s, r, pc);
    }
  }

  /** A provider call ends: the new credential is in one place, with the matching count. */
  lemma IssueKeepsInv(s: State, c: nat, i: Issued)
    requires Inv(s) && c !in s.issued && i.began <= s.generation
    requires i.place.Discarded? && i.cleanups == Weight(i.value)
    ensures Inv(s.(issued := s.issued[c := i]))
  {
  }

  lemma ReceiveKeepsRequests(s: State, r: nat, c: nat, value: Credential)
    requires Inv(s) && Enabled(s, Return(r, c, Got(value, false))) && Usable(value, s.now, s.margin)
    ensures RequestsInv(DoReturn(s, r, c, Got(value, false)))
  {
    var s' := DoReturn(s, r, c, Got(value, false));
    assert RequestInv(s, r);
    forall k | k in s'.requests ensures RequestInv(s', k) {
      assert RequestInv(s, k);
    }
  }

  lemma ReceiveKeepsIssues(s: State, r: nat, c: nat, value: Credential)
    requires Inv(s) && Enabled(s, Return(r, c, Got(value, false))) && Usable(value, s.now, s.margin)
    ensures IssuesInv(DoReturn(s, r, c, Got(value, false)))
  {
    var s' := DoReturn(s, r, c, Got(value, false));
    assert RequestInv(s, r);
    forall k | k in s'.issued ensures IssuedInv(s', k) {
      assert k in s.issued ==> IssuedInv(s, k);
    }
  }

  lemma ReceiveKeepsInv(s: State, r: nat, c: nat, value: Credential)
    requires Inv(s) && Enabled(s, Return(r, c, Got(value, false))) && Usable(value, s.now, s.margin)
    ensures Inv(DoReturn(s, r, c, Got(value, false)))
  {
    var s' := DoReturn(s, r, c, Got(value, false));
    ReceiveKeepsRequests(s, r, c, value);
    ReceiveKeepsIssues(s, r, c, value);
    forall name | name in s'.entries ensures EntryInv(s', name) {
      assert EntryInv(s, name);
    }
  }

  lemma ReturnKeepsInv(s: State, r: nat, c: nat, outcome: Outcome)
    requires Inv(s) && Enabled(s, Return(r, c, outcome))
    ensures Inv(DoReturn(s, r, c, outcome))
  {
    assert RequestInv(s, r);
    var q := s.requests[r];
    if outcome.Got? && !outcome.withError && Usable(outcome.value, s.now, s.margin) {
      ReceiveKeepsInv(s, r, c, outcome.value);
    } else {
      GotoKeepsInv(s, r, Returned(q.pc.attempt, None));
      if outcome.Got? {
        IssueKeepsInv(Goto(s, r, Returned(q.pc.attempt, None)), c,
                      Issued(q.name, outcome.value, q.pc.began, Discarded, Weight(outcome.value)));
      }
    }
  }

  lemma BeginKeepsInv(s: State, r: nat, name: string)
    requires Inv(s) && Enabled(s, Begin(r, name))
    ensures Inv(Next(s, Begin(r, name)))
  {
  }

  lemma InvalidateKeepsInv(s: State)
    requires Inv(s)
    ensures Inv(DoInvalidate(s))
  {
  }

  /** Ticks of the clock, the start of Close and the end of it. */
  lemma CloserKeepsInv(s: State, s': State)
    requires Inv(s)
    requires s' == s.(now := s'.now, closed := s'.closed, closer := s'.closer)
    requires || (s'.closed == s.closed && s'.closer == s.closer)
             || (s.closer.Open? && s'.closed && s'.closer == Cleaning(s.owned))
             || (s.closer == Cleaning([]) && s'.closer.Closed? && s'.closed)
    ensures Inv(s')
  {
  }

  lemma CleanOneKeepsUsers(s: State)
    requires RequestsInv(s) && EntriesInv(s) && Enabled(s, CloseCleans) && s.closer.left != []
    requires s.issued[s.closer.left[|s.closer.left| - 1]].place.Owned?
    ensures RequestsInv(DoCloseCleans(s)) && EntriesInv(DoCloseCleans(s))
  {
  }

  /** The owned credentials still to be cleaned, before and after one of them is. */
  lemma LastLeft(s: State)
    requires OwnedInv(s) && s.closer.Cleaning? && s.closer.left != []
    ensures var left, n := s.closer.left, |s.closer.left| - 1;
      && left[n] == s.owned[n] && left[..n] == s.owned[..n]
      && (forall c :: c in left <==> c in left[..n] || c == left[n])
      && left[n] !in left[..n]
  {
    var left, n := s.closer.left, |s.closer.left| - 1;
    assert left == left[..n] + [left[n]];
  }

  lemma CleanOneKeepsIssues(s: State)
    requires Inv(s) && Enabled(s, CloseCleans) && s.closer.left != []
    ensures IssuesInv(DoCloseCleans(s))
  {
    var s' := DoCloseCleans(s);
    LastLeft(s);
    forall c | c in s'.issued ensures IssuedInv(s', c) {
      assert IssuedInv(s, c);
    }
  }

  lemma CleanOneKeepsInv(s: State)
    requires Inv(s) && Enabled(s, CloseCleans) && s.closer.left != []
    ensures Inv(DoCloseCleans(s))
  {
    LastLeft(s);
    CleanOneKeepsUsers(s);
    CleanOneKeepsIssues(s);
  }

  lemma StepKeepsInv(s: State, step: Step)
    requires Inv(s) && Enabled(s, step)
    ensures Inv(Next(s, step))
  {
    match step
    case Tick(t) => CloserKeepsInv(s, Next(s, step));
    case Begin(r, name) => BeginKeepsInv(s, r, name);
    case Enter(r, a) => EnterKeepsInv(s, r, a);
    case Call(r) =>
      assert RequestInv(s, r);
      GotoKeepsInv(s, r, Calling(s.requests[r].pc.attempt, s.generation));
    case Return(r, c, outcome) => ReturnKeepsInv(s, r, c, outcome);
    case Settle(r) =>
      if s.closed {
        SettleClosedKeepsInv(s, r);
      } else {
        SettleOpenKeepsInv(s, r);
      }
    case Unwind(r) => UnwindKeepsInv(s, r);
    case Wake(r) =>
      assert RequestInv(s, r);
      GotoKeepsInv(s, r, DoWake(s, r).requests[r].pc);
    case Cancel(r) =>
      assert RequestInv(s, r);
      GotoKeepsInv(s, r, Finished(Failed));
    case InvalidateAll => InvalidateKeepsInv(s);
    case Close => CloserKeepsInv(s, Next(s, step));
    case CloseCleans =>
      if s.closer.left == [] {
        CloserKeepsInv(s, Next(s, step));
      } else {
        CleanOneKeepsInv(s);
      }
  }

  // ---------- whole runs ----------

  /** NewCredentialCache. */
  predicate Init(s: State) {
    && s.generation == 0 && !s.closed && s.owned == [] && s.closer.Open?
    && s.entries == map[] && s.attempts == map[] && s.issued == map[] && s.requests == map[]
  }

  ghost predicate Reachable(s0: State, steps: seq<Step>, s: State)
    decreases |steps|
  {
    if steps == [] then s == s0
    else Enabled(s0, steps[0]) && Reachable(Next(s0, steps[0]), steps[1..], s)
  }

  /** Whoever started an attempt is still busy with it until it is done. */
  ghost predicate Attended(s: State, a: nat)
    requires a in s.attempts
  {
    s.attempts[a].done ||
    (var r := s.attempts[a].owner;
     r in s.requests && Owns(s.requests[r].pc) && s.requests[r].pc.attempt == a)
  }

  ghost predicate AllAttended(s: State) {
    forall a :: a in s.attempts ==> Attended(s, a)
  }

  lemma GotoAttended(s: State, r: nat, pc: Pc)
    requires AllAttended(s) && r in s.requests && Owns(s.requests[r].pc) == Owns(pc)
    requires Owns(pc) ==> pc.attempt == s.requests[r].pc.attempt
    ensures AllAttended(Goto(s, r, pc))
  {
    var s' := Goto(s, r, pc);
    forall a | a in s'.attempts ensures Attended(s', a) {
      assert Attended(s, a);
    }
  }

  lemma EnterAttended(s: State, r: nat, a: nat)
    requires AllAttended(s) && Enabled(s, Enter(r, a))
    ensures AllAttended(DoEnter(s, r, a))
  {
    var s' := DoEnter(s, r, a);
    forall k | k in s'.attempts ensures Attended(s', k) {
      assert k in s.attempts ==> Attended(s, k);
    }
  }

  lemma ReturnAttended(s: State, r: nat, c: nat, outcome: Outcome)
    requires AllAttended(s) && Enabled(s, Return(r, c, outcome))
    ensures AllAttended(DoReturn(s, r, c, outcome))
  {
    var s' := DoReturn(s, r, c, outcome);
    forall a | a in s'.attempts ensures Attended(s', a) {
      assert Attended(s, a);
    }
  }

  lemma SettleAttended(s: State, r: nat)
    requires AllAttended(s) && Enabled(s, Settle(r))
    ensures AllAttended(if s.closed then DoSettleClosed(s, r) else DoSettleOpen(s, r))
  {
    var s' := if s.closed then DoSettleClosed(s, r) else DoSettleOpen(s, r);
    forall a | a in s'.attempts ensures Attended(s', a) {
      assert a in s.attempts ==> Attended(s, a);
    }
  }

  lemma UnwindAttended(s: State, r: nat)
    requires AllAttended(s) && Enabled(s, Unwind(r))
    ensures AllAttended(DoUnwind(s, r))
  {
    var s' := DoUnwind(s, r);
    forall a | a in s'.attempts ensures Attended(s', a) {
      assert a in s.attempts ==> Attended(s, a);
    }
  }

  lemma StepKeepsAttended(s: State, step: Step)
    requires AllAttended(s) && Enabled(s, step)
    ensures AllAttended(Next(s, step))
  {
    match step
    case Enter(r, a) => EnterAttended(s, r, a);
    case Call(r) => GotoAttended(s, r, Calling(s.requests[r].pc.attempt, s.generation));
    case Return(r, c, outcome) => ReturnAttended(s, r, c, outcome);
    case Settle(r) => SettleAttended(s, r);
    case Unwind(r) => UnwindAttended(s, r);
    case Wake(r) => GotoAttended(s, r, DoWake(s, r).requests[r].pc);
    case Cancel(r) => GotoAttended(s, r, Finished(Failed));
    case _ => SameUsers(s, Next(s, step));
  }

  lemma SameUsers(s: State, s': State)
    requires AllAttended(s) && s'.attempts == s.attempts
    requires forall q :: q in s.requests ==> q in s'.requests && s'.requests[q] == s.requests[q]
    ensures AllAttended(s')
  {
    forall a | a in s'.attempts ensures Attended(s', a) {
      assert Attended(s, a);
    }
  }

  lemma {:induction false} RunKeepsAttended(s0: State, steps: seq<Step>, s: State)
    requires AllAttended(s0) && Reachable(s0, steps, s)
    ensures AllAttended(s)
    decreases |steps|
  {
    if steps != [] {
      StepKeepsAttended(s0, steps[0]);
      RunKeepsAttended(Next(s0, steps[0]), steps[1..], s);
    }
  }

  /** No request is stuck: whoever came back from a provider, and Close, can always go on; and a
      waiting request can go on as well, or the attempt it waits for is in the hands of a request
      that is still working on it. */
  lemma {:induction false} NeverStuck(s0: State, steps: seq<Step>, s: State)
    requires Init(s0) && Reachable(s0, steps, s)
    ensures forall r :: r in s.requests && s.requests[r].pc.Returned? ==> Enabled(s, Settle(r))
    ensures forall r :: r in s.requests && s.requests[r].pc.Unwinding? ==> Enabled(s, Unwind(r))
    ensures forall r :: r in s.requests && s.requests[r].pc.Waiting? ==>
              s.requests[r].pc.attempt in s.attempts && (Enabled(s, Wake(r)) || InGoodHands(s, s.requests[r].pc.attempt))
    ensures s.closer.Cleaning? ==> Enabled(s, CloseCleans)
  {
    RunGrows(s0, steps, s);
    RunKeepsAttended(s0, steps, s);
    forall r | r in s.requests && s.requests[r].pc.Waiting?
      ensures s.requests[r].pc.attempt in s.attempts && (Enabled(s, Wake(r)) || InGoodHands(s, s.requests[r].pc.attempt))
    {
      assert RequestInv(s, r);
      assert Attended(s, s.requests[r].pc.attempt);
    }
    assert forall r :: r in s.requests ==> RequestInv(s, r);
    if s.closer.Cleaning? && s.closer.left != [] {
      assert s.closer.left[|s.closer.left| - 1] == s.owned[|s.closer.left| - 1];
    }
  }

  /** Some request is still working on the attempt. */
  ghost predicate InGoodHands(s: State, a: nat) {
    exists r :: r in s.requests && Owns(s.requests[r].pc) && s.requests[r].pc.attempt == a
  }

  /** What never changes or only grows: generations, and the birth facts of requests and credentials. */
  ghost predicate Grows(s: State, s': State) {
    && s.generation <= s'.generation
    && (forall r :: r in s.requests ==> r in s'.requests && s'.requests[r].since == s.requests[r].since)
    && (forall r :: r in s'.requests && r !in s.requests ==> s.generation <= s'.requests[r].since)
    && (forall c :: c in s.issued ==> c in s'.issued && s'.issued[c].began == s.issued[c].began)
  }

  lemma SettleGrows(s: State, r: nat)
    requires Enabled(s, Settle(r))
    ensures Grows(s, if s.closed then DoSettleClosed(s, r) else DoSettleOpen(s, r))
  {
  }

  lemma EnterGrows(s: State, r: nat, a: nat)
    requires Enabled(s, Enter(r, a))
    ensures Grows(s, DoEnter(s, r, a))
  {
  }

  lemma ReturnGrows(s: State, r: nat, c: nat, outcome: Outcome)
    requires Enabled(s, Return(r, c, outcome))
    ensures Grows(s, DoReturn(s, r, c, outcome))
  {
  }

  lemma UnwindGrows(s: State, r: nat)
    requires Enabled(s, Unwind(r))
    ensures Grows(s, DoUnwind(s, r))
  {
  }

  lemma GotoGrows(s: State, r: nat, pc: Pc)
    requires r in s.requests
    ensures Grows(s, Goto(s, r, pc))
  {
  }

  lemma CleanGrows(s: State)
    requires Enabled(s, CloseCleans)
    ensures Grows(s, DoCloseCleans(s))
  {
  }

  lemma StepGrows(s: State, step: Step)
    requires Inv(s) && Enabled(s, step)
    ensures Grows(s, Next(s, step))
  {
    match step
    case Settle(r) =>
      assert RequestInv(s, r);
      SettleGrows(s, r);
    case Unwind(r) =>
      assert RequestInv(s, r);
      UnwindGrows(s, r);
    case Enter(r, a) => EnterGrows(s, r, a);
    case Return(r, c, outcome) => ReturnGrows(s, r, c, outcome);
    case Wake(r) => GotoGrows(s, r, DoWake(s, r).requests[r].pc);
    case Cancel(r) => GotoGrows(s, r, Finished(Failed));
    case Call(r) => GotoGrows(s, r, Calling(s.requests[r].pc.attempt, s.generation));
    case CloseCleans => CleanGrows(s);
    case _ =>
  }

  lemma {:induction false} RunGrows(s0: State, steps: seq<Step>, s: State)
    requires Inv(s0) && Reachable(s0, steps, s)
    ensures Inv(s) && Grows(s0, s)
    decreases |steps|
  {
    if steps != [] {
      StepKeepsInv(s0, steps[0]);
      StepGrows(s0, steps[0]);
      RunGrows(Next(s0, steps[0]), steps[1..], s);
    }
  }

  /** No stale credential.  Take any run, an invalidation of the open cache at any point of
      it, and any request that begins afterwards: whatever it is handed comes from its own
      provider, by a call that began after that invalidation (began counts invalidations),
      so in particular not from a credential that already existed. */
  lemma {:induction false} NoStaleCredential(s0: State, before: seq<Step>, s1: State, after: seq<Step>, s: State, r: nat)
    requires Init(s0) && Reachable(s0, before, s1) && !s1.closed
    requires Reachable(Next(s1, InvalidateAll), after, s)
    requires r !in s1.requests && r in s.requests
    requires s.requests[r].pc.Finished? && s.requests[r].pc.result.Handed?
    ensures var c := s.requests[r].pc.result.origin;
            && c in s.issued && s.issued[c].name == s.requests[r].name
            && s.issued[c].began > s1.generation
            && c !in s1.issued
  {
    RunGrows(s0, before, s1);
    InvalidateKeepsInv(s1);
    RunGrows(DoInvalidate(s1), after, s);
    assert RequestInv(s, r);
    assert forall c :: c in s1.issued ==> IssuedInv(s1, c);
  }

  /** At most one provider call per name is in flight, in every reachable state. */
  lemma {:induction false} SingleFlight(s0: State, steps: seq<Step>, s: State, r1: nat, r2: nat)
    requires Init(s0) && Reachable(s0, steps, s)
    requires r1 in s.requests && s.requests[r1].pc.Calling?
    requires r2 in s.requests && s.requests[r2].pc.Calling?
    requires s.requests[r1].name == s.requests[r2].name
    ensures r1 == r2
  {
    RunGrows(s0, steps, s);
    assert RequestInv(s, r1) && RequestInv(s, r2);
  }

  /** Cleanup never runs twice, and once Close has returned and no acquisition is in flight it
      has run exactly once for every credential any provider ever returned: cached, discarded
      as stale, refused as expiring too soon, returned next to an error, or racing Close. */
  lemma {:induction false} CleanedExactlyOnce(s0: State, steps: seq<Step>, s: State, c: nat)
    requires Init(s0) && Reachable(s0, steps, s) && c in s.issued
    ensures s.issued[c].cleanups <= if s.issued[c].value.cleanup then 1 else 0
    ensures s.closer.Closed? && (forall r :: r in s.requests ==> !Owns(s.requests[r].pc)) ==>
              s.issued[c].cleanups == if s.issued[c].value.cleanup then 1 else 0
  {
    RunGrows(s0, steps, s);
    assert IssuedInv(s, c);
  }

  /** What a consumer is handed is the provider's value without its cleanup. */
  lemma {:induction false} ClonesCarryNoCleanup(s0: State, steps: seq<Step>, s: State, r: nat)
    requires Init(s0) && Reachable(s0, steps, s)
    requires r in s.requests && s.requests[r].pc.Finished? && s.requests[r].pc.result.Handed?
    ensures var h := s.requests[r].pc.result;
            && !h.value.cleanup && h.origin in s.issued
            && h.value == s.issued[h.origin].value.(cleanup := false)
            && h.origin in s.owned
  {
    RunGrows(s0, steps, s);
    assert RequestInv(s, r);
    assert IssuedInv(s, s.requests[r].pc.result.origin);
  }
}
