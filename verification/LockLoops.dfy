/** The retry loops of internal/blob/locks/store.go in their own, imperative form: one
    call at a time, with the writes of rival runs arriving between its read and its write.
    `LockStore` treats all interleavings of many such calls. */
module LockLoops {
  import opened Base
  import opened Locks
  import opened LockHistory
  import opened LockStore

  /** One lock object in a bucket that honours conditional writes. */
  class Bucket {
    const name: Name
    var stored: Option<Lock>
    var version: nat
    ghost var history: seq<Event>

    ghost predicate Valid()
      reads this
    {
      version == |history| && stored == Stored(name, history)
    }

    constructor (name: Name)
      ensures Valid() && this.name == name && history == []
    {
      this.name := name;
      stored, version, history := None, 0, [];
    }

    /** Store.Get: lock and tag; the tag of an absent object is 0. */
    method Get(readAt: Instant) returns (l: Lock, etag: nat)
      requires Valid()
      ensures l == Current(name, stored, readAt) && etag == version
    {
      l, etag := Current(name, stored, readAt), version;
    }

    /** Writes only if the object is still the one that was read. */
    method PutIfMatch(next: Lock, etag: nat, ghost e: Event) returns (ok: bool)
      requires Valid()
      requires etag == version ==> next == Effect(name, stored, e).next
      modifies this
      ensures Valid() && ok == (old(version) == etag)
      ensures history == if ok then old(history) + [e] else old(history)
    {
      ok := version == etag;
      if ok {
        stored, version, history := Some(next), version + 1, history + [e];
        assert history[..|history| - 1] == old(history);
      }
    }

    /** Other runs commit. */
    method Interfere(rivals: seq<Event>)
      requires Valid()
      modifies this
      ensures Valid() && history == old(history) + rivals
    {
      for i := 0 to |rivals|
        invariant Valid() && history == old(history) + rivals[..i]
      {
        var e := rivals[i];
        stored, version, history := Some(Effect(name, stored, e).next), version + 1, history + [e];
        assert history[..|history| - 1] == old(history) + rivals[..i];
      }
    }
  }

  /** One pass of a loop: the clock readings it gets and the rivals that commit before it writes. */
  datatype Round = Round(readAt: Instant, t1: Instant, t2: Instant, rivals: seq<Event>)

  function Rivals(rounds: seq<Round>): seq<Event> {
    if rounds == [] then [] else Rivals(rounds[..|rounds| - 1]) + rounds[|rounds| - 1].rivals
  }

  function Own(id: nat, op: Op, r: Round): Event {
    Event(id, op, r.readAt, r.t1, r.t2)
  }

  /** The conditional write of one pass, after its rivals had their turn. */
  method WritePass(b: Bucket, id: nat, op: Op, cur: Lock, v: Verdict, etag: nat, r: Round)
      returns (ok: bool)
    requires b.Valid() && etag <= b.version
    requires etag == b.version ==> cur == Current(b.name, b.stored, r.readAt)
    requires v == Transition(cur, op, r.t1, r.t2)
    modifies b
    ensures b.Valid()
    ensures ok <==> etag == old(b.version) && r.rivals == []
    ensures ok ==> v == Effect(b.name, Stored(b.name, old(b.history)), Own(id, op, r)) && b.stored == Some(v.next)
    ensures b.history == old(b.history) + (if ok then [Own(id, op, r)] else r.rivals)
  {
    b.Interfere(r.rivals);
    assert r.rivals == [] ==> b.history == old(b.history);
    ok := b.PutIfMatch(v.next, etag, Own(id, op, r));
  }

  lemma RivalsStep(h: seq<Event>, rounds: seq<Round>, k: nat)
    requires k < |rounds|
    ensures h + Rivals(rounds[..k + 1]) == h + Rivals(rounds[..k]) + rounds[k].rivals
  {
    assert rounds[..k + 1][..k] == rounds[..k];
  }

  /** One pass of mutate: read, evaluate, write whatever came out. */
  method MutationPass(b: Bucket, id: nat, op: Op, r: Round) returns (ok: bool, v: Verdict)
    requires b.Valid()
    modifies b
    ensures b.Valid()
    ensures ok <==> r.rivals == []
    ensures !ok ==> b.history == old(b.history) + r.rivals
    ensures ok ==>
      && b.history == old(b.history) + [Own(id, op, r)]
      && v == Effect(b.name, Stored(b.name, old(b.history)), Own(id, op, r))
      && b.stored == Some(v.next)
  {
    var cur, etag := b.Get(r.readAt);
    v := Transition(cur, op, r.t1, r.t2);
    ok := WritePass(b, id, op, cur, v, etag, r);
  }

  /** mutate: the first undisturbed pass commits, error or not; if every pass is disturbed the
      call has no effect at all.  `lost` counts the passes that were disturbed. */
  method Mutate(b: Bucket, id: nat, op: Op, maxRetries: nat, rounds: seq<Round>)
      returns (reply: Reply, ghost lost: nat)
    requires b.Valid() && |rounds| == maxRetries + 1
    modifies b
    ensures b.Valid()
    ensures lost <= |rounds| && forall k :: 0 <= k < lost ==> rounds[k].rivals != []
    ensures var before := old(b.history) + Rivals(rounds[..lost]);
      if lost == |rounds| then reply == Exhausted && b.history == before
      else
        && rounds[lost].rivals == []
        && b.history == before + [Own(id, op, rounds[lost])]
        && reply == Applied(Effect(b.name, Stored(b.name, before), Own(id, op, rounds[lost])))
        && b.stored == Some(reply.verdict.next)
  {
    lost := 0;
    var attempt := 0;
    while attempt <= maxRetries
      invariant attempt <= maxRetries + 1 && lost == attempt
      invariant forall k :: 0 <= k < attempt ==> rounds[k].rivals != []
      invariant b.Valid() && b.history == old(b.history) + Rivals(rounds[..attempt])
    {
      var r := rounds[attempt];
      ghost var before := b.history;
      var ok, v := MutationPass(b, id, op, r);
      if ok {
        assert before == old(b.history) + Rivals(rounds[..lost]);
        return Applied(v), lost;
      }
      RivalsStep(old(b.history), rounds, attempt);
      attempt, lost := attempt + 1, lost + 1;
    }
    reply := Exhausted;
  }

  datatype Pass = Skip(error: Option<Error>) | Conflict | Committed(verdict: Verdict)

  /** The closure handed to maintain or mutate. */
  type Closure = (Lock, Instant, Instant) -> Verdict

  /** It evaluates the transition of this operation. */
  ghost predicate Evaluates(fn: Closure, op: Op) {
    forall l, t1, t2 {:trigger Transition(l, op, t1, t2)} :: Transition(l, op, t1, t2) == fn(l, t1, t2)
  }

  predicate Skipped(v: Verdict) {
    v.error.Some? || !v.flag
  }

  /** One pass of maintain: evaluate on the snapshot, skip, or try to write. */
  method MaintenancePass(b: Bucket, id: nat, op: Op, fn: Closure, cur: Lock, etag: nat, r: Round) returns (p: Pass)
    requires b.Valid() && etag <= b.version && IsMaintenance(op) && Evaluates(fn, op)
    requires etag == b.version ==> cur == Current(b.name, b.stored, r.readAt)
    modifies b
    ensures b.Valid()
    ensures var v := fn(cur, r.t1, r.t2);
      match p
      case Skip(error) => Skipped(v) && error == v.error && b.history == old(b.history)
      case Conflict =>
        && !Skipped(v) && b.history == old(b.history) + r.rivals
        && (etag != old(b.version) || r.rivals != [])
      case Committed(verdict) => !Skipped(v) && verdict == v && b.history == old(b.history) + [Own(id, op, r)]
  {
    var v := fn(cur, r.t1, r.t2);
    if v.error.Some? || !v.flag {
      return Skip(v.error);
    }
    assert v == Transition(cur, op, r.t1, r.t2);
    var ok := WritePass(b, id, op, cur, v, etag, r);
    p := if ok then Committed(v) else Conflict;
  }

  /** What a read returns at some time after some history. */
  type Reader = (seq<Event>, Instant) -> Lock

  function ReaderOf(n: Name): Reader {
    (h: seq<Event>, t: Instant) => Current(n, Stored(n, h), t)
  }

  /** What pass k of maintain evaluates: the caller's read, or a fresh one after the rivals of the
      passes before. */
  function Seen(read: Reader, h: seq<Event>, snapshot: Lock, rounds: seq<Round>, k: nat): Lock
    requires k < |rounds|
  {
    if k == 0 then snapshot else read(h + Rivals(rounds[..k]), rounds[k].readAt)
  }

  /** Pass k had something to write and was disturbed: a rival wrote first, or the caller's read was
      stale to begin with. */
  ghost predicate LostRace(fn: Closure, seen: Lock, r: Round, stale: bool) {
    !Skipped(fn(seen, r.t1, r.t2)) && (r.rivals != [] || stale)
  }

  /** The call ended: with the verdict's error and no write if the verdict is skipped, and otherwise
      with the verdict and exactly one event. */
  ghost predicate Ended(v: Verdict, e: Event, before: seq<Event>, after: seq<Event>, reply: Reply) {
    if Skipped(v) then reply == Unwritten(v.error) && after == before
    else reply == Applied(v) && after == before + [e]
  }

  /** The first passes saw these locks, and each of them lost its race. */
  ghost predicate AllLost(read: Reader, h: seq<Event>, fn: Closure, snapshot: Lock, tag: nat, rounds: seq<Round>, seen: seq<Lock>)
    requires |seen| <= |rounds|
  {
    forall k :: 0 <= k < |seen| ==>
      seen[k] == Seen(read, h, snapshot, rounds, k) && LostRace(fn, seen[k], rounds[k], k == 0 && tag != |h|)
  }

  /** Before pass k: all passes so far were lost, and the loop holds what pass k is to evaluate. */
  ghost predicate Ready(read: Reader, h: seq<Event>, now: seq<Event>, fn: Closure, snapshot: Lock, tag: nat,
                        rounds: seq<Round>, seen: seq<Lock>, cur: Lock, etag: nat)
  {
    var k := |seen|;
    && k < |rounds| && AllLost(read, h, fn, snapshot, tag, rounds, seen)
    && now == h + Rivals(rounds[..k])
    && cur == Seen(read, h, snapshot, rounds, k)
    && etag == (if k == 0 then tag else |now|)
  }

  /** The call as a whole: it ended at some pass, all passes before it lost their races; or all did. */
  ghost predicate Outcome(read: Reader, h: seq<Event>, now: seq<Event>, id: nat, op: Op, fn: Closure, snapshot: Lock, tag: nat,
                          rounds: seq<Round>, lost: seq<Lock>, reply: Reply)
  {
    var k := |lost|;
    && k <= |rounds| && AllLost(read, h, fn, snapshot, tag, rounds, lost)
    && if k == |rounds| then reply == Exhausted && now == h + Rivals(rounds)
       else Ended(fn(Seen(read, h, snapshot, rounds, k), rounds[k].t1, rounds[k].t2), Own(id, op, rounds[k]),
                  h + Rivals(rounds[..k]), now, reply)
  }

  /** What pass k needs of the bucket: its read is old or still current. */
  lemma ReadIsUsable(read: Reader, h: seq<Event>, now: seq<Event>, fn: Closure, snapshot: Lock, tag: nat,
                     rounds: seq<Round>, seen: seq<Lock>, cur: Lock, etag: nat)
    requires Ready(read, h, now, fn, snapshot, tag, rounds, seen, cur, etag)
    requires tag <= |h| && (tag == |h| ==> snapshot == read(h, rounds[0].readAt))
    ensures etag <= |now| && (etag == |now| ==> cur == read(now, rounds[|seen|].readAt))
    ensures etag != |now| ==> |seen| == 0 && tag != |h|
  {
    if seen == [] {
      assert rounds[..0] == [] && now == h;
    }
  }

  /** The pass ended the call. */
  lemma EndsHere(read: Reader, h: seq<Event>, now: seq<Event>, now': seq<Event>, id: nat, op: Op, fn: Closure, snapshot: Lock, tag: nat,
                 rounds: seq<Round>, seen: seq<Lock>, cur: Lock, etag: nat, reply: Reply)
    requires Ready(read, h, now, fn, snapshot, tag, rounds, seen, cur, etag)
    requires var r := rounds[|seen|]; Ended(fn(cur, r.t1, r.t2), Own(id, op, r), now, now', reply)
    ensures Outcome(read, h, now', id, op, fn, snapshot, tag, rounds, seen, reply)
  {
  }

  /** The pass lost its race: that was the last one, or the next read is what the next pass needs. */
  lemma GoesOn(read: Reader, h: seq<Event>, now: seq<Event>, id: nat, op: Op, fn: Closure, snapshot: Lock, tag: nat,
               rounds: seq<Round>, seen: seq<Lock>, cur: Lock, etag: nat)
    requires Ready(read, h, now, fn, snapshot, tag, rounds, seen, cur, etag)
    requires LostRace(fn, cur, rounds[|seen|], |seen| == 0 && tag != |h|)
    ensures var k, now', lost := |seen|, now + rounds[|seen|].rivals, seen + [cur];
      && (k + 1 == |rounds| ==> Outcome(read, h, now', id, op, fn, snapshot, tag, rounds, lost, Exhausted))
      && (k + 1 < |rounds| ==> Ready(read, h, now', fn, snapshot, tag, rounds, lost,
                                     read(now', rounds[k + 1].readAt), |now'|))
  {
    var k, lost := |seen|, seen + [cur];
    RivalsStep(h, rounds, k);
    assert AllLost(read, h, fn, snapshot, tag, rounds, lost) by {
      forall i | 0 <= i < |lost|
        ensures lost[i] == Seen(read, h, snapshot, rounds, i) && LostRace(fn, lost[i], rounds[i], i == 0 && tag != |h|)
      {
        if i < k {
          assert lost[i] == seen[i];
        }
      }
    }
    if k + 1 == |rounds| {
      assert rounds[..k + 1] == rounds;
    }
  }

  /** One turn of the loop: the pass, and after a lost race the next read, if there is a next pass. */
  method Turn(b: Bucket, id: nat, op: Op, fn: Closure, cur: Lock, etag: nat, rounds: seq<Round>, k: nat,
              ghost h: seq<Event>, ghost snapshot: Lock, ghost tag: nat, ghost seen: seq<Lock>)
      returns (done: bool, reply: Reply, cur': Lock, etag': nat, ghost seen': seq<Lock>)
    requires b.Valid() && IsMaintenance(op) && Evaluates(fn, op) && k == |seen|
    requires Ready(ReaderOf(b.name), h, b.history, fn, snapshot, tag, rounds, seen, cur, etag)
    requires tag <= |h| && (tag == |h| ==> snapshot == Current(b.name, Stored(b.name, h), rounds[0].readAt))
    modifies b
    ensures b.Valid()
    ensures done ==> Outcome(ReaderOf(b.name), h, b.history, id, op, fn, snapshot, tag, rounds, seen', reply)
    ensures !done ==> |seen'| == k + 1 && Ready(ReaderOf(b.name), h, b.history, fn, snapshot, tag, rounds, seen', cur', etag')
  {
    done, reply, cur', etag', seen' := true, Exhausted, cur, etag, seen;
    ghost var before := b.history;
    ReadIsUsable(ReaderOf(b.name), h, before, fn, snapshot, tag, rounds, seen, cur, etag);
    var p := MaintenancePass(b, id, op, fn, cur, etag, rounds[k]);
    if p.Conflict? {
      GoesOn(ReaderOf(b.name), h, before, id, op, fn, snapshot, tag, rounds, seen, cur, etag);
      seen' := seen + [cur];
      if k + 1 < |rounds| {
        cur', etag' := b.Get(rounds[k + 1].readAt);
        done := false;
      }
    } else {
      reply := if p.Skip? then Unwritten(p.error) else Applied(p.verdict);
      EndsHere(ReaderOf(b.name), h, before, b.history, id, op, fn, snapshot, tag, rounds, seen, cur, etag, reply);
    }
  }

  /** maintain: reuses the caller's read, writes only a changed lock, and re-reads after a lost race.
      A pass whose verdict is skipped ends the call with that verdict's error and no write; a
      changed one commits unless it was disturbed; if all are disturbed the call has no effect. */
  method Maintain(b: Bucket, id: nat, op: Op, fn: Closure, maxRetries: nat, snapshot: Lock, tag: nat, rounds: seq<Round>)
      returns (reply: Reply, ghost lost: seq<Lock>)
    requires b.Valid() && |rounds| == maxRetries + 1 && IsMaintenance(op) && Evaluates(fn, op)
    requires tag <= b.version
    requires tag == b.version ==> snapshot == Current(b.name, b.stored, rounds[0].readAt)
    modifies b
    ensures b.Valid()
    ensures Outcome(ReaderOf(b.name), old(b.history), b.history, id, op, fn, snapshot, tag, rounds, lost, reply)
  {
    var cur: Lock, etag: nat, attempt: nat, done := snapshot, tag, 0, false;
    ghost var h := b.history;
    lost, reply := [], Exhausted;
    assert rounds[..0] == [] && h + Rivals([]) == h;
    while !done
      invariant b.Valid() && attempt <= maxRetries
      invariant if done then Outcome(ReaderOf(b.name), h, b.history, id, op, fn, snapshot, tag, rounds, lost, reply)
                else |lost| == attempt && Ready(ReaderOf(b.name), h, b.history, fn, snapshot, tag, rounds, lost, cur, etag)
      decreases !done, maxRetries - attempt
    {
      done, reply, cur, etag, lost := Turn(b, id, op, fn, cur, etag, rounds, attempt, h, snapshot, tag, lost);
      if !done {
        attempt := attempt + 1;
      }
    }
  }
}
