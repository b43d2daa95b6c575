/** Run identities (internal/run/identity.go), and what the preview lookup makes of one listed key
    (internal/run/preview_lookup.go). */
module Preview {
  import opened Base
  import opened Strings
  import Decimal

  // ---------- strings ----------

  /** Where c first occurs in s, or |s|. */
  function IndexOf(s: string, c: char): (i: nat)
    ensures i <= |s| && (i < |s| ==> s[i] == c)
    ensures forall k :: 0 <= k < i ==> s[k] != c
  {
    if s == [] || s[0] == c then 0 else 1 + IndexOf(s[1..], c)
  }

  function Split(s: string, c: char): seq<string>
    decreases |s|
  {
    var i := IndexOf(s, c);
    if i == |s| then [s] else [s[..i]] + Split(s[i + 1..], c)
  }

  /** Go's string order: bytes first, then length. */
  predicate Greater(a: string, b: string) {
    if a == [] then false
    else if b == [] then true
    else if a[0] != b[0] then a[0] > b[0]
    else Greater(a[1..], b[1..])
  }

  function Unsigned(s: string): string {
    if s != [] && (s[0] == '+' || s[0] == '-') then s[1..] else s
  }

  /** strconv.Atoi: an optional sign, digits, and the range of int. */
  function Atoi(s: string): Option<int> {
    var digits := Unsigned(s);
    if digits == [] || !Decimal.AllDigits(digits) then None
    else
      var n: int := Decimal.Value(digits);
      var v: int := if s[0] == '-' then -n else n;
      if -1 - Decimal.MAX_INT <= v <= Decimal.MAX_INT then Some(v) else None
  }

  // ---------- identities ----------

  function ArtifactSHA(sha: string): string {
    if sha == "" then "unknown" else sha
  }

  function ShortSHA(sha: string): string {
    if |sha| >= 7 then sha[..7] else if sha == "" then "unknown" else sha
  }

  function RunIdentity(op: string, run: nat, attempt: nat, sha: string): string {
    if attempt > 0 then op + "-" + Decimal.Print(run) + "-" + Decimal.Print(attempt) + "-" + ArtifactSHA(sha)
    else op + "-" + Decimal.Print(run) + "-" + ArtifactSHA(sha)
  }

  function ParseOrder(identity: string): Option<(int, int)> {
    var parts := Split(identity, '-');
    if |parts| > 2 then None
    else
      var run := Atoi(parts[0]);
      if run.None? || run.value < 0 then None
      else if |parts| == 1 then Some((run.value, 0))
      else
        var attempt := Atoi(parts[1]);
        if attempt.None? || attempt.value <= 0 then None else Some((run.value, attempt.value))
  }

  /** previewRunOrder: run number and attempt, from a full or a legacy short identity. */
  function PreviewRunOrder(runId: string, sha: string): Option<(int, int)> {
    if !HasPrefix(runId, "run-") then None
    else
      var full, short := "-" + ArtifactSHA(sha), "-" + ShortSHA(sha);
      if HasSuffix(runId, full) then ParseOrder(TrimSuffix(TrimPrefix(runId, "run-"), full))
      else if HasSuffix(runId, short) then ParseOrder(TrimSuffix(TrimPrefix(runId, "run-"), short))
      else None
  }

  lemma {:induction false} SplitOne(s: string, c: char)
    requires Free(s, c)
    ensures Split(s, c) == [s]
  {
  }

  lemma {:induction false} SplitTwo(a: string, b: string, c: char)
    requires Free(a, c) && Free(b, c)
    ensures Split(a + [c] + b, c) == [a, b]
  {
    var s := a + [c] + b;
    assert forall k :: 0 <= k < |a| ==> s[k] == a[k];
    assert s[|a|] == c;
    assert IndexOf(s, c) == |a|;
    assert s[..|a|] == a && s[|a| + 1..] == b;
    SplitOne(b, c);
  }

  lemma {:induction false} AtoiOfPrint(n: nat)
    requires n <= Decimal.MAX_INT
    ensures Atoi(Decimal.Print(n)) == Some(n) && Free(Decimal.Print(n), '-')
  {
    Decimal.ValueOfPrint(n);
    Decimal.PrintIsDigits(n);
    var s := Decimal.Print(n);
    assert Decimal.IsDigit(s[0]);
  }

  /** The digits of a number after one sign, or without. */
  ghost predicate Spells(s: string, digits: string, sign: string) {
    digits != [] && Decimal.AllDigits(digits) && s == sign + digits
  }

  /** s is written with these digits and stands for v. */
  ghost predicate Denotes(s: string, digits: string, v: int) {
    || ((Spells(s, digits, "") || Spells(s, digits, "+")) && Decimal.Value(digits) == v)
    || (Spells(s, digits, "-") && Decimal.Value(digits) == -v)
  }

  /** Exactly which strings are numbers, and which: digits, with one sign or none, within the range of int. */
  lemma AtoiIff(s: string, v: int)
    ensures Atoi(s) == Some(v) <==> -1 - Decimal.MAX_INT <= v <= Decimal.MAX_INT && exists d :: Denotes(s, d, v)
  {
    if Atoi(s) == Some(v) {
      SignedIs(s);
      assert Denotes(s, Unsigned(s), v);
    }
    if d :| Denotes(s, d, v) {
      UnsignedIs(s, d);
    }
  }

  lemma SignedIs(s: string)
    requires Unsigned(s) != [] && Decimal.AllDigits(Unsigned(s))
    ensures Spells(s, Unsigned(s), if s[0] == '-' then "-" else if s[0] == '+' then "+" else "")
  {
    assert s == "" + s && s == [s[0]] + s[1..];
  }

  lemma UnsignedIs(s: string, d: string)
    requires Spells(s, d, "") || Spells(s, d, "+") || Spells(s, d, "-")
    ensures Unsigned(s) == d && (s[0] == '-' <==> Spells(s, d, "-"))
  {
    assert Decimal.IsDigit(d[0]);
    if Spells(s, d, "") {
      assert s == d;
    } else {
      assert s[1..] == d;
    }
  }

  /** One part is a run number, not negative; of two the second is an attempt, from one on; more are
      nothing. */
  lemma {:induction false} ParseOrderIs(a: string, b: string, rest: string)
    requires Free(a, '-') && Free(b, '-')
    ensures ParseOrder(a) == (match Atoi(a) case None => None case Some(n) => if n >= 0 then Some((n, 0)) else None)
    ensures ParseOrder(a + ['-'] + b) ==
              match (Atoi(a), Atoi(b))
              case (Some(n), Some(k)) => if n >= 0 && k >= 1 then Some((n, k)) else None
              case _ => None
    ensures ParseOrder(a + ['-'] + (b + ['-'] + rest)) == None
  {
    SplitOne(a, '-');
    SplitTwo(a, b, '-');
    SplitFirst(a, b + ['-'] + rest);
    SplitFirst(b, rest);
    assert |Split(rest, '-')| >= 1;
  }

  lemma {:induction false} SplitFirst(a: string, rest: string)
    requires Free(a, '-')
    ensures Split(a + ['-'] + rest, '-') == [a] + Split(rest, '-')
  {
    var s := a + ['-'] + rest;
    assert s[|a|] == '-' && forall k :: 0 <= k < |a| ==> s[k] == a[k];
    assert IndexOf(s, '-') == |a| && s[..|a|] == a && s[|a| + 1..] == rest;
  }

  lemma StripIdentity(middle: string, tail: string)
    ensures var id := "run-" + middle + tail;
            && HasPrefix(id, "run-") && HasSuffix(id, tail)
            && TrimSuffix(TrimPrefix(id, "run-"), tail) == middle
  {
  }

  lemma OrderOfStripped(middle: string, sha: string)
    ensures PreviewRunOrder("run-" + middle + ("-" + ArtifactSHA(sha)), sha) == ParseOrder(middle)
  {
    StripIdentity(middle, "-" + ArtifactSHA(sha));
  }

  lemma {:induction false} ParseRun(run: nat)
    requires run <= Decimal.MAX_INT
    ensures ParseOrder(Decimal.Print(run)) == Some((run, 0))
  {
    AtoiOfPrint(run);
    SplitOne(Decimal.Print(run), '-');
  }

  lemma {:induction false} ParseRunAndAttempt(run: nat, attempt: nat)
    requires run <= Decimal.MAX_INT && 0 < attempt <= Decimal.MAX_INT
    ensures ParseOrder(Decimal.Print(run) + ['-'] + Decimal.Print(attempt)) == Some((run, attempt))
  {
    AtoiOfPrint(run);
    AtoiOfPrint(attempt);
    SplitTwo(Decimal.Print(run), Decimal.Print(attempt), '-');
  }

  /** What stands between "run-" and the SHA. */
  function Numbers(run: nat, attempt: nat): string {
    if attempt > 0 then Decimal.Print(run) + ['-'] + Decimal.Print(attempt) else Decimal.Print(run)
  }

  lemma IdentityShape(run: nat, attempt: nat, sha: string)
    ensures RunIdentity("run", run, attempt, sha) == "run-" + Numbers(run, attempt) + ("-" + ArtifactSHA(sha))
  {
    var r, a, t := Decimal.Print(run), Decimal.Print(attempt), ArtifactSHA(sha);
    assert "run" + "-" == "run-";
    if attempt > 0 {
      Assoc("run-", r, "-");
      Assoc("run-", r + "-", a);
      Assoc("run-" + (r + "-" + a), "-", t);
    } else {
      Assoc("run-" + r, "-", t);
    }
  }

  /** The parser inverts the printer, for every run number, attempt and SHA, whatever the SHA
      looks like. */
  lemma OrderInvertsIdentity(run: nat, attempt: nat, sha: string)
    requires run <= Decimal.MAX_INT && attempt <= Decimal.MAX_INT
    ensures PreviewRunOrder(RunIdentity("run", run, attempt, sha), sha) == Some((run, attempt))
  {
    IdentityShape(run, attempt, sha);
    OrderOfStripped(Numbers(run, attempt), sha);
    if attempt > 0 {
      ParseRunAndAttempt(run, attempt);
    } else {
      ParseRun(run);
    }
  }

  /** An identity of the older form, which ends in the first seven digits of a longer commit, is read as well. */
  lemma OrderReadsShortForm(run: nat, attempt: nat, sha: string)
    requires run <= Decimal.MAX_INT && attempt <= Decimal.MAX_INT && |sha| > 7 && Free(sha, '-')
    ensures PreviewRunOrder("run-" + Numbers(run, attempt) + ("-" + sha[..7]), sha) == Some((run, attempt))
  {
    var id := "run-" + Numbers(run, attempt) + ("-" + sha[..7]);
    StripIdentity(Numbers(run, attempt), "-" + sha[..7]);
    EndsIn("run-" + Numbers(run, attempt), sha[..7], sha);
    if attempt > 0 {
      ParseRunAndAttempt(run, attempt);
    } else {
      ParseRun(run);
    }
  }

  /** Distinct commits never share an identity, nor do distinct runs or attempts, as long as the
      SHAs hold no dash (commit SHAs are hexadecimal). */
  lemma IdentityIsInjective(run: nat, attempt: nat, sha: string, run': nat, attempt': nat, sha': string)
    requires run <= Decimal.MAX_INT && attempt <= Decimal.MAX_INT
    requires run' <= Decimal.MAX_INT && attempt' <= Decimal.MAX_INT
    requires sha != "" && sha' != "" && Free(sha, '-') && Free(sha', '-')
    ensures RunIdentity("run", run, attempt, sha) == RunIdentity("run", run', attempt', sha')
       <==> run == run' && attempt == attempt' && sha == sha'
  {
    if RunIdentity("run", run, attempt, sha) == RunIdentity("run", run', attempt', sha') {
      IdentityShape(run, attempt, sha);
      IdentityShape(run', attempt', sha');
      LastCutUnique("run-" + Numbers(run, attempt), sha, "run-" + Numbers(run', attempt'), sha', '-');
      OrderInvertsIdentity(run, attempt, sha);
      OrderInvertsIdentity(run', attempt', sha);
    }
  }

  // ---------- candidates ----------

  /** created is None when created_at does not parse. */
  datatype Manifest = Manifest(op: string, pr: int, sha: string, runId: string, created: Option<int>)

  datatype Object = Unreadable | Malformed | Doc(m: Manifest)

  datatype Naming = NotOurs | Named(runId: string, bound: bool)

  /** previewManifestCandidate. */
  function Candidate(key: string, prefix: string, sha: string): Naming {
    if sha == "" || !HasPrefix(key, prefix) then NotOurs
    else
      var relative := TrimPrefix(key, prefix);
      var i := IndexOf(relative, '/');
      if i == |relative| || relative[i + 1..] != "manifest.json" then NotOurs
      else
        var runId := relative[..i];
        if HasPrefix(runId, "apply-") || HasPrefix(runId, "refresh-") then NotOurs
        else if HasPrefix(runId, "run-") then
          if HasSuffix(runId, "-" + ArtifactSHA(sha)) then Named(runId, true)
          else if HasSuffix(runId, "-" + ShortSHA(sha)) then Named(runId, false)
          else NotOurs
        else Named(runId, false)
  }

  lemma {:induction false} IndexOfFirst(a: string, b: string, c: char)
    requires Free(a, c)
    ensures IndexOf(a + [c] + b, c) == |a|
  {
    var s := a + [c] + b;
    assert s[|a|] == c && forall k :: 0 <= k < |a| ==> s[k] == a[k];
  }

  lemma NumbersSlashFree(run: nat, attempt: nat)
    ensures Free(Numbers(run, attempt), '/')
  {
    Decimal.PrintIsDigits(run);
    Decimal.PrintIsDigits(attempt);
  }

  lemma PrefixDiffers(s: string, p: string, k: nat)
    requires k < |s| && k < |p| && s[k] != p[k]
    ensures !HasPrefix(s, p)
  {
  }

  /** The reader takes apart what the writer puts together. */
  lemma CutKey(prefix: string, id: string, rest: string)
    requires Free(id, '/')
    ensures var key := prefix + (id + ['/'] + rest);
            && HasPrefix(key, prefix) && TrimPrefix(key, prefix) == id + ['/'] + rest
            && var i := IndexOf(TrimPrefix(key, prefix), '/');
            i == |id| && TrimPrefix(key, prefix)[..i] == id && TrimPrefix(key, prefix)[i + 1..] == rest
  {
    var relative := id + ['/'] + rest;
    var key := prefix + relative;
    assert key[..|prefix|] == prefix && key[|prefix|..] == relative;
    IndexOfFirst(id, rest, '/');
  }

  lemma BoundCandidate(prefix: string, id: string, sha: string)
    requires sha != "" && Free(id, '/') && HasPrefix(id, "run-") && HasSuffix(id, "-" + ArtifactSHA(sha))
    ensures Candidate(prefix + (id + ['/'] + "manifest.json"), prefix, sha) == Named(id, true)
  {
    CutKey(prefix, id, "manifest.json");
    NotAnother(id);
  }

  /** The key a preview run writes its manifest under is recognised for its own commit, and
      bound to it: what is wrong with such an object fails the lookup, it is never skipped. */
  lemma OwnKeyIsBound(prefix: string, run: nat, attempt: nat, sha: string)
    requires sha != "" && Free(sha, '/')
    ensures var id := RunIdentity("run", run, attempt, sha);
            Candidate(prefix + (id + ['/'] + "manifest.json"), prefix, sha) == Named(id, true)
  {
    IdentityShape(run, attempt, sha);
    NumbersSlashFree(run, attempt);
    StripIdentity(Numbers(run, attempt), "-" + ArtifactSHA(sha));
    BoundCandidate(prefix, RunIdentity("run", run, attempt, sha), sha);
  }

  /** Exactly what makes a key a candidate: it is directly under the prefix, its run is not an apply or a
      refresh, and a numbered run ends in the commit or its short form; only the commit itself binds. */
  lemma CandidateIff(key: string, prefix: string, sha: string, id: string, bound: bool)
    ensures Candidate(key, prefix, sha) == Named(id, bound) <==>
      && sha != "" && key == prefix + (id + ['/'] + "manifest.json") && Free(id, '/')
      && !HasPrefix(id, "apply-") && !HasPrefix(id, "refresh-")
      && (bound <==> HasPrefix(id, "run-") && HasSuffix(id, "-" + sha))
      && (HasPrefix(id, "run-") ==> HasSuffix(id, "-" + sha) || HasSuffix(id, "-" + if |sha| < 7 then sha else sha[..7]))
  {
    if Free(id, '/') && key == prefix + (id + ['/'] + "manifest.json") {
      CandidateUnder(prefix, sha, id);
      ShortIs(sha);
    } else {
      Assoc(id, ['/'], "manifest.json");
      NotNamed(key, prefix, sha, id);
    }
  }

  lemma NotNamed(key: string, prefix: string, sha: string, id: string)
    requires !Free(id, '/') || key != prefix + (id + (['/'] + "manifest.json"))
    ensures Candidate(key, prefix, sha).Named? ==> Candidate(key, prefix, sha).runId != id
  {
    if Candidate(key, prefix, sha).Named? {
      CandidateKey(key, prefix, sha);
      NamedIsFree(key, prefix, sha);
    }
  }

  lemma NamedIsFree(key: string, prefix: string, sha: string)
    requires Candidate(key, prefix, sha).Named?
    ensures Free(Candidate(key, prefix, sha).runId, '/')
  {
  }

  lemma ShortIs(sha: string)
    ensures sha != "" ==> ShortSHA(sha) == (if |sha| < 7 then sha else sha[..7]) && ArtifactSHA(sha) == sha
  {
  }

  lemma CandidateUnder(prefix: string, sha: string, id: string)
    requires Free(id, '/')
    ensures Candidate(prefix + (id + ['/'] + "manifest.json"), prefix, sha) ==
      if sha == "" || HasPrefix(id, "apply-") || HasPrefix(id, "refresh-") then NotOurs
      else if !HasPrefix(id, "run-") then Named(id, false)
      else if HasSuffix(id, "-" + sha) then Named(id, true)
      else if HasSuffix(id, "-" + ShortSHA(sha)) then Named(id, false)
      else NotOurs
  {
    CutKey(prefix, id, "manifest.json");
  }

  /** A preview of another commit is never ours, unless what it calls its commit is the short form of
      this one. */
  lemma OtherCommitIsNotOurs(prefix: string, run: nat, attempt: nat, sha: string, other: string)
    requires sha != "" && other != "" && Free(other, '/') && Free(other, '-') && Free(sha, '-')
    ensures var id := RunIdentity("run", run, attempt, other);
      Candidate(prefix + (id + ['/'] + "manifest.json"), prefix, sha) ==
        if other == sha then Named(id, true) else if |sha| >= 7 && other == sha[..7] then Named(id, false) else NotOurs
  {
    var id := RunIdentity("run", run, attempt, other);
    IdentityShape(run, attempt, other);
    NumbersSlashFree(run, attempt);
    CandidateUnder(prefix, sha, id);
    StripIdentity(Numbers(run, attempt), "-" + ArtifactSHA(other));
    EndsIn("run-" + Numbers(run, attempt), other, sha);
    EndsIn("run-" + Numbers(run, attempt), other, ShortSHA(sha));
    NotAnother(id);
  }

  lemma NotAnother(id: string)
    requires HasPrefix(id, "run-")
    ensures !HasPrefix(id, "apply-") && !HasPrefix(id, "refresh-")
  {
    assert id[0] == id[..4][0] == 'r' && id[1] == id[..4][1] == 'u';
    PrefixDiffers(id, "apply-", 0);
    PrefixDiffers(id, "refresh-", 1);
  }

  /** Behind its last dash an identity names one commit only. */
  lemma EndsIn(head: string, tail: string, other: string)
    requires Free(tail, '-') && Free(other, '-')
    ensures HasSuffix(head + ("-" + tail), "-" + other) <==> tail == other
  {
    var s := head + ("-" + tail);
    if HasSuffix(s, "-" + other) {
      var front := s[..|s| - |"-" + other|];
      assert front + (['-'] + other) == s == head + (['-'] + tail);
      LastCutUnique(head, tail, front, other, '-');
    }
  }

  datatype Judged = Ignored | Invalid | Accepted(m: Manifest, created: int)

  /** What the loop makes of one listed key. */
  function Judge(key: string, prefix: string, o: Object, pr: int, sha: string): Judged {
    match Candidate(key, prefix, sha)
    case NotOurs => Ignored
    case Named(runId, bound) =>
      if !o.Doc? then (if bound then Invalid else Ignored)
      else if o.m.op != "preview" || o.m.sha != sha then (if bound then Invalid else Ignored)
      else if o.m.pr != pr || o.m.runId != runId || o.m.created.None? then Invalid
      else Accepted(o.m, o.m.created.value)
  }

  /** This is the preview of that commit on that pull request, under that run id. */
  predicate IsPreviewOf(m: Manifest, pr: int, sha: string, runId: string) {
    m.op == "preview" && m.pr == pr && m.sha == sha && m.runId == runId && m.created.Some?
  }

  /** The key a preview writes is either its own intact manifest or fails the lookup; nothing else is
      ever accepted from it. */
  lemma OwnKeyJudged(prefix: string, run: nat, attempt: nat, sha: string, o: Object, pr: int)
    requires sha != "" && Free(sha, '/')
    ensures var id := RunIdentity("run", run, attempt, sha);
      Judge(prefix + (id + ['/'] + "manifest.json"), prefix, o, pr, sha) ==
        if o.Doc? && IsPreviewOf(o.m, pr, sha, id) then Accepted(o.m, o.m.created.value) else Invalid
  {
    OwnKeyIsBound(prefix, run, attempt, sha);
  }

  /** Exactly what is accepted from any key: a candidate's intact manifest; and exactly when the lookup
      fails: a bound candidate without one, or an unbound one that claims the commit but not the rest. */
  lemma JudgedIff(key: string, prefix: string, o: Object, pr: int, sha: string)
    ensures var c := Candidate(key, prefix, sha);
      && (Judge(key, prefix, o, pr, sha).Accepted? <==> c.Named? && o.Doc? && IsPreviewOf(o.m, pr, sha, c.runId))
      && (Judge(key, prefix, o, pr, sha).Accepted? ==> Judge(key, prefix, o, pr, sha) == Accepted(o.m, o.m.created.value))
      && (Judge(key, prefix, o, pr, sha).Invalid? <==>
            && c.Named? && !(o.Doc? && IsPreviewOf(o.m, pr, sha, c.runId))
            && (c.bound || (o.Doc? && o.m.op == "preview" && o.m.sha == sha)))
  {
  }

  lemma CandidateKey(key: string, prefix: string, sha: string)
    requires Candidate(key, prefix, sha).Named?
    ensures key == prefix + (Candidate(key, prefix, sha).runId + (['/'] + "manifest.json"))
  {
    var relative := TrimPrefix(key, prefix);
    var i := IndexOf(relative, '/');
    assert Candidate(key, prefix, sha).runId == relative[..i];
    assert relative == relative[..i] + (['/'] + relative[i + 1..]);
  }

  /** An accepted manifest sits under the key its run id spells. */
  lemma AcceptedKey(key: string, prefix: string, o: Object, pr: int, sha: string)
    requires Judge(key, prefix, o, pr, sha).Accepted?
    ensures key == prefix + (Judge(key, prefix, o, pr, sha).m.runId + (['/'] + "manifest.json"))
  {
    assert Candidate(key, prefix, sha).Named?;
    CandidateKey(key, prefix, sha);
  }
}
