/** The approval gate of internal/core/approvals/rules.go.  Traces and messages are left out;
    what remains is the verdict and the counts. */
module Approvals {
  import opened Base

  datatype Approval = Approval(approver: string, submittedAt: Option<int>, commitSha: string, pinned: bool)

  datatype Rules = Rules(
    requiredApprovals: int, approvers: seq<string>,
    codeowners: bool, requireAllGroups: bool,
    dismissOnNewCommit: bool, allowUnpinnedComments: bool,
    freshness: int, allowUnlistedOnPublic: bool,
    teamMembers: map<string, seq<string>>)

  datatype PR = PR(headSha: string, repoPrivate: bool, author: string)

  type Owners = map<string, seq<string>>

  function TrimAt(s: string): string {
    if s != [] && s[0] == '@' then s[1..] else s
  }

  predicate IsTeamSlug(s: string) {
    '/' in s
  }

  predicate IsEmailOwner(o: string) {
    '@' in TrimAt(o)
  }

  // ---------- the meaning of the gate ----------

  /** Dismissal, self-approval and staleness. */
  predicate Survives(rules: Rules, pr: PR, now: int, a: Approval) {
    && (rules.dismissOnNewCommit ==>
          if !a.pinned then rules.allowUnpinnedComments
          else a.commitSha == "" || a.commitSha == pr.headSha)
    && a.approver != pr.author
    && (rules.freshness > 0 ==> a.submittedAt.Some? && now - a.submittedAt.value <= rules.freshness)
  }

  /** The code trims a leading @ when it collects names and again when it compares them. */
  function Login(a: Approval): string {
    TrimAt(TrimAt(a.approver))
  }

  function Logins(rules: Rules, pr: PR, now: int, approvals: seq<Approval>): set<string> {
    set a | a in approvals && Survives(rules, pr, now, a) :: Login(a)
  }

  function Team(rules: Rules, slug: string): seq<string> {
    if slug in rules.teamMembers then rules.teamMembers[slug] else []
  }

  /** An allow-list entry covers a login: it is that login, or a team with that member. */
  predicate Covers(teams: map<string, seq<string>>, entry: string, login: string) {
    var r := TrimAt(entry);
    if IsTeamSlug(r) then r in teams && exists j :: 0 <= j < |teams[r]| && TrimAt(teams[r][j]) == login
    else r == login
  }

  predicate Eligible(rules: Rules, login: string) {
    exists i :: 0 <= i < |rules.approvers| && Covers(rules.teamMembers, rules.approvers[i], login)
  }

  predicate MatchesOne(rules: Rules, logins: set<string>, g: string) {
    || TrimAt(g) in logins
    || (IsTeamSlug(TrimAt(g)) && exists j :: 0 <= j < |Team(rules, TrimAt(g))| && TrimAt(Team(rules, TrimAt(g))[j]) in logins)
  }

  function Matchable(owners: seq<string>): seq<string> {
    if owners == [] then []
    else
      var n := |owners| - 1;
      if IsEmailOwner(owners[n]) then Matchable(owners[..n]) else Matchable(owners[..n]) + [owners[n]]
  }

  /** The paths that someone reeve can recognise owns. */
  function EffectiveOwners(owners: Owners): Owners {
    map path | path in owners && Matchable(owners[path]) != [] :: Matchable(owners[path])
  }

  predicate GroupGate(rules: Rules) {
    rules.requireAllGroups && rules.approvers != []
  }

  predicate OwnerGate(rules: Rules, owners: Owners) {
    rules.codeowners && EffectiveOwners(owners) != map[]
  }

  /** The safety default: a stack without any gate needs one approval. */
  function Required(rules: Rules, owners: Owners): int {
    if rules.requiredApprovals == 0 && !GroupGate(rules) && !OwnerGate(rules, owners) then 1 else rules.requiredApprovals
  }

  predicate PublicUnlisted(rules: Rules, pr: PR) {
    rules.approvers == [] && !pr.repoPrivate && !rules.allowUnlistedOnPublic
  }

  /** The logins that count towards required_approvals. */
  ghost function Hits(rules: Rules, pr: PR, logins: set<string>): set<string> {
    if PublicUnlisted(rules, pr) then {}
    else if rules.approvers == [] then logins
    else set l | l in logins && Eligible(rules, l)
  }

  ghost predicate NumericMet(rules: Rules, pr: PR, owners: Owners, logins: set<string>) {
    Required(rules, owners) > 0 ==> !PublicUnlisted(rules, pr) && |Hits(rules, pr, logins)| >= Required(rules, owners)
  }

  ghost predicate GroupsMet(rules: Rules, logins: set<string>) {
    GroupGate(rules) ==> forall i :: 0 <= i < |rules.approvers| ==> MatchesOne(rules, logins, rules.approvers[i])
  }

  predicate PathMet(rules: Rules, logins: set<string>, owners: seq<string>) {
    exists i :: 0 <= i < |owners| && MatchesOne(rules, logins, owners[i])
  }

  ghost predicate OwnersMet(rules: Rules, owners: Owners, logins: set<string>) {
    OwnerGate(rules, owners) ==>
      forall path :: path in EffectiveOwners(owners) ==> PathMet(rules, logins, EffectiveOwners(owners)[path])
  }

  /** The verdict as a function of the set of surviving logins. */
  ghost predicate Verdict(rules: Rules, pr: PR, owners: Owners, logins: set<string>) {
    && NumericMet(rules, pr, owners, logins) && GroupsMet(rules, logins) && OwnersMet(rules, owners, logins)
    && (Required(rules, owners) > 0 || GroupGate(rules) || OwnerGate(rules, owners))
  }

  /** How many of the first n listed groups have an approver. */
  ghost function MetGroups(rules: Rules, logins: set<string>, n: nat): nat
    requires n <= |rules.approvers|
  {
    if n == 0 then 0
    else MetGroups(rules, logins, n - 1) + (if MatchesOne(rules, logins, rules.approvers[n - 1]) then 1 else 0)
  }

  /** The owned paths that have an approver. */
  ghost function MetPaths(rules: Rules, logins: set<string>, owners: Owners): set<string> {
    set path | path in owners && PathMet(rules, logins, owners[path])
  }

  /** The counts shown next to the verdict: what is needed and what there is, over the gates in force. */
  ghost function Needed(rules: Rules, owners: Owners): int {
    (if Required(rules, owners) > 0 then Required(rules, owners) else 0)
    + (if GroupGate(rules) then |rules.approvers| else 0)
    + (if OwnerGate(rules, owners) then |EffectiveOwners(owners)| else 0)
  }

  ghost function Got(rules: Rules, pr: PR, owners: Owners, logins: set<string>): int {
    (if Required(rules, owners) > 0 then |Hits(rules, pr, logins)| else 0)
    + (if GroupGate(rules) then MetGroups(rules, logins, |rules.approvers|) else 0)
    + (if OwnerGate(rules, owners) then |MetPaths(rules, logins, EffectiveOwners(owners))| else 0)
  }

  // ---------- what is promised of the verdict ----------

  lemma SubsetSize<T>(a: set<T>, b: set<T>)
    requires a <= b
    ensures |a| <= |b|
  {
    assert b == a + (b - a);
  }

  lemma SubsetFull<T>(a: set<T>, b: set<T>)
    requires a <= b
    ensures |a| <= |b| && (|a| == |b| <==> a == b)
  {
    assert b == a + (b - a);
  }

  /** Crossing one more off the list uncovers it if it is one of all. */
  lemma CrossOff<T>(all: set<T>, todo: set<T>, x: T)
    requires x in todo
    ensures |all - (todo - {x})| == |all - todo| + (if x in all then 1 else 0)
  {
    var after := all - (todo - {x});
    assert x in all ==> after == (all - todo) + {x};
    assert x !in all ==> after == all - todo;
  }

  lemma MatchMonotone(rules: Rules, a: set<string>, b: set<string>, g: string)
    requires a <= b && MatchesOne(rules, a, g)
    ensures MatchesOne(rules, b, g)
  {
  }

  /** More logins never turn a yes into a no. */
  lemma VerdictMonotone(rules: Rules, pr: PR, owners: Owners, a: set<string>, b: set<string>)
    requires a <= b && Verdict(rules, pr, owners, a)
    ensures Verdict(rules, pr, owners, b)
  {
    SubsetSize(Hits(rules, pr, a), Hits(rules, pr, b));
    if GroupGate(rules) {
      forall i | 0 <= i < |rules.approvers| ensures MatchesOne(rules, b, rules.approvers[i]) {
        MatchMonotone(rules, a, b, rules.approvers[i]);
      }
    }
    if OwnerGate(rules, owners) {
      forall path | path in EffectiveOwners(owners) ensures PathMet(rules, b, EffectiveOwners(owners)[path]) {
        var o := EffectiveOwners(owners)[path];
        assert PathMet(rules, a, o);
        var i :| 0 <= i < |o| && MatchesOne(rules, a, o[i]);
        MatchMonotone(rules, a, b, o[i]);
      }
    }
  }

  /** Adding approvals never revokes; in particular order and duplicates play no part. */
  lemma MoreApprovalsNeverRevoke(rules: Rules, pr: PR, owners: Owners, now: int, xs: seq<Approval>, ys: seq<Approval>)
    requires forall a :: a in xs ==> a in ys
    requires Verdict(rules, pr, owners, Logins(rules, pr, now, xs))
    ensures Verdict(rules, pr, owners, Logins(rules, pr, now, ys))
  {
    VerdictMonotone(rules, pr, owners, Logins(rules, pr, now, xs), Logins(rules, pr, now, ys));
  }

  lemma OrderAndDuplicatesIrrelevant(rules: Rules, pr: PR, owners: Owners, now: int, xs: seq<Approval>, ys: seq<Approval>)
    requires forall a :: a in xs <==> a in ys
    ensures Verdict(rules, pr, owners, Logins(rules, pr, now, xs)) == Verdict(rules, pr, owners, Logins(rules, pr, now, ys))
  {
    assert Logins(rules, pr, now, xs) == Logins(rules, pr, now, ys);
  }

  /** The passage of time alone never grants. */
  lemma TimeNeverGrants(rules: Rules, pr: PR, owners: Owners, now: int, later: int, xs: seq<Approval>)
    requires now <= later && Verdict(rules, pr, owners, Logins(rules, pr, later, xs))
    ensures Verdict(rules, pr, owners, Logins(rules, pr, now, xs))
  {
    VerdictMonotone(rules, pr, owners, Logins(rules, pr, later, xs), Logins(rules, pr, now, xs));
  }

  lemma NobodyNeverSuffices(rules: Rules, pr: PR, owners: Owners)
    ensures !Verdict(rules, pr, owners, {})
  {
    if Required(rules, owners) > 0 {
      assert Hits(rules, pr, {}) == {};
    } else if GroupGate(rules) {
      assert !MatchesOne(rules, {}, rules.approvers[0]);
    } else if OwnerGate(rules, owners) {
      var path :| path in EffectiveOwners(owners);
      assert !PathMet(rules, {}, EffectiveOwners(owners)[path]);
    }
  }

  /** The author's login, trimmed as the approvers' logins are. */
  function AuthorLogin(pr: PR): string {
    TrimAt(TrimAt(pr.author))
  }

  /** An approval by the author that the self-approval filter does not recognise: approver and
      author are spelled differently, but are the same once the leading @ is gone. */
  predicate Disguised(pr: PR, a: Approval) {
    a.approver != pr.author && Login(a) == AuthorLogin(pr)
  }

  /** For every rule set, a satisfied gate rests on at least one surviving approval by somebody
      whose login is not the author's, as long as no approval is disguised. */
  lemma NeedsAnotherPerson(rules: Rules, pr: PR, owners: Owners, now: int, xs: seq<Approval>)
    requires forall a :: a in xs ==> !Disguised(pr, a)
    requires Verdict(rules, pr, owners, Logins(rules, pr, now, xs))
    ensures exists a :: a in xs && Survives(rules, pr, now, a) && Login(a) != AuthorLogin(pr)
  {
    NobodyNeverSuffices(rules, pr, owners);
    var l :| l in Logins(rules, pr, now, xs);
    var a :| a in xs && Survives(rules, pr, now, a) && Login(a) == l;
    assert !Disguised(pr, a);
  }

  /** Rules that ask for one approval by anybody, whenever and on whatever commit. */
  const LENIENT: Rules := Rules(1, [], false, false, false, false, 0, true, map[])

  /** Exactly when the author's own login can be counted: under some rules and at some time it is,
      if and only if some approval is disguised. */
  lemma AuthorCountsIff(pr: PR, xs: seq<Approval>)
    ensures (exists rules, now :: AuthorLogin(pr) in Logins(rules, pr, now, xs)) <==> exists a :: a in xs && Disguised(pr, a)
  {
    if a :| a in xs && Disguised(pr, a) {
      assert Survives(LENIENT, pr, 0, a);
      assert AuthorLogin(pr) in Logins(LENIENT, pr, 0, xs);
    }
    if rules, now :| AuthorLogin(pr) in Logins(rules, pr, now, xs) {
      var a :| a in xs && Survives(rules, pr, now, a) && Login(a) == AuthorLogin(pr);
      assert Disguised(pr, a);
    }
  }

  /** The gate is open to these approvals under some rules, whatever the owners. */
  ghost predicate CanSatisfy(pr: PR, xs: seq<Approval>) {
    exists rules, now :: Verdict(rules, pr, map[], Logins(rules, pr, now, xs))
  }

  /** Exactly when authors can approve their own change: approvals that all come from the author
      satisfy some rule set if and only if one of them is disguised. */
  lemma SelfApprovalIff(pr: PR, xs: seq<Approval>)
    requires forall a :: a in xs ==> Login(a) == AuthorLogin(pr)
    ensures CanSatisfy(pr, xs) <==> exists a :: a in xs && Disguised(pr, a)
  {
    if a :| a in xs && Disguised(pr, a) {
      assert Survives(LENIENT, pr, 0, a);
      OneLoginSatisfiesLenient(pr, Logins(LENIENT, pr, 0, xs), AuthorLogin(pr));
    }
    if rules, now :| Verdict(rules, pr, map[], Logins(rules, pr, now, xs)) {
      NobodyNeverSuffices(rules, pr, map[]);
      var l :| l in Logins(rules, pr, now, xs);
      var a :| a in xs && Survives(rules, pr, now, a) && Login(a) == l;
      assert Disguised(pr, a);
    }
  }

  lemma OneLoginSatisfiesLenient(pr: PR, logins: set<string>, l: string)
    requires l in logins
    ensures Verdict(LENIENT, pr, map[], logins)
  {
    assert Hits(LENIENT, pr, logins) == logins;
    SubsetSize({l}, logins);
  }

  predicate Plain(login: string) {
    login == "" || login[0] != '@'
  }

  /** Approver and author are logins without a leading @, by contract.  Then no approval is
      disguised, and for every rule set another person is needed. */
  lemma PlainLoginsNeedAnotherPerson(rules: Rules, pr: PR, owners: Owners, now: int, xs: seq<Approval>)
    requires Plain(pr.author) && forall a :: a in xs ==> Plain(a.approver)
    requires Verdict(rules, pr, owners, Logins(rules, pr, now, xs))
    ensures exists a :: a in xs && Survives(rules, pr, now, a) && a.approver != pr.author && Login(a) == a.approver
  {
    forall a | a in xs ensures !Disguised(pr, a) && Login(a) == a.approver {
      assert TrimAt(a.approver) == a.approver && TrimAt(pr.author) == pr.author;
    }
    NeedsAnotherPerson(rules, pr, owners, now, xs);
  }

  /** The inputs, either way round: alice approves her own change as @alice, and @alice hers as
      alice. */
  lemma AuthorApprovesAsAt(headSha: string, author: string, approver: string)
    requires (author == "alice" && approver == "@alice") || (author == "@alice" && approver == "alice")
    ensures var pr, a := PR(headSha, true, author), Approval(approver, None, headSha, true);
      && Logins(LENIENT, pr, 0, [a]) == {"alice"}
      && Verdict(LENIENT, pr, map[], Logins(LENIENT, pr, 0, [a]))
  {
    var pr, a := PR(headSha, true, author), Approval(approver, None, headSha, true);
    assert "@alice"[1..] == "alice";
    assert Login(a) == "alice" && a.approver != pr.author;
    assert Survives(LENIENT, pr, 0, a);
    assert forall x :: x in [a] ==> x == a;
    assert a in [a];
    assert Logins(LENIENT, pr, 0, [a]) == {"alice"};
    OneLoginSatisfiesLenient(pr, {"alice"}, "alice");
  }

  // ---------- which approvals survive ----------

  /** The approval binds to the commit under review, or need not. */
  predicate OnCommit(rules: Rules, pr: PR, a: Approval) {
    || !rules.dismissOnNewCommit
    || (a.pinned && a.commitSha in {"", pr.headSha})
    || (!a.pinned && rules.allowUnpinnedComments)
  }

  /** It was given within the window, or there is none. */
  predicate InTime(rules: Rules, now: int, a: Approval) {
    rules.freshness > 0 ==> a.submittedAt.Some? && now <= a.submittedAt.value + rules.freshness
  }

  /** Exactly whose approval counts: somebody with an approval under another name than the author's, on
      the commit, in time. */
  lemma SurvivorIff(rules: Rules, pr: PR, now: int, xs: seq<Approval>, login: string)
    ensures login in Logins(rules, pr, now, xs) <==>
              exists a :: a in xs && a.approver != pr.author && OnCommit(rules, pr, a) && InTime(rules, now, a) && login == Login(a)
  {
    forall a ensures Survives(rules, pr, now, a) <==> a.approver != pr.author && OnCommit(rules, pr, a) && InTime(rules, now, a) {
    }
  }

  /** A new commit dismisses every approval given for another one. */
  lemma NewCommitDismisses(rules: Rules, pr: PR, now: int, xs: seq<Approval>, owners: Owners)
    requires rules.dismissOnNewCommit && !rules.allowUnpinnedComments
    requires forall a :: a in xs && a.pinned ==> a.commitSha != "" && a.commitSha != pr.headSha
    ensures !Verdict(rules, pr, owners, Logins(rules, pr, now, xs))
  {
    assert Logins(rules, pr, now, xs) == {};
    NobodyNeverSuffices(rules, pr, owners);
  }

  /** Once the window has passed since the last approval the gate is shut. */
  lemma StaleApprovalsLapse(rules: Rules, pr: PR, now: int, xs: seq<Approval>, owners: Owners)
    requires rules.freshness > 0 && forall a :: a in xs && a.submittedAt.Some? ==> now > a.submittedAt.value + rules.freshness
    ensures !Verdict(rules, pr, owners, Logins(rules, pr, now, xs))
  {
    assert Logins(rules, pr, now, xs) == {};
    NobodyNeverSuffices(rules, pr, owners);
  }

  // ---------- the verdict, exactly ----------

  /** The entry is a team with that member. */
  predicate Member(rules: Rules, entry: string, login: string) {
    && '/' in TrimAt(entry) && TrimAt(entry) in rules.teamMembers
    && exists m :: m in rules.teamMembers[TrimAt(entry)] && TrimAt(m) == login
  }

  /** The entry stands for one of the logins: by name, or as their team. */
  predicate SpeaksFor(rules: Rules, entry: string, logins: set<string>) {
    exists l :: l in logins && (TrimAt(entry) == l || Member(rules, entry, l))
  }

  /** An owner that can be a login or a team: not an email address. */
  predicate CanApprove(owner: string) {
    '@' !in TrimAt(owner)
  }

  predicate Ownable(owners: seq<string>) {
    exists o :: o in owners && CanApprove(o)
  }

  /** n different logins among these. */
  ghost predicate Different(counted: seq<string>, n: int, logins: set<string>) {
    && |counted| == n && (forall i :: 0 <= i < |counted| ==> counted[i] in logins)
    && forall i, j :: 0 <= i < j < |counted| ==> counted[i] != counted[j]
  }

  lemma {:induction false} Choose(s: set<string>, n: nat) returns (counted: seq<string>)
    requires n <= |s|
    ensures Different(counted, n, s)
  {
    counted := [];
    if n > 0 {
      var x :| x in s;
      var rest := Choose(s - {x}, n - 1);
      counted := [x] + rest;
    }
  }

  lemma {:induction false} DifferentSize(counted: seq<string>, n: int, s: set<string>)
    requires Different(counted, n, s)
    ensures n <= |s|
  {
    if n > 0 {
      var k := n - 1;
      forall i | 0 <= i < k ensures counted[..k][i] in s - {counted[k]} {
      }
      DifferentSize(counted[..k], k, s - {counted[k]});
    }
  }

  predicate AsksGroups(rules: Rules) {
    rules.requireAllGroups && |rules.approvers| > 0
  }

  predicate AsksOwners(rules: Rules, owners: Owners) {
    rules.codeowners && exists path :: path in owners && Ownable(owners[path])
  }

  /** How many approvals are asked for by number: as many as the rules say, and one if they ask for
      nothing at all. */
  function Quorum(rules: Rules, owners: Owners): int {
    if rules.requiredApprovals != 0 then rules.requiredApprovals
    else if AsksGroups(rules) || AsksOwners(rules, owners) then 0 else 1
  }

  /** The quorum is there: that many different logins, each on the allow-list if there is one; without
      one nobody counts on a public repository that did not opt in. */
  ghost predicate QuorumPresent(rules: Rules, pr: PR, logins: set<string>, n: int) {
    exists counted ::
      && Different(counted, n, logins)
      && if |rules.approvers| == 0 then pr.repoPrivate || rules.allowUnlistedOnPublic
         else forall i :: 0 <= i < |counted| ==> Listed(rules, counted[i])
  }

  /** On the allow-list, by name or as a member of a team on it. */
  predicate Listed(rules: Rules, login: string) {
    exists e :: e in rules.approvers && if '/' in TrimAt(e) then Member(rules, e, login) else TrimAt(e) == login
  }

  /** What the rules ask for, read off the rules, is what the logins give: the quorum, somebody of every
      listed group, and somebody of the owners of every path that has any. */
  ghost predicate Sufficient(rules: Rules, pr: PR, owners: Owners, logins: set<string>) {
    var n := Quorum(rules, owners);
    && (n > 0 || AsksGroups(rules) || AsksOwners(rules, owners))
    && (n > 0 ==> QuorumPresent(rules, pr, logins, n))
    && (AsksGroups(rules) ==> forall e :: e in rules.approvers ==> SpeaksFor(rules, e, logins))
    && (rules.codeowners ==>
          forall path :: path in owners && Ownable(owners[path]) ==>
            exists o :: o in owners[path] && CanApprove(o) && SpeaksFor(rules, o, logins))
  }

  lemma SpeaksIff(rules: Rules, logins: set<string>, g: string)
    ensures MatchesOne(rules, logins, g) <==> SpeaksFor(rules, g, logins)
  {
    var slug := TrimAt(g);
    if l :| l in logins && (slug == l || Member(rules, g, l)) {
      if slug != l {
        var m :| m in rules.teamMembers[slug] && TrimAt(m) == l;
        var j :| 0 <= j < |Team(rules, slug)| && Team(rules, slug)[j] == m;
      }
    }
    if j :| IsTeamSlug(slug) && 0 <= j < |Team(rules, slug)| && TrimAt(Team(rules, slug)[j]) in logins {
      assert Member(rules, g, TrimAt(Team(rules, slug)[j]));
    }
  }

  lemma ListedIff(rules: Rules, login: string)
    ensures Eligible(rules, login) <==> Listed(rules, login)
  {
    forall e ensures Covers(rules.teamMembers, e, login) <==> if '/' in TrimAt(e) then Member(rules, e, login) else TrimAt(e) == login {
      CoversIff(rules, e, login);
    }
  }

  lemma CoversIff(rules: Rules, e: string, login: string)
    ensures Covers(rules.teamMembers, e, login) <==> if '/' in TrimAt(e) then Member(rules, e, login) else TrimAt(e) == login
  {
    var slug := TrimAt(e);
    if Member(rules, e, login) {
      var m :| m in rules.teamMembers[slug] && TrimAt(m) == login;
      var j :| 0 <= j < |rules.teamMembers[slug]| && rules.teamMembers[slug][j] == m;
    }
  }

  lemma {:induction false} MatchableAre(owners: seq<string>)
    ensures forall o :: o in Matchable(owners) <==> o in owners && CanApprove(o)
    ensures Matchable(owners) != [] <==> Ownable(owners)
  {
    if owners != [] {
      var n := |owners| - 1;
      MatchableAre(owners[..n]);
      assert owners == owners[..n] + [owners[n]];
    }
    if Matchable(owners) != [] {
      assert Matchable(owners)[0] in Matchable(owners);
    }
  }

  lemma OwnersAre(rules: Rules, owners: Owners)
    ensures OwnerGate(rules, owners) <==> AsksOwners(rules, owners)
    ensures forall path :: path in EffectiveOwners(owners) <==> path in owners && Ownable(owners[path])
  {
    forall path | path in owners ensures Matchable(owners[path]) != [] <==> Ownable(owners[path]) {
      MatchableAre(owners[path]);
    }
    if path :| path in owners && Ownable(owners[path]) {
      assert path in EffectiveOwners(owners);
    }
    if EffectiveOwners(owners) != map[] {
      var path :| path in EffectiveOwners(owners);
    }
  }

  lemma QuorumIff(rules: Rules, pr: PR, owners: Owners, logins: set<string>)
    ensures Required(rules, owners) == Quorum(rules, owners)
    ensures NumericMet(rules, pr, owners, logins) <==>
              (Quorum(rules, owners) > 0 ==> QuorumPresent(rules, pr, logins, Quorum(rules, owners)))
  {
    OwnersAre(rules, owners);
    var n, hits := Quorum(rules, owners), Hits(rules, pr, logins);
    forall l ensures Eligible(rules, l) <==> Listed(rules, l) {
      ListedIff(rules, l);
    }
    if n > 0 && |hits| >= n {
      var counted := Choose(hits, n);
      assert Different(counted, n, logins);
    }
    if counted :| Different(counted, n, logins) &&
                  if |rules.approvers| == 0 then pr.repoPrivate || rules.allowUnlistedOnPublic
                  else forall i :: 0 <= i < |counted| ==> Listed(rules, counted[i]) {
      assert Different(counted, n, hits);
      DifferentSize(counted, n, hits);
    }
  }

  lemma PathIff(rules: Rules, owners: Owners, logins: set<string>, path: string)
    requires path in EffectiveOwners(owners)
    ensures PathMet(rules, logins, EffectiveOwners(owners)[path]) <==>
              exists o :: o in owners[path] && CanApprove(o) && SpeaksFor(rules, o, logins)
  {
    var all := Matchable(owners[path]);
    MatchableAre(owners[path]);
    forall o ensures MatchesOne(rules, logins, o) <==> SpeaksFor(rules, o, logins) {
      SpeaksIff(rules, logins, o);
    }
    if o :| o in owners[path] && CanApprove(o) && SpeaksFor(rules, o, logins) {
      assert o in all;
      var i :| 0 <= i < |all| && all[i] == o;
      assert MatchesOne(rules, logins, all[i]);
    }
  }

  /** The verdict, exactly. */
  lemma SatisfiedIff(rules: Rules, pr: PR, owners: Owners, logins: set<string>)
    ensures Verdict(rules, pr, owners, logins) <==> Sufficient(rules, pr, owners, logins)
  {
    QuorumIff(rules, pr, owners, logins);
    OwnersAre(rules, owners);
    forall e ensures MatchesOne(rules, logins, e) <==> SpeaksFor(rules, e, logins) {
      SpeaksIff(rules, logins, e);
    }
    forall path | path in EffectiveOwners(owners)
      ensures PathMet(rules, logins, EffectiveOwners(owners)[path]) <==>
                exists o :: o in owners[path] && CanApprove(o) && SpeaksFor(rules, o, logins)
    {
      PathIff(rules, owners, logins, path);
    }
  }

  /** The first n listed entries that somebody speaks for. */
  ghost function SpokenFor(rules: Rules, logins: set<string>, n: nat): set<nat>
    requires n <= |rules.approvers|
  {
    set i: nat | i < n && SpeaksFor(rules, rules.approvers[i], logins)
  }

  lemma SpokenStep(rules: Rules, logins: set<string>, k: nat)
    requires k < |rules.approvers|
    ensures |SpokenFor(rules, logins, k + 1)| ==
              |SpokenFor(rules, logins, k)| + if SpeaksFor(rules, rules.approvers[k], logins) then 1 else 0
  {
    var before := SpokenFor(rules, logins, k);
    if SpeaksFor(rules, rules.approvers[k], logins) {
      assert SpokenFor(rules, logins, k + 1) == before + {k};
    } else {
      assert SpokenFor(rules, logins, k + 1) == before;
    }
  }

  lemma {:induction false} GroupsCounted(rules: Rules, logins: set<string>, n: nat)
    requires n <= |rules.approvers|
    ensures MetGroups(rules, logins, n) == |SpokenFor(rules, logins, n)|
  {
    if n == 0 {
      assert SpokenFor(rules, logins, 0) == {};
    } else {
      GroupsCounted(rules, logins, n - 1);
      SpeaksIff(rules, logins, rules.approvers[n - 1]);
      SpokenStep(rules, logins, n - 1);
    }
  }

  /** The counts shown next to the verdict, gate by gate: the logins that count towards the quorum, the
      listed groups and the owned paths that somebody speaks for. */
  lemma GotIs(rules: Rules, pr: PR, owners: Owners, logins: set<string>)
    ensures Got(rules, pr, owners, logins) ==
              (if Quorum(rules, owners) > 0 then |Countable(rules, pr, logins)| else 0)
              + (if AsksGroups(rules) then |SpokenFor(rules, logins, |rules.approvers|)| else 0)
              + (if AsksOwners(rules, owners) then |Answered(rules, owners, logins)| else 0)
  {
    OwnersAre(rules, owners);
    GroupsCounted(rules, logins, |rules.approvers|);
    forall l ensures Eligible(rules, l) <==> Listed(rules, l) {
      ListedIff(rules, l);
    }
    assert Hits(rules, pr, logins) == Countable(rules, pr, logins);
    AnsweredAreMet(rules, owners, logins);
  }

  lemma AnsweredAreMet(rules: Rules, owners: Owners, logins: set<string>)
    ensures MetPaths(rules, logins, EffectiveOwners(owners)) == Answered(rules, owners, logins)
  {
    OwnersAre(rules, owners);
    forall path | path in EffectiveOwners(owners)
      ensures path in MetPaths(rules, logins, EffectiveOwners(owners)) <==> path in Answered(rules, owners, logins)
    {
      PathIff(rules, owners, logins, path);
    }
  }

  /** What is needed, gate by gate. */
  lemma NeededIs(rules: Rules, pr: PR, owners: Owners, logins: set<string>)
    ensures Needed(rules, owners) ==
              (if Quorum(rules, owners) > 0 then Quorum(rules, owners) else 0) + (if AsksGroups(rules) then |rules.approvers| else 0)
              + (if AsksOwners(rules, owners) then |set path | path in owners && Ownable(owners[path])| else 0)
  {
    OwnersAre(rules, owners);
    var effective := EffectiveOwners(owners);
    assert effective.Keys == set path | path in owners && Ownable(owners[path]);
    assert |effective| == |effective.Keys|;
  }

  /** A satisfied gate shows at least as many as are needed, and at least one. */
  lemma GotSuffices(rules: Rules, pr: PR, owners: Owners, logins: set<string>)
    requires Verdict(rules, pr, owners, logins)
    ensures Got(rules, pr, owners, logins) >= Needed(rules, owners) > 0
  {
    AllGroupsMet(rules, logins, |rules.approvers|);
    AllPathsMet(rules, logins, EffectiveOwners(owners));
    var effective := EffectiveOwners(owners);
    if effective != map[] {
      var path :| path in effective;
      SubsetSize({path}, effective.Keys);
      assert |effective| == |effective.Keys|;
    }
  }

  /** The logins that count towards the quorum. */
  ghost function Countable(rules: Rules, pr: PR, logins: set<string>): set<string> {
    set l | l in logins && if |rules.approvers| == 0 then pr.repoPrivate || rules.allowUnlistedOnPublic else Listed(rules, l)
  }

  /** The owned paths somebody speaks for. */
  ghost function Answered(rules: Rules, owners: Owners, logins: set<string>): set<string> {
    set path | path in owners && Ownable(owners[path]) &&
               exists o :: o in owners[path] && CanApprove(o) && SpeaksFor(rules, o, logins)
  }

  // ---------- the code, loop by loop ----------

  function LoginSet(names: seq<string>): set<string> {
    set n | n in names :: TrimAt(n)
  }

  /** The filter loop and names(). */
  method SurvivingNames(rules: Rules, pr: PR, now: int, approvals: seq<Approval>) returns (names: seq<string>)
    ensures LoginSet(names) == Logins(rules, pr, now, approvals)
  {
    names := [];
    for i := 0 to |approvals|
      invariant LoginSet(names) == Logins(rules, pr, now, approvals[..i])
    {
      var a := approvals[i];
      assert approvals[..i + 1] == approvals[..i] + [a];
      ghost var before := names;
      if Survives(rules, pr, now, a) {
        names := names + [TrimAt(a.approver)];
        assert LoginSet(names) == LoginSet(before) + {Login(a)};
        assert Logins(rules, pr, now, approvals[..i + 1]) == Logins(rules, pr, now, approvals[..i]) + {Login(a)};
      } else {
        assert Logins(rules, pr, now, approvals[..i + 1]) == Logins(rules, pr, now, approvals[..i]);
      }
    }
    assert approvals[..|approvals|] == approvals;
  }

  ghost predicate NoDuplicates(s: seq<string>) {
    forall i, j :: 0 <= i < j < |s| ==> s[i] != s[j]
  }

  function Elements(s: seq<string>): set<string> {
    set x | x in s
  }

  lemma {:induction false} NoDuplicatesSize(s: seq<string>)
    requires NoDuplicates(s)
    ensures |Elements(s)| == |s|
  {
    if s != [] {
      var n := |s| - 1;
      NoDuplicatesSize(s[..n]);
      assert s == s[..n] + [s[n]];
      assert Elements(s) == Elements(s[..n]) + {s[n]};
      assert s[n] !in Elements(s[..n]);
    }
  }

  /** distinct and the second loop of intersect: the allowed logins, once each. */
  method DistinctAmong(names: seq<string>, restricted: bool, eligible: set<string>) returns (out: seq<string>)
    ensures NoDuplicates(out)
    ensures Elements(out) == set l | l in LoginSet(names) && (restricted ==> l in eligible)
  {
    out := [];
    var seen: set<string> := {};
    for i := 0 to |names|
      invariant NoDuplicates(out) && Elements(out) == seen
      invariant seen == set l | l in LoginSet(names[..i]) && (restricted ==> l in eligible)
    {
      var a := TrimAt(names[i]);
      assert names[..i + 1] == names[..i] + [names[i]];
      assert LoginSet(names[..i + 1]) == LoginSet(names[..i]) + {a};
      if (restricted && a !in eligible) || a in seen {
        continue;
      }
      seen := seen + {a};
      out := out + [a];
    }
    assert names[..|names|] == names;
  }

  /** The first loop of intersect. */
  method EligibleLogins(rules: Rules) returns (eligible: set<string>)
    ensures forall l :: l in eligible <==> Eligible(rules, l)
  {
    eligible := {};
    for i := 0 to |rules.approvers|
      invariant forall l :: l in eligible <==>
                  exists k :: 0 <= k < i && Covers(rules.teamMembers, rules.approvers[k], l)
    {
      var added := Expand(rules, rules.approvers[i]);
      eligible := eligible + added;
    }
  }

  method Expand(rules: Rules, entry: string) returns (logins: set<string>)
    ensures forall l :: l in logins <==> Covers(rules.teamMembers, entry, l)
  {
    var r := TrimAt(entry);
    if !IsTeamSlug(r) {
      return {r};
    }
    logins := {};
    var team := Team(rules, r);
    for j := 0 to |team|
      invariant forall l :: l in logins <==> exists k :: 0 <= k < j && TrimAt(team[k]) == l
    {
      logins := logins + {TrimAt(team[j])};
    }
  }

  method AnyMatches(rules: Rules, names: seq<string>, g: string) returns (found: bool)
    ensures found == MatchesOne(rules, LoginSet(names), g)
  {
    var slug, logins := TrimAt(g), LoginSet(names);
    if slug in logins {
      return true;
    }
    if IsTeamSlug(slug) {
      var team := Team(rules, slug);
      for j := 0 to |team|
        invariant forall k :: 0 <= k < j ==> TrimAt(team[k]) !in logins
      {
        if TrimAt(team[j]) in logins {
          return true;
        }
      }
    }
    return false;
  }

  /** The group loop: how many of the listed groups have an approver. */
  method CountGroups(rules: Rules, names: seq<string>) returns (satisfied: nat)
    ensures satisfied == MetGroups(rules, LoginSet(names), |rules.approvers|)
  {
    satisfied := 0;
    for i := 0 to |rules.approvers|
      invariant satisfied == MetGroups(rules, LoginSet(names), i)
    {
      var found := AnyMatches(rules, names, rules.approvers[i]);
      if found {
        satisfied := satisfied + 1;
      }
    }
  }

  /** The count is full exactly when every group has an approver. */
  lemma {:induction false} AllGroupsMet(rules: Rules, logins: set<string>, n: nat)
    requires n <= |rules.approvers|
    ensures MetGroups(rules, logins, n) <= n
    ensures MetGroups(rules, logins, n) == n <==> forall i :: 0 <= i < n ==> MatchesOne(rules, logins, rules.approvers[i])
  {
    if n > 0 {
      AllGroupsMet(rules, logins, n - 1);
    }
  }

  method OnePath(rules: Rules, names: seq<string>, owners: seq<string>) returns (found: bool)
    ensures found == PathMet(rules, LoginSet(names), owners)
  {
    for i := 0 to |owners|
      invariant forall k :: 0 <= k < i ==> !MatchesOne(rules, LoginSet(names), owners[k])
    {
      found := AnyMatches(rules, names, owners[i]);
      if found {
        return true;
      }
    }
    return false;
  }

  /** The CODEOWNERS loop, over the paths in whatever order the map yields them. */
  method CountPaths(rules: Rules, names: seq<string>, owners: Owners) returns (satisfied: nat)
    ensures satisfied == |MetPaths(rules, LoginSet(names), owners)|
  {
    satisfied := 0;
    var todo := owners.Keys;
    ghost var all := MetPaths(rules, LoginSet(names), owners);
    assert all - todo == {};
    while todo != {}
      invariant todo <= owners.Keys && satisfied == |all - todo|
      decreases todo
    {
      var path :| path in todo;
      var found := OnePath(rules, names, owners[path]);
      CrossOff(all, todo, path);
      todo := todo - {path};
      if found {
        satisfied := satisfied + 1;
      }
    }
    assert all - todo == all;
  }

  /** The count is full exactly when every path has an approver. */
  lemma AllPathsMet(rules: Rules, logins: set<string>, owners: Owners)
    ensures |MetPaths(rules, logins, owners)| <= |owners|
    ensures |MetPaths(rules, logins, owners)| == |owners| <==> forall path :: path in owners ==> PathMet(rules, logins, owners[path])
  {
    var all := MetPaths(rules, logins, owners);
    SubsetFull(all, owners.Keys);
    assert |owners| == |owners.Keys|;
    assert all == owners.Keys <==> forall path :: path in owners ==> path in all;
  }

  /** The required_approvals count. */
  method CountHits(rules: Rules, pr: PR, names: seq<string>) returns (hits: nat)
    ensures hits == |Hits(rules, pr, LoginSet(names))|
  {
    if |rules.approvers| == 0 && !pr.repoPrivate && !rules.allowUnlistedOnPublic {
      return 0;
    }
    var counted: seq<string>;
    if |rules.approvers| == 0 {
      counted := DistinctAmong(names, false, {});
    } else {
      var eligible := EligibleLogins(rules);
      counted := DistinctAmong(names, true, eligible);
    }
    NoDuplicatesSize(counted);
    assert Elements(counted) == Hits(rules, pr, LoginSet(names));
    hits := |counted|;
  }

  datatype Resolution = Resolution(satisfied: bool, got: nat, needed: int)

  /** What one gate contributes: its count, what it needs, and whether it is met. */
  datatype Gate = Gate(got: nat, needed: nat, met: bool)

  const NO_GATE: Gate := Gate(0, 0, true)

  method NumericStage(rules: Rules, pr: PR, owners: Owners, names: seq<string>, required: int) returns (g: Gate)
    requires required == Required(rules, owners)
    ensures g.met == NumericMet(rules, pr, owners, LoginSet(names))
    ensures g.needed == (if required > 0 then required else 0)
    ensures g.got == (if required > 0 then |Hits(rules, pr, LoginSet(names))| else 0)
  {
    if required <= 0 {
      return NO_GATE;
    }
    // an unlisted review on a public repository counts for nothing
    var hits := CountHits(rules, pr, names);
    g := Gate(hits, required, hits >= required);
  }

  method GroupStage(rules: Rules, names: seq<string>, inForce: bool) returns (g: Gate)
    requires inForce == GroupGate(rules)
    ensures g.met == GroupsMet(rules, LoginSet(names))
    ensures g.needed == (if inForce then |rules.approvers| else 0)
    ensures g.got == (if inForce then MetGroups(rules, LoginSet(names), |rules.approvers|) else 0)
  {
    if !inForce {
      return NO_GATE;
    }
    var n := CountGroups(rules, names);
    AllGroupsMet(rules, LoginSet(names), |rules.approvers|);
    g := Gate(n, |rules.approvers|, n == |rules.approvers|);
  }

  method OwnerStage(rules: Rules, owners: Owners, names: seq<string>, inForce: bool) returns (g: Gate)
    requires inForce == OwnerGate(rules, owners)
    ensures g.met == OwnersMet(rules, owners, LoginSet(names))
    ensures g.needed == (if inForce then |EffectiveOwners(owners)| else 0)
    ensures g.got == (if inForce then |MetPaths(rules, LoginSet(names), EffectiveOwners(owners))| else 0)
  {
    if !inForce {
      return NO_GATE;
    }
    var effective := EffectiveOwners(owners);
    var n := CountPaths(rules, names, effective);
    AllPathsMet(rules, LoginSet(names), effective);
    g := Gate(n, |effective|, n == |effective|);
  }

  /** Evaluate: whatever the order of the approvals and of the map, the gate is satisfied exactly if the
      surviving logins give what the rules ask for; and the counts are functions of those logins too. */
  method Evaluate(rules: Rules, approvals: seq<Approval>, pr: PR, owners: Owners, now: int) returns (res: Resolution)
    ensures res.satisfied <==> Sufficient(rules, pr, owners, Logins(rules, pr, now, approvals))
    ensures res.satisfied == Verdict(rules, pr, owners, Logins(rules, pr, now, approvals))
    ensures res.needed == Needed(rules, owners) && res.got == Got(rules, pr, owners, Logins(rules, pr, now, approvals))
  {
    SatisfiedIff(rules, pr, owners, Logins(rules, pr, now, approvals));
    var names := SurvivingNames(rules, pr, now, approvals);
    var ownerGate := rules.codeowners && |EffectiveOwners(owners)| > 0;
    var groupGate := rules.requireAllGroups && |rules.approvers| > 0;
    assert ownerGate == OwnerGate(rules, owners);
    var required := rules.requiredApprovals;
    if required == 0 && !groupGate && !ownerGate {
      required := 1;
    }
    var numeric := NumericStage(rules, pr, owners, names, required);
    var groups := GroupStage(rules, names, groupGate);
    var paths := OwnerStage(rules, owners, names, ownerGate);
    var needed := numeric.needed + groups.needed + paths.needed;
    res := Resolution(numeric.met && groups.met && paths.met && needed > 0, numeric.got + groups.got + paths.got, needed);
  }
}
