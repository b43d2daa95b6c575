/** Names of lock objects: internal/blob/key.go and key in internal/blob/locks/store.go.

    A name is a sequence of runes. The truncated SHA-256 digest is a parameter: all that is
    used of it is that it has a fixed length and is written in hexadecimal. */
module Keys {
  import opened Strings

  type Digest = string -> string

  const HASH_LEN := 32

  predicate IsHex(c: char) {
    '0' <= c <= '9' || 'a' <= c <= 'f'
  }

  ghost predicate IsDigest(d: string) {
    |d| == HASH_LEN && forall i :: 0 <= i < |d| ==> IsHex(d[i])
  }

  predicate IsSafe(c: char) {
    'a' <= c <= 'z' || 'A' <= c <= 'Z' || '0' <= c <= '9' || c == '-'
  }

  predicate Safe(s: string) {
    forall i :: 0 <= i < |s| ==> IsSafe(s[i])
  }

  predicate Blank(s: string) {
    forall i :: 0 <= i < |s| ==> s[i] == '_'
  }

  function Sanitised(s: string): string {
    seq(|s|, i requires 0 <= i < |s| => if IsSafe(s[i]) then s[i] else '_')
  }

  /** What a digest is appended to. */
  function Stem(s: string): string {
    if Blank(Sanitised(s)) then "key" else Sanitised(s)
  }

  function Slug(h: Digest, s: string): string {
    if s == "" then "key"
    else if Safe(s) then s
    else Stem(s) + ("__" + h(s))
  }

  function Component(h: Digest, s: string, fallback: string): string {
    if s == "" then Slug(h, fallback) else Slug(h, s)
  }

  function Key(h: Digest, project: string, stack: string): string {
    "locks/" + (Component(h, project, "project") + ("/" + (Component(h, stack, "stack") + ".json")))
  }

  // ---------- the loops ----------

  method IsPassthrough(s: string) returns (ok: bool)
    ensures ok <==> Safe(s)
  {
    for i := 0 to |s|
      invariant Safe(s[..i])
    {
      if !IsSafe(s[i]) {
        return false;
      }
    }
    assert s[..|s|] == s;
    return true;
  }

  method SanitizeComponent(s: string) returns (b: string, replaced: bool)
    ensures b == Sanitised(s)
    ensures replaced <==> exists i :: 0 <= i < |s| && s[i] != b[i]
  {
    b, replaced := "", false;
    for i := 0 to |s|
      invariant b == Sanitised(s)[..i]
      invariant replaced <==> exists k :: 0 <= k < i && s[k] != b[k]
    {
      if IsSafe(s[i]) || s[i] == '_' {
        b := b + [s[i]];
      } else {
        b, replaced := b + ['_'], true;
        assert s[i] != b[i];
      }
    }
  }

  method PassthroughOrDigest(h: Digest, s: string) returns (r: string)
    ensures r == Slug(h, s)
  {
    if s == "" {
      return "key";
    }
    var safe := IsPassthrough(s);
    if safe {
      return s;
    }
    var sanitised, _ := SanitizeComponent(s);
    if Blank(sanitised) {
      sanitised := "key";
    }
    return sanitised + ("__" + h(s));
  }

  method SlugComponent(h: Digest, s: string, fallback: string) returns (r: string)
    ensures r == Component(h, s, fallback)
  {
    if s == "" {
      r := PassthroughOrDigest(h, fallback);
    } else {
      r := PassthroughOrDigest(h, s);
    }
  }

  // ---------- what a component looks like ----------

  /** A dash, an ASCII digit or an ASCII letter, by its code. */
  predicate Plain(c: char) {
    var n := c as int;
    n == 45 || 48 <= n < 58 || 65 <= n < 91 || 97 <= n < 123
  }

  /** The only runes a key component consists of. */
  ghost predicate Tame(s: string) {
    forall i :: 0 <= i < |s| ==> Plain(s[i]) || s[i] == '_'
  }

  lemma StemIs(s: string)
    ensures var stem := Stem(s);
      if exists i :: 0 <= i < |s| && Plain(s[i])
      then |stem| == |s| && forall i :: 0 <= i < |s| ==> stem[i] == if Plain(s[i]) then s[i] else '_'
      else stem == "key"
  {
    if i :| 0 <= i < |s| && Plain(s[i]) {
      assert Sanitised(s)[i] != '_';
    } else {
      assert forall i :: 0 <= i < |s| ==> !Plain(s[i]) && Sanitised(s)[i] == '_';
    }
  }

  /** A plain name is its own component.  Any other ends in its digest, behind itself with each
      foreign rune replaced by one underscore, or behind "key" if nothing else would be left of it. */
  lemma ComponentIs(h: Digest, s: string, fallback: string)
    requires s != ""
    ensures var c := Component(h, s, fallback);
      if forall i :: 0 <= i < |s| ==> Plain(s[i]) then c == s
      else exists stem :: c == stem + ("__" + h(s)) &&
             if exists i :: 0 <= i < |s| && Plain(s[i])
             then |stem| == |s| && forall i :: 0 <= i < |s| ==> stem[i] == if Plain(s[i]) then s[i] else '_'
             else stem == "key"
  {
    assert forall c: char :: IsSafe(c) <==> Plain(c);
    if !Safe(s) {
      StemIs(s);
      assert Component(h, s, fallback) == Stem(s) + ("__" + h(s));
    }
  }

  lemma HexIsTame(d: string)
    requires IsDigest(d)
    ensures Tame(d)
  {
    assert forall i :: 0 <= i < |d| ==> IsHex(d[i]);
  }

  lemma TameJoin(a: string, b: string)
    requires Tame(a) && Tame(b)
    ensures Tame(a + b)
  {
  }

  lemma TameStem(s: string)
    ensures Tame(Stem(s))
  {
  }

  /** Whatever the names are, a component holds no slash and nothing else that is foreign. */
  lemma ComponentIsTame(h: Digest, s: string, fallback: string)
    requires forall x :: IsDigest(h(x))
    ensures Tame(Component(h, s, fallback))
  {
    var name := Given(s, fallback);
    HexIsTame(h(name));
    if name != "" && !Safe(name) {
      TameStem(name);
      TameJoin("__", h(name));
      TameJoin(Stem(name), "__" + h(name));
    }
    SlugOfDefault(h, s, fallback);
  }

  // ---------- when two names meet ----------

  /** The name a component stands for once the defaults are in. */
  function Given(s: string, fallback: string): (r: string)
    ensures r != ""
  {
    if s != "" then s else if fallback != "" then fallback else "key"
  }

  ghost predicate Collides(h: Digest, a: string, b: string) {
    !Safe(a) && !Safe(b) && Stem(a) == Stem(b) && h(a) == h(b)
  }

  lemma SlugOfDefault(h: Digest, s: string, fallback: string)
    ensures Component(h, s, fallback) == Slug(h, Given(s, fallback))
  {
  }

  /** Pass-through names and digested names live apart. */
  lemma DigestedIsUnsafe(h: Digest, s: string)
    requires s != "" && !Safe(s)
    ensures !Safe(Slug(h, s))
  {
    var stem := Stem(s);
    assert Slug(h, s)[|stem|] == '_';
  }

  lemma SplitAtDigest(x: string, d: string, y: string, e: string)
    requires |d| == |e| && x + ("__" + d) == y + ("__" + e)
    ensures x == y && d == e
  {
    var s, t := x + ("__" + d), y + ("__" + e);
    assert |s| == |x| + 2 + |d| && |t| == |y| + 2 + |e|;
    assert x == s[..|x|] && y == t[..|y|];
    assert d == s[|x| + 2..] && e == t[|y| + 2..];
  }

  /** Two slugs are equal only for equal names or a collision of the digest itself. */
  lemma SlugsEqualIff(h: Digest, a: string, b: string)
    requires a != "" && b != "" && IsDigest(h(a)) && IsDigest(h(b))
    ensures Slug(h, a) == Slug(h, b) <==> a == b || Collides(h, a, b)
  {
    if Slug(h, a) == Slug(h, b) {
      if !Safe(a) {
        DigestedIsUnsafe(h, a);
      }
      if !Safe(b) {
        DigestedIsUnsafe(h, b);
      }
      if !Safe(a) && !Safe(b) {
        SplitAtDigest(Stem(a), h(a), Stem(b), h(b));
      }
    }
  }

  lemma SlugSlashFree(h: Digest, s: string)
    requires IsDigest(h(s))
    ensures Free(Slug(h, s), '/')
  {
  }

  lemma AffixesCancel(p: string, x: string, y: string, q: string)
    requires p + x == p + y || x + q == y + q
    ensures x == y
  {
    if p + x == p + y {
      assert x == (p + x)[|p|..] && y == (p + y)[|p|..];
    } else {
      assert |x + q| == |y + q|;
      assert x == (x + q)[..|x|] && y == (y + q)[..|y|];
    }
  }

  lemma KeysEqualIffSlugsEqual(a: string, b: string, c: string, d: string)
    requires Free(a, '/') && Free(c, '/')
    ensures "locks/" + (a + ("/" + (b + ".json"))) == "locks/" + (c + ("/" + (d + ".json"))) <==> a == c && b == d
  {
    if "locks/" + (a + ("/" + (b + ".json"))) == "locks/" + (c + ("/" + (d + ".json"))) {
      AffixesCancel("locks/", a + ("/" + (b + ".json")), c + ("/" + (d + ".json")), "");
      FirstCutUnique(a, b + ".json", c, d + ".json", '/');
      AffixesCancel("", b, d, ".json");
    }
  }

  /** When two stacks share a lock object, exactly: each of their names is the same once the
      defaults are in, or is a genuine collision of the digest under one sanitised form. */
  lemma KeysEqualIff(h: Digest, project: string, stack: string, project': string, stack': string)
    requires forall n | n in {Given(project, "project"), Given(project', "project"), Given(stack, "stack"), Given(stack', "stack")} ::
               IsDigest(h(n))
    ensures var p, s := Given(project, "project"), Given(stack, "stack");
            var p', s' := Given(project', "project"), Given(stack', "stack");
            Key(h, project, stack) == Key(h, project', stack')
            <==> (p == p' || Collides(h, p, p')) && (s == s' || Collides(h, s, s'))
  {
    var p, s := Given(project, "project"), Given(stack, "stack");
    var p', s' := Given(project', "project"), Given(stack', "stack");
    SlugOfDefault(h, project, "project");
    SlugOfDefault(h, project', "project");
    SlugOfDefault(h, stack, "stack");
    SlugOfDefault(h, stack', "stack");
    SlugSlashFree(h, p);
    SlugSlashFree(h, p');
    KeysEqualIffSlugsEqual(Slug(h, p), Slug(h, s), Slug(h, p'), Slug(h, s'));
    SlugsEqualIff(h, p, p');
    SlugsEqualIff(h, s, s');
  }

  /** Distinct stacks with non-empty names never share a lock object, as long as the digest does
      not collide on these names. */
  lemma LocksNeverCollide(h: Digest, project: string, stack: string, project': string, stack': string)
    requires project != "" && stack != "" && project' != "" && stack' != ""
    requires forall n | n in {project, project', stack, stack'} :: IsDigest(h(n))
    requires project != project' ==> h(project) != h(project')
    requires stack != stack' ==> h(stack) != h(stack')
    ensures Key(h, project, stack) == Key(h, project', stack') <==> project == project' && stack == stack'
  {
    KeysEqualIff(h, project, stack, project', stack');
  }

  /** The documentation calls the mapping injective; an empty name is the exception, whatever
      the digest: it shares its lock with the stack that is called like the default. */
  lemma EmptyNameSharesTheDefault(h: Digest, stack: string)
    ensures Key(h, "", stack) == Key(h, "project", stack)
  {
  }
}
