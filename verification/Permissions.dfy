/** Wildcard permissions: matching, granting, and the subset check made for API keys. */
module Permissions {
  import opened Strings

  /** `base.segments[/path/segments].action:scope`, taken apart. */
  datatype Permission = Permission(base: seq<string>, path: Option<seq<string>>, action: string, scope: string)
  {
    predicate WellFormed() {
      && base != [] && Free(base, '.') && Free(base, '/')
      && (path.Some? ==> path.value != [] && Free(path.value, '/'))
      && '.' !in action
      && ':' !in scope
    }

    predicate TrailingStar()
      requires base != []
    {
      base[|base| - 1] == "*"
    }

    function Resource(): string {
      Join(base, '.') + match path case None => "" case Some(p) => ['/'] + Join(p, '/')
    }

    function Render(): string {
      Resource() + ['.'] + action + [':'] + scope
    }
  }

  const VALID_SCOPES := {"own", "all", "*"}

  function ParseResource(resource: string): (base_path: (seq<string>, Option<seq<string>>))
    ensures base_path.0 != []
  {
    match SplitFirst(resource, '/')
    case None => (Split(resource, '.'), None)
    case Some((base, path)) => (Split(base, '.'), Some(Split(path, '/')))
  }

  function Parse(s: string): (r: Option<Permission>)
    ensures r.Some? ==> r.value.base != []
  {
    match SplitLast(s, ':')
    case None => None
    case Some((parts, scope)) =>
      match SplitLast(parts, '.')
      case None => None
      case Some((resource, action)) =>
        var (base, path) := ParseResource(resource);
        Some(Permission(base, path, action, scope))
  }

  function AllowedScopes(scope: string): set<string> {
    if scope == "own" then {"own"} else {"all", "own"}
  }

  predicate ScopeMatches(pattern: string, concrete: string) {
    pattern in VALID_SCOPES && concrete in VALID_SCOPES && concrete in AllowedScopes(pattern)
  }

  predicate SegmentMatches(pattern: string, concrete: string) {
    pattern == "*" || pattern == concrete
  }

  /** Every pattern segment matches the concrete segment at its place. */
  predicate SegmentsMatch(pattern: seq<string>, concrete: seq<string>) {
    |pattern| <= |concrete| && forall i | 0 <= i < |pattern| :: SegmentMatches(pattern[i], concrete[i])
  }

  predicate BaseMatches(p: Permission, c: Permission)
    requires p.base != [] && c.base != []
  {
    if p.TrailingStar() then SegmentsMatch(p.base[..|p.base| - 1], c.base)
    else if p.action == "*" && |p.base| < |c.base| then SegmentsMatch(p.base, c.base)
    else |p.base| == |c.base| && SegmentsMatch(p.base, c.base)
  }

  predicate PathMatches(p: Permission, c: Permission)
    requires p.base != []
  {
    match (p.path, c.path)
    case (None, None) => true
    case (None, Some(_)) => p.action == "*" || p.TrailingStar()
    case (Some(_), None) => false
    case (Some(ps), Some(cs)) => |ps| == |cs| && SegmentsMatch(ps, cs)
  }

  predicate Covers(p: Permission, c: Permission)
    requires p.base != [] && c.base != []
  {
    && ScopeMatches(p.scope, c.scope)
    && SegmentMatches(p.action, c.action)
    && BaseMatches(p, c)
    && PathMatches(p, c)
  }

  predicate MatchesPermissionPattern(pattern: string, concrete: string) {
    var p, c := Parse(pattern), Parse(concrete);
    p.Some? && c.Some? && Covers(p.value, c.value)
  }

  /** Granted outright, or by a granted key read as a pattern. */
  predicate CheckPermission(permissions: map<string, bool>, required: string) {
    || (required in permissions && permissions[required])
    || exists key | key in permissions :: permissions[key] && MatchesPermissionPattern(key, required)
  }

  // ---- The string form loses nothing ----

  lemma ParseRender(p: Permission)
    requires p.WellFormed()
    ensures Parse(p.Render()) == Some(p)
  {
    SplitLastParts(p.Resource() + ['.'] + p.action, ':', p.scope);
    SplitLastParts(p.Resource(), '.', p.action);
    var base := Join(p.base, '.');
    SplitJoin(p.base, '.');
    JoinFree(p.base, '.', '/');
    match p.path
    case None =>
      assert p.Resource() == base;
    case Some(path) =>
      assert p.Resource() == base + ['/'] + Join(path, '/');
      SplitFirstParts(base, '/', Join(path, '/'));
      SplitJoin(path, '/');
  }

  lemma RenderParse(s: string)
    ensures Parse(s).Some? <==> ':' in s && '.' in SplitLast(s, ':').value.0
    ensures Parse(s).Some? ==> Parse(s).value.WellFormed() && Parse(s).value.Render() == s
  {
    if ':' in s && '.' in SplitLast(s, ':').value.0 {
      SplitLastRejoins(s, ':');
      var parts := SplitLast(s, ':').value.0;
      SplitLastRejoins(parts, '.');
      var resource := SplitLast(parts, '.').value.0;
      ResourceRejoins(resource);
    }
  }

  lemma ResourceRejoins(resource: string)
    ensures var (base, path) := ParseResource(resource);
            && Free(base, '.') && Free(base, '/')
            && (path.Some? ==> path.value != [] && Free(path.value, '/'))
            && Permission(base, path, "", "").Resource() == resource
  {
    hide Split, SplitFirst;
    var (base, path) := ParseResource(resource);
    if '/' in resource {
      SplitFirstRejoins(resource, '/');
      var (left, right) := SplitFirst(resource, '/').value;
      JoinSplit(left, '.');
      JoinSplit(right, '/');
      SplitFree(left, '.', '/');
      assert left + (['/'] + right) == resource;
    } else {
      JoinSplit(resource, '.');
      SplitFree(resource, '.', '/');
      assert resource + "" == resource;
    }
  }

  lemma {:induction false} SplitFree(s: string, sep: char, c: char)
    requires c !in s
    ensures Free(Split(s, sep), c)
  {
    if s != [] {
      SplitFree(s[1..], sep, c);
    }
  }

  // ---- What the documented forms grant ----

  predicate Literal(p: Permission) {
    && p.action != "*" && "*" !in p.base && (p.path.Some? ==> "*" !in p.path.value)
    && p.scope in {"own", "all"}
  }

  lemma LiteralSegments(pattern: seq<string>, concrete: seq<string>)
    requires "*" !in pattern
    ensures |pattern| == |concrete| && SegmentsMatch(pattern, concrete) <==> pattern == concrete
  {}

  lemma LiteralCovers(p: Permission, c: Permission)
    requires p.WellFormed() && Literal(p) && c.WellFormed()
    ensures Covers(p, c) <==> c == p || (p.scope == "all" && c == p.(scope := "own"))
  {
    hide SegmentsMatch;
    LiteralSegments(p.base, c.base);
    if p.path.Some? && c.path.Some? {
      LiteralSegments(p.path.value, c.path.value);
    }
  }

  /** A key without wildcards grants itself and, with scope `all`, the same for `own`; nothing else. */
  lemma LiteralExactly(p: Permission, c: Permission)
    requires p.WellFormed() && Literal(p) && c.WellFormed()
    ensures MatchesPermissionPattern(p.Render(), c.Render()) <==> c == p || (p.scope == "all" && c == p.(scope := "own"))
  {
    hide Parse, Covers, Permission.Render;
    ParseRender(p);
    ParseRender(c);
    LiteralCovers(p, c);
  }

  /** `service.*:all` grants everything under the service, of any depth, path, action and scope; nothing else. */
  lemma ServiceWildcardExactly(service: string, c: Permission)
    requires '.' !in service && '/' !in service && service != "*" && c.WellFormed()
    ensures MatchesPermissionPattern(service + ".*:all", c.Render()) <==> c.base[0] == service && c.scope in {"all", "own"}
  {
    hide Parse;
    var p := Permission([service], None, "*", "all");
    assert p.Resource() == service && p.Render() == service + ".*:all";
    ParseRender(p);
    ParseRender(c);
    hide Permission.Render, Permission.Resource;
  }

  lemma ScopedCovers(p: Permission, c: Permission)
    requires p.base != [] && c.base != [] && Covers(p.(scope := "own"), c)
    ensures Covers(p.(scope := "all"), c) && c.scope == "own"
  {}

  /** `all` grants whatever `own` grants; an `own` key grants nothing for `all`. */
  lemma ScopesAreOrdered(resource: string, c: string)
    ensures MatchesPermissionPattern(resource + ":own", c) ==>
              MatchesPermissionPattern(resource + ":all", c) && Parse(c).value.scope == "own"
  {
    hide Parse, Covers;
    ParseScoped(resource, "own");
    ParseScoped(resource, "all");
    assert resource + ":own" == resource + ":" + "own" && resource + ":all" == resource + ":" + "all";
    if MatchesPermissionPattern(resource + ":own", c) {
      ScopedCovers(Parse(resource + ":own").value, Parse(c).value);
    }
  }

  lemma ParseScoped(resource: string, scope: string)
    requires ':' !in scope
    ensures var r, bare := Parse(resource + ":" + scope), Parse(resource + ":");
            (r.Some? <==> bare.Some?) && (r.Some? ==> r.value == bare.value.(scope := scope))
  {
    SplitLastParts(resource, ':', scope);
    SplitLastParts(resource, ':', "");
    assert resource + ":" + scope == resource + [':'] + scope && resource + ":" == resource + [':'] + "";
  }

  /** A star in place of the name grants the action on every name of the namespace, and on nothing else. */
  lemma NamespaceWildcardExactly(p: Permission, c: Permission)
    requires p.WellFormed() && Literal(p) && p.path.Some? && |p.path.value| == 2 && c.WellFormed()
    ensures MatchesPermissionPattern(p.(path := Some([p.path.value[0], "*"])).Render(), c.Render())
       <==> && c.base == p.base && c.action == p.action && c.scope in AllowedScopes(p.scope)
            && c.path.Some? && |c.path.value| == 2 && c.path.value[0] == p.path.value[0]
  {
    hide Parse, Permission.Render;
    var wild := p.(path := Some([p.path.value[0], "*"]));
    assert p.path.value[0] in p.path.value;
    ParseRender(wild);
    ParseRender(c);
    LiteralSegments(p.base, c.base);
  }

  predicate StarFree(segments: seq<string>) { "*" !in segments }

  lemma PrefixSegments(pattern: seq<string>, concrete: seq<string>)
    requires StarFree(pattern)
    ensures SegmentsMatch(pattern, concrete) <==> pattern <= concrete
  {
    if SegmentsMatch(pattern, concrete) {
      assert forall i | 0 <= i < |pattern| :: pattern[i] in pattern;
      assert pattern == concrete[..|pattern|];
    }
  }

  /** The path a star-free path asks for; a key without one takes any when it has a trailing star or an action star. */
  predicate TakesPath(path: Option<seq<string>>, c: Permission) { path.None? || c.path == path }

  lemma LiteralPath(p: Permission, c: Permission)
    requires p.base != [] && (p.TrailingStar() || p.action == "*") && (p.path.Some? ==> StarFree(p.path.value))
    ensures PathMatches(p, c) <==> TakesPath(p.path, c)
  {
    if p.path.Some? && c.path.Some? {
      LiteralSegments(p.path.value, c.path.value);
    }
  }

  /** `prefix.*.action:scope` grants the action, any action for a star, on every resource under the prefix, at its depth or
      deeper, with any path unless the key has one; and nothing else. */
  lemma TrailingStarExactly(prefix: seq<string>, path: Option<seq<string>>, action: string, scope: string, c: Permission)
    requires StarFree(prefix) && (path.Some? ==> StarFree(path.value)) && scope in {"own", "all"}
    requires Permission(prefix + ["*"], path, action, scope).WellFormed() && c.WellFormed()
    ensures MatchesPermissionPattern(Permission(prefix + ["*"], path, action, scope).Render(), c.Render())
       <==> prefix <= c.base && (action == "*" || c.action == action) && TakesPath(path, c)
            && (c.scope == "own" || (c.scope == "all" && scope == "all"))
  {
    hide Parse, Permission.Render, SegmentsMatch, PathMatches;
    var p := Permission(prefix + ["*"], path, action, scope);
    ParseRender(p);
    ParseRender(c);
    LiteralPath(p, c);
    PrefixSegments(prefix, c.base);
    assert p.base[..|p.base| - 1] == prefix;
  }

  /** `base.*:scope` grants every action on the resource and on every one below it, with any path unless the key has one;
      and nothing else. */
  lemma ActionStarExactly(base: seq<string>, path: Option<seq<string>>, scope: string, c: Permission)
    requires base != [] && StarFree(base) && (path.Some? ==> StarFree(path.value)) && scope in {"own", "all"}
    requires Permission(base, path, "*", scope).WellFormed() && c.WellFormed()
    ensures MatchesPermissionPattern(Permission(base, path, "*", scope).Render(), c.Render())
       <==> base <= c.base && TakesPath(path, c) && (c.scope == "own" || (c.scope == "all" && scope == "all"))
  {
    hide Parse, Permission.Render, SegmentsMatch, PathMatches;
    var p := Permission(base, path, "*", scope);
    ParseRender(p);
    ParseRender(c);
    LiteralPath(p, c);
    PrefixSegments(base, c.base);
    assert base[|base| - 1] in base;
  }

  predicate WithBase(p: Permission, i: nat, segment: string, c: Permission)
    requires i < |p.base| && c.base != []
  {
    Covers(p.(base := p.base[i := segment]), c)
  }

  predicate WithPath(p: Permission, i: nat, segment: string, c: Permission)
    requires p.path.Some? && i < |p.path.value| && p.base != [] && c.base != []
  {
    Covers(p.(path := Some(p.path.value[i := segment])), c)
  }

  lemma StarSegment(pattern: seq<string>, i: nat, concrete: seq<string>, segment: string)
    requires i < |pattern| && pattern[i] == "*"
    ensures SegmentsMatch(pattern[i := segment], concrete) ==> SegmentsMatch(pattern, concrete)
    ensures SegmentsMatch(pattern, concrete) ==> SegmentsMatch(pattern[i := concrete[i]], concrete)
  {
    var other := pattern[i := segment];
    assert forall j | 0 <= j < |pattern| && j != i :: other[j] == pattern[j];
  }

  /** A star inside the base stands for any one segment. */
  lemma BaseStarIsAnySegment(p: Permission, i: nat, c: Permission)
    requires i + 1 < |p.base| && p.base[i] == "*" && c.base != []
    ensures Covers(p, c) <==> exists segment :: WithBase(p, i, segment, c)
  {
    hide SegmentsMatch, PathMatches;
    forall segment ensures WithBase(p, i, segment, c) ==> Covers(p, c) {
      StarOfBase(p, i, c, segment);
    }
    if Covers(p, c) {
      StarOfBase(p, i, c, "");
      assert WithBase(p, i, c.base[i], c);
    }
  }

  lemma StarOfBase(p: Permission, i: nat, c: Permission, segment: string)
    requires i + 1 < |p.base| && p.base[i] == "*" && c.base != []
    ensures WithBase(p, i, segment, c) ==> Covers(p, c)
    ensures Covers(p, c) ==> i < |c.base| && WithBase(p, i, c.base[i], c)
  {
    hide PathMatches;
    var last := |p.base| - 1;
    StarSegment(p.base, i, c.base, segment);
    StarSegment(p.base[..last], i, c.base, segment);
    assert p.base[i := segment][..last] == p.base[..last][i := segment];
    if i < |c.base| {
      assert p.base[i := c.base[i]][..last] == p.base[..last][i := c.base[i]];
    }
    var q := p.(base := p.base[i := segment]);
    assert PathMatches(q, c) == PathMatches(p, c) by { SamePath(p, q, c); }
    if i < |c.base| {
      var r := p.(base := p.base[i := c.base[i]]);
      assert PathMatches(r, c) == PathMatches(p, c) by { SamePath(p, r, c); }
    }
    if Covers(p, c) {
      assert i < |c.base|;
    }
  }

  lemma SamePath(p: Permission, q: Permission, c: Permission)
    requires p.base != [] && q.base != [] && p.TrailingStar() == q.TrailingStar() && p.path == q.path && p.action == q.action
    ensures PathMatches(p, c) == PathMatches(q, c)
  {}

  /** A star in the path stands for any one segment. */
  lemma PathStarIsAnySegment(p: Permission, i: nat, c: Permission)
    requires p.base != [] && c.base != [] && p.path.Some? && i < |p.path.value| && p.path.value[i] == "*"
    ensures Covers(p, c) <==> exists segment :: WithPath(p, i, segment, c)
  {
    hide SegmentsMatch, BaseMatches;
    forall segment ensures WithPath(p, i, segment, c) ==> Covers(p, c) {
      StarOfPath(p, i, c, segment);
    }
    if Covers(p, c) {
      StarOfPath(p, i, c, "");
      assert WithPath(p, i, c.path.value[i], c);
    }
  }

  lemma StarOfPath(p: Permission, i: nat, c: Permission, segment: string)
    requires p.base != [] && c.base != [] && p.path.Some? && i < |p.path.value| && p.path.value[i] == "*"
    ensures WithPath(p, i, segment, c) ==> Covers(p, c)
    ensures Covers(p, c) ==> c.path.Some? && i < |c.path.value| && WithPath(p, i, c.path.value[i], c)
  {
    hide SegmentsMatch, BaseMatches;
    if c.path.Some? {
      StarSegment(p.path.value, i, c.path.value, segment);
    }
    var q := p.(path := Some(p.path.value[i := segment]));
    SameBase(p, q, c);
    if c.path.Some? && i < |c.path.value| {
      SameBase(p, p.(path := Some(p.path.value[i := c.path.value[i]])), c);
    }
  }

  lemma SameBase(p: Permission, q: Permission, c: Permission)
    requires p.base != [] && c.base != [] && p.base == q.base && p.action == q.action
    ensures BaseMatches(p, c) == BaseMatches(q, c)
  {}

  /** A scope star grants what `all` grants; no key grants a scope star but by its own text. */
  lemma ScopeStarIsAll(p: Permission, c: Permission)
    requires p.base != [] && c.base != []
    ensures Covers(p.(scope := "*"), c) <==> Covers(p.(scope := "all"), c)
    ensures Covers(p, c) ==> c.scope in {"own", "all"}
  {}

  /** A permission is granted by one key that is set: by its own text, or by a key that matches it. */
  lemma GrantedExactly(permissions: map<string, bool>, required: string)
    ensures CheckPermission(permissions, required)
       <==> exists key | key in permissions :: permissions[key] && (key == required || MatchesPermissionPattern(key, required))
  {
    hide MatchesPermissionPattern;
  }

  /** A key that is not set might as well not be there. */
  lemma DeniedKeyDoesNothing(permissions: map<string, bool>, key: string, required: string)
    requires key in permissions && !permissions[key]
    ensures CheckPermission(permissions - {key}, required) <==> CheckPermission(permissions, required)
  {
    hide MatchesPermissionPattern;
    if CheckPermission(permissions, required) && !(required in permissions && permissions[required]) {
      var k :| k in permissions && permissions[k] && MatchesPermissionPattern(k, required);
      assert k in permissions - {key};
    }
  }

  /** A text without scope or action matches nothing, and nothing matches it but itself. */
  lemma UnreadableIsNeverMatched(text: string, other: string)
    requires ':' !in text || '.' !in SplitLast(text, ':').value.0
    ensures !MatchesPermissionPattern(text, other) && !MatchesPermissionPattern(other, text)
  {
    RenderParse(text);
  }

  // ---- Transitivity ----

  /** The one shape of pattern that does not compose: `a.*.*` (three or more base segments). */
  predicate DoubleStar(p: Permission) {
    && |p.base| >= 3
    && p.base[|p.base| - 1] == "*"
    && p.base[|p.base| - 2] == "*"
  }

  /** Patterns compose unless `q` loses a segment to `p`'s own trailing star. */
  lemma CoversTransitive(q: Permission, p: Permission, c: Permission)
    requires q.base != [] && p.base != [] && c.base != []
    requires Covers(q, p) && Covers(p, c)
    requires DoubleStar(q) ==> !p.TrailingStar()
    ensures Covers(q, c)
  {}

  predicate ValidScope(p: Permission) { p.scope in VALID_SCOPES }

  /** `q` grants, through any pattern it accepts, only what it grants itself. */
  ghost predicate Composes(q: string) {
    forall p, c :: MatchesPermissionPattern(q, p) && MatchesPermissionPattern(p, c) ==> MatchesPermissionPattern(q, c)
  }

  /** What a caller can test on a key: the pattern ends in two stars after at least one segment. */
  predicate DropsSegment(q: string) {
    var p := Parse(q);
    p.Some? && ValidScope(p.value) && DoubleStar(p.value)
  }

  lemma ComposesExactly(q: string)
    ensures Composes(q) <==> !DropsSegment(q)
  {
    if DropsSegment(q) {
      var p, c := UncoveredGrant(q);
    } else {
      forall p, c | MatchesPermissionPattern(q, p) && MatchesPermissionPattern(p, c)
        ensures MatchesPermissionPattern(q, c)
      {
        CoversTransitive(Parse(q).value, Parse(p).value, Parse(c).value);
      }
    }
  }

  /** For every segment-dropping key: a pattern it accepts, and a permission that pattern grants but the key does not. */
  lemma UncoveredGrant(q: string) returns (p: string, c: string)
    requires DropsSegment(q)
    ensures MatchesPermissionPattern(q, p) && MatchesPermissionPattern(p, c)
    ensures !MatchesPermissionPattern(q, c) && c != q && c != p
  {
    RenderParse(q);
    var outer := Parse(q).value;
    var inner, lost := Shorten(outer, 1), Shorten(outer, 2);
    UncoveredShape(outer);
    ParseRender(inner);
    ParseRender(lost);
    p, c := inner.Render(), lost.Render();
  }

  /** `p` without its last `k` base segments, asking only for `own`. */
  function Shorten(p: Permission, k: nat): Permission
    requires k < |p.base|
  {
    p.(base := p.base[..|p.base| - k], scope := "own")
  }

  lemma UncoveredShape(outer: Permission)
    requires outer.WellFormed() && ValidScope(outer) && DoubleStar(outer)
    ensures var inner, lost := Shorten(outer, 1), Shorten(outer, 2);
            && inner.WellFormed() && lost.WellFormed()
            && Covers(outer, inner) && Covers(inner, lost) && !Covers(outer, lost)
            && inner.base != lost.base && lost.base != outer.base
  {}

  // ---- The subset check ----

  /** The granted keys of `subset`, in order, that `superset` does not grant. */
  function Violations(subset: map<string, bool>, order: seq<string>, superset: map<string, bool>): (v: seq<string>)
    requires forall k | k in order :: k in subset
  {
    if order == [] then []
    else
      var last := |order| - 1;
      var rest := Violations(subset, order[..last], superset);
      if subset[order[last]] && !CheckPermission(superset, order[last]) then rest + [order[last]] else rest
  }

  /** Every granted key of `subset`, read as one required permission, is granted by `superset`. */
  ghost predicate Accepted(subset: map<string, bool>, superset: map<string, bool>) {
    forall key | key in subset && subset[key] :: CheckPermission(superset, key)
  }

  lemma {:induction false} ViolationsExactly(subset: map<string, bool>, order: seq<string>, superset: map<string, bool>)
    requires forall k | k in order :: k in subset
    ensures forall k :: k in Violations(subset, order, superset) <==> k in order && subset[k] && !CheckPermission(superset, k)
  {
    if order != [] {
      var last := |order| - 1;
      assert order == order[..last] + [order[last]];
      ViolationsExactly(subset, order[..last], superset);
    }
  }

  /** The violations come in the order of the keys. */
  lemma ViolationsInOrder(subset: map<string, bool>, order: seq<string>, key: string, superset: map<string, bool>)
    requires forall k | k in order + [key] :: k in subset
    ensures var before, all := Violations(subset, order, superset), Violations(subset, order + [key], superset);
            && Violations(subset, [], superset) == []
            && if subset[key] && !CheckPermission(superset, key) then all == before + [key] else all == before
  {
    assert (order + [key])[..|order|] == order;
  }

  /** `order` is the iteration order of the dictionary `subset`. */
  method ValidatePermissionSubset(subset: map<string, bool>, order: seq<string>, superset: map<string, bool>)
      returns (valid: bool, violations: seq<string>)
    requires forall k :: k in order <==> k in subset
    ensures valid <==> Accepted(subset, superset)
    ensures forall k :: k in violations <==> k in subset && subset[k] && !CheckPermission(superset, k)
    ensures violations == Violations(subset, order, superset)
  {
    violations := [];
    for i := 0 to |order|
      invariant violations == Violations(subset, order[..i], superset)
    {
      assert order[..i + 1][..i] == order[..i];
      if subset[order[i]] {
        if !CheckPermission(superset, order[i]) {
          violations := violations + [order[i]];
        }
      }
    }
    assert order[..|order|] == order;
    ViolationsExactly(subset, order, superset);
    valid := |violations| == 0;
    assert !valid ==> violations[0] in violations;
  }

  /** An accepted subset grants nothing its superset does not, when no granted superset key drops a segment. */
  lemma AcceptedIsSound(subset: map<string, bool>, superset: map<string, bool>, c: string)
    requires Accepted(subset, superset)
    requires forall q | q in superset && superset[q] :: !DropsSegment(q)
    requires CheckPermission(subset, c)
    ensures CheckPermission(superset, c)
  {
    if !(c in subset && subset[c]) {
      var p :| p in subset && subset[p] && MatchesPermissionPattern(p, c);
      if !(p in superset && superset[p]) {
        var q :| q in superset && superset[q] && MatchesPermissionPattern(q, p);
        ComposesExactly(q);
        assert Composes(q);
      }
    }
  }

  ghost predicate SubsetCheckSound(superset: map<string, bool>) {
    forall subset, c :: Accepted(subset, superset) && CheckPermission(subset, c) ==> CheckPermission(superset, c)
  }

  /** The widest of the patterns that make a segment-dropping key lose a segment. */
  function Unstarred(q: Permission): Permission
    requires |q.base| >= 3
  {
    q.(base := q.base[..|q.base| - 1], scope := if q.scope == "*" then "all" else q.scope)
  }

  /** The key accepts it, and whatever the key's accepted patterns grant beyond the key, it grants. */
  lemma UnstarredIsWidest(q: Permission, p: Permission, c: Permission)
    requires DoubleStar(q) && p.base != [] && c.base != [] && Covers(q, p) && Covers(p, c)
    ensures Covers(q, c) || Covers(Unstarred(q), c)
  {
    if !p.TrailingStar() {
      CoversTransitive(q, p, c);
    }
  }

  lemma CoversUnstarred(q: Permission)
    requires DoubleStar(q) && ValidScope(q)
    ensures Covers(q, Unstarred(q))
  {}

  /** The same on keys: `a.*.*.x:all` becomes `a.*.x:all`. */
  function Widened(q: string): string
    requires DropsSegment(q)
  {
    Unstarred(Parse(q).value).Render()
  }

  lemma UnstarredParses(q: string)
    requires DropsSegment(q)
    ensures Parse(Widened(q)) == Some(Unstarred(Parse(q).value)) && MatchesPermissionPattern(q, Widened(q))
  {
    RenderParse(q);
    hide Parse;
    var p := Parse(q).value;
    assert Unstarred(p).WellFormed();
    ParseRender(Unstarred(p));
    CoversUnstarred(p);
  }

  /** Whatever a segment-dropping key lets through indirectly, some key grants directly. */
  ghost predicate NothingDropped(superset: map<string, bool>) {
    forall q, c | q in superset && superset[q] && DropsSegment(q) && MatchesPermissionPattern(Widened(q), c) ::
      CheckPermission(superset, c)
  }

  lemma SoundIfNothingDropped(superset: map<string, bool>, subset: map<string, bool>, c: string)
    requires NothingDropped(superset) && Accepted(subset, superset) && CheckPermission(subset, c)
    ensures CheckPermission(superset, c)
  {
    if !(c in subset && subset[c]) {
      var p :| p in subset && subset[p] && MatchesPermissionPattern(p, c);
      if !(p in superset && superset[p]) {
        var q :| q in superset && superset[q] && MatchesPermissionPattern(q, p);
        if DropsSegment(q) {
          UnstarredParses(q);
          UnstarredIsWidest(Parse(q).value, Parse(p).value, Parse(c).value);
        } else {
          CoversTransitive(Parse(q).value, Parse(p).value, Parse(c).value);
        }
      }
    }
  }

  /** For every superset: the check is sound for all subsets and permissions if and only if nothing is dropped. */
  lemma SubsetCheckSoundExactly(superset: map<string, bool>)
    ensures SubsetCheckSound(superset) <==> NothingDropped(superset)
  {
    hide MatchesPermissionPattern, DropsSegment, Widened;
    if SubsetCheckSound(superset) {
      forall q, c | q in superset && superset[q] && DropsSegment(q)
                    && MatchesPermissionPattern(Widened(q), c)
        ensures CheckPermission(superset, c)
      {
        UnstarredParses(q);
        var subset := map[Widened(q) := true];
        assert Accepted(subset, superset) && CheckPermission(subset, c);
      }
    }
    if NothingDropped(superset) {
      forall subset, c | Accepted(subset, superset) && CheckPermission(subset, c) ensures CheckPermission(superset, c) {
        SoundIfNothingDropped(superset, subset, c);
      }
    }
  }

  /** A superset of one key: one segment-dropping key is already one too many. */
  lemma OneKeySoundExactly(q: string)
    ensures SubsetCheckSound(map[q := true]) <==> !DropsSegment(q)
  {
    hide MatchesPermissionPattern, DropsSegment;
    var superset := map[q := true];
    if DropsSegment(q) {
      var p, c := UncoveredGrant(q);
      var subset := map[p := true];
      assert superset[q] && MatchesPermissionPattern(q, p);
      assert subset[p] && MatchesPermissionPattern(p, c);
      assert Accepted(subset, superset) && CheckPermission(subset, c) && !CheckPermission(superset, c);
    } else {
      forall subset, c | Accepted(subset, superset) && CheckPermission(subset, c)
        ensures CheckPermission(superset, c)
      {
        AcceptedIsSound(subset, superset, c);
      }
    }
  }

  /** Beside the key without its last star, a segment-dropping key does no harm. */
  lemma PairedKeyIsSound(q: string)
    requires DropsSegment(q) && !DropsSegment(Widened(q))
    ensures SubsetCheckSound(map[q := true, Widened(q) := true])
  {
    hide MatchesPermissionPattern, DropsSegment, Widened;
    var u := Widened(q);
    var superset := map[q := true, u := true];
    forall r, c | r in superset && superset[r] && DropsSegment(r) && MatchesPermissionPattern(Widened(r), c)
      ensures CheckPermission(superset, c)
    {
      assert r == q && u in superset && superset[u];
    }
    SubsetCheckSoundExactly(superset);
  }
}
