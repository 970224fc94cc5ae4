/** Listing resources and opening one resource must agree on who may see what. */
module ResourceAccess {
  import opened Strings
  import opened Permissions

  /** A model class: its table, and which of the conventional columns it has. */
  datatype Model = Model(table: string, namespaced: bool, owned: bool, hasVisibility: bool)
  {
    /** A plain SQL identifier. */
    predicate Plain() { '.' !in table && '/' !in table && table != "*" }

    function Base(): string { "sinas." + table }

    /** The permission string asked for; a non-namespaced model ignores namespace and name. */
    function Required(namespace: string, name: string, action: string, scope: string): string {
      if namespaced
      then Base() + "/" + namespace + "/" + name + "." + action + ":" + scope
      else Base() + "." + action + ":" + scope
    }
  }

  datatype Row = Row(namespace: string, name: string, userId: string, visibility: string)

  predicate CanUserAccess(m: Model, row: Row, userId: string, permissions: map<string, bool>, action: string) {
    || CheckPermission(permissions, m.Required(row.namespace, row.name, action, "all"))
    || (CheckPermission(permissions, m.Required(row.namespace, row.name, action, "own"))
        && (m.owned ==> row.userId == userId || (m.hasVisibility && row.visibility != "private")))
  }

  /** The WHERE clause the listing ends up with. The namespace branch follows rules of its own. */
  datatype Query = Everything | OwnedBy(user: string) | OwnedOrShared(user: string) | ByNamespace | Nothing

  predicate Selects(q: Query, row: Row)
    requires !q.ByNamespace?
  {
    match q
    case Everything => true
    case OwnedBy(user) => row.userId == user
    case OwnedOrShared(user) => row.userId == user || row.visibility != "private"
    case Nothing => false
  }

  method ListQuery(m: Model, userId: string, permissions: map<string, bool>, action: string) returns (query: Query)
    ensures !query.ByNamespace? && m.Plain() && '.' !in action ==>
              forall row: Row | Selects(query, row) && '/' !in row.namespace && '/' !in row.name ::
                CanUserAccess(m, row, userId, permissions, action)
    ensures CheckPermission(permissions, m.Required("*", "*", action, "all")) ==> query == Everything
    ensures query != Everything && CheckPermission(permissions, m.Required("*", "*", action, "own")) ==>
              && !query.ByNamespace?
              && forall row: Row :: Selects(query, row) <==> row.userId == userId || (m.hasVisibility && row.visibility != "private")
    ensures CheckPermission(permissions, m.Required("*", "*", action, "all")) ==> forall row: Row :: Selects(query, row)
    ensures !query.ByNamespace? && m.Plain() && '.' !in action ==>
              forall row: Row | '/' !in row.namespace && '/' !in row.name
                                && !CheckPermission(permissions, m.Required(row.namespace, row.name, action, "all")) ::
                CanUserAccess(m, row, userId, permissions, action) <==> Selects(query, row)
    ensures query.Nothing? || query.ByNamespace?
       <==> && !CheckPermission(permissions, m.Required("*", "*", action, "all"))
            && !CheckPermission(permissions, m.Required("*", "*", action, "own"))
    ensures query.ByNamespace? ==> m.namespaced
  {
    query := Everything;
    if !CheckPermission(permissions, m.Required("*", "*", action, "all")) {
      if CheckPermission(permissions, m.Required("*", "*", action, "own")) {
        if m.owned {
          query := if m.hasVisibility then OwnedOrShared(userId) else OwnedBy(userId);
        }
      } else {
        query := if m.namespaced then ByNamespace else Nothing;
      }
    }
    if m.Plain() && '.' !in action {
      forall row: Row, scope | '/' !in row.namespace && '/' !in row.name && scope in {"all", "own"}
                               && CheckPermission(permissions, m.Required("*", "*", action, scope))
        ensures CheckPermission(permissions, m.Required(row.namespace, row.name, action, scope))
      {
        WildcardGrantsRow(m, row.namespace, row.name, action, scope, permissions);
      }
    }
  }

  // ---- Who can open one resource ----

  /** Some key that is set grants it: by its own text, or as a pattern. */
  ghost predicate Granted(permissions: map<string, bool>, required: string) {
    exists key | key in permissions :: permissions[key] && (key == required || MatchesPermissionPattern(key, required))
  }

  /** Whether the row belongs to the user, or to nobody, or is shown to everybody. */
  predicate Within(m: Model, row: Row, userId: string) {
    !m.owned || row.userId == userId || (m.hasVisibility && row.visibility != "private")
  }

  /** Somebody else's row that is not shared stays closed to an `own` grant, however wide. */
  lemma StrangerIsRefused(m: Model, row: Row, userId: string, permissions: map<string, bool>, action: string)
    requires m.owned && row.userId != userId && !(m.hasVisibility && row.visibility != "private")
    requires !Granted(permissions, m.Required(row.namespace, row.name, action, "all"))
    ensures !CanUserAccess(m, row, userId, permissions, action)
  {
    GrantedExactly(permissions, m.Required(row.namespace, row.name, action, "all"));
    hide CheckPermission, MatchesPermissionPattern, Model.Required;
  }

  /** Nobody opens a row without a grant, not even its owner. */
  lemma UngrantedIsRefused(m: Model, row: Row, userId: string, permissions: map<string, bool>, action: string)
    requires !Granted(permissions, m.Required(row.namespace, row.name, action, "all"))
    requires !Granted(permissions, m.Required(row.namespace, row.name, action, "own"))
    ensures !CanUserAccess(m, row, userId, permissions, action)
  {
    GrantedExactly(permissions, m.Required(row.namespace, row.name, action, "all"));
    GrantedExactly(permissions, m.Required(row.namespace, row.name, action, "own"));
    hide CheckPermission, MatchesPermissionPattern, Model.Required;
  }

  /** The `all` grant opens every row, the `own` grant one's own, nobody's and the shared ones. */
  lemma GrantedOpens(m: Model, row: Row, userId: string, permissions: map<string, bool>, action: string)
    ensures Granted(permissions, m.Required(row.namespace, row.name, action, "all")) ==>
              CanUserAccess(m, row, userId, permissions, action)
    ensures Granted(permissions, m.Required(row.namespace, row.name, action, "own")) && Within(m, row, userId) ==>
              CanUserAccess(m, row, userId, permissions, action)
  {
    GrantedExactly(permissions, m.Required(row.namespace, row.name, action, "all"));
    GrantedExactly(permissions, m.Required(row.namespace, row.name, action, "own"));
    hide CheckPermission, MatchesPermissionPattern, Model.Required;
  }

  /** In terms of rows and users alone: with one key, for the row's own permission, a row opens exactly if the key's scope is
      `all` or the row is one's own, nobody's or shared. */
  lemma OneKeyOpensExactly(m: Model, row: Row, userId: string, action: string, scope: string)
    requires m.Plain() && '.' !in action && scope in {"all", "own"}
    ensures CanUserAccess(m, row, userId, map[m.Required(row.namespace, row.name, action, scope) := true], action)
       <==> scope == "all" || Within(m, row, userId)
  {
    var key, all := m.Required(row.namespace, row.name, action, scope), m.Required(row.namespace, row.name, action, "all");
    var own := m.Required(row.namespace, row.name, action, "own");
    var permissions := map[key := true];
    assert CheckPermission(permissions, key);
    if scope == "own" {
      assert !CheckPermission(permissions, all) by { OwnIsNotAll(m, row.namespace, row.name, action); }
    }
    hide CheckPermission;
  }

  lemma OwnIsNotAll(m: Model, namespace: string, name: string, action: string)
    requires m.Plain() && '.' !in action
    ensures var own, all := m.Required(namespace, name, action, "own"), m.Required(namespace, name, action, "all");
            own != all && !MatchesPermissionPattern(own, all)
  {
    RequiredParses(m, namespace, name, action, "own");
    RequiredParses(m, namespace, name, action, "all");
    hide Parse, Model.Required;
  }

  function RowPermission(m: Model, namespace: string, name: string, action: string, scope: string): Permission {
    Permission(["sinas", m.table], if m.namespaced then Some(Split(namespace + "/" + name, '/')) else None, action, scope)
  }

  /** What the permission asked for means: the model's table, and the row's namespace and name if the model has them. */
  lemma RequiredParses(m: Model, namespace: string, name: string, action: string, scope: string)
    requires m.Plain() && '.' !in action && ':' !in scope
    ensures Parse(m.Required(namespace, name, action, scope)) == Some(RowPermission(m, namespace, name, action, scope))
  {
    var p := RowPermission(m, namespace, name, action, scope);
    assert p.base[1..] == [m.table];
    assert Join(p.base, '.') == m.Base();
    if m.namespaced {
      JoinSplit(namespace + "/" + name, '/');
      Flatten(m.Base(), namespace, name);
    }
    ParseRender(p);
    assert p.Render() == m.Required(namespace, name, action, scope);
  }

  lemma Flatten(base: string, namespace: string, name: string)
    ensures base + (['/'] + (namespace + "/" + name)) == base + "/" + namespace + "/" + name
  {}

  lemma SplitPair(namespace: string, name: string)
    ensures var parts := Split(namespace + "/" + name, '/');
            if '/' !in namespace && '/' !in name then parts == [namespace, name] else |parts| > 2
  {
    hide Split, SplitFirst;
    var path := namespace + "/" + name;
    if '/' !in namespace {
      assert path == namespace + ['/'] + name;
      SplitCons(namespace, '/', name);
      if '/' !in name {
        SplitNoSep(name, '/');
      } else {
        SplitFirstRejoins(name, '/');
        var (left, right) := SplitFirst(name, '/').value;
        SplitCons(left, '/', right);
      }
    } else {
      SplitFirstRejoins(namespace, '/');
      var (left, right) := SplitFirst(namespace, '/').value;
      var rest := right + "/" + name;
      assert path == left + ['/'] + rest;
      SplitCons(left, '/', rest);
      SplitFirstRejoins(rest, '/');
      var (l2, r2) := SplitFirst(rest, '/').value;
      SplitCons(l2, '/', r2);
    }
  }

  /** A grant over every namespace and name is a grant over each of them. */
  lemma WildcardGrantsRow(m: Model, namespace: string, name: string, action: string, scope: string, permissions: map<string, bool>)
    requires m.Plain() && '.' !in action && scope in {"all", "own"}
    requires '/' !in namespace && '/' !in name
    requires CheckPermission(permissions, m.Required("*", "*", action, scope))
    ensures CheckPermission(permissions, m.Required(namespace, name, action, scope))
  {
    hide Covers, Parse;
    if m.namespaced {
      var wild, required := m.Required("*", "*", action, scope), m.Required(namespace, name, action, scope);
      WildcardCoversExactly(m, namespace, name, action, scope);
      var key := "";
      if wild in permissions && permissions[wild] {
        key := wild;
      } else {
        key :| key in permissions && permissions[key] && MatchesPermissionPattern(key, wild);
        RequiredParses(m, "*", "*", action, scope);
        CoversTransitive(Parse(key).value, Parse(wild).value, Parse(required).value);
      }
      assert permissions[key] && MatchesPermissionPattern(key, required);
    }
  }

  /** The wildcard form covers a row exactly when neither part of its path contains a slash. */
  lemma WildcardCoversExactly(m: Model, namespace: string, name: string, action: string, scope: string)
    requires m.Plain() && m.namespaced && '.' !in action && scope in {"all", "own"}
    ensures MatchesPermissionPattern(m.Required("*", "*", action, scope), m.Required(namespace, name, action, scope))
       <==> '/' !in namespace && '/' !in name
  {
    hide Parse;
    RequiredParses(m, "*", "*", action, scope);
    RequiredParses(m, namespace, name, action, scope);
    SplitPair("*", "*");
    SplitPair(namespace, name);
  }

  /** A key that grants the wildcard form grants a row if and only if the row's path has no extra slash, or the key no path. */
  lemma KeyGrantsRowExactly(m: Model, key: string, namespace: string, name: string, action: string, scope: string)
    requires m.Plain() && m.namespaced && '.' !in action && scope in {"all", "own"}
    requires MatchesPermissionPattern(key, m.Required("*", "*", action, scope))
    ensures MatchesPermissionPattern(key, m.Required(namespace, name, action, scope))
       <==> ('/' !in namespace && '/' !in name) || Parse(key).value.path.None?
  {
    hide Parse;
    RequiredParses(m, "*", "*", action, scope);
    RequiredParses(m, namespace, name, action, scope);
    SplitPair("*", "*");
    SplitPair(namespace, name);
  }

  /** The key grants the row: by having no path, if it is one that grants the listing, or else by itself. */
  predicate GrantsRow(m: Model, key: string, namespace: string, name: string, action: string, scope: string) {
    var required := m.Required(namespace, name, action, scope);
    if MatchesPermissionPattern(key, m.Required("*", "*", action, scope)) then Parse(key).value.path.None?
    else key == required || MatchesPermissionPattern(key, required)
  }

  /** Exactly when a listed row with a slash in its namespace or name is granted; otherwise opening it is refused. */
  lemma SlashRowGrantedExactly(m: Model, namespace: string, name: string, action: string, scope: string,
                               permissions: map<string, bool>)
    requires m.Plain() && m.namespaced && '.' !in action && scope in {"all", "own"} && ('/' in namespace || '/' in name)
    ensures CheckPermission(permissions, m.Required(namespace, name, action, scope))
       <==> exists key | key in permissions :: permissions[key] && GrantsRow(m, key, namespace, name, action, scope)
  {
    var required := m.Required(namespace, name, action, scope);
    OwnTextGrants(m, namespace, name, action, scope);
    forall key | key in permissions && permissions[key]
      ensures GrantsRow(m, key, namespace, name, action, scope) <==> key == required || MatchesPermissionPattern(key, required)
    {
      if MatchesPermissionPattern(key, m.Required("*", "*", action, scope)) {
        KeyGrantsRowExactly(m, key, namespace, name, action, scope);
      }
    }
    hide GrantsRow, MatchesPermissionPattern, Model.Required;
  }

  /** A permission text matches itself. */
  lemma OwnTextGrants(m: Model, namespace: string, name: string, action: string, scope: string)
    requires m.Plain() && m.namespaced && '.' !in action && scope in {"all", "own"}
    ensures var required := m.Required(namespace, name, action, scope); MatchesPermissionPattern(required, required)
  {
    hide Parse;
    RequiredParses(m, namespace, name, action, scope);
  }
}
