/** Two ways to check that an identity may write to a ref (crates/depot-write/src/authz.rs). */
module Authz {
  import opened Wrappers
  import opened Ordering
  import opened Text

  /** Whether a pattern matches a ref name; the matcher itself is not part of this model. */
  type Glob = (string, string) -> bool

  /** One row that grants access to a project, perhaps only to matching refs. */
  datatype Grant = Grant(project: string, refPattern: Option<string>)

  datatype IdentityKind =
    | BootstrapAdmin
    | Oidc(repository: Option<string>, refName: Option<string>)
    | AccessToken(tokenId: string)

  datatype Identity = Identity(provider: Option<string>, kind: IdentityKind)

  datatype Scope = Admin | ProjectScope(project: string, refPatterns: seq<string>)
  datatype AuthError = ServiceUnavailable | Unauthorized | Forbidden

  /** The rows a lookup finds; `None` when the lookup itself fails. */
  datatype Grants = Grants(tokens: string -> Option<seq<Grant>>, bindings: (string, string) -> Option<seq<Grant>>)

  function RefPatternMatches(glob: Glob, pattern: Option<string>, refName: Option<string>): (b: bool) {
    match pattern
    case None => true
    case Some(p) => refName.Some? && glob(p, refName.value)
  }

  function OfProject(grants: seq<Grant>, project: string): (r: seq<Grant>)
    ensures forall g :: g in r <==> g in grants && g.project == project
  {
    if grants == [] then []
    else
      assert grants == [grants[0]] + grants[1..];
      (if grants[0].project == project then [grants[0]] else []) + OfProject(grants[1..], project)
  }

  function Matching(glob: Glob, grants: seq<Grant>, refName: Option<string>): (r: seq<Grant>)
    ensures forall g :: g in r <==> g in grants && RefPatternMatches(glob, g.refPattern, refName)
  {
    if grants == [] then []
    else
      assert grants == [grants[0]] + grants[1..];
      (if RefPatternMatches(glob, grants[0].refPattern, refName) then [grants[0]] else [])
      + Matching(glob, grants[1..], refName)
  }

  function PatternsOf(grants: seq<Grant>): (r: seq<string>)
    ensures forall p :: p in r <==> Exists(grants, p)
  {
    if grants == [] then []
    else
      assert grants == [grants[0]] + grants[1..];
      assert forall p :: Exists(grants, p) <==> grants[0].refPattern == Some(p) || Exists(grants[1..], p);
      (if grants[0].refPattern.Some? then [grants[0].refPattern.value] else []) + PatternsOf(grants[1..])
  }

  predicate Exists(grants: seq<Grant>, p: string) {
    exists i :: 0 <= i < |grants| && grants[i].refPattern == Some(p)
  }

  /** Drops neighbours that repeat. */
  function Dedup(s: seq<string>): (r: seq<string>)
    ensures forall x :: x in r <==> x in s
  {
    if |s| <= 1 then s
    else
      assert s == [s[0]] + s[1..];
      assert s[1] == s[1..][0];
      if s[0] == s[1] then Dedup(s[1..]) else [s[0]] + Dedup(s[1..])
  }

  predicate Unrestricted(grants: seq<Grant>) {
    exists i :: 0 <= i < |grants| && grants[i].refPattern.None?
  }

  /** No patterns at all stands for every ref; a grant without a pattern therefore erases the others. */
  function RefPatterns(grants: seq<Grant>): (r: seq<string>) {
    if Unrestricted(grants) then [] else Dedup(SortText(PatternsOf(grants)))
  }

  function ScopeOf(project: string, grants: seq<Grant>): (r: Result<Scope, AuthError>) {
    if grants == [] then Err(Forbidden) else Ok(ProjectScope(project, RefPatterns(grants)))
  }

  function TokenGrants(db: Grants, tokenId: string): (r: Result<seq<Grant>, AuthError>) {
    match db.tokens(tokenId)
    case None => Err(ServiceUnavailable)
    case Some(grants) => if grants == [] then Err(Unauthorized) else Ok(grants)
  }

  function BindingGrants(db: Grants, provider: Option<string>, repository: Option<string>)
    : (r: Result<seq<Grant>, AuthError>)
  {
    if provider.None? || repository.None? then Err(Forbidden)
    else match db.bindings(provider.value, repository.value)
      case None => Err(ServiceUnavailable)
      case Some(grants) => Ok(grants)
  }

  /** `authorize_project`. */
  function AuthorizeProject(db: Grants, identity: Identity, project: string): (r: Result<Scope, AuthError>) {
    match identity.kind
    case BootstrapAdmin => Ok(Admin)
    case Oidc(repository, _) =>
      var grants :- BindingGrants(db, identity.provider, repository);
      ScopeOf(project, OfProject(grants, project))
    case AccessToken(tokenId) =>
      var grants :- TokenGrants(db, tokenId);
      ScopeOf(project, OfProject(grants, project))
  }

  /** `authorize_project_ref`. */
  function AuthorizeProjectRef(glob: Glob, db: Grants, identity: Identity, project: string, refName: string)
    : (r: Result<Scope, AuthError>)
  {
    match identity.kind
    case BootstrapAdmin => Ok(Admin)
    case Oidc(repository, tokenRef) =>
      if tokenRef.Some? && tokenRef.value != refName then Err(Forbidden)
      else
        var grants :- BindingGrants(db, identity.provider, repository);
        ScopeOf(project, Matching(glob, OfProject(grants, project), tokenRef))
    case AccessToken(tokenId) =>
      var grants :- TokenGrants(db, tokenId);
      ScopeOf(project, Matching(glob, OfProject(grants, project), Some(refName)))
  }

  /** `require_project_ref`. */
  function RequireProjectRef(glob: Glob, scope: Scope, project: string, refName: string): (r: Result<(), AuthError>) {
    match scope
    case Admin => Ok(())
    case ProjectScope(p, refPatterns) =>
      if p != project then Err(Forbidden)
      else if refPatterns == [] || (exists i :: 0 <= i < |refPatterns| && glob(refPatterns[i], refName)) then Ok(())
      else Err(Forbidden)
  }

  /** Authorizing the project first and checking the ref afterwards. */
  function AuthorizeInTwoSteps(glob: Glob, db: Grants, identity: Identity, project: string, refName: string)
    : (r: Result<(), AuthError>)
  {
    var scope :- AuthorizeProject(db, identity, project);
    RequireProjectRef(glob, scope, project, refName)
  }

  lemma PatternMembers(grants: seq<Grant>)
    requires !Unrestricted(grants)
    ensures forall p :: p in RefPatterns(grants) <==> Exists(grants, p)
  {
    SortTextProperties(PatternsOf(grants));
  }

  lemma RefPatternsEmpty(grants: seq<Grant>)
    ensures RefPatterns(grants) == [] <==> grants == [] || Unrestricted(grants)
  {
    if grants != [] && !Unrestricted(grants) {
      PatternMembers(grants);
      assert grants[0].refPattern.Some?;
      assert Exists(grants, grants[0].refPattern.value);
    } else if grants == [] {
      assert PatternsOf(grants) == [] && SortText([]) == [];
    }
  }

  /** A scope made of some grants lets a ref pass exactly when one of the grants does. */
  lemma ScopeAdmits(glob: Glob, project: string, grants: seq<Grant>, refName: string)
    requires grants != []
    ensures RequireProjectRef(glob, ProjectScope(project, RefPatterns(grants)), project, refName).Ok?
            <==> Matching(glob, grants, Some(refName)) != []
  {
    var patterns := RefPatterns(grants);
    var matching := Matching(glob, grants, Some(refName));
    RefPatternsEmpty(grants);
    if Unrestricted(grants) {
      var i :| 0 <= i < |grants| && grants[i].refPattern.None?;
      assert grants[i] in matching;
    } else {
      PatternMembers(grants);
      if matching != [] {
        assert matching[0] in matching;
        var i :| 0 <= i < |grants| && grants[i] == matching[0];
        assert Exists(grants, grants[i].refPattern.value);
      }
      if i :| 0 <= i < |patterns| && glob(patterns[i], refName) {
        assert patterns[i] in patterns;
        var j :| 0 <= j < |grants| && grants[j].refPattern == Some(patterns[i]);
        assert grants[j] in matching;
      }
    }
  }

  /** Every grant that matched keeps matching, so the scope made of the matching grants admits the ref. */
  lemma MatchingScopeAdmits(glob: Glob, project: string, grants: seq<Grant>, refName: string)
    requires Matching(glob, grants, Some(refName)) != []
    ensures var scope := ProjectScope(project, RefPatterns(Matching(glob, grants, Some(refName))));
            RequireProjectRef(glob, scope, project, refName).Ok?
  {
    var matching := Matching(glob, grants, Some(refName));
    assert matching[0] in matching;
    assert matching[0] in Matching(glob, matching, Some(refName));
    ScopeAdmits(glob, project, matching, refName);
  }

  /** For access tokens, one step succeeds exactly when two steps do, and fails with the same error. */
  lemma TokenRoutesAgree(glob: Glob, db: Grants, identity: Identity, project: string, refName: string)
    requires identity.kind.AccessToken?
    ensures AuthorizeProjectRef(glob, db, identity, project, refName).Ok?
            <==> AuthorizeInTwoSteps(glob, db, identity, project, refName).Ok?
    ensures AuthorizeProjectRef(glob, db, identity, project, refName).Err? ==>
              AuthorizeProjectRef(glob, db, identity, project, refName).error
              == AuthorizeInTwoSteps(glob, db, identity, project, refName).error
  {
    var found := TokenGrants(db, identity.kind.tokenId);
    if found.Ok? {
      var grants := OfProject(found.value, project);
      if grants != [] {
        ScopeAdmits(glob, project, grants, refName);
      }
    }
  }

  /** Without a ref of its own, a token matches only unrestricted grants. */
  lemma MatchingWithoutRef(glob: Glob, grants: seq<Grant>)
    ensures Matching(glob, grants, None) != [] <==> Unrestricted(grants)
  {
    var matching := Matching(glob, grants, None);
    if matching != [] {
      assert matching[0] in matching;
      var i :| 0 <= i < |grants| && grants[i] == matching[0];
    }
    if Unrestricted(grants) {
      var i :| 0 <= i < |grants| && grants[i].refPattern.None?;
      assert grants[i] in matching;
    }
  }

  /**
   For OIDC, one step succeeds exactly when two steps do and the token names this ref, or names no
   ref while some binding that the repository has for the project is without a pattern.
   */
  lemma OidcRoutesCompared(glob: Glob, db: Grants, identity: Identity, project: string, refName: string)
    requires identity.kind.Oidc?
    ensures AuthorizeProjectRef(glob, db, identity, project, refName).Ok?
            <==> && AuthorizeInTwoSteps(glob, db, identity, project, refName).Ok?
                 && match identity.kind.refName
                    case Some(tokenRef) => tokenRef == refName
                    case None =>
                      Unrestricted(OfProject(BindingGrants(db, identity.provider, identity.kind.repository).value, project))
  {
    var found := BindingGrants(db, identity.provider, identity.kind.repository);
    if found.Ok? {
      var grants := OfProject(found.value, project);
      OidcDirectly(glob, db, identity, project, refName, grants);
      if grants != [] { OidcTwoSteps(glob, db, identity, project, refName, grants); }
    }
  }

  lemma OidcDirectly(glob: Glob, db: Grants, identity: Identity, project: string, refName: string, grants: seq<Grant>)
    requires identity.kind.Oidc? && BindingGrants(db, identity.provider, identity.kind.repository).Ok?
    requires grants == OfProject(BindingGrants(db, identity.provider, identity.kind.repository).value, project)
    ensures AuthorizeProjectRef(glob, db, identity, project, refName).Ok?
            <==> match identity.kind.refName
                 case Some(tokenRef) => tokenRef == refName && Matching(glob, grants, Some(refName)) != []
                 case None => Unrestricted(grants)
  {
    if identity.kind.refName.None? { MatchingWithoutRef(glob, grants); }
  }

  lemma OidcTwoSteps(glob: Glob, db: Grants, identity: Identity, project: string, refName: string, grants: seq<Grant>)
    requires identity.kind.Oidc? && BindingGrants(db, identity.provider, identity.kind.repository).Ok?
    requires grants == OfProject(BindingGrants(db, identity.provider, identity.kind.repository).value, project)
    requires grants != []
    ensures AuthorizeProject(db, identity, project) == Ok(ProjectScope(project, RefPatterns(grants)))
    ensures RefPatterns(grants) == [] <==> Unrestricted(grants)
    ensures AuthorizeInTwoSteps(glob, db, identity, project, refName).Ok? <==> Matching(glob, grants, Some(refName)) != []
    ensures Unrestricted(grants) ==> Matching(glob, grants, Some(refName)) != []
  {
    ScopeAdmits(glob, project, grants, refName);
    RefPatternsEmpty(grants);
    if Unrestricted(grants) {
      var i :| 0 <= i < |grants| && grants[i].refPattern.None?;
      assert grants[i] in Matching(glob, grants, Some(refName));
    }
  }

  /** An identity whose token names `refs/heads/a`, and the one binding it has, which is for all refs. */
  const NAMES_A := Identity(Some("ci"), Oidc(Some("repo"), Some("refs/heads/a")))
  const ONE_BINDING := Grants(_ => None, (provider, repository) => Some([Grant("p", None)]))

  /** So two steps admit more than one: that identity gets to `refs/heads/b` in two steps, and not in one. */
  lemma OidcStepsAdmitMore(glob: Glob)
    ensures AuthorizeInTwoSteps(glob, ONE_BINDING, NAMES_A, "p", "refs/heads/b").Ok?
    ensures AuthorizeProjectRef(glob, ONE_BINDING, NAMES_A, "p", "refs/heads/b") == Err(Forbidden)
  {
    var grants := OfProject([Grant("p", None)], "p");
    assert grants[0].refPattern.None?;
    OidcTwoSteps(glob, ONE_BINDING, NAMES_A, "p", "refs/heads/b", grants);
  }

  /** Whoever is authorized for a ref passes the later check of that ref. */
  lemma AuthorizedRefPasses(glob: Glob, db: Grants, identity: Identity, project: string, refName: string)
    requires AuthorizeProjectRef(glob, db, identity, project, refName).Ok?
    ensures RequireProjectRef(glob, AuthorizeProjectRef(glob, db, identity, project, refName).value, project, refName).Ok?
  {
    match identity.kind
    case BootstrapAdmin =>
    case AccessToken(tokenId) =>
      MatchingScopeAdmits(glob, project, OfProject(TokenGrants(db, tokenId).value, project), refName);
    case Oidc(repository, tokenRef) =>
      var grants := OfProject(BindingGrants(db, identity.provider, repository).value, project);
      if tokenRef.Some? {
        MatchingScopeAdmits(glob, project, grants, refName);
      } else {
        MatchingWithoutRef(glob, Matching(glob, grants, None));
        assert Matching(glob, grants, None)[0] in Matching(glob, Matching(glob, grants, None), None);
      }
  }

  // ---- Whom each route admits ----

  /** A row of the project whose pattern is absent or matches the ref. */
  predicate Admits(glob: Glob, g: Grant, project: string, refName: Option<string>) {
    g.project == project && (g.refPattern.None? || (refName.Some? && glob(g.refPattern.value, refName.value)))
  }

  lemma {:induction false} DedupSorted(s: seq<string>)
    requires Sorted(s, Leq) && TotalOrder(Leq)
    ensures forall i, j :: 0 <= i < j < |Dedup(s)| ==> Leq(Dedup(s)[i], Dedup(s)[j]) && Dedup(s)[i] != Dedup(s)[j]
  {
    if |s| > 1 {
      var rest := Dedup(s[1..]);
      DedupSorted(s[1..]);
      if s[0] != s[1] {
        forall j | 0 <= j < |rest| ensures Leq(s[0], rest[j]) && s[0] != rest[j] {
          assert rest[j] in s[1..];
          var k :| 0 <= k < |s[1..]| && s[1..][k] == rest[j];
          assert s[1..][k] == s[k + 1];
          assert Leq(s[1], s[k + 1]) || k == 0;
        }
      }
    }
  }

  /** The patterns of a scope: none when a row has none, else each pattern of a row once, in ascending order. */
  lemma PatternsExactly(rows: seq<Grant>)
    ensures var patterns := RefPatterns(rows);
            && (if exists i :: 0 <= i < |rows| && rows[i].refPattern.None? then patterns == []
                else forall p :: p in patterns <==> exists i :: 0 <= i < |rows| && rows[i].refPattern == Some(p))
            && forall i, j :: 0 <= i < j < |patterns| ==> Leq(patterns[i], patterns[j]) && patterns[i] != patterns[j]
  {
    if !Unrestricted(rows) {
      PatternMembers(rows);
      LeqIsTotalOrder();
      SortTextProperties(PatternsOf(rows));
      DedupSorted(SortText(PatternsOf(rows)));
      forall p ensures p in RefPatterns(rows) <==> exists i :: 0 <= i < |rows| && rows[i].refPattern == Some(p) {
        assert p in RefPatterns(rows) <==> Exists(rows, p);
      }
    }
  }

  /** A scope of the project with each pattern of such a row once, in ascending order, or for all refs when one has none. */
  ghost predicate IsScopeOf(scope: Scope, project: string, rows: seq<Grant>, such: Grant -> bool) {
    && scope.ProjectScope? && scope.project == project
    && var patterns := scope.refPatterns;
       && (if exists g :: g in rows && such(g) && g.refPattern.None? then patterns == []
           else forall p :: p in patterns <==> exists g :: g in rows && such(g) && g.refPattern == Some(p))
       && forall i, j :: 0 <= i < j < |patterns| ==> Leq(patterns[i], patterns[j]) && patterns[i] != patterns[j]
  }

  lemma ScopeExactly(project: string, kept: seq<Grant>, rows: seq<Grant>, such: Grant -> bool)
    requires forall g :: g in kept <==> g in rows && such(g)
    ensures ScopeOf(project, kept) == Err(Forbidden) <==> !exists g :: g in rows && such(g)
    ensures (exists g :: g in rows && such(g)) ==>
              ScopeOf(project, kept).Ok? && IsScopeOf(ScopeOf(project, kept).value, project, rows, such)
  {
    PatternsExactly(kept);
    if kept != [] {
      assert kept[0] in kept;
      var patterns := RefPatterns(kept);
      if g :| g in rows && such(g) && g.refPattern.None? {
        assert g in kept;
      } else {
        forall i | 0 <= i < |kept| ensures kept[i].refPattern.Some? { assert kept[i] in kept; }
        forall p ensures p in patterns <==> exists g :: g in rows && such(g) && g.refPattern == Some(p) {
          if p in patterns {
            var i :| 0 <= i < |kept| && kept[i].refPattern == Some(p);
            assert kept[i] in kept;
          }
          if g :| g in rows && such(g) && g.refPattern == Some(p) { assert g in kept; }
        }
      }
    }
  }

  /** What is granted on these rows: forbidden when there is no such row, else the scope that those rows make up. */
  ghost predicate Granted(r: Result<Scope, AuthError>, project: string, rows: seq<Grant>, such: Grant -> bool) {
    if exists g :: g in rows && such(g) then r.Ok? && IsScopeOf(r.value, project, rows, such) else r == Err(Forbidden)
  }

  /** Exactly what an access token gets for a ref, in terms of the rows of its id. */
  lemma TokenForRef(glob: Glob, db: Grants, identity: Identity, project: string, refName: string)
    requires identity.kind.AccessToken?
    ensures var r := AuthorizeProjectRef(glob, db, identity, project, refName);
            match db.tokens(identity.kind.tokenId)
            case None => r == Err(ServiceUnavailable)
            case Some(rows) =>
              if rows == [] then r == Err(Unauthorized)
              else Granted(r, project, rows, (g: Grant) => Admits(glob, g, project, Some(refName)))
  {
    var found := db.tokens(identity.kind.tokenId);
    if found.Some? {
      ScopeExactly(project, Matching(glob, OfProject(found.value, project), Some(refName)), found.value,
                   (g: Grant) => Admits(glob, g, project, Some(refName)));
    }
  }

  /** And for a project. */
  lemma TokenForProject(db: Grants, identity: Identity, project: string)
    requires identity.kind.AccessToken?
    ensures var r := AuthorizeProject(db, identity, project);
            match db.tokens(identity.kind.tokenId)
            case None => r == Err(ServiceUnavailable)
            case Some(rows) =>
              if rows == [] then r == Err(Unauthorized) else Granted(r, project, rows, (g: Grant) => g.project == project)
  {
    var found := db.tokens(identity.kind.tokenId);
    if found.Some? { ScopeExactly(project, OfProject(found.value, project), found.value, (g: Grant) => g.project == project); }
  }

  /**
   Exactly what an OIDC identity gets for a ref: its token must name no other ref, and some row of its provider and
   repository must admit the ref its token names; without a named ref, only a row without a pattern does.
   */
  lemma OidcForRef(glob: Glob, db: Grants, identity: Identity, project: string, refName: string)
    requires identity.kind.Oidc?
    ensures var r, tokenRef := AuthorizeProjectRef(glob, db, identity, project, refName), identity.kind.refName;
            if tokenRef.Some? && tokenRef.value != refName then r == Err(Forbidden)
            else if identity.provider.None? || identity.kind.repository.None? then r == Err(Forbidden)
            else
              match db.bindings(identity.provider.value, identity.kind.repository.value)
              case None => r == Err(ServiceUnavailable)
              case Some(rows) => Granted(r, project, rows, (g: Grant) => Admits(glob, g, project, tokenRef))
  {
    if identity.provider.Some? && identity.kind.repository.Some? {
      var found, tokenRef := db.bindings(identity.provider.value, identity.kind.repository.value), identity.kind.refName;
      if found.Some? {
        ScopeExactly(project, Matching(glob, OfProject(found.value, project), tokenRef), found.value,
                     (g: Grant) => Admits(glob, g, project, tokenRef));
      }
    }
  }

  /** And for a project, whatever ref the token names. */
  lemma OidcForProject(db: Grants, identity: Identity, project: string)
    requires identity.kind.Oidc?
    ensures var r := AuthorizeProject(db, identity, project);
            if identity.provider.None? || identity.kind.repository.None? then r == Err(Forbidden)
            else
              match db.bindings(identity.provider.value, identity.kind.repository.value)
              case None => r == Err(ServiceUnavailable)
              case Some(rows) => Granted(r, project, rows, (g: Grant) => g.project == project)
  {
    if identity.provider.Some? && identity.kind.repository.Some? {
      var found := db.bindings(identity.provider.value, identity.kind.repository.value);
      if found.Some? { ScopeExactly(project, OfProject(found.value, project), found.value, (g: Grant) => g.project == project); }
    }
  }

  /** The bootstrap administrator gets everything on both routes. */
  lemma AdminGetsEverything(glob: Glob, db: Grants, identity: Identity, project: string, refName: string)
    requires identity.kind.BootstrapAdmin?
    ensures AuthorizeProject(db, identity, project) == Ok(Admin)
    ensures AuthorizeProjectRef(glob, db, identity, project, refName) == Ok(Admin)
    ensures RequireProjectRef(glob, Admin, project, refName) == Ok(())
  {}

  /** The later check: of this project, and either of all its refs or of a pattern that matches. */
  lemma RequiredExactly(glob: Glob, scope: Scope, project: string, refName: string)
    requires scope.ProjectScope?
    ensures RequireProjectRef(glob, scope, project, refName)
            == if scope.project == project && (scope.refPatterns == [] || exists p :: p in scope.refPatterns && glob(p, refName))
               then Ok(()) else Err(Forbidden)
  {
    if i :| 0 <= i < |scope.refPatterns| && glob(scope.refPatterns[i], refName) {
      assert scope.refPatterns[i] in scope.refPatterns;
    }
    if p :| p in scope.refPatterns && glob(p, refName) {
      var i :| 0 <= i < |scope.refPatterns| && scope.refPatterns[i] == p;
    }
  }
}
