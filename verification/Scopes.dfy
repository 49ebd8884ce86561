/** The authorization vocabulary: implication between scopes, and the scopes of a role
    (quansec/core/scopes.py). */
module Scopes {
  import opened Options
  import opened Text

  datatype Scope =
    | TlsRead | TlsProbe | TlsAdmin
    | SshRead | SshAdmin
    | IpsecRead | IpsecAdmin
    | SystemAdmin
    | Unlisted(name: string)   // any other text

  const ALL_SCOPES: set<Scope> := {TlsRead, TlsProbe, TlsAdmin, SshRead, SshAdmin, IpsecRead, IpsecAdmin, SystemAdmin}

  function Implied(s: Scope): set<Scope> {
    match s
    case SystemAdmin => ALL_SCOPES
    case TlsAdmin => {TlsRead, TlsProbe}
    case TlsProbe => {TlsRead}
    case SshAdmin => {SshRead}
    case IpsecAdmin => {IpsecRead}
    case _ => {}
  }

  // A known scope carries itself and what it implies directly.
  predicate Gives(s: Scope, t: Scope) {
    s in ALL_SCOPES && (t == s || t in Implied(s))
  }

  ghost function Expand(scopes: set<Scope>): set<Scope> {
    set t | t in ALL_SCOPES && exists s :: s in scopes && Gives(s, t)
  }

  function Elements(scopes: seq<Scope>): set<Scope> {
    set s | s in scopes
  }

  method ExpandAll(scopes: seq<Scope>) returns (result: set<Scope>)
    ensures result == Expand(Elements(scopes))
  {
    result := {};
    var i := 0;
    while i < |scopes|
      invariant 0 <= i <= |scopes|
      invariant result == Expand(Elements(scopes[..i]))
    {
      var scope := scopes[i];
      ExpandWithOne(Elements(scopes[..i]), scope);
      assert Elements(scopes[..i + 1]) == Elements(scopes[..i]) + {scope};
      hide Expand;
      if scope in ALL_SCOPES {
        result := result + {scope};
        result := result + Implied(scope);
      }
      i := i + 1;
    }
    assert scopes[..i] == scopes;
  }

  lemma GivesKnown(s: Scope, t: Scope)
    requires Gives(s, t)
    ensures t in ALL_SCOPES
  {
  }

  lemma ExpandWithOne(scopes: set<Scope>, s: Scope)
    ensures Expand(scopes + {s}) == if s in ALL_SCOPES then Expand(scopes) + {s} + Implied(s) else Expand(scopes)
  {
    hide Implied;
    forall t | Gives(s, t) ensures t in ALL_SCOPES && t in Expand(scopes + {s}) {
      GivesKnown(s, t);
    }
    forall t | t in {s} + Implied(s) && s in ALL_SCOPES ensures Gives(s, t) {
    }
  }

  // ----- Expand is a closure operator

  // A set of known scopes that holds whatever its members imply.
  ghost predicate Closed(scopes: set<Scope>) {
    scopes <= ALL_SCOPES && forall s :: s in scopes ==> Implied(s) <= scopes
  }

  // system:admin gives every scope, an admin scope the others of its module, and probing
  // TLS gives reading it; a reading scope gives itself alone.
  predicate GivesByTable(s: Scope, t: Scope) {
    || (s == t && !s.Unlisted?)
    || (s.SystemAdmin? && !t.Unlisted?)
    || (s.TlsAdmin? && t.TlsProbe?) || (s.TlsAdmin? && t.TlsRead?) || (s.TlsProbe? && t.TlsRead?)
    || (s.SshAdmin? && t.SshRead?)
    || (s.IpsecAdmin? && t.IpsecRead?)
  }

  lemma GivesIff(s: Scope, t: Scope)
    ensures Gives(s, t) <==> GivesByTable(s, t)
  {
  }

  // One pass over the table suffices, because the table itself is transitive.
  lemma GivesTransitive(s: Scope, t: Scope, u: Scope)
    requires Gives(s, t) && u in Implied(t)
    ensures Gives(s, u) && u in ALL_SCOPES
  {
  }

  lemma ExpandIsClosed(scopes: set<Scope>)
    ensures Closed(Expand(scopes))
  {
    forall t | t in Expand(scopes) ensures Implied(t) <= Expand(scopes) {
      var s :| s in scopes && Gives(s, t);
      forall u | u in Implied(t) ensures u in Expand(scopes) {
        GivesTransitive(s, t, u);
      }
    }
  }

  /** Expanding gives the least closed set that holds the known scopes. */
  lemma ExpandIsLeastClosed(scopes: set<Scope>, closed: set<Scope>)
    ensures scopes * ALL_SCOPES <= Expand(scopes) && Closed(Expand(scopes))
    ensures Closed(closed) && scopes * ALL_SCOPES <= closed ==> Expand(scopes) <= closed
  {
    ExpandIsClosed(scopes);
    hide Implied;
    forall s | s in scopes * ALL_SCOPES ensures s in Expand(scopes) {
      assert Gives(s, s);
    }
    if Closed(closed) && scopes * ALL_SCOPES <= closed {
      forall t | t in Expand(scopes) ensures t in closed {
        var s :| s in scopes && Gives(s, t);
      }
    }
  }

  lemma ExpandOfClosed(scopes: set<Scope>)
    requires Closed(scopes)
    ensures Expand(scopes) == scopes
  {
    ExpandIsLeastClosed(scopes, scopes);
  }

  lemma ExpandIdempotent(scopes: set<Scope>)
    ensures Expand(Expand(scopes)) == Expand(scopes)
  {
    ExpandIsClosed(scopes);
    ExpandOfClosed(Expand(scopes));
  }

  lemma ExpandMonotone(a: set<Scope>, b: set<Scope>)
    requires a <= b
    ensures Expand(a) <= Expand(b)
  {
  }

  lemma ClosedIntersection(a: set<Scope>, b: set<Scope>)
    requires Closed(a) && Closed(b)
    ensures Closed(a * b)
  {
  }

  // ----- Roles

  function RoleScopes(role: string): set<Scope> {
    if Lower(Trim(role)) == "admin" then {SystemAdmin}
    else if Lower(Trim(role)) == "operator" then {TlsRead, SshRead, IpsecRead}
    else {}
  }

  function PortalScope(portal: string): Option<Scope> {
    if Lower(Trim(portal)) == "tls" then Some(TlsAdmin)
    else if Lower(Trim(portal)) == "ssh" then Some(SshAdmin)
    else if Lower(Trim(portal)) == "ipsec" then Some(IpsecAdmin)
    else None
  }

  ghost function ScopesFor(role: string, portal: Option<string>): set<Scope> {
    var granted := RoleScopes(role);
    if granted != {} && portal.Some? && portal.value != "" && PortalScope(portal.value).Some?
    then Expand(granted + {PortalScope(portal.value).value})
    else Expand(granted)
  }

  lemma ScopesForIsClosed(role: string, portal: Option<string>)
    ensures Closed(ScopesFor(role, portal))
  {
    var granted := RoleScopes(role);
    ExpandIsClosed(granted);
    if portal.Some? && PortalScope(portal.value).Some? {
      ExpandIsClosed(granted + {PortalScope(portal.value).value});
    }
  }

  // The scopes a role and portal start from, before expansion.
  function Granted(role: string, portal: Option<string>): set<Scope> {
    var granted := RoleScopes(role);
    if granted != {} && portal.Some? && portal.value != "" && PortalScope(portal.value).Some?
    then granted + {PortalScope(portal.value).value}
    else granted
  }

  // An administration scope is held only if it, or system:admin, was granted.
  lemma AdminOnlyIfGranted(scopes: set<Scope>, s: Scope)
    requires s in {TlsAdmin, SshAdmin, IpsecAdmin, SystemAdmin} && s in Expand(scopes)
    ensures s in scopes || SystemAdmin in scopes
  {
    var t :| t in scopes && Gives(t, s);
  }

  /** Only the admin role carries system:admin; another role administers at most the
      module of its portal; and an unknown role yields nothing, whatever the portal. */
  lemma AuthorityComesFromRole(role: string, portal: Option<string>)
    ensures SystemAdmin in ScopesFor(role, portal) <==> Lower(Trim(role)) == "admin"
    ensures forall s :: s in {TlsAdmin, SshAdmin, IpsecAdmin} && s in ScopesFor(role, portal) ==>
              Lower(Trim(role)) == "admin" || (portal.Some? && PortalScope(portal.value) == Some(s))
    ensures RoleScopes(role) == {} ==> ScopesFor(role, portal) == {}
  {
    RoleFacts(role);
    hide Lower, Trim, Expand, RoleScopes;
    var granted := Granted(role, portal);
    ExpandIsLeastClosed(granted, granted);
    if SystemAdmin in ScopesFor(role, portal) {
      AdminOnlyIfGranted(granted, SystemAdmin);
    }
    forall s | s in {TlsAdmin, SshAdmin, IpsecAdmin} && s in ScopesFor(role, portal)
      ensures Lower(Trim(role)) == "admin" || (portal.Some? && PortalScope(portal.value) == Some(s))
    {
      AdminOnlyIfGranted(granted, s);
    }
    if RoleScopes(role) == {} {
      ExpandOfClosed({});
    }
  }

  lemma RoleFacts(role: string)
    ensures SystemAdmin in RoleScopes(role) <==> Lower(Trim(role)) == "admin"
    ensures TlsAdmin !in RoleScopes(role) && SshAdmin !in RoleScopes(role) && IpsecAdmin !in RoleScopes(role)
    ensures RoleScopes(role) <= ALL_SCOPES
  {
    hide Lower, Trim;
  }

  // What a role and portal start from.
  predicate GrantedTo(role: string, portal: Option<string>, s: Scope) {
    var name := Lower(Trim(role));
    var area := if portal.Some? then Lower(Trim(portal.value)) else "";
    || (name == "admin" && s.SystemAdmin?)
    || (name == "operator" && s in {TlsRead, SshRead, IpsecRead})
    || (name in {"admin", "operator"} &&
        ((area == "tls" && s.TlsAdmin?) || (area == "ssh" && s.SshAdmin?) || (area == "ipsec" && s.IpsecAdmin?)))
  }

  lemma RoleScopesIff(role: string, s: Scope)
    ensures var name := Lower(Trim(role));
            && (s in RoleScopes(role) <==> (name == "admin" && s.SystemAdmin?) || (name == "operator" && s in {TlsRead, SshRead, IpsecRead}))
            && (RoleScopes(role) != {} <==> name in {"admin", "operator"})
  {
    hide Lower, Trim;
  }

  lemma PortalScopeIff(portal: string, s: Scope)
    ensures var area := Lower(Trim(portal));
            PortalScope(portal) == Some(s) <==>
              (area == "tls" && s.TlsAdmin?) || (area == "ssh" && s.SshAdmin?) || (area == "ipsec" && s.IpsecAdmin?)
    ensures portal == "" ==> PortalScope(portal).None?
  {
    assert Lower(Trim("")) == "";
    hide Lower, Trim;
  }

  lemma GrantedIff(role: string, portal: Option<string>, s: Scope)
    ensures s in Granted(role, portal) <==> GrantedTo(role, portal, s)
  {
    RoleScopesIff(role, s);
    if portal.Some? {
      PortalScopeIff(portal.value, s);
    }
    assert Lower(Trim("")) == "";
    hide Lower, Trim, RoleScopes, PortalScope;
  }

  lemma ScopesForGives(role: string, portal: Option<string>, t: Scope)
    ensures t in ScopesFor(role, portal) <==> exists s :: s in Granted(role, portal) && Gives(s, t)
  {
    hide RoleScopes, PortalScope, Gives, Implied;
    if s :| s in Granted(role, portal) && Gives(s, t) {
      GivesKnown(s, t);
    }
  }

  /** The scopes of every role and portal. An operator reads every module and, with the
      portal of a module, administers that module and no other, which for TLS includes
      probing; an admin holds everything; any other role holds nothing. */
  lemma ScopesForExactly(role: string, portal: Option<string>, t: Scope)
    ensures var name := Lower(Trim(role));
            var area := if portal.Some? then Lower(Trim(portal.value)) else "";
            t in ScopesFor(role, portal) <==>
              || (name == "admin" && !t.Unlisted?)
              || (name == "operator" &&
                  (|| t in {TlsRead, SshRead, IpsecRead}
                   || (area == "tls" && t in {TlsAdmin, TlsProbe})
                   || (area == "ssh" && t.SshAdmin?)
                   || (area == "ipsec" && t.IpsecAdmin?)))
  {
    ScopesForGives(role, portal, t);
    hide Granted, ScopesFor, Gives, Implied, Lower, Trim;
    forall s
      ensures s in Granted(role, portal) <==> GrantedTo(role, portal, s)
    {
      GrantedIff(role, portal, s);
    }
    forall s ensures Gives(s, t) <==> GivesByTable(s, t) {
      GivesIff(s, t);
    }
    assert Gives(t, t) <==> !t.Unlisted?;
    assert Gives(SystemAdmin, t) <==> !t.Unlisted?;
    assert Gives(TlsAdmin, t) <==> t in {TlsAdmin, TlsProbe, TlsRead};
  }

  // ----- Checks

  ghost predicate HasAny(held: set<Scope>, required: set<Scope>) {
    Expand(held) * (required * ALL_SCOPES) != {}
  }

  /** A check succeeds if and only if some required scope is held, or implied by a held
      one; what the required scopes imply is of no account. */
  lemma HasAnyIff(held: set<Scope>, required: set<Scope>)
    ensures HasAny(held, required) <==> exists s, t :: s in held && t in required && Gives(s, t)
  {
    if HasAny(held, required) {
      var t :| t in Expand(held) * (required * ALL_SCOPES);
      var s :| s in held && Gives(s, t);
    }
    if s, t :| s in held && t in required && Gives(s, t) {
      GivesKnown(s, t);
      assert t in Expand(held) * (required * ALL_SCOPES);
    }
  }

  lemma ReadDoesNotImplyAdmin(held: set<Scope>)
    requires held <= {TlsRead, TlsProbe, SshRead, IpsecRead}
    ensures !HasAny(held, {TlsAdmin, SystemAdmin})
  {
    HasAnyIff(held, {TlsAdmin, SystemAdmin});
  }
}
