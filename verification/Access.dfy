/** Roles and tenant access: the role a user has on one tenant, the map of all tenants a user reaches, and
    what a role permits. */
module Access {
  import opened Strings

  type Role = Option<string>
  type Tenant = nat

  /* Roles */

  function Rank(role: Role): (r: nat) {
    match role
    case Some("read_only") => 1
    case Some("operator") => 2
    case Some("tenant_admin") => 3
    case _ => 0
  }

  function RoleOfRank(r: nat): Role {
    if r == 1 then Some("read_only") else if r == 2 then Some("operator") else if r == 3 then Some("tenant_admin")
    else None
  }

  function Max(a: nat, b: nat): nat {
    if a >= b then a else b
  }

  /** The highest rank among the first `n` roles. */
  function TopRank(roles: seq<Role>, n: nat): (r: nat)
    requires n <= |roles|
    ensures r <= 3
  {
    if n == 0 then 0 else Max(TopRank(roles, n - 1), Rank(roles[n - 1]))
  }

  lemma RankOfKnown(role: Role)
    requires Rank(role) > 0
    ensures role == RoleOfRank(Rank(role))
  {
  }

  /** The most privileged role, None when none is known. */
  method HighestRole(roles: seq<Role>) returns (best: Role)
    ensures best == RoleOfRank(TopRank(roles, |roles|))
  {
    best := None;
    var bestRank := 0;
    for n := 0 to |roles|
      invariant bestRank == TopRank(roles, n) && best == RoleOfRank(bestRank)
    {
      var rank := Rank(roles[n]);
      if rank > bestRank {
        RankOfKnown(roles[n]);
        best, bestRank := roles[n], rank;
      }
    }
  }

  /* One tenant */

  datatype Membership = Membership(tenant: Tenant, role: Role)

  /** A grant of one of the user's groups. */
  datatype Grant = Grant(allTenants: bool, tenant: Option<Tenant>, role: Role)

  predicate Covers(g: Grant, t: Tenant) {
    g.allTenants || g.tenant == Some(t)
  }

  /** The roles of the first `n` memberships in `t`. */
  function MemberRoles(ms: seq<Membership>, n: nat, t: Tenant): (r: seq<Role>)
    requires n <= |ms|
  {
    if n == 0 then []
    else if ms[n - 1].tenant == t then MemberRoles(ms, n - 1, t) + [ms[n - 1].role]
    else MemberRoles(ms, n - 1, t)
  }

  /** The roles of the first `n` grants that cover `t`. */
  function GrantRoles(gs: seq<Grant>, n: nat, t: Tenant): (r: seq<Role>)
    requires n <= |gs|
  {
    if n == 0 then []
    else if Covers(gs[n - 1], t) then GrantRoles(gs, n - 1, t) + [gs[n - 1].role]
    else GrantRoles(gs, n - 1, t)
  }

  function RolesOn(ms: seq<Membership>, gs: seq<Grant>, t: Tenant): seq<Role> {
    MemberRoles(ms, |ms|, t) + GrantRoles(gs, |gs|, t)
  }

  /** The role a user with these memberships and grants has on `t`. */
  function EffectiveRole(ms: seq<Membership>, gs: seq<Grant>, t: Tenant): Role {
    var roles := RolesOn(ms, gs, t);
    RoleOfRank(TopRank(roles, |roles|))
  }

  method ResolveEffectiveRole(ms: seq<Membership>, gs: seq<Grant>, t: Tenant) returns (role: Role)
    ensures role == EffectiveRole(ms, gs, t)
  {
    var roles := MemberRoles(ms, |ms|, t);
    roles := roles + GrantRoles(gs, |gs|, t);
    role := HighestRole(roles);
  }

  /** The highest rank is that of some role, and of no role exceeded. */
  lemma {:induction false} TopRankExactly(roles: seq<Role>, n: nat)
    requires n <= |roles|
    ensures forall i :: 0 <= i < n ==> Rank(roles[i]) <= TopRank(roles, n)
    ensures TopRank(roles, n) == 0 || exists i :: 0 <= i < n && Rank(roles[i]) == TopRank(roles, n)
    decreases n
  {
    if n > 0 {
      TopRankExactly(roles, n - 1);
    }
  }

  lemma {:induction false} MemberRolesAre(ms: seq<Membership>, n: nat, t: Tenant, role: Role)
    requires n <= |ms|
    ensures role in MemberRoles(ms, n, t) <==> exists i :: 0 <= i < n && ms[i] == Membership(t, role)
    decreases n
  {
    if n > 0 {
      MemberRolesAre(ms, n - 1, t, role);
    }
  }

  lemma {:induction false} GrantRolesAre(gs: seq<Grant>, n: nat, t: Tenant, role: Role)
    requires n <= |gs|
    ensures role in GrantRoles(gs, n, t)
       <==> exists i :: 0 <= i < n && (gs[i].allTenants || gs[i].tenant == Some(t)) && gs[i].role == role
    decreases n
  {
    if n > 0 {
      GrantRolesAre(gs, n - 1, t, role);
    }
  }

  /** A membership in the tenant, or a grant for it or for all tenants, gives the role. */
  ghost predicate GivesRole(ms: seq<Membership>, gs: seq<Grant>, t: Tenant, role: Role) {
    || Membership(t, role) in ms
    || exists i :: 0 <= i < |gs| && (gs[i].allTenants || gs[i].tenant == Some(t)) && gs[i].role == role
  }

  /** The effective role is a known role that is given, and none that is given outranks it; there is none
      exactly when no known role is given. */
  lemma EffectiveRoleExactly(ms: seq<Membership>, gs: seq<Grant>, t: Tenant)
    ensures var best := EffectiveRole(ms, gs, t);
            && (best.Some? ==> GivesRole(ms, gs, t, best) && Rank(best) > 0)
            && forall role :: GivesRole(ms, gs, t, role) ==> Rank(role) <= Rank(best)
  {
    var roles := RolesOn(ms, gs, t);
    TopRankExactly(roles, |roles|);
    forall role ensures role in roles <==> GivesRole(ms, gs, t, role) {
      MemberRolesAre(ms, |ms|, t, role);
      GrantRolesAre(gs, |gs|, t, role);
    }
    RankOfRole(TopRank(roles, |roles|));
    if TopRank(roles, |roles|) > 0 {
      var i :| 0 <= i < |roles| && Rank(roles[i]) == TopRank(roles, |roles|);
      RankOfKnown(roles[i]);
      assert roles[i] in roles;
    }
  }

  /* Ranks */

  function MemberRank(ms: seq<Membership>, n: nat, t: Tenant): (r: nat)
    requires n <= |ms|
    ensures r <= 3
  {
    if n == 0 then 0 else Max(MemberRank(ms, n - 1, t), if ms[n - 1].tenant == t then Rank(ms[n - 1].role) else 0)
  }

  /** The rank the first `n` grants give on `t`, counting wildcards only if `wild`. */
  function GrantRank(gs: seq<Grant>, n: nat, t: Tenant, named: bool, wild: bool): (r: nat)
    requires n <= |gs|
    ensures r <= 3
  {
    if n == 0 then 0
    else
      var g := gs[n - 1];
      Max(GrantRank(gs, n - 1, t, named, wild),
          if (if g.allTenants then wild else named && g.tenant == Some(t)) then Rank(g.role) else 0)
  }

  lemma {:induction false} TopRankConcat(xs: seq<Role>, ys: seq<Role>, n: nat)
    requires |xs| <= n <= |xs + ys|
    ensures TopRank(xs + ys, n) == Max(TopRank(xs, |xs|), TopRank(ys, n - |xs|))
    decreases n
  {
    if n > |xs| {
      TopRankConcat(xs, ys, n - 1);
      assert (xs + ys)[n - 1] == ys[n - 1 - |xs|];
    } else {
      TopRankPrefix(xs, ys, n);
    }
  }

  lemma {:induction false} TopRankPrefix(xs: seq<Role>, ys: seq<Role>, n: nat)
    requires n <= |xs|
    ensures TopRank(xs + ys, n) == TopRank(xs, n)
    decreases n
  {
    if n > 0 {
      TopRankPrefix(xs, ys, n - 1);
    }
  }

  lemma {:induction false} MemberRolesRank(ms: seq<Membership>, n: nat, t: Tenant)
    requires n <= |ms|
    ensures var roles := MemberRoles(ms, n, t); TopRank(roles, |roles|) == MemberRank(ms, n, t)
    decreases n
  {
    if n > 0 {
      MemberRolesRank(ms, n - 1, t);
      var before := MemberRoles(ms, n - 1, t);
      TopRankPrefix(before, [ms[n - 1].role], |before|);
    }
  }

  lemma {:induction false} GrantRolesRank(gs: seq<Grant>, n: nat, t: Tenant)
    requires n <= |gs|
    ensures var roles := GrantRoles(gs, n, t); TopRank(roles, |roles|) == GrantRank(gs, n, t, true, true)
    decreases n
  {
    if n > 0 {
      GrantRolesRank(gs, n - 1, t);
      var before := GrantRoles(gs, n - 1, t);
      TopRankPrefix(before, [gs[n - 1].role], |before|);
    }
  }

  lemma RolesOnRank(ms: seq<Membership>, gs: seq<Grant>, t: Tenant)
    ensures EffectiveRole(ms, gs, t)
         == RoleOfRank(Max(MemberRank(ms, |ms|, t), GrantRank(gs, |gs|, t, true, true)))
  {
    var xs, ys := MemberRoles(ms, |ms|, t), GrantRoles(gs, |gs|, t);
    TopRankConcat(xs, ys, |xs + ys|);
    MemberRolesRank(ms, |ms|, t);
    GrantRolesRank(gs, |gs|, t);
  }

  /* All tenants */

  function Lookup(m: map<Tenant, string>, t: Tenant): Role {
    if t in m then Some(m[t]) else None
  }

  /** The map holds known roles only. */
  ghost predicate Clean(m: map<Tenant, string>) {
    forall t :: t in m ==> Rank(Some(m[t])) > 0
  }

  /** `after` is `before` raised to `role` on the tenants in `ts`. */
  ghost predicate Raised(before: map<Tenant, string>, after: map<Tenant, string>, ts: set<Tenant>, role: Role) {
    forall t :: Rank(Lookup(after, t))
             == if t in ts then Max(Rank(Lookup(before, t)), Rank(role)) else Rank(Lookup(before, t))
  }

  method Bump(m: map<Tenant, string>, t: Tenant, role: Role) returns (r: map<Tenant, string>)
    requires Clean(m)
    ensures Clean(r) && Raised(m, r, {t}, role)
  {
    var pair := [Lookup(m, t), role];
    var merged := HighestRole(pair);
    assert TopRank(pair, 1) == Rank(pair[0]) && TopRank(pair, 2) == Max(TopRank(pair, 1), Rank(pair[1]));
    r := if merged.Some? then m[t := merged.value] else m;
  }

  function Elements(ts: seq<Tenant>, n: nat): (r: set<Tenant>)
    requires n <= |ts|
  {
    if n == 0 then {} else Elements(ts, n - 1) + {ts[n - 1]}
  }

  method BumpAll(m: map<Tenant, string>, tenants: seq<Tenant>, role: Role) returns (r: map<Tenant, string>)
    requires Clean(m)
    ensures Clean(r) && Raised(m, r, Elements(tenants, |tenants|), role)
  {
    r := m;
    for n := 0 to |tenants|
      invariant Clean(r) && Raised(m, r, Elements(tenants, n), role)
    {
      r := Bump(r, tenants[n], role);
    }
  }

  /** The rank the map of all tenants gives: wildcards reach only tenants in the tenant table. */
  function MapRank(ms: seq<Membership>, gs: seq<Grant>, tenants: seq<Tenant>, t: Tenant): nat {
    Max(MemberRank(ms, |ms|, t), GrantRank(gs, |gs|, t, true, t in Elements(tenants, |tenants|)))
  }

  method BumpMemberships(ms: seq<Membership>) returns (r: map<Tenant, string>)
    ensures Clean(r) && forall t :: Rank(Lookup(r, t)) == MemberRank(ms, |ms|, t)
  {
    r := map[];
    for n := 0 to |ms|
      invariant Clean(r) && forall t :: Rank(Lookup(r, t)) == MemberRank(ms, n, t)
    {
      r := Bump(r, ms[n].tenant, ms[n].role);
    }
  }

  function WildRoles(gs: seq<Grant>, n: nat): (r: seq<Role>)
    requires n <= |gs|
  {
    if n == 0 then []
    else if gs[n - 1].allTenants then WildRoles(gs, n - 1) + [gs[n - 1].role]
    else WildRoles(gs, n - 1)
  }

  lemma {:induction false} WildRolesRank(gs: seq<Grant>, n: nat, t: Tenant)
    requires n <= |gs|
    ensures var roles := WildRoles(gs, n); TopRank(roles, |roles|) == GrantRank(gs, n, t, false, true)
    decreases n
  {
    if n > 0 {
      WildRolesRank(gs, n - 1, t);
      var before := WildRoles(gs, n - 1);
      TopRankPrefix(before, [gs[n - 1].role], |before|);
    }
  }

  method BumpWildcards(m: map<Tenant, string>, gs: seq<Grant>, tenants: seq<Tenant>) returns (r: map<Tenant, string>)
    requires Clean(m)
    ensures Clean(r)
    ensures var roles := WildRoles(gs, |gs|);
            forall t :: Rank(Lookup(r, t)) == if t in Elements(tenants, |tenants|)
                                              then Max(Rank(Lookup(m, t)), TopRank(roles, |roles|))
                                              else Rank(Lookup(m, t))
  {
    r := m;
    var roles := WildRoles(gs, |gs|);
    for n := 0 to |roles|
      invariant Clean(r)
      invariant forall t :: Rank(Lookup(r, t)) == if t in Elements(tenants, |tenants|)
                                                  then Max(Rank(Lookup(m, t)), TopRank(roles, n))
                                                  else Rank(Lookup(m, t))
    {
      r := BumpAll(r, tenants, roles[n]);
    }
  }

  method BumpNamed(m: map<Tenant, string>, gs: seq<Grant>) returns (r: map<Tenant, string>)
    requires Clean(m)
    ensures Clean(r)
    ensures forall t :: Rank(Lookup(r, t)) == Max(Rank(Lookup(m, t)), GrantRank(gs, |gs|, t, true, false))
  {
    r := m;
    for n := 0 to |gs|
      invariant Clean(r)
      invariant forall t :: Rank(Lookup(r, t)) == Max(Rank(Lookup(m, t)), GrantRank(gs, n, t, true, false))
    {
      if !gs[n].allTenants && gs[n].tenant.Some? {
        r := Bump(r, gs[n].tenant.value, gs[n].role);
      }
    }
  }

  lemma {:induction false} GrantRankSplit(gs: seq<Grant>, n: nat, t: Tenant)
    requires n <= |gs|
    ensures GrantRank(gs, n, t, true, true)
         == Max(GrantRank(gs, n, t, true, false), GrantRank(gs, n, t, false, true))
    decreases n
  {
    if n > 0 {
      GrantRankSplit(gs, n - 1, t);
    }
  }

  /** Every tenant the user reaches, with the role there. */
  method TenantsForUser(ms: seq<Membership>, gs: seq<Grant>, tenants: seq<Tenant>) returns (r: map<Tenant, string>)
    ensures forall t :: Lookup(r, t) == RoleOfRank(MapRank(ms, gs, tenants, t))
  {
    var m := BumpMemberships(ms);
    var w := BumpWildcards(m, gs, tenants);
    r := BumpNamed(w, gs);
    forall t ensures Lookup(r, t) == RoleOfRank(MapRank(ms, gs, tenants, t)) {
      WildRolesRank(gs, |gs|, t);
      GrantRankSplit(gs, |gs|, t);
      if t in r {
        RankOfKnown(Some(r[t]));
      }
    }
  }

  /* The map and the point query agree */

  /** On a tenant in the tenant table the map gives what the point query gives; on any other exactly when
      no wildcard outranks what the user has there by name. */
  lemma MapAgreesExactlyWhen(ms: seq<Membership>, gs: seq<Grant>, tenants: seq<Tenant>, t: Tenant)
    ensures RoleOfRank(MapRank(ms, gs, tenants, t)) == EffectiveRole(ms, gs, t)
       <==> t in tenants
            || GrantRank(gs, |gs|, t, false, true) <= Max(MemberRank(ms, |ms|, t), GrantRank(gs, |gs|, t, true, false))
  {
    ElementsAre(tenants, |tenants|, t);
    RolesOnRank(ms, gs, t);
    GrantRankSplit(gs, |gs|, t);
  }

  lemma {:induction false} ElementsAre(ts: seq<Tenant>, n: nat, t: Tenant)
    requires n <= |ts|
    ensures t in Elements(ts, n) <==> exists i :: 0 <= i < n && ts[i] == t
    decreases n
  {
    if n > 0 {
      ElementsAre(ts, n - 1, t);
    }
  }

  /* Row order and monotonicity */

  lemma {:induction false} MemberRankAttained(ms: seq<Membership>, n: nat, t: Tenant, more: seq<Membership>)
    requires n <= |ms| && forall m :: m in ms ==> m in more
    ensures MemberRank(ms, n, t) <= MemberRank(more, |more|, t)
    decreases n
  {
    if n > 0 {
      MemberRankAttained(ms, n - 1, t, more);
      assert ms[n - 1] in more;
      var i :| 0 <= i < |more| && more[i] == ms[n - 1];
      if ms[n - 1].tenant == t {
        MemberRankAt(more, |more|, t, i);
      }
    }
  }

  lemma {:induction false} MemberRankAt(ms: seq<Membership>, n: nat, t: Tenant, i: nat)
    requires i < n <= |ms| && ms[i].tenant == t
    ensures Rank(ms[i].role) <= MemberRank(ms, n, t)
    decreases n
  {
    if i < n - 1 {
      MemberRankAt(ms, n - 1, t, i);
    }
  }

  lemma {:induction false} GrantRankAttained(gs: seq<Grant>, n: nat, t: Tenant, more: seq<Grant>)
    requires n <= |gs| && forall g :: g in gs ==> g in more
    ensures GrantRank(gs, n, t, true, true) <= GrantRank(more, |more|, t, true, true)
    decreases n
  {
    if n > 0 {
      GrantRankAttained(gs, n - 1, t, more);
      assert gs[n - 1] in more;
      var i :| 0 <= i < |more| && more[i] == gs[n - 1];
      if Covers(gs[n - 1], t) {
        GrantRankAt(more, |more|, t, i);
      }
    }
  }

  lemma {:induction false} GrantRankAt(gs: seq<Grant>, n: nat, t: Tenant, i: nat)
    requires i < n <= |gs| && Covers(gs[i], t)
    ensures Rank(gs[i].role) <= GrantRank(gs, n, t, true, true)
    decreases n
  {
    if i < n - 1 {
      GrantRankAt(gs, n - 1, t, i);
    }
  }

  lemma RankOfRole(r: nat)
    requires r <= 3
    ensures Rank(RoleOfRank(r)) == r
  {
  }

  /** More memberships and grants never lower a role. */
  lemma WideningNeverLowers(ms: seq<Membership>, gs: seq<Grant>, moreMs: seq<Membership>, moreGs: seq<Grant>, t: Tenant)
    requires forall m :: m in ms ==> m in moreMs
    requires forall g :: g in gs ==> g in moreGs
    ensures Rank(EffectiveRole(ms, gs, t)) <= Rank(EffectiveRole(moreMs, moreGs, t))
  {
    MemberRankAttained(ms, |ms|, t, moreMs);
    GrantRankAttained(gs, |gs|, t, moreGs);
    RolesOnRank(ms, gs, t);
    RolesOnRank(moreMs, moreGs, t);
    RankOfRole(Max(MemberRank(ms, |ms|, t), GrantRank(gs, |gs|, t, true, true)));
    RankOfRole(Max(MemberRank(moreMs, |moreMs|, t), GrantRank(moreGs, |moreGs|, t, true, true)));
  }

  /** The order and multiplicity of the rows do not matter. */
  lemma RowOrderIrrelevant(ms: seq<Membership>, gs: seq<Grant>, ms2: seq<Membership>, gs2: seq<Grant>, t: Tenant)
    requires forall m :: m in ms <==> m in ms2
    requires forall g :: g in gs <==> g in gs2
    ensures EffectiveRole(ms, gs, t) == EffectiveRole(ms2, gs2, t)
  {
    WideningNeverLowers(ms, gs, ms2, gs2, t);
    WideningNeverLowers(ms2, gs2, ms, gs, t);
    var a, b := RolesOn(ms, gs, t), RolesOn(ms2, gs2, t);
    RankOfRole(TopRank(a, |a|));
    RankOfRole(TopRank(b, |b|));
  }

  /* Permissions */

  datatype Permission =
    | TenantManage | UserManage | TemplateManage | GroupManage | LogFleetView | SystemManage | AuditView
    | MembershipManage | DeviceView | DeviceWrite | ConfigPush | ReportGenerate | ReportConfig | RetentionConfig
    | LogView

  predicate OrgLevel(p: Permission) {
    p.TenantManage? || p.UserManage? || p.TemplateManage? || p.GroupManage? || p.LogFleetView? || p.SystemManage?
    || p.AuditView?
  }

  function RolesGranting(p: Permission): set<string> {
    match p
    case MembershipManage => {"tenant_admin"}
    case DeviceView => {"tenant_admin", "operator", "read_only"}
    case DeviceWrite => {"tenant_admin", "operator"}
    case ConfigPush => {"tenant_admin", "operator"}
    case ReportGenerate => {"tenant_admin", "operator"}
    case ReportConfig => {"tenant_admin"}
    case RetentionConfig => {"tenant_admin"}
    case LogView => {"tenant_admin", "operator"}
    case _ => {}
  }

  predicate Can(isSuperadmin: bool, role: Role, p: Permission) {
    isSuperadmin || (!OrgLevel(p) && role.Some? && role.value in RolesGranting(p))
  }

  /** The rank a role must have for a permission; no role reaches 4. */
  function NeededRank(p: Permission): nat {
    match p
    case DeviceView => 1
    case DeviceWrite => 2
    case ConfigPush => 2
    case ReportGenerate => 2
    case LogView => 2
    case MembershipManage => 3
    case ReportConfig => 3
    case RetentionConfig => 3
    case _ => 4
  }

  /** The permission matrix is a ladder: a superadmin may do everything, and anyone else exactly what their
      role's rank suffices for; org-level permissions need more than any role has. */
  lemma CanExactlyWhen(isSuperadmin: bool, role: Role, p: Permission)
    ensures Can(isSuperadmin, role, p) <==> isSuperadmin || Rank(role) >= NeededRank(p)
    ensures OrgLevel(p) <==> NeededRank(p) > 3
  {
    assert Rank(role) <= 3;
    if Rank(role) > 0 {
      RankOfKnown(role);
    }
  }

  /** What a role permits, a higher one permits. */
  lemma HigherRoleCan(low: Role, high: Role, p: Permission)
    requires Rank(low) <= Rank(high) && Can(false, low, p)
    ensures Can(false, high, p)
  {
    assert Rank(low) == 1 || Rank(low) == 2 || Rank(low) == 3;
    RankOfKnown(high);
  }

  /** More memberships and grants never take a permission away. */
  lemma WideningNeverRevokes(ms: seq<Membership>, gs: seq<Grant>, moreMs: seq<Membership>, moreGs: seq<Grant>,
                             t: Tenant, p: Permission)
    requires forall m :: m in ms ==> m in moreMs
    requires forall g :: g in gs ==> g in moreGs
    requires Can(false, EffectiveRole(ms, gs, t), p)
    ensures Can(false, EffectiveRole(moreMs, moreGs, t), p)
  {
    WideningNeverLowers(ms, gs, moreMs, moreGs, t);
    HigherRoleCan(EffectiveRole(ms, gs, t), EffectiveRole(moreMs, moreGs, t), p);
  }

  /** A user whose only access is a wildcard grant, on a tenant that is missing from the tenant table: the
      point query gives the role, the map does not. */
  lemma WildcardMissesTenant(tenants: seq<Tenant>, t: Tenant)
    requires t !in tenants
    ensures var gs := [Grant(true, None, Some("operator"))];
            EffectiveRole([], gs, t) == Some("operator") && RoleOfRank(MapRank([], gs, tenants, t)) == None
  {
    var gs := [Grant(true, None, Some("operator"))];
    ElementsAre(tenants, |tenants|, t);
    RolesOnRank([], gs, t);
    assert GrantRank(gs, 1, t, true, true) == 2 && GrantRank(gs, 1, t, true, false) == 0 by {
      assert GrantRank(gs, 0, t, true, true) == 0 && GrantRank(gs, 0, t, true, false) == 0;
    }
  }
}
