/**
 * Keycloak group paths read three times over: membership and admin checks (pkg/auth auth.go), the frontend's
 * role table (usePermissions.ts) and the contact sync's tenant list (notification handler.go).
 */
module Groups {
  import opened Common

  // ---- Go: membership ----

  predicate InGroup(group: string, tenant: string) {
    group == "/" + tenant || "/" + tenant + "/" <= group
  }

  predicate IsMember(groups: seq<string>, tenant: string) {
    exists i :: 0 <= i < |groups| && InGroup(groups[i], tenant)
  }

  const ADMINS := "admins"

  function AdminPath(tenant: string): string { "/" + tenant + "/" + ADMINS }

  predicate IsAdmin(groups: seq<string>, tenant: string) {
    AdminPath(tenant) in groups
  }

  // ---- TypeScript: the role table ----

  datatype Role = Member | Admin

  /** split('/'). */
  function Split(s: string): (parts: seq<string>)
    ensures parts != []
    decreases |s|
  {
    var i := IndexOf(s, '/');
    if i == |s| then [s] else [s[..i]] + Split(s[i + 1..])
  }

  function WithoutLeadingSlash(s: string): string {
    if s != "" && s[0] == '/' then s[1..] else s
  }

  /**
   * What a plain object brings along: names it already answers to through its prototype, with truthy values, and the
   * one whose assignment with a string does nothing.
   */
  datatype Prototype = Prototype(inherited: set<string>, inert: string)

  const OBJECT_PROTOTYPE := Prototype({
    "constructor", "hasOwnProperty", "isPrototypeOf", "propertyIsEnumerable", "toLocaleString", "toString", "valueOf",
    "__defineGetter__", "__defineSetter__", "__lookupGetter__", "__lookupSetter__", "__proto__"
  }, "__proto__")

  function Assign(o: Prototype, roles: map<string, Role>, tenant: string, role: Role): map<string, Role> {
    if tenant == o.inert then roles else roles[tenant := role]
  }

  /** One turn of the loop of parseGroups. */
  function AddGroup(o: Prototype, roles: map<string, Role>, group: string): map<string, Role> {
    var parts := Split(WithoutLeadingSlash(group));
    var tenant := parts[0];
    if tenant == "" then roles
    else if |parts| == 2 && parts[1] == ADMINS then Assign(o, roles, tenant, Admin)
    else if tenant !in roles && tenant !in o.inherited then Assign(o, roles, tenant, Member)
    else roles
  }

  function Roles(o: Prototype, groups: seq<string>): map<string, Role> {
    if groups == [] then map[] else AddGroup(o, Roles(o, groups[..|groups| - 1]), groups[|groups| - 1])
  }

  /** parseGroups; the table holds the object's own properties. */
  method ParseGroups(o: Prototype, groups: seq<string>) returns (roles: map<string, Role>)
    ensures roles == Roles(o, groups)
  {
    roles := map[];
    for i := 0 to |groups|
      invariant roles == Roles(o, groups[..i])
    {
      assert groups[..i + 1][..i] == groups[..i];
      var parts := Split(WithoutLeadingSlash(groups[i]));
      var tenant := parts[0];
      if tenant == "" {
        continue;
      }
      if |parts| == 2 && parts[1] == ADMINS {
        roles := Assign(o, roles, tenant, Admin);
      } else if tenant !in roles && tenant !in o.inherited {
        roles := Assign(o, roles, tenant, Member);
      }
    }
    assert groups[..|groups|] == groups;
  }

  // ---- Go: the tenant list ----

  function TrimLeft(s: string): string { if s != "" && s[0] == '/' then TrimLeft(s[1..]) else s }

  function TrimRight(s: string): string { if s != "" && s[|s| - 1] == '/' then TrimRight(s[..|s| - 1]) else s }

  /** Trim both ends, keep what comes before the next slash. */
  function Slug(group: string): string {
    var s := TrimRight(TrimLeft(group));
    s[..IndexOf(s, '/')]
  }

  /** Among the first n groups, slug a appears before b first does. */
  ghost predicate Precedes(groups: seq<string>, n: nat, a: string, b: string)
    requires n <= |groups|
  {
    exists k :: 0 <= k < n && Slug(groups[k]) == a && forall h | 0 <= h <= k :: Slug(groups[h]) != b
  }

  /** tenantSlugs. */
  method TenantSlugs(groups: seq<string>) returns (out: seq<string>)
    ensures forall t :: t in out <==> t != "" && exists i :: 0 <= i < |groups| && Slug(groups[i]) == t
    ensures forall i, j | 0 <= i < j < |out| :: out[i] != out[j] && Precedes(groups, |groups|, out[i], out[j])
  {
    var seen: set<string> := {};
    out := [];
    for k := 0 to |groups|
      invariant forall t :: t in out <==> t in seen
      invariant forall t :: t in seen <==> t != "" && exists i :: 0 <= i < k && Slug(groups[i]) == t
      invariant forall i, j | 0 <= i < j < |out| :: out[i] != out[j] && Precedes(groups, k, out[i], out[j])
    {
      PrecedesLater(groups, k, out);
      var s := TrimRight(TrimLeft(groups[k]));
      if s == "" {
        continue;
      }
      var i := IndexOf(s, '/');
      if i < |s| {
        s := s[..i];
      }
      TrimmedHead(groups[k]);
      assert s == Slug(groups[k]);
      if s !in seen {
        forall i | 0 <= i < |out| ensures Precedes(groups, k + 1, out[i], s) {
          assert out[i] in out;
        }
        seen := seen + {s};
        out := out + [s];
      }
    }
  }

  lemma PrecedesLater(groups: seq<string>, n: nat, out: seq<string>)
    requires n < |groups| && forall i, j | 0 <= i < j < |out| :: Precedes(groups, n, out[i], out[j])
    ensures forall i, j | 0 <= i < j < |out| :: Precedes(groups, n + 1, out[i], out[j])
  {
    forall i, j | 0 <= i < j < |out| ensures Precedes(groups, n + 1, out[i], out[j]) {
      assert Precedes(groups, n, out[i], out[j]);
    }
  }

  lemma {:induction false} TrimLeftHead(s: string)
    ensures TrimLeft(s) == "" || TrimLeft(s)[0] != '/'
  {
    if s != "" && s[0] == '/' {
      TrimLeftHead(s[1..]);
    }
  }

  lemma {:induction false} TrimRightHead(s: string)
    ensures TrimRight(s) <= s
    ensures s != "" && s[0] != '/' ==> TrimRight(s) != ""
  {
    if s != "" && s[|s| - 1] == '/' {
      TrimRightHead(s[..|s| - 1]);
    }
  }

  /** What is left after trimming does not start with a slash. */
  lemma TrimmedHead(group: string)
    ensures var s := TrimRight(TrimLeft(group)); s == "" || (s[0] != '/' && Slug(group) != "")
  {
    TrimLeftHead(group);
    TrimRightHead(TrimLeft(group));
  }

  // ---- Agreement ----

  /** A path as Keycloak writes it: a slash, a non-empty first segment, and perhaps more. */
  ghost predicate Path(group: string) {
    |group| >= 2 && group[0] == '/' && group[1] != '/'
  }

  /** The first segment of a path. */
  function FirstSegment(group: string): string
    requires Path(group)
  {
    group[1..][..IndexOf(group[1..], '/')]
  }

  ghost predicate Paths(groups: seq<string>) { forall i | 0 <= i < |groups| :: Path(groups[i]) }

  ghost predicate TenantName(tenant: string) { tenant != "" && '/' !in tenant }

  lemma HeadNotEmpty(body: string)
    requires body != "" && body[0] != '/'
    ensures 0 < IndexOf(body, '/')
  {
  }

  lemma CutTwice(s: string, i: nat)
    requires i < |s|
    ensures s == [s[0]] + s[1..][..i] + s[i + 1..]
    ensures i + 1 < |s| ==> s[i + 1..] == [s[i + 1]] + s[i + 2..] && s[1..][i] == s[i + 1]
  {
    assert s[1..][..i] == s[1..i + 1];
  }

  /** A path's first segment, and what follows it. */
  lemma PathForm(group: string)
    requires Path(group)
    ensures var head := FirstSegment(group); head != "" && '/' !in head && |head| < |group|
    ensures var head := FirstSegment(group);
            if |head| + 1 == |group| then group == ['/'] + head else group == ['/'] + head + (['/'] + group[|head| + 2..])
  {
    var body := group[1..];
    HeadNotEmpty(body);
    CutTwice(group, IndexOf(body, '/'));
  }

  lemma SegmentOf(head: string, rest: string)
    requires head != "" && '/' !in head
    ensures Path("/" + head) && FirstSegment("/" + head) == head
    ensures Path("/" + head + "/" + rest) && FirstSegment("/" + head + "/" + rest) == head
  {
    assert ("/" + head)[1..] == head;
    var g := "/" + head + "/" + rest;
    assert g[1..] == head + ['/'] + rest && g[1] == head[0];
    IndexOfSeparator(head, '/', rest);
  }

  /** Membership is having the tenant as first segment. */
  lemma MemberByFirstSegment(group: string, tenant: string)
    requires Path(group) && TenantName(tenant)
    ensures InGroup(group, tenant) <==> FirstSegment(group) == tenant
  {
    PathForm(group);
    if group == "/" + tenant {
      SegmentOf(tenant, "");
    } else if "/" + tenant + "/" <= group {
      var rest := group[|tenant| + 2..];
      assert group == "/" + tenant + "/" + rest;
      SegmentOf(tenant, rest);
    }
  }

  lemma SplitHead(head: string, tail: string)
    requires '/' !in head
    ensures Split(head + ['/'] + tail) == [head] + Split(tail)
  {
    var s := head + ['/'] + tail;
    IndexOfSeparator(head, '/', tail);
    assert s[..|head|] == head && s[|head| + 1..] == tail;
  }

  lemma CancelPrefix(p: string, a: string, b: string)
    ensures p + a == p + b <==> a == b
  {
    assert (p + a)[|p|..] == a && (p + b)[|p|..] == b;
  }

  lemma SplitWithTail(head: string, tail: string, last: string)
    requires '/' !in head && '/' !in last
    ensures var parts := Split(head + ['/'] + tail); parts[0] == head && (|parts| == 2 && parts[1] == last <==> tail == last)
  {
    SplitHead(head, tail);
    SplitSingle(tail);
    SplitSingle(last);
    assert tail == last ==> Split(tail) == [last];
  }

  lemma LongPath(group: string, head: string, tail: string)
    requires Path(group) && '/' !in head && group == "/" + head + "/" + tail
    ensures WithoutLeadingSlash(group) == head + ['/'] + tail
    ensures group == AdminPath(head) <==> tail == ADMINS
  {
    CancelPrefix("/" + head + "/", tail, ADMINS);
  }

  lemma ShortPath(head: string)
    requires '/' !in head
    ensures Split(WithoutLeadingSlash("/" + head)) == [head] && "/" + head != AdminPath(head)
  {
    assert ("/" + head)[1..] == head;
    SplitSingle(head);
    assert |AdminPath(head)| > |"/" + head|;
  }

  /** The split of a path starts with its first segment, and has the admin shape for exactly one path per tenant. */
  lemma SplitOfPath(group: string)
    requires Path(group)
    ensures var parts := Split(WithoutLeadingSlash(group));
            && parts[0] == FirstSegment(group) != ""
            && (|parts| == 2 && parts[1] == ADMINS <==> group == AdminPath(FirstSegment(group)))
  {
    PathForm(group);
    var head := FirstSegment(group);
    if group == "/" + head {
      ShortPath(head);
    } else {
      var tail := group[|head| + 2..];
      LongPath(group, head, tail);
      SplitWithTail(head, tail, ADMINS);
    }
  }

  /** A text splits into itself alone exactly when it holds no slash. */
  lemma SplitSingle(s: string)
    ensures |Split(s)| == 1 <==> '/' !in s
    ensures |Split(s)| == 1 ==> Split(s) == [s]
  {
  }

  lemma {:induction false} TrimRightKeepsHead(s: string, n: nat)
    requires n <= |s| && n > 0 && s[n - 1] != '/'
    ensures s[..n] <= TrimRight(s) <= s
    decreases |s|
  {
    if s[|s| - 1] == '/' {
      TrimRightKeepsHead(s[..|s| - 1], n);
    }
  }

  /** The contact sync cuts the same first segment out of a path. */
  lemma SlugOfPath(group: string)
    requires Path(group)
    ensures Slug(group) == FirstSegment(group) != ""
  {
    var body := group[1..];
    var i := IndexOf(body, '/');
    assert TrimLeft(group) == TrimLeft(body) == body;
    TrimRightKeepsHead(body, i);
    var s := TrimRight(body);
    PrefixIndex(s, body, '/', i);
  }

  /** A prefix long enough to hold the first separator's text has the same text before its first separator. */
  lemma PrefixIndex(s: string, body: string, c: char, i: nat)
    requires i == IndexOf(body, c) && body[..i] <= s <= body
    ensures s[..IndexOf(s, c)] == body[..i]
  {
    assert s[..i] == body[..i];
    if |s| > i {
      assert s == body[..i] + [c] + s[i + 1..];
      IndexOfSeparator(body[..i], c, s[i + 1..]);
    } else {
      assert s == body[..i];
    }
  }

  /** One group's effect on one tenant's entry. */
  lemma AddGroupMeaning(o: Prototype, roles: map<string, Role>, group: string, tenant: string)
    requires Path(group) && TenantName(tenant)
    ensures var after := AddGroup(o, roles, group); var own := tenant != o.inert;
            && (tenant in after <==>
                tenant in roles || (own && (group == AdminPath(tenant) || (InGroup(group, tenant) && tenant !in o.inherited))))
            && (tenant in after && after[tenant] == Admin <==>
                (tenant in roles && roles[tenant] == Admin) || (own && group == AdminPath(tenant)))
  {
    SplitOfPath(group);
    MemberByFirstSegment(group, tenant);
    if group == AdminPath(tenant) {
      SegmentOf(tenant, ADMINS);
    }
  }

  /** What the role table says of a tenant, for any list of paths. */
  lemma {:induction false} RolesMeaning(o: Prototype, groups: seq<string>, tenant: string)
    requires Paths(groups) && TenantName(tenant)
    ensures var own := tenant != o.inert;
            && (tenant in Roles(o, groups) && Roles(o, groups)[tenant] == Admin <==> own && IsAdmin(groups, tenant))
            && (tenant in Roles(o, groups) <==>
                own && (IsAdmin(groups, tenant) || (tenant !in o.inherited && IsMember(groups, tenant))))
  {
    if groups != [] {
      var front := groups[..|groups| - 1];
      var last := groups[|groups| - 1];
      RolesMeaning(o, front, tenant);
      AddGroupMeaning(o, Roles(o, front), last, tenant);
      MemberSnoc(front, last, tenant);
      assert groups == front + [last];
    }
  }

  lemma MemberSnoc(front: seq<string>, group: string, tenant: string)
    ensures IsMember(front + [group], tenant) <==> IsMember(front, tenant) || InGroup(group, tenant)
  {
    var all := front + [group];
    if i :| 0 <= i < |all| && InGroup(all[i], tenant) {
      assert i < |front| ==> InGroup(front[i], tenant);
    }
    if i :| 0 <= i < |front| && InGroup(front[i], tenant) {
      assert InGroup(all[i], tenant);
    }
    if InGroup(group, tenant) {
      assert InGroup(all[|front|], tenant);
    }
  }

  lemma AdminIsMember(groups: seq<string>, tenant: string)
    requires IsAdmin(groups, tenant)
    ensures IsMember(groups, tenant)
  {
    var i :| 0 <= i < |groups| && groups[i] == AdminPath(tenant);
    assert "/" + tenant + "/" <= AdminPath(tenant);
    assert InGroup(groups[i], tenant);
  }

  /**
   * The frontend against the backend, exactly. The admin role agrees unless it is the inert name that is admin;
   * membership agrees unless the tenant bears an inherited name and is a plain member, or the inert one.
   */
  lemma FrontendAgrees(o: Prototype, groups: seq<string>, tenant: string)
    requires Paths(groups) && TenantName(tenant) && o.inert in o.inherited
    ensures (tenant in Roles(o, groups) && Roles(o, groups)[tenant] == Admin <==> IsAdmin(groups, tenant))
            <==> !(tenant == o.inert && IsAdmin(groups, tenant))
    ensures (tenant in Roles(o, groups) <==> IsMember(groups, tenant))
            <==> !(tenant in o.inherited && IsMember(groups, tenant) && (tenant == o.inert || !IsAdmin(groups, tenant)))
  {
    RolesMeaning(o, groups, tenant);
    if IsAdmin(groups, tenant) {
      AdminIsMember(groups, tenant);
    }
  }

  /** A tenant bearing an inherited name, such as `constructor`: its plain members are unknown to the frontend. */
  lemma InheritedNameUnknown(o: Prototype, tenant: string)
    requires TenantName(tenant) && tenant in o.inherited
    ensures IsMember(["/" + tenant], tenant) && tenant !in Roles(o, ["/" + tenant])
  {
    var group := "/" + tenant;
    SegmentOf(tenant, "");
    MemberByFirstSegment(group, tenant);
    assert InGroup([group][0], tenant);
    ShortPath(tenant);
    RolesMeaning(o, [group], tenant);
  }

  /** The role table does not depend on the order of the groups. */
  lemma RolesIgnoreOrder(o: Prototype, a: seq<string>, b: seq<string>)
    requires Paths(a) && (forall g :: g in a <==> g in b)
    ensures Roles(o, a) == Roles(o, b)
  {
    assert Paths(b) by {
      assert forall i | 0 <= i < |b| :: b[i] in b;
    }
    RolesAreTenants(o, a);
    RolesAreTenants(o, b);
    forall tenant | TenantName(tenant)
      ensures tenant in Roles(o, a) <==> tenant in Roles(o, b)
      ensures tenant in Roles(o, a) ==> Roles(o, a)[tenant] == Roles(o, b)[tenant]
    {
      RolesMeaning(o, a, tenant);
      RolesMeaning(o, b, tenant);
      SameMembers(a, b, tenant);
      SameMembers(b, a, tenant);
    }
    assert Roles(o, a).Keys == Roles(o, b).Keys;
  }

  lemma SameMembers(a: seq<string>, b: seq<string>, tenant: string)
    requires forall g | g in a :: g in b
    ensures IsMember(a, tenant) ==> IsMember(b, tenant)
    ensures IsAdmin(a, tenant) ==> IsAdmin(b, tenant)
  {
    if i :| 0 <= i < |a| && InGroup(a[i], tenant) {
      assert a[i] in b;
      var j :| 0 <= j < |b| && b[j] == a[i];
    }
  }

  lemma {:induction false} RolesAreTenants(o: Prototype, groups: seq<string>)
    requires Paths(groups)
    ensures forall tenant | tenant in Roles(o, groups) :: TenantName(tenant)
  {
    if groups != [] {
      RolesAreTenants(o, groups[..|groups| - 1]);
      SplitOfPath(groups[|groups| - 1]);
    }
  }

  /** The contact sync lists exactly the tenants the backend counts the user a member of. */
  lemma SyncAgrees(groups: seq<string>, tenant: string)
    requires Paths(groups) && TenantName(tenant)
    ensures (exists i :: 0 <= i < |groups| && Slug(groups[i]) == tenant) <==> IsMember(groups, tenant)
  {
    forall i | 0 <= i < |groups| ensures Slug(groups[i]) == tenant <==> InGroup(groups[i], tenant) {
      SlugOfPath(groups[i]);
      MemberByFirstSegment(groups[i], tenant);
    }
  }

  lemma MemberOf(groups: seq<string>, tenant: string)
    ensures IsMember(groups, tenant) <==> exists g :: g in groups && (g == "/" + tenant || "/" + tenant + "/" <= g)
  {
    if g :| g in groups && (g == "/" + tenant || "/" + tenant + "/" <= g) {
      var i :| 0 <= i < |groups| && groups[i] == g;
      assert InGroup(groups[i], tenant);
    }
    if i :| 0 <= i < |groups| && InGroup(groups[i], tenant) {
      assert groups[i] in groups;
    }
  }

  lemma AdminText(tenant: string)
    ensures AdminPath(tenant) == "/" + tenant + "/admins"
  {
    assert "/" + "admins" == "/admins";
    assert ("/" + tenant) + ("/" + "admins") == ("/" + tenant + "/") + "admins";
  }

  /** With JavaScript's own prototype: a tenant not named like one of its properties is read alike by frontend and backend. */
  lemma BrowserAgrees(groups: seq<string>, tenant: string)
    requires Paths(groups) && TenantName(tenant)
    ensures tenant !in OBJECT_PROTOTYPE.inherited ==>
              var roles := Roles(OBJECT_PROTOTYPE, groups);
              && (tenant in roles <==> exists g :: g in groups && (g == "/" + tenant || "/" + tenant + "/" <= g))
              && (tenant in roles && roles[tenant] == Admin <==> "/" + tenant + "/admins" in groups)
    ensures tenant in OBJECT_PROTOTYPE.inherited ==> tenant !in Roles(OBJECT_PROTOTYPE, ["/" + tenant])
  {
    FrontendAgrees(OBJECT_PROTOTYPE, groups, tenant);
    MemberOf(groups, tenant);
    AdminText(tenant);
    if tenant in OBJECT_PROTOTYPE.inherited {
      InheritedNameUnknown(OBJECT_PROTOTYPE, tenant);
    }
  }
}
