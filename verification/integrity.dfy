/** Every successful write keeps the store consistent: primary keys and unique
    indexes hold, and every foreign key names an existing row. */
module Integrity {
  import opened Tables
  import opened Entities
  import opened Schema

  // ---------------------------------------------------------------- insert

  /** The empty schema is consistent. */
  lemma EmptyIsConsistent()
    ensures Consistent(EmptyDb)
  {
  }

  /** An accepted INSERT keeps every key, unique index and foreign key intact. */
  lemma InsertPreservesConsistency(db: Db, row: Row)
    requires Consistent(db)
    ensures Insert(db, row).Ok? ==> Consistent(Insert(db, row).value)
  {
    if InsertViolation(db, row).None? {
      match row
      case ActivityRow(a) => AppendActivityRowKeeps(db, a);
      case UserRow(u) => AppendUserRowKeeps(db, u);
      case PermissionRow(p) => AppendPermissionRowKeeps(db, p);
      case RoleRow(r) => AppendRoleRowKeeps(db, r);
      case RolePermissionRow(rp) => AppendRolePermissionRowKeeps(db, rp);
      case TenantRow(t) => AppendTenantRowKeeps(db, t);
      case MembershipRow(m) => AppendMembershipRowKeeps(db, m);
      case PlayerRow(p) => AppendPlayerRowKeeps(db, p);
      case EventRow(e) => AppendEventRowKeeps(db, e);
      case GroupRow(g) => AppendGroupRowKeeps(db, g);
      case ParticipantRow(ep) => AppendParticipantRowKeeps(db, ep);
      case TeamRow(t) => AppendTeamRowKeeps(db, t);
      case MemberRow(m) => AppendMemberRowKeeps(db, m);
      case ResultRow(r) => AppendResultRowKeeps(db, r);
    }
  }

  /** Conversely, no INSERT is refused spuriously: a row whose addition leaves
      every key, unique index and foreign key intact is accepted. */
  lemma ConsistentInsertAccepted(db: Db, row: Row)
    requires Consistent(Append(db, row))
    ensures Insert(db, row).Ok?
  {
    match row
    case ActivityRow(a) => ActivityAccepted(db, a);
    case UserRow(u) => UserAccepted(db, u);
    case PermissionRow(p) => PermissionAccepted(db, p);
    case RoleRow(r) => RoleAccepted(db, r);
    case RolePermissionRow(rp) => RolePermissionAccepted(db, rp);
    case TenantRow(t) => TenantAccepted(db, t);
    case MembershipRow(m) => MembershipAccepted(db, m);
    case PlayerRow(p) => PlayerAccepted(db, p);
    case EventRow(e) => EventAccepted(db, e);
    case GroupRow(g) => GroupAccepted(db, g);
    case ParticipantRow(ep) => ParticipantAccepted(db, ep);
    case TeamRow(t) => TeamAccepted(db, t);
    case MemberRow(m) => MemberAccepted(db, m);
    case ResultRow(r) => ResultAccepted(db, r);
  }

  /** From a consistent store, an INSERT is accepted exactly when adding the
      row leaves every key, unique index and foreign key intact. */
  lemma InsertAcceptedIff(db: Db, row: Row)
    requires Consistent(db)
    ensures Insert(db, row).Ok? <==> Consistent(Append(db, row))
  {
    InsertPreservesConsistency(db, row);
    if Consistent(Append(db, row)) {
      ConsistentInsertAccepted(db, row);
    }
  }

  lemma ActivityAccepted(db: Db, a: Activity)
    requires Consistent(Append(db, ActivityRow(a)))
    ensures InsertViolation(db, ActivityRow(a)).None?
  {
    var after := Append(db, ActivityRow(a));
    assert after.activities == db.activities + [a];
    ActivityFits(db, a);
  }

  lemma ActivityFits(db: Db, a: Activity)
    requires Unique(db.activities + [a], ActivityKey)
    ensures InsertViolation(db, ActivityRow(a)).None?
  {
    FreshKey(db.activities, a, ActivityKey);
  }

  lemma UserAccepted(db: Db, u: AppUser)
    requires Consistent(Append(db, UserRow(u)))
    ensures InsertViolation(db, UserRow(u)).None?
  {
    var after := Append(db, UserRow(u));
    assert after.users == db.users + [u];
    UserFits(db, u);
  }

  lemma UserFits(db: Db, u: AppUser)
    requires Unique(db.users + [u], UserKey)
    requires Unique(db.users + [u], AwsSubjectKey)
    ensures InsertViolation(db, UserRow(u)).None?
  {
    FreshKey(db.users, u, UserKey);
    FreshKey(db.users, u, AwsSubjectKey);
  }

  lemma PermissionAccepted(db: Db, p: Permission)
    requires Consistent(Append(db, PermissionRow(p)))
    ensures InsertViolation(db, PermissionRow(p)).None?
  {
    var after := Append(db, PermissionRow(p));
    assert after.permissions == db.permissions + [p];
    PermissionFits(db, p);
  }

  lemma PermissionFits(db: Db, p: Permission)
    requires Unique(db.permissions + [p], PermissionKey)
    ensures InsertViolation(db, PermissionRow(p)).None?
  {
    FreshKey(db.permissions, p, PermissionKey);
  }

  lemma RoleAccepted(db: Db, r: Role)
    requires Consistent(Append(db, RoleRow(r)))
    ensures InsertViolation(db, RoleRow(r)).None?
  {
    var after := Append(db, RoleRow(r));
    assert after.roles == db.roles + [r];
    RoleFits(db, r);
  }

  lemma RoleFits(db: Db, r: Role)
    requires Unique(db.roles + [r], RoleKey)
    ensures InsertViolation(db, RoleRow(r)).None?
  {
    FreshKey(db.roles, r, RoleKey);
  }

  lemma RolePermissionAccepted(db: Db, rp: RolePermission)
    requires Consistent(Append(db, RolePermissionRow(rp)))
    ensures InsertViolation(db, RolePermissionRow(rp)).None?
  {
    var after := Append(db, RolePermissionRow(rp));
    assert after.rolePermissions == db.rolePermissions + [rp] && after.roles == db.roles && after.permissions == db.permissions;
    RolePermissionFits(db, rp);
  }

  lemma RolePermissionFits(db: Db, rp: RolePermission)
    requires Unique(db.rolePermissions + [rp], RolePermissionKey)
    requires RolePermissionRefs(db.rolePermissions + [rp], RoleIds(db), PermissionIds(db))
    ensures InsertViolation(db, RolePermissionRow(rp)).None?
  {
    assert rp in db.rolePermissions + [rp];
    FreshKey(db.rolePermissions, rp, RolePermissionKey);
  }

  lemma TenantAccepted(db: Db, t: Tenant)
    requires Consistent(Append(db, TenantRow(t)))
    ensures InsertViolation(db, TenantRow(t)).None?
  {
    var after := Append(db, TenantRow(t));
    assert after.tenants == db.tenants + [t] && after.activities == db.activities && after.roles == db.roles;
    TenantFits(db, t);
  }

  lemma TenantFits(db: Db, t: Tenant)
    requires Unique(db.tenants + [t], TenantKey)
    requires TenantRefs(db.tenants + [t], ActivityIds(db), RoleIds(db))
    ensures InsertViolation(db, TenantRow(t)).None?
  {
    assert t in db.tenants + [t];
    FreshKey(db.tenants, t, TenantKey);
  }

  lemma MembershipAccepted(db: Db, m: Membership)
    requires Consistent(Append(db, MembershipRow(m)))
    ensures InsertViolation(db, MembershipRow(m)).None?
  {
    var after := Append(db, MembershipRow(m));
    assert after.memberships == db.memberships + [m] && after.users == db.users && after.tenants == db.tenants && after.roles == db.roles;
    MembershipFits(db, m);
  }

  lemma MembershipFits(db: Db, m: Membership)
    requires Unique(db.memberships + [m], MembershipKey)
    requires MembershipRefs(db.memberships + [m], UserIds(db), TenantIds(db), RoleIds(db))
    ensures InsertViolation(db, MembershipRow(m)).None?
  {
    assert m in db.memberships + [m];
    FreshKey(db.memberships, m, MembershipKey);
  }

  lemma PlayerAccepted(db: Db, p: Player)
    requires Consistent(Append(db, PlayerRow(p)))
    ensures InsertViolation(db, PlayerRow(p)).None?
  {
    var after := Append(db, PlayerRow(p));
    assert after.players == db.players + [p] && after.tenants == db.tenants && after.users == db.users;
    PlayerFits(db, p);
  }

  lemma PlayerFits(db: Db, p: Player)
    requires Unique(db.players + [p], PlayerKey)
    requires Unique(db.players + [p], PlayerTenantUserKey)
    requires PlayerRefs(db.players + [p], TenantIds(db), UserIds(db))
    ensures InsertViolation(db, PlayerRow(p)).None?
  {
    assert p in db.players + [p];
    FreshKey(db.players, p, PlayerKey);
    FreshKey(db.players, p, PlayerTenantUserKey);
  }

  lemma EventAccepted(db: Db, e: ScheduledEvent)
    requires Consistent(Append(db, EventRow(e)))
    ensures InsertViolation(db, EventRow(e)).None?
  {
    var after := Append(db, EventRow(e));
    assert after.events == db.events + [e] && after.tenants == db.tenants;
    EventFits(db, e);
  }

  lemma EventFits(db: Db, e: ScheduledEvent)
    requires Unique(db.events + [e], EventKey)
    requires EventRefs(db.events + [e], TenantIds(db))
    ensures InsertViolation(db, EventRow(e)).None?
  {
    assert e in db.events + [e];
    FreshKey(db.events, e, EventKey);
  }

  lemma GroupAccepted(db: Db, g: EventParticipantGroup)
    requires Consistent(Append(db, GroupRow(g)))
    ensures InsertViolation(db, GroupRow(g)).None?
  {
    var after := Append(db, GroupRow(g));
    assert after.groups == db.groups + [g] && after.events == db.events && after.teams == db.teams;
    GroupFits(db, g);
  }

  lemma GroupFits(db: Db, g: EventParticipantGroup)
    requires Unique(db.groups + [g], GroupKey)
    requires GroupRefs(db.groups + [g], EventIds(db), TeamIds(db))
    ensures InsertViolation(db, GroupRow(g)).None?
  {
    assert g in db.groups + [g];
    FreshKey(db.groups, g, GroupKey);
  }

  lemma ParticipantAccepted(db: Db, ep: EventParticipant)
    requires Consistent(Append(db, ParticipantRow(ep)))
    ensures InsertViolation(db, ParticipantRow(ep)).None?
  {
    var after := Append(db, ParticipantRow(ep));
    assert after.participants == db.participants + [ep] && after.groups == db.groups && after.players == db.players;
    ParticipantFits(db, ep);
  }

  lemma ParticipantFits(db: Db, ep: EventParticipant)
    requires Unique(db.participants + [ep], ParticipantKey)
    requires ParticipantRefs(db.participants + [ep], GroupIds(db), PlayerIds(db))
    ensures InsertViolation(db, ParticipantRow(ep)).None?
  {
    assert ep in db.participants + [ep];
    FreshKey(db.participants, ep, ParticipantKey);
  }

  lemma TeamAccepted(db: Db, t: Team)
    requires Consistent(Append(db, TeamRow(t)))
    ensures InsertViolation(db, TeamRow(t)).None?
  {
    var after := Append(db, TeamRow(t));
    assert after.teams == db.teams + [t] && after.tenants == db.tenants;
    TeamFits(db, t);
  }

  lemma TeamFits(db: Db, t: Team)
    requires Unique(db.teams + [t], TeamKey)
    requires TeamRefs(db.teams + [t], TenantIds(db))
    ensures InsertViolation(db, TeamRow(t)).None?
  {
    assert t in db.teams + [t];
    FreshKey(db.teams, t, TeamKey);
  }

  lemma MemberAccepted(db: Db, m: StaticTeamMember)
    requires Consistent(Append(db, MemberRow(m)))
    ensures InsertViolation(db, MemberRow(m)).None?
  {
    var after := Append(db, MemberRow(m));
    assert after.teamMembers == db.teamMembers + [m] && after.teams == db.teams && after.players == db.players;
    MemberFits(db, m);
  }

  lemma MemberFits(db: Db, m: StaticTeamMember)
    requires Unique(db.teamMembers + [m], MemberKey)
    requires UniqueWhere(db.teamMembers + [m], MemberTeamPlayer, IsOpen)
    requires MemberRefs(db.teamMembers + [m], TeamIds(db), PlayerIds(db))
    ensures InsertViolation(db, MemberRow(m)).None?
  {
    assert m in db.teamMembers + [m];
    FreshKey(db.teamMembers, m, MemberKey);
    if IsOpen(m) {
      AppendFresh(db.teamMembers, m, MemberTeamPlayer, IsOpen);
    }
  }

  lemma ResultAccepted(db: Db, r: EventResult)
    requires Consistent(Append(db, ResultRow(r)))
    ensures InsertViolation(db, ResultRow(r)).None?
  {
    var after := Append(db, ResultRow(r));
    assert after.results == db.results + [r] && after.events == db.events && after.groups == db.groups;
    ResultFits(db, r);
  }

  lemma ResultFits(db: Db, r: EventResult)
    requires Unique(db.results + [r], ResultKey)
    requires ResultRefs(db.results + [r], EventIds(db), GroupIds(db))
    ensures InsertViolation(db, ResultRow(r)).None?
  {
    assert r in db.results + [r];
    FreshKey(db.results, r, ResultKey);
  }

  lemma AppendActivityRowKeeps(db: Db, a: Activity)
    requires Consistent(db) && InsertViolation(db, ActivityRow(a)).None?
    ensures Consistent(Append(db, ActivityRow(a)))
  {
    AppendKeepsUnique(db.activities, a, ActivityKey, Everywhere);
    KeysAppend(db.activities, a, ActivityKey);
  }

  lemma AppendUserRowKeeps(db: Db, u: AppUser)
    requires Consistent(db) && InsertViolation(db, UserRow(u)).None?
    ensures Consistent(Append(db, UserRow(u)))
  {
    AppendKeepsUnique(db.users, u, UserKey, Everywhere);
    AppendKeepsUnique(db.users, u, AwsSubjectKey, Everywhere);
    KeysAppend(db.users, u, UserKey);
  }

  lemma AppendPermissionRowKeeps(db: Db, p: Permission)
    requires Consistent(db) && InsertViolation(db, PermissionRow(p)).None?
    ensures Consistent(Append(db, PermissionRow(p)))
  {
    AppendKeepsUnique(db.permissions, p, PermissionKey, Everywhere);
    KeysAppend(db.permissions, p, PermissionKey);
  }

  lemma AppendRoleRowKeeps(db: Db, r: Role)
    requires Consistent(db) && InsertViolation(db, RoleRow(r)).None?
    ensures Consistent(Append(db, RoleRow(r)))
  {
    AppendKeepsUnique(db.roles, r, RoleKey, Everywhere);
    KeysAppend(db.roles, r, RoleKey);
  }

  lemma AppendRolePermissionRowKeeps(db: Db, rp: RolePermission)
    requires Consistent(db) && InsertViolation(db, RolePermissionRow(rp)).None?
    ensures Consistent(Append(db, RolePermissionRow(rp)))
  {
    AppendKeepsUnique(db.rolePermissions, rp, RolePermissionKey, Everywhere);
  }

  lemma AppendTenantRowKeeps(db: Db, t: Tenant)
    requires Consistent(db) && InsertViolation(db, TenantRow(t)).None?
    ensures Consistent(Append(db, TenantRow(t)))
  {
    AppendKeepsUnique(db.tenants, t, TenantKey, Everywhere);
    KeysAppend(db.tenants, t, TenantKey);
  }

  lemma AppendMembershipRowKeeps(db: Db, m: Membership)
    requires Consistent(db) && InsertViolation(db, MembershipRow(m)).None?
    ensures Consistent(Append(db, MembershipRow(m)))
  {
    AppendKeepsUnique(db.memberships, m, MembershipKey, Everywhere);
  }

  lemma AppendPlayerRowKeeps(db: Db, p: Player)
    requires Consistent(db) && InsertViolation(db, PlayerRow(p)).None?
    ensures Consistent(Append(db, PlayerRow(p)))
  {
    AppendKeepsUnique(db.players, p, PlayerKey, Everywhere);
    AppendKeepsUnique(db.players, p, PlayerTenantUserKey, Everywhere);
    KeysAppend(db.players, p, PlayerKey);
  }

  lemma AppendEventRowKeeps(db: Db, e: ScheduledEvent)
    requires Consistent(db) && InsertViolation(db, EventRow(e)).None?
    ensures Consistent(Append(db, EventRow(e)))
  {
    var after := Append(db, EventRow(e));
    AppendKeepsUnique(db.events, e, EventKey, Everywhere);
    KeysAppend(db.events, e, EventKey);
    assert EventRefs(after.events, TenantIds(after));
    assert GroupRefs(after.groups, EventIds(after), TeamIds(after));
    assert ResultRefs(after.results, EventIds(after), GroupIds(after));
  }

  lemma AppendGroupRowKeeps(db: Db, g: EventParticipantGroup)
    requires Consistent(db) && InsertViolation(db, GroupRow(g)).None?
    ensures Consistent(Append(db, GroupRow(g)))
  {
    AppendKeepsUnique(db.groups, g, GroupKey, Everywhere);
    KeysAppend(db.groups, g, GroupKey);
  }

  lemma AppendParticipantRowKeeps(db: Db, ep: EventParticipant)
    requires Consistent(db) && InsertViolation(db, ParticipantRow(ep)).None?
    ensures Consistent(Append(db, ParticipantRow(ep)))
  {
    AppendKeepsUnique(db.participants, ep, ParticipantKey, Everywhere);
  }

  lemma AppendTeamRowKeeps(db: Db, t: Team)
    requires Consistent(db) && InsertViolation(db, TeamRow(t)).None?
    ensures Consistent(Append(db, TeamRow(t)))
  {
    AppendKeepsUnique(db.teams, t, TeamKey, Everywhere);
    KeysAppend(db.teams, t, TeamKey);
  }

  lemma AppendMemberRowKeeps(db: Db, m: StaticTeamMember)
    requires Consistent(db) && InsertViolation(db, MemberRow(m)).None?
    ensures Consistent(Append(db, MemberRow(m)))
  {
    AppendKeepsUnique(db.teamMembers, m, MemberKey, Everywhere);
    AppendKeepsUnique(db.teamMembers, m, MemberTeamPlayer, IsOpen);
    KeysAppend(db.teamMembers, m, MemberKey);
  }

  lemma AppendResultRowKeeps(db: Db, r: EventResult)
    requires Consistent(db) && InsertViolation(db, ResultRow(r)).None?
    ensures Consistent(Append(db, ResultRow(r)))
  {
    AppendKeepsUnique(db.results, r, ResultKey, Everywhere);
    KeysAppend(db.results, r, ResultKey);
  }

  // ---------------------------------------------------------------- delete

  /** A purge keeps every primary key and unique index. */
  lemma PurgeKeepsKeys(db: Db, d: Doomed)
    requires KeysHold(db)
    ensures KeysHold(Purge(db, d))
  {
    DropKeepsUnique(db.activities, ActivityKey, Everywhere, ActivityKey, d.activities);
    DropKeepsUnique(db.users, UserKey, Everywhere, UserKey, d.users);
    DropKeepsUnique(db.users, AwsSubjectKey, Everywhere, UserKey, d.users);
    DropKeepsUnique(db.permissions, PermissionKey, Everywhere, PermissionKey, d.permissions);
    DropKeepsUnique(db.roles, RoleKey, Everywhere, RoleKey, d.roles);
    var rp1 := Drop(db.rolePermissions, RolePermissionKey, d.rolePermissions);
    var rp2 := Drop(rp1, RolePermissionPermission, d.permissions);
    DropKeepsUnique(db.rolePermissions, RolePermissionKey, Everywhere, RolePermissionKey, d.rolePermissions);
    DropKeepsUnique(rp1, RolePermissionKey, Everywhere, RolePermissionPermission, d.permissions);
    DropKeepsUnique(rp2, RolePermissionKey, Everywhere, RolePermissionRole, d.roles);
    DropKeepsUnique(db.tenants, TenantKey, Everywhere, TenantKey, d.tenants);
    var m1 := Drop(db.memberships, MembershipKey, d.memberships);
    var m2 := Drop(m1, MembershipUser, d.users);
    DropKeepsUnique(db.memberships, MembershipKey, Everywhere, MembershipKey, d.memberships);
    DropKeepsUnique(m1, MembershipKey, Everywhere, MembershipUser, d.users);
    DropKeepsUnique(m2, MembershipKey, Everywhere, MembershipTenant, d.tenants);
    DropKeepsUnique(db.players, PlayerKey, Everywhere, PlayerKey, d.players);
    DropKeepsUnique(db.players, PlayerTenantUserKey, Everywhere, PlayerKey, d.players);
    DropKeepsUnique(db.events, EventKey, Everywhere, EventKey, d.events);
    var g1 := Drop(db.groups, GroupKey, d.groups);
    DropKeepsUnique(db.groups, GroupKey, Everywhere, GroupKey, d.groups);
    UnlinkTeamsKeepsUnique(g1, d.teams);
    var p1 := Drop(db.participants, ParticipantKey, d.participants);
    var p2 := Drop(p1, ParticipantGroup, d.groups);
    DropKeepsUnique(db.participants, ParticipantKey, Everywhere, ParticipantKey, d.participants);
    DropKeepsUnique(p1, ParticipantKey, Everywhere, ParticipantGroup, d.groups);
    DropKeepsUnique(p2, ParticipantKey, Everywhere, ParticipantPlayer, d.players);
    DropKeepsUnique(db.teams, TeamKey, Everywhere, TeamKey, d.teams);
    DropKeepsUnique(db.teamMembers, MemberKey, Everywhere, MemberKey, d.members);
    DropKeepsUnique(db.teamMembers, MemberTeamPlayer, IsOpen, MemberKey, d.members);
    var r1 := Drop(db.results, ResultKey, d.results);
    DropKeepsUnique(db.results, ResultKey, Everywhere, ResultKey, d.results);
    UnlinkWinnersKeepsUnique(r1, d.groups);
  }

  lemma UnlinkTeamsKeepsUnique(gs: seq<EventParticipantGroup>, gone: set<Id>)
    requires Unique(gs, GroupKey)
    ensures Unique(UnlinkTeams(gs, gone), GroupKey)
  {
    var r := UnlinkTeams(gs, gone);
    assert forall i :: 0 <= i < |gs| ==> GroupKey(r[i]) == GroupKey(gs[i]);
  }

  lemma UnlinkWinnersKeepsUnique(rs: seq<EventResult>, gone: set<Id>)
    requires Unique(rs, ResultKey)
    ensures Unique(UnlinkWinners(rs, gone), ResultKey)
  {
    var r := UnlinkWinners(rs, gone);
    assert forall i :: 0 <= i < |rs| ==> ResultKey(r[i]) == ResultKey(rs[i]);
  }

  /** After a purge the surviving primary keys are the old ones minus the doomed ones. */
  lemma PurgeIds(db: Db, d: Doomed)
    ensures ActivityIds(Purge(db, d)) == ActivityIds(db) - d.activities
    ensures UserIds(Purge(db, d)) == UserIds(db) - d.users
    ensures PermissionIds(Purge(db, d)) == PermissionIds(db) - d.permissions
    ensures RoleIds(Purge(db, d)) == RoleIds(db) - d.roles
    ensures TenantIds(Purge(db, d)) == TenantIds(db) - d.tenants
    ensures PlayerIds(Purge(db, d)) == PlayerIds(db) - d.players
    ensures EventIds(Purge(db, d)) == EventIds(db) - d.events
    ensures GroupIds(Purge(db, d)) == GroupIds(db) - d.groups
    ensures TeamIds(Purge(db, d)) == TeamIds(db) - d.teams
    ensures MemberIds(Purge(db, d)) == MemberIds(db) - d.members
    ensures ResultIds(Purge(db, d)) == ResultIds(db) - d.results
  {
    DropKeys(db.activities, ActivityKey, d.activities);
    DropKeys(db.users, UserKey, d.users);
    DropKeys(db.permissions, PermissionKey, d.permissions);
    DropKeys(db.roles, RoleKey, d.roles);
    DropKeys(db.tenants, TenantKey, d.tenants);
    DropKeys(db.players, PlayerKey, d.players);
    DropKeys(db.events, EventKey, d.events);
    DropKeys(db.groups, GroupKey, d.groups);
    UnlinkTeamsKeepsKeys(Drop(db.groups, GroupKey, d.groups), d.teams);
    DropKeys(db.teams, TeamKey, d.teams);
    DropKeys(db.teamMembers, MemberKey, d.members);
    DropKeys(db.results, ResultKey, d.results);
    UnlinkWinnersKeepsKeys(Drop(db.results, ResultKey, d.results), d.groups);
  }

  /** A purge of a cascade-closed set of rows that no Restrict key protects
      leaves no dangling foreign key. */
  lemma PurgeKeepsRefs(db: Db, d: Doomed)
    requires RefsHold(db) && CascadeClosed(db, d) && RestrictClear(db, d)
    ensures RefsHold(Purge(db, d))
  {
    PurgeIds(db, d);
    PurgeKeepsRolePermissionRefs(db, d);
    PurgeKeepsTenantRefs(db, d);
    PurgeKeepsMembershipRefs(db, d);
    PurgeKeepsPlayerRefs(db, d);
    PurgeKeepsEventRefs(db, d);
    PurgeKeepsGroupRefs(db, d);
    PurgeKeepsParticipantRefs(db, d);
    PurgeKeepsTeamRefs(db, d);
    PurgeKeepsMemberRefs(db, d);
    PurgeKeepsResultRefs(db, d);
  }

  lemma PurgeKeepsRolePermissionRefs(db: Db, d: Doomed)
    requires RolePermissionRefs(db.rolePermissions, RoleIds(db), PermissionIds(db))
    ensures RolePermissionRefs(Purge(db, d).rolePermissions, RoleIds(db) - d.roles, PermissionIds(db) - d.permissions)
  {
    var rp1 := Drop(db.rolePermissions, RolePermissionKey, d.rolePermissions);
    var rp2 := Drop(rp1, RolePermissionPermission, d.permissions);
    DropMembers(db.rolePermissions, RolePermissionKey, d.rolePermissions);
    DropMembers(rp1, RolePermissionPermission, d.permissions);
    DropMembers(rp2, RolePermissionRole, d.roles);
  }

  lemma PurgeKeepsTenantRefs(db: Db, d: Doomed)
    requires TenantRefs(db.tenants, ActivityIds(db), RoleIds(db)) && RestrictClear(db, d)
    ensures TenantRefs(Purge(db, d).tenants, ActivityIds(db) - d.activities, RoleIds(db) - d.roles)
  {
    DropMembers(db.tenants, TenantKey, d.tenants);
  }

  lemma PurgeKeepsMembershipRefs(db: Db, d: Doomed)
    requires MembershipRefs(db.memberships, UserIds(db), TenantIds(db), RoleIds(db)) && RestrictClear(db, d)
    ensures MembershipRefs(Purge(db, d).memberships, UserIds(db) - d.users, TenantIds(db) - d.tenants, RoleIds(db) - d.roles)
  {
    var m1 := Drop(db.memberships, MembershipKey, d.memberships);
    var m2 := Drop(m1, MembershipUser, d.users);
    DropMembers(db.memberships, MembershipKey, d.memberships);
    DropMembers(m1, MembershipUser, d.users);
    DropMembers(m2, MembershipTenant, d.tenants);
  }

  lemma PurgeKeepsPlayerRefs(db: Db, d: Doomed)
    requires PlayerRefs(db.players, TenantIds(db), UserIds(db)) && CascadeClosed(db, d)
    ensures PlayerRefs(Purge(db, d).players, TenantIds(db) - d.tenants, UserIds(db) - d.users)
  {
    DropMembers(db.players, PlayerKey, d.players);
  }

  lemma PurgeKeepsEventRefs(db: Db, d: Doomed)
    requires EventRefs(db.events, TenantIds(db)) && CascadeClosed(db, d)
    ensures EventRefs(Purge(db, d).events, TenantIds(db) - d.tenants)
  {
    DropMembers(db.events, EventKey, d.events);
  }

  lemma PurgeKeepsParticipantRefs(db: Db, d: Doomed)
    requires ParticipantRefs(db.participants, GroupIds(db), PlayerIds(db))
    ensures ParticipantRefs(Purge(db, d).participants, GroupIds(db) - d.groups, PlayerIds(db) - d.players)
  {
    var p1 := Drop(db.participants, ParticipantKey, d.participants);
    var p2 := Drop(p1, ParticipantGroup, d.groups);
    DropMembers(db.participants, ParticipantKey, d.participants);
    DropMembers(p1, ParticipantGroup, d.groups);
    DropMembers(p2, ParticipantPlayer, d.players);
  }

  lemma PurgeKeepsTeamRefs(db: Db, d: Doomed)
    requires TeamRefs(db.teams, TenantIds(db)) && CascadeClosed(db, d)
    ensures TeamRefs(Purge(db, d).teams, TenantIds(db) - d.tenants)
  {
    DropMembers(db.teams, TeamKey, d.teams);
  }

  lemma PurgeKeepsMemberRefs(db: Db, d: Doomed)
    requires MemberRefs(db.teamMembers, TeamIds(db), PlayerIds(db)) && CascadeClosed(db, d)
    ensures MemberRefs(Purge(db, d).teamMembers, TeamIds(db) - d.teams, PlayerIds(db) - d.players)
  {
    DropMembers(db.teamMembers, MemberKey, d.members);
  }

  lemma PurgeKeepsGroupRefs(db: Db, d: Doomed)
    requires GroupRefs(db.groups, EventIds(db), TeamIds(db)) && CascadeClosed(db, d)
    ensures GroupRefs(Purge(db, d).groups, EventIds(db) - d.events, TeamIds(db) - d.teams)
  {
    var after := Purge(db, d).groups;
    var kept := Drop(db.groups, GroupKey, d.groups);
    DropMembers(db.groups, GroupKey, d.groups);
    forall g | g in after
      ensures g.eventId in EventIds(db) - d.events
      ensures g.teamId.Some? ==> g.teamId.value in TeamIds(db) - d.teams
    {
      var i :| 0 <= i < |after| && after[i] == g;
      assert g == UnlinkTeam(kept[i], d.teams);
      assert kept[i] in kept;
    }
  }

  lemma PurgeKeepsResultRefs(db: Db, d: Doomed)
    requires ResultRefs(db.results, EventIds(db), GroupIds(db)) && CascadeClosed(db, d)
    ensures ResultRefs(Purge(db, d).results, EventIds(db) - d.events, GroupIds(db) - d.groups)
  {
    var after := Purge(db, d).results;
    var kept := Drop(db.results, ResultKey, d.results);
    DropMembers(db.results, ResultKey, d.results);
    forall r | r in after
      ensures r.eventId in EventIds(db) - d.events
      ensures r.winningGroupId.Some? ==> r.winningGroupId.value in GroupIds(db) - d.groups
    {
      var i :| 0 <= i < |after| && after[i] == r;
      assert r == UnlinkWinner(kept[i], d.groups);
      assert kept[i] in kept;
    }
  }

  lemma PurgePreservesConsistency(db: Db, d: Doomed)
    requires Consistent(db) && CascadeClosed(db, d) && RestrictClear(db, d)
    ensures Consistent(Purge(db, d))
  {
    PurgeKeepsKeys(db, d);
    PurgeKeepsRefs(db, d);
  }

  /** A delete that passed its Restrict checks dooms no row a Restrict key protects. */
  lemma AllowedDeleteIsRestrictClear(db: Db, key: RowKey)
    requires DeleteViolation(db, key).None?
    ensures RestrictClear(db, Close(db, Roots(key)))
  {
    var d := Close(db, Roots(key));
    match key
    case ActivityKeyOf(id) => assert d.activities == {id} && d.roles == {};
    case RoleKeyOf(id) => assert d.activities == {} && d.roles == {id};
    case _ => assert d.activities == {} && d.roles == {};
  }

  /** An accepted DELETE, with all its cascades and SetNull actions, keeps every
      key, unique index and foreign key intact. */
  lemma DeletePreservesConsistency(db: Db, key: RowKey)
    requires Consistent(db)
    ensures Delete(db, key).Ok? ==> Consistent(Delete(db, key).value)
  {
    if DeleteViolation(db, key).None? {
      AllowedDeleteIsRestrictClear(db, key);
      CloseIsCascadeClosed(db, Roots(key));
      PurgePreservesConsistency(db, Close(db, Roots(key)));
    }
  }
}
