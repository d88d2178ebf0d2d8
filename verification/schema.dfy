/** The relational store described by the current migrations
    (InitialCreate of 2026-02-15, AddedEventResult, AddedStaticTeamOptionalFeature):
    one table per entity, their primary keys and unique indexes, and what each
    foreign key does when the row it refers to is deleted (Cascade, Restrict or
    SetNull). `Insert` and `Delete` are the two operations on a snapshot; the
    `Store` class performs the same operations in place. */
module Schema {
  import opened Tables
  import opened Entities

  /** A snapshot of every table. */
  datatype Db = Db(
    activities: seq<Activity>,
    users: seq<AppUser>,
    permissions: seq<Permission>,
    roles: seq<Role>,
    rolePermissions: seq<RolePermission>,
    tenants: seq<Tenant>,
    memberships: seq<Membership>,
    players: seq<Player>,
    events: seq<ScheduledEvent>,
    groups: seq<EventParticipantGroup>,
    participants: seq<EventParticipant>,
    teams: seq<Team>,
    teamMembers: seq<StaticTeamMember>,
    results: seq<EventResult>)

  const EmptyDb := Db([], [], [], [], [], [], [], [], [], [], [], [], [], [])

  /** The constraints of the schema, named after the source's PK_/IX_/FK_ names. */
  datatype Constraint =
    | PkActivities | PkAppUsers | IxAppUsersAwsSubject | PkPermissions | PkRoles
    | PkRolePermissions | FkRolePermissionsPermission | FkRolePermissionsRole
    | PkTenants | FkTenantsActivity | FkTenantsDefaultRole
    | PkMemberships | FkMembershipsAppUser | FkMembershipsRole | FkMembershipsTenant
    | PkPlayers | IxPlayersTenantAppUser | FkPlayersAppUser | FkPlayersTenant
    | PkScheduledEvents | FkScheduledEventsTenant
    | PkGroups | FkGroupsScheduledEvent | FkGroupsTeam
    | PkParticipants | FkParticipantsGroup | FkParticipantsPlayer
    | PkTeam | FkTeamTenant
    | PkTeamMembers | IxTeamMembersOpenTenure | FkTeamMembersPlayer | FkTeamMembersTeam
    | PkResults | FkResultsWinningGroup | FkResultsScheduledEvent

  /** Why a write is refused: a key or unique index already holds the value, a
      foreign key names no row (insert) or a Restrict rule blocks a delete, or
      the row to delete does not exist. */
  datatype Violation = UniqueViolation(index: Constraint) | ForeignKeyViolation(fk: Constraint) | NotFound

  datatype Result<T> = Ok(value: T) | Err(error: Violation)

  /** A row to insert, tagged with its table. */
  datatype Row =
    | ActivityRow(activity: Activity)
    | UserRow(user: AppUser)
    | PermissionRow(permission: Permission)
    | RoleRow(role: Role)
    | RolePermissionRow(rolePermission: RolePermission)
    | TenantRow(tenant: Tenant)
    | MembershipRow(membership: Membership)
    | PlayerRow(player: Player)
    | EventRow(event: ScheduledEvent)
    | GroupRow(group: EventParticipantGroup)
    | ParticipantRow(participant: EventParticipant)
    | TeamRow(team: Team)
    | MemberRow(member: StaticTeamMember)
    | ResultRow(result: EventResult)

  /** The primary key of a row to delete, tagged with its table. */
  datatype RowKey =
    | ActivityKeyOf(activityId: Id)
    | UserKeyOf(userId: Id)
    | PermissionKeyOf(permissionId: Id)
    | RoleKeyOf(roleId: Id)
    | RolePermissionKeyOf(rpRoleId: Id, rpPermissionId: Id)
    | TenantKeyOf(tenantId: Id)
    | MembershipKeyOf(mUserId: Id, mTenantId: Id)
    | PlayerKeyOf(playerId: Id)
    | EventKeyOf(eventId: Id)
    | GroupKeyOf(groupId: Id)
    | ParticipantKeyOf(epGroupId: Id, epPlayerId: Id)
    | TeamKeyOf(teamId: Id)
    | MemberKeyOf(memberId: Id)
    | ResultKeyOf(resultId: Id)

  // The primary keys present in each table.

  function ActivityIds(db: Db): set<Id> { Keys(db.activities, ActivityKey) }
  function UserIds(db: Db): set<Id> { Keys(db.users, UserKey) }
  function PermissionIds(db: Db): set<Id> { Keys(db.permissions, PermissionKey) }
  function RoleIds(db: Db): set<Id> { Keys(db.roles, RoleKey) }
  function TenantIds(db: Db): set<Id> { Keys(db.tenants, TenantKey) }
  function PlayerIds(db: Db): set<Id> { Keys(db.players, PlayerKey) }
  function EventIds(db: Db): set<Id> { Keys(db.events, EventKey) }
  function GroupIds(db: Db): set<Id> { Keys(db.groups, GroupKey) }
  function TeamIds(db: Db): set<Id> { Keys(db.teams, TeamKey) }
  function MemberIds(db: Db): set<Id> { Keys(db.teamMembers, MemberKey) }
  function ResultIds(db: Db): set<Id> { Keys(db.results, ResultKey) }

  /** Primary keys and unique indexes, including the partial index that allows
      at most one open tenure per (static team, player). */
  ghost predicate KeysHold(db: Db)
  {
    && Unique(db.activities, ActivityKey)
    && Unique(db.users, UserKey)
    && Unique(db.users, AwsSubjectKey)
    && Unique(db.permissions, PermissionKey)
    && Unique(db.roles, RoleKey)
    && Unique(db.rolePermissions, RolePermissionKey)
    && Unique(db.tenants, TenantKey)
    && Unique(db.memberships, MembershipKey)
    && Unique(db.players, PlayerKey)
    && Unique(db.players, PlayerTenantUserKey)
    && Unique(db.events, EventKey)
    && Unique(db.groups, GroupKey)
    && Unique(db.participants, ParticipantKey)
    && Unique(db.teams, TeamKey)
    && Unique(db.teamMembers, MemberKey)
    && UniqueWhere(db.teamMembers, MemberTeamPlayer, IsOpen)
    && Unique(db.results, ResultKey)
  }

  /** Referential integrity: every foreign key names an existing row; the two
      nullable ones (a group's TeamId, a result's WinningGroupId) may be absent.
      One predicate per table, over that table and the key sets it refers to. */
  ghost predicate RefsHold(db: Db)
  {
    && RolePermissionRefs(db.rolePermissions, RoleIds(db), PermissionIds(db))
    && TenantRefs(db.tenants, ActivityIds(db), RoleIds(db))
    && MembershipRefs(db.memberships, UserIds(db), TenantIds(db), RoleIds(db))
    && PlayerRefs(db.players, TenantIds(db), UserIds(db))
    && EventRefs(db.events, TenantIds(db))
    && GroupRefs(db.groups, EventIds(db), TeamIds(db))
    && ParticipantRefs(db.participants, GroupIds(db), PlayerIds(db))
    && TeamRefs(db.teams, TenantIds(db))
    && MemberRefs(db.teamMembers, TeamIds(db), PlayerIds(db))
    && ResultRefs(db.results, EventIds(db), GroupIds(db))
  }

  ghost predicate RolePermissionRefs(rps: seq<RolePermission>, roles: set<Id>, permissions: set<Id>)
  {
    forall rp :: rp in rps ==> rp.roleId in roles && rp.permissionId in permissions
  }

  ghost predicate TenantRefs(ts: seq<Tenant>, activities: set<Id>, roles: set<Id>)
  {
    forall t :: t in ts ==> t.activityId in activities && t.defaultRoleId in roles
  }

  ghost predicate MembershipRefs(ms: seq<Membership>, users: set<Id>, tenants: set<Id>, roles: set<Id>)
  {
    forall m :: m in ms ==> m.appUserId in users && m.tenantId in tenants && m.roleId in roles
  }

  ghost predicate PlayerRefs(ps: seq<Player>, tenants: set<Id>, users: set<Id>)
  {
    forall p :: p in ps ==> p.tenantId in tenants && p.appUserId in users
  }

  ghost predicate EventRefs(es: seq<ScheduledEvent>, tenants: set<Id>)
  {
    forall e :: e in es ==> e.tenantId in tenants
  }

  ghost predicate GroupRefs(gs: seq<EventParticipantGroup>, events: set<Id>, teams: set<Id>)
  {
    forall g :: g in gs ==> g.eventId in events && (g.teamId.Some? ==> g.teamId.value in teams)
  }

  ghost predicate ParticipantRefs(eps: seq<EventParticipant>, groups: set<Id>, players: set<Id>)
  {
    forall ep :: ep in eps ==> ep.groupId in groups && ep.playerId in players
  }

  ghost predicate TeamRefs(ts: seq<Team>, tenants: set<Id>)
  {
    forall t :: t in ts ==> t.tenantId in tenants
  }

  ghost predicate MemberRefs(ms: seq<StaticTeamMember>, teams: set<Id>, players: set<Id>)
  {
    forall m :: m in ms ==> m.teamId in teams && m.playerId in players
  }

  ghost predicate ResultRefs(rs: seq<EventResult>, events: set<Id>, groups: set<Id>)
  {
    forall r :: r in rs ==>
      r.eventId in events && (r.winningGroupId.Some? ==> r.winningGroupId.value in groups)
  }

  ghost predicate Consistent(db: Db)
  {
    KeysHold(db) && RefsHold(db)
  }

  // ---------------------------------------------------------------- insert

  /** Some open tenure row for (team, player) already exists. */
  predicate OpenTenureExists(ms: seq<StaticTeamMember>, teamId: Id, playerId: Id)
  {
    exists i :: 0 <= i < |ms| && IsOpen(ms[i]) && ms[i].teamId == teamId && ms[i].playerId == playerId
  }

  /** The first constraint an INSERT of `row` violates: the primary key and the
      unique indexes are checked first, then the foreign keys in declaration order. */
  function InsertViolation(db: Db, row: Row): Option<Violation>
  {
    match row
    case ActivityRow(a) =>
      if a.id in ActivityIds(db) then Some(UniqueViolation(PkActivities)) else None
    case UserRow(u) =>
      if u.id in UserIds(db) then Some(UniqueViolation(PkAppUsers))
      else if u.awsSubject in Keys(db.users, AwsSubjectKey) then Some(UniqueViolation(IxAppUsersAwsSubject))
      else None
    case PermissionRow(p) =>
      if p.id in PermissionIds(db) then Some(UniqueViolation(PkPermissions)) else None
    case RoleRow(r) =>
      if r.id in RoleIds(db) then Some(UniqueViolation(PkRoles)) else None
    case RolePermissionRow(rp) =>
      if RolePermissionKey(rp) in Keys(db.rolePermissions, RolePermissionKey) then Some(UniqueViolation(PkRolePermissions))
      else if rp.permissionId !in PermissionIds(db) then Some(ForeignKeyViolation(FkRolePermissionsPermission))
      else if rp.roleId !in RoleIds(db) then Some(ForeignKeyViolation(FkRolePermissionsRole))
      else None
    case TenantRow(t) =>
      if t.id in TenantIds(db) then Some(UniqueViolation(PkTenants))
      else if t.activityId !in ActivityIds(db) then Some(ForeignKeyViolation(FkTenantsActivity))
      else if t.defaultRoleId !in RoleIds(db) then Some(ForeignKeyViolation(FkTenantsDefaultRole))
      else None
    case MembershipRow(m) =>
      if MembershipKey(m) in Keys(db.memberships, MembershipKey) then Some(UniqueViolation(PkMemberships))
      else if m.appUserId !in UserIds(db) then Some(ForeignKeyViolation(FkMembershipsAppUser))
      else if m.roleId !in RoleIds(db) then Some(ForeignKeyViolation(FkMembershipsRole))
      else if m.tenantId !in TenantIds(db) then Some(ForeignKeyViolation(FkMembershipsTenant))
      else None
    case PlayerRow(p) =>
      if p.id in PlayerIds(db) then Some(UniqueViolation(PkPlayers))
      else if PlayerTenantUserKey(p) in Keys(db.players, PlayerTenantUserKey) then Some(UniqueViolation(IxPlayersTenantAppUser))
      else if p.appUserId !in UserIds(db) then Some(ForeignKeyViolation(FkPlayersAppUser))
      else if p.tenantId !in TenantIds(db) then Some(ForeignKeyViolation(FkPlayersTenant))
      else None
    case EventRow(e) =>
      if e.id in EventIds(db) then Some(UniqueViolation(PkScheduledEvents))
      else if e.tenantId !in TenantIds(db) then Some(ForeignKeyViolation(FkScheduledEventsTenant))
      else None
    case GroupRow(g) =>
      if g.id in GroupIds(db) then Some(UniqueViolation(PkGroups))
      else if g.eventId !in EventIds(db) then Some(ForeignKeyViolation(FkGroupsScheduledEvent))
      else if g.teamId.Some? && g.teamId.value !in TeamIds(db) then Some(ForeignKeyViolation(FkGroupsTeam))
      else None
    case ParticipantRow(ep) =>
      if ParticipantKey(ep) in Keys(db.participants, ParticipantKey) then Some(UniqueViolation(PkParticipants))
      else if ep.groupId !in GroupIds(db) then Some(ForeignKeyViolation(FkParticipantsGroup))
      else if ep.playerId !in PlayerIds(db) then Some(ForeignKeyViolation(FkParticipantsPlayer))
      else None
    case TeamRow(t) =>
      if t.id in TeamIds(db) then Some(UniqueViolation(PkTeam))
      else if t.tenantId !in TenantIds(db) then Some(ForeignKeyViolation(FkTeamTenant))
      else None
    case MemberRow(m) =>
      if m.id in MemberIds(db) then Some(UniqueViolation(PkTeamMembers))
      else if IsOpen(m) && OpenTenureExists(db.teamMembers, m.teamId, m.playerId) then Some(UniqueViolation(IxTeamMembersOpenTenure))
      else if m.playerId !in PlayerIds(db) then Some(ForeignKeyViolation(FkTeamMembersPlayer))
      else if m.teamId !in TeamIds(db) then Some(ForeignKeyViolation(FkTeamMembersTeam))
      else None
    case ResultRow(r) =>
      if r.id in ResultIds(db) then Some(UniqueViolation(PkResults))
      else if r.winningGroupId.Some? && r.winningGroupId.value !in GroupIds(db) then Some(ForeignKeyViolation(FkResultsWinningGroup))
      else if r.eventId !in EventIds(db) then Some(ForeignKeyViolation(FkResultsScheduledEvent))
      else None
  }

  /** The snapshot with `row` appended to its table. */
  function Append(db: Db, row: Row): Db
  {
    match row
    case ActivityRow(a) => db.(activities := db.activities + [a])
    case UserRow(u) => db.(users := db.users + [u])
    case PermissionRow(p) => db.(permissions := db.permissions + [p])
    case RoleRow(r) => db.(roles := db.roles + [r])
    case RolePermissionRow(rp) => db.(rolePermissions := db.rolePermissions + [rp])
    case TenantRow(t) => db.(tenants := db.tenants + [t])
    case MembershipRow(m) => db.(memberships := db.memberships + [m])
    case PlayerRow(p) => db.(players := db.players + [p])
    case EventRow(e) => db.(events := db.events + [e])
    case GroupRow(g) => db.(groups := db.groups + [g])
    case ParticipantRow(ep) => db.(participants := db.participants + [ep])
    case TeamRow(t) => db.(teams := db.teams + [t])
    case MemberRow(m) => db.(teamMembers := db.teamMembers + [m])
    case ResultRow(r) => db.(results := db.results + [r])
  }

  /** The row is stored in its table. */
  ghost predicate Holds(db: Db, row: Row)
  {
    match row
    case ActivityRow(a) => a in db.activities
    case UserRow(u) => u in db.users
    case PermissionRow(p) => p in db.permissions
    case RoleRow(r) => r in db.roles
    case RolePermissionRow(rp) => rp in db.rolePermissions
    case TenantRow(t) => t in db.tenants
    case MembershipRow(m) => m in db.memberships
    case PlayerRow(p) => p in db.players
    case EventRow(e) => e in db.events
    case GroupRow(g) => g in db.groups
    case ParticipantRow(ep) => ep in db.participants
    case TeamRow(t) => t in db.teams
    case MemberRow(m) => m in db.teamMembers
    case ResultRow(r) => r in db.results
  }

  /** The total number of rows in all tables. */
  function RowCount(db: Db): nat
  {
    |db.activities| + |db.users| + |db.permissions| + |db.roles| + |db.rolePermissions|
    + |db.tenants| + |db.memberships| + |db.players| + |db.events| + |db.groups|
    + |db.participants| + |db.teams| + |db.teamMembers| + |db.results|
  }

  /** INSERT of one row: refused with the first violated constraint, otherwise
      the row is added and nothing else changes. */
  function Insert(db: Db, row: Row): (r: Result<Db>)
    ensures r.Err? <==> InsertViolation(db, row).Some?
    ensures r.Ok? ==> Holds(r.value, row) && RowCount(r.value) == RowCount(db) + 1
    ensures r.Ok? ==> forall other :: Holds(db, other) ==> Holds(r.value, other)
  {
    match InsertViolation(db, row)
    case Some(v) => Err(v)
    case None =>
      AppendAddsRow(db, row);
      Ok(Append(db, row))
  }

  lemma AppendAddsRow(db: Db, row: Row)
    ensures Holds(Append(db, row), row) && RowCount(Append(db, row)) == RowCount(db) + 1
    ensures forall other :: Holds(db, other) ==> Holds(Append(db, row), other)
  {
    forall other | Holds(db, other) ensures Holds(Append(db, row), other) {
      match row
      case ActivityRow(_) =>
      case UserRow(_) =>
      case PermissionRow(_) =>
      case RoleRow(_) =>
      case RolePermissionRow(_) =>
      case TenantRow(_) =>
      case MembershipRow(_) =>
      case PlayerRow(_) =>
      case EventRow(_) =>
      case GroupRow(_) =>
      case ParticipantRow(_) =>
      case TeamRow(_) =>
      case MemberRow(_) =>
      case ResultRow(_) =>
    }
  }

  // ---------------------------------------------------------------- delete

  /** The rows a delete removes, by primary key (join tables by their
      composite key), after cascading. */
  datatype Doomed = Doomed(
    activities: set<Id>, users: set<Id>, permissions: set<Id>, roles: set<Id>,
    rolePermissions: set<(Id, Id)>, tenants: set<Id>, memberships: set<(Id, Id)>,
    players: set<Id>, events: set<Id>, groups: set<Id>, participants: set<(Id, Id)>,
    teams: set<Id>, members: set<Id>, results: set<Id>)

  const NoRows := Doomed({}, {}, {}, {}, {}, {}, {}, {}, {}, {}, {}, {}, {}, {})

  function Roots(key: RowKey): Doomed
  {
    match key
    case ActivityKeyOf(id) => NoRows.(activities := {id})
    case UserKeyOf(id) => NoRows.(users := {id})
    case PermissionKeyOf(id) => NoRows.(permissions := {id})
    case RoleKeyOf(id) => NoRows.(roles := {id})
    case RolePermissionKeyOf(r, p) => NoRows.(rolePermissions := {(r, p)})
    case TenantKeyOf(id) => NoRows.(tenants := {id})
    case MembershipKeyOf(u, t) => NoRows.(memberships := {(u, t)})
    case PlayerKeyOf(id) => NoRows.(players := {id})
    case EventKeyOf(id) => NoRows.(events := {id})
    case GroupKeyOf(id) => NoRows.(groups := {id})
    case ParticipantKeyOf(g, p) => NoRows.(participants := {(g, p)})
    case TeamKeyOf(id) => NoRows.(teams := {id})
    case MemberKeyOf(id) => NoRows.(members := {id})
    case ResultKeyOf(id) => NoRows.(results := {id})
  }

  /** Every row reached by an ON DELETE CASCADE foreign key from a doomed row
      is itself doomed (join tables cascade through `Purge` directly). */
  ghost predicate CascadeClosed(db: Db, d: Doomed)
  {
    && (forall p :: p in db.players && (p.tenantId in d.tenants || p.appUserId in d.users) ==> p.id in d.players)
    && (forall e :: e in db.events && e.tenantId in d.tenants ==> e.id in d.events)
    && (forall g :: g in db.groups && g.eventId in d.events ==> g.id in d.groups)
    && (forall t :: t in db.teams && t.tenantId in d.tenants ==> t.id in d.teams)
    && (forall m :: m in db.teamMembers && (m.teamId in d.teams || m.playerId in d.players) ==> m.id in d.members)
    && (forall r :: r in db.results && r.eventId in d.events ==> r.id in d.results)
  }

  /** No surviving row refers through an ON DELETE RESTRICT foreign key to a doomed row. */
  ghost predicate RestrictClear(db: Db, d: Doomed)
  {
    && (forall t :: t in db.tenants && t.id !in d.tenants ==>
          t.activityId !in d.activities && t.defaultRoleId !in d.roles)
    && (forall m :: m in db.memberships && m.appUserId !in d.users && m.tenantId !in d.tenants ==>
          m.roleId !in d.roles)
  }

  /** The cascade closure of `roots`. The cascade graph is acyclic
      (tenant -> player, event, team; user -> player; event -> group, result;
      team, player -> member), so one pass in that order reaches every row. */
  function Close(db: Db, roots: Doomed): Doomed
  {
    var players := roots.players + Referring(db.players, PlayerKey, PlayerTenant, roots.tenants)
                                 + Referring(db.players, PlayerKey, PlayerUser, roots.users);
    var events := roots.events + Referring(db.events, EventKey, EventTenant, roots.tenants);
    var teams := roots.teams + Referring(db.teams, TeamKey, TeamTenant, roots.tenants);
    roots.(players := players, events := events,
           groups := roots.groups + Referring(db.groups, GroupKey, GroupEvent, events),
           teams := teams,
           members := roots.members + Referring(db.teamMembers, MemberKey, MemberTeam, teams)
                                    + Referring(db.teamMembers, MemberKey, MemberPlayer, players),
           results := roots.results + Referring(db.results, ResultKey, ResultEvent, events))
  }

  /** The closure contains its roots and is closed under every Cascade key. */
  lemma CloseIsCascadeClosed(db: Db, roots: Doomed)
    ensures CascadeClosed(db, Close(db, roots))
  {
    var d := Close(db, roots);
    ReferringHas(db.players, PlayerKey, PlayerTenant, roots.tenants);
    ReferringHas(db.players, PlayerKey, PlayerUser, roots.users);
    ReferringHas(db.events, EventKey, EventTenant, roots.tenants);
    ReferringHas(db.teams, TeamKey, TeamTenant, roots.tenants);
    ReferringHas(db.groups, GroupKey, GroupEvent, d.events);
    ReferringHas(db.teamMembers, MemberKey, MemberTeam, d.teams);
    ReferringHas(db.teamMembers, MemberKey, MemberPlayer, d.players);
    ReferringHas(db.results, ResultKey, ResultEvent, d.events);
  }

  /** ON DELETE SET NULL for a group's TeamId. */
  function UnlinkTeam(g: EventParticipantGroup, gone: set<Id>): EventParticipantGroup
  {
    if g.teamId.Some? && g.teamId.value in gone then g.(teamId := None) else g
  }

  /** ON DELETE SET NULL for a result's WinningGroupId. */
  function UnlinkWinner(r: EventResult, gone: set<Id>): EventResult
  {
    if r.winningGroupId.Some? && r.winningGroupId.value in gone then r.(winningGroupId := None) else r
  }

  function UnlinkTeams(gs: seq<EventParticipantGroup>, gone: set<Id>): seq<EventParticipantGroup>
  {
    seq(|gs|, i requires 0 <= i < |gs| => UnlinkTeam(gs[i], gone))
  }

  function UnlinkWinners(rs: seq<EventResult>, gone: set<Id>): seq<EventResult>
  {
    seq(|rs|, i requires 0 <= i < |rs| => UnlinkWinner(rs[i], gone))
  }

  /** Clearing a SetNull reference keeps every row and its primary key. */
  lemma UnlinkTeamsKeepsKeys(gs: seq<EventParticipantGroup>, gone: set<Id>)
    ensures Keys(UnlinkTeams(gs, gone), GroupKey) == Keys(gs, GroupKey)
  {
    var r := UnlinkTeams(gs, gone);
    assert forall i :: 0 <= i < |gs| ==> GroupKey(r[i]) == GroupKey(gs[i]);
  }

  lemma UnlinkWinnersKeepsKeys(rs: seq<EventResult>, gone: set<Id>)
    ensures Keys(UnlinkWinners(rs, gone), ResultKey) == Keys(rs, ResultKey)
  {
    var r := UnlinkWinners(rs, gone);
    assert forall i :: 0 <= i < |rs| ==> ResultKey(r[i]) == ResultKey(rs[i]);
  }

  /** Physically remove the doomed rows, the join rows whose cascading foreign
      keys name a doomed row, and clear the SetNull references to doomed rows. */
  function Purge(db: Db, d: Doomed): Db
  {
    Db(
      Drop(db.activities, ActivityKey, d.activities),
      Drop(db.users, UserKey, d.users),
      Drop(db.permissions, PermissionKey, d.permissions),
      Drop(db.roles, RoleKey, d.roles),
      Drop(Drop(Drop(db.rolePermissions, RolePermissionKey, d.rolePermissions),
                RolePermissionPermission, d.permissions), RolePermissionRole, d.roles),
      Drop(db.tenants, TenantKey, d.tenants),
      Drop(Drop(Drop(db.memberships, MembershipKey, d.memberships),
                MembershipUser, d.users), MembershipTenant, d.tenants),
      Drop(db.players, PlayerKey, d.players),
      Drop(db.events, EventKey, d.events),
      UnlinkTeams(Drop(db.groups, GroupKey, d.groups), d.teams),
      Drop(Drop(Drop(db.participants, ParticipantKey, d.participants),
                ParticipantGroup, d.groups), ParticipantPlayer, d.players),
      Drop(db.teams, TeamKey, d.teams),
      Drop(db.teamMembers, MemberKey, d.members),
      UnlinkWinners(Drop(db.results, ResultKey, d.results), d.groups))
  }

  /** The row with this key is stored. */
  predicate Present(db: Db, key: RowKey)
  {
    match key
    case ActivityKeyOf(id) => id in ActivityIds(db)
    case UserKeyOf(id) => id in UserIds(db)
    case PermissionKeyOf(id) => id in PermissionIds(db)
    case RoleKeyOf(id) => id in RoleIds(db)
    case RolePermissionKeyOf(r, p) => (r, p) in Keys(db.rolePermissions, RolePermissionKey)
    case TenantKeyOf(id) => id in TenantIds(db)
    case MembershipKeyOf(u, t) => (u, t) in Keys(db.memberships, MembershipKey)
    case PlayerKeyOf(id) => id in PlayerIds(db)
    case EventKeyOf(id) => id in EventIds(db)
    case GroupKeyOf(id) => id in GroupIds(db)
    case ParticipantKeyOf(g, p) => (g, p) in Keys(db.participants, ParticipantKey)
    case TeamKeyOf(id) => id in TeamIds(db)
    case MemberKeyOf(id) => id in MemberIds(db)
    case ResultKeyOf(id) => id in ResultIds(db)
  }

  /** Why a DELETE is refused: the row is missing, or an ON DELETE RESTRICT
      foreign key still refers to it (tenants to an activity; tenants through
      DefaultRoleId and memberships to a role). */
  function DeleteViolation(db: Db, key: RowKey): Option<Violation>
  {
    if !Present(db, key) then Some(NotFound)
    else match key
      case ActivityKeyOf(id) =>
        if exists t :: t in db.tenants && t.activityId == id then Some(ForeignKeyViolation(FkTenantsActivity))
        else None
      case RoleKeyOf(id) =>
        if exists t :: t in db.tenants && t.defaultRoleId == id then Some(ForeignKeyViolation(FkTenantsDefaultRole))
        else if exists m :: m in db.memberships && m.roleId == id then Some(ForeignKeyViolation(FkMembershipsRole))
        else None
      case _ => None
  }

  /** The snapshot after removing the row with `key` and applying the
      referential action of every foreign key that reaches it. */
  function Cascaded(db: Db, key: RowKey): Db
  {
    Purge(db, Close(db, Roots(key)))
  }

  /** DELETE of one row: refused when the row is missing or a Restrict key
      protects it, otherwise the row is gone and the cascades have run. */
  function Delete(db: Db, key: RowKey): (r: Result<Db>)
    ensures r.Err? <==> DeleteViolation(db, key).Some?
    ensures r.Ok? ==> !Present(r.value, key)
  {
    match DeleteViolation(db, key)
    case Some(v) => Err(v)
    case None =>
      DeleteRemovesKey(db, key);
      Ok(Cascaded(db, key))
  }

  lemma DeleteRemovesKey(db: Db, key: RowKey)
    ensures !Present(Cascaded(db, key), key)
  {
    var d := Close(db, Roots(key));
    match key
    case ActivityKeyOf(id) => DropMembers(db.activities, ActivityKey, d.activities);
    case UserKeyOf(id) => DropMembers(db.users, UserKey, d.users);
    case PermissionKeyOf(id) => DropMembers(db.permissions, PermissionKey, d.permissions);
    case RoleKeyOf(id) => DropMembers(db.roles, RoleKey, d.roles);
    case RolePermissionKeyOf(r, p) =>
      var rp1 := Drop(db.rolePermissions, RolePermissionKey, d.rolePermissions);
      var rp2 := Drop(rp1, RolePermissionPermission, d.permissions);
      DropMembers(db.rolePermissions, RolePermissionKey, d.rolePermissions);
      DropMembers(rp1, RolePermissionPermission, d.permissions);
      DropMembers(rp2, RolePermissionRole, d.roles);
    case TenantKeyOf(id) => DropMembers(db.tenants, TenantKey, d.tenants);
    case MembershipKeyOf(u, t) =>
      var m1 := Drop(db.memberships, MembershipKey, d.memberships);
      var m2 := Drop(m1, MembershipUser, d.users);
      DropMembers(db.memberships, MembershipKey, d.memberships);
      DropMembers(m1, MembershipUser, d.users);
      DropMembers(m2, MembershipTenant, d.tenants);
    case PlayerKeyOf(id) => DropMembers(db.players, PlayerKey, d.players);
    case EventKeyOf(id) => DropMembers(db.events, EventKey, d.events);
    case GroupKeyOf(id) =>
      DropMembers(db.groups, GroupKey, d.groups);
      UnlinkTeamsKeepsKeys(Drop(db.groups, GroupKey, d.groups), d.teams);
    case ParticipantKeyOf(g, p) =>
      var p1 := Drop(db.participants, ParticipantKey, d.participants);
      var p2 := Drop(p1, ParticipantGroup, d.groups);
      DropMembers(db.participants, ParticipantKey, d.participants);
      DropMembers(p1, ParticipantGroup, d.groups);
      DropMembers(p2, ParticipantPlayer, d.players);
    case TeamKeyOf(id) => DropMembers(db.teams, TeamKey, d.teams);
    case MemberKeyOf(id) => DropMembers(db.teamMembers, MemberKey, d.members);
    case ResultKeyOf(id) =>
      DropMembers(db.results, ResultKey, d.results);
      UnlinkWinnersKeepsKeys(Drop(db.results, ResultKey, d.results), d.groups);
  }
}
