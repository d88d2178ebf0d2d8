/** The rows of the current relational schema (the entity classes under
    Api/Models and the columns the migrations create). Audit columns
    (CreatedAt, UpdatedAt, CreatedBy, UpdatedBy) are not modelled; times are
    plain integers. */
module Entities {
  import opened Tables

  datatype TenantVisibility = Public | LinkOnly | Private
  datatype TenantType = League | Tournament | Club | Community | Other
  datatype MembershipStatus = Active | Inactive | Pending | Banned
  datatype EventStatus = Scheduled | Ongoing | Completed | Cancelled
  datatype EventType = Match | Practice | Challenge | OtherEvent
  datatype TeamType = Static | Ephemeral
  datatype EventResultStatus = Draw | HasWinner | ResultCancelled | NoResult | Disputed

  datatype Activity = Activity(id: Id, name: string, code: string, isDeleted: bool)

  datatype AppUser = AppUser(id: Id, awsSubject: string, email: string, displayName: string,
                             isActive: bool, isDeleted: bool)

  datatype Permission = Permission(id: Id, name: string, code: string, isDeleted: bool)

  datatype Role = Role(id: Id, name: string, isDefault: bool, isDeleted: bool)

  /** Join row, keyed by (RoleId, PermissionId). */
  datatype RolePermission = RolePermission(roleId: Id, permissionId: Id)

  datatype Tenant = Tenant(id: Id, name: string, activityId: Id, visibility: TenantVisibility,
                           kind: TenantType, isActive: bool, defaultRoleId: Id, isDeleted: bool)

  /** Keyed by (AppUserId, TenantId); not an auditable entity. */
  datatype Membership = Membership(appUserId: Id, tenantId: Id, roleId: Id, status: MembershipStatus)

  datatype Player = Player(id: Id, tenantId: Id, appUserId: Id, displayName: string, isDeleted: bool)

  datatype ScheduledEvent = ScheduledEvent(id: Id, tenantId: Id, startTime: int, endTime: Option<int>,
                                           status: EventStatus, kind: EventType, isProjected: bool,
                                           version: int, isDeleted: bool)

  /** One side of an event: backed by a team when `teamId` is set, by its own
      participant rows otherwise. */
  datatype EventParticipantGroup = EventParticipantGroup(id: Id, eventId: Id, teamId: Option<Id>,
                                                         name: string, order: int, isDeleted: bool)

  /** Direct assignment of a player to a group, keyed by (GroupId, PlayerId). */
  datatype EventParticipant = EventParticipant(groupId: Id, playerId: Id)

  /** A row of the `team` table. The table stores the Team hierarchy with a
      discriminator, and StaticTeam is its only concrete class, so every row is
      a static team. */
  datatype Team = Team(id: Id, name: string, tenantId: Id, teamType: TeamType, isActive: bool,
                       seasonStart: int, seasonEnd: Option<int>, isDeleted: bool)

  /** One tenure of a player on a static team; `leftAt == None` means still active. */
  datatype StaticTeamMember = StaticTeamMember(id: Id, teamId: Id, playerId: Id, joinedAt: int,
                                               leftAt: Option<int>, leaveReason: Option<string>)

  datatype EventResult = EventResult(id: Id, eventId: Id, winningGroupId: Option<Id>,
                                     status: EventResultStatus, completedAt: int,
                                     notes: Option<string>, resultData: Option<string>, isDeleted: bool)

  // Key and foreign-key columns, as function values for the generic table machinery.

  function ActivityKey(a: Activity): Id { a.id }
  function UserKey(u: AppUser): Id { u.id }
  function AwsSubjectKey(u: AppUser): string { u.awsSubject }
  function PermissionKey(p: Permission): Id { p.id }
  function RoleKey(r: Role): Id { r.id }
  function RolePermissionKey(rp: RolePermission): (Id, Id) { (rp.roleId, rp.permissionId) }
  function RolePermissionRole(rp: RolePermission): Id { rp.roleId }
  function RolePermissionPermission(rp: RolePermission): Id { rp.permissionId }
  function TenantKey(t: Tenant): Id { t.id }
  function MembershipKey(m: Membership): (Id, Id) { (m.appUserId, m.tenantId) }
  function MembershipUser(m: Membership): Id { m.appUserId }
  function MembershipTenant(m: Membership): Id { m.tenantId }
  function PlayerKey(p: Player): Id { p.id }
  function PlayerTenantUserKey(p: Player): (Id, Id) { (p.tenantId, p.appUserId) }
  function PlayerTenant(p: Player): Id { p.tenantId }
  function PlayerUser(p: Player): Id { p.appUserId }
  function EventKey(e: ScheduledEvent): Id { e.id }
  function EventTenant(e: ScheduledEvent): Id { e.tenantId }
  function GroupKey(g: EventParticipantGroup): Id { g.id }
  function GroupEvent(g: EventParticipantGroup): Id { g.eventId }
  function ParticipantKey(ep: EventParticipant): (Id, Id) { (ep.groupId, ep.playerId) }
  function ParticipantGroup(ep: EventParticipant): Id { ep.groupId }
  function ParticipantPlayer(ep: EventParticipant): Id { ep.playerId }
  function TeamKey(t: Team): Id { t.id }
  function TeamTenant(t: Team): Id { t.tenantId }
  function MemberKey(m: StaticTeamMember): Id { m.id }
  function MemberTeam(m: StaticTeamMember): Id { m.teamId }
  function MemberPlayer(m: StaticTeamMember): Id { m.playerId }
  function MemberTeamPlayer(m: StaticTeamMember): (Id, Id) { (m.teamId, m.playerId) }
  function ResultKey(r: EventResult): Id { r.id }
  function ResultEvent(r: EventResult): Id { r.eventId }

  /** The filter of the partial unique index on (StaticTeamId, PlayerId): `"LeftAt" IS NULL`. */
  predicate IsOpen(m: StaticTeamMember) { m.leftAt.None? }
}
