/** What each referential action of the schema does, stated per delete and
    per insert: which rows a Cascade removes, which deletes a Restrict key
    refuses, which references a SetNull clears, and which duplicate rows the
    keys and unique indexes turn away. */
module Effects {
  import opened Tables
  import opened Entities
  import opened Schema
  import Integrity

  // ---------------------------------------------------------------- helpers

  /** An accepted delete yields the cascaded snapshot. */
  lemma DeleteIsCascade(db: Db, key: RowKey)
    requires DeleteViolation(db, key).None?
    ensures Delete(db, key) == Ok(Cascaded(db, key))
  {
  }

  // What a purge keeps of each table, one table at a time.

  lemma PurgedTenants(db: Db, d: Doomed)
    ensures forall t :: t in Purge(db, d).tenants <==> t in db.tenants && t.id !in d.tenants
  {
    DropMembers(db.tenants, TenantKey, d.tenants);
  }

  lemma PurgedUsers(db: Db, d: Doomed)
    ensures forall u :: u in Purge(db, d).users <==> u in db.users && u.id !in d.users
  {
    DropMembers(db.users, UserKey, d.users);
  }

  lemma PurgedRoles(db: Db, d: Doomed)
    ensures forall r :: r in Purge(db, d).roles <==> r in db.roles && r.id !in d.roles
  {
    DropMembers(db.roles, RoleKey, d.roles);
  }

  lemma PurgedPermissions(db: Db, d: Doomed)
    ensures forall p :: p in Purge(db, d).permissions <==> p in db.permissions && p.id !in d.permissions
  {
    DropMembers(db.permissions, PermissionKey, d.permissions);
  }

  lemma PurgedRolePermissions(db: Db, d: Doomed)
    ensures forall rp :: rp in Purge(db, d).rolePermissions <==>
      rp in db.rolePermissions && RolePermissionKey(rp) !in d.rolePermissions &&
      rp.permissionId !in d.permissions && rp.roleId !in d.roles
  {
    var rp1 := Drop(db.rolePermissions, RolePermissionKey, d.rolePermissions);
    var rp2 := Drop(rp1, RolePermissionPermission, d.permissions);
    DropMembers(db.rolePermissions, RolePermissionKey, d.rolePermissions);
    DropMembers(rp1, RolePermissionPermission, d.permissions);
    DropMembers(rp2, RolePermissionRole, d.roles);
  }

  lemma PurgedMemberships(db: Db, d: Doomed)
    ensures forall m :: m in Purge(db, d).memberships <==>
      m in db.memberships && MembershipKey(m) !in d.memberships &&
      m.appUserId !in d.users && m.tenantId !in d.tenants
  {
    var m1 := Drop(db.memberships, MembershipKey, d.memberships);
    var m2 := Drop(m1, MembershipUser, d.users);
    DropMembers(db.memberships, MembershipKey, d.memberships);
    DropMembers(m1, MembershipUser, d.users);
    DropMembers(m2, MembershipTenant, d.tenants);
  }

  lemma PurgedPlayers(db: Db, d: Doomed)
    ensures forall p :: p in Purge(db, d).players <==> p in db.players && p.id !in d.players
  {
    DropMembers(db.players, PlayerKey, d.players);
  }

  lemma PurgedEvents(db: Db, d: Doomed)
    ensures forall e :: e in Purge(db, d).events <==> e in db.events && e.id !in d.events
  {
    DropMembers(db.events, EventKey, d.events);
  }

  lemma PurgedGroups(db: Db, d: Doomed)
    requires d.teams == {}
    ensures forall g :: g in Purge(db, d).groups <==> g in db.groups && g.id !in d.groups
  {
    DropMembers(db.groups, GroupKey, d.groups);
    UnlinkNoTeams(Drop(db.groups, GroupKey, d.groups));
  }

  lemma PurgedParticipants(db: Db, d: Doomed)
    ensures forall ep :: ep in Purge(db, d).participants <==>
      ep in db.participants && ParticipantKey(ep) !in d.participants &&
      ep.groupId !in d.groups && ep.playerId !in d.players
  {
    var p1 := Drop(db.participants, ParticipantKey, d.participants);
    var p2 := Drop(p1, ParticipantGroup, d.groups);
    DropMembers(db.participants, ParticipantKey, d.participants);
    DropMembers(p1, ParticipantGroup, d.groups);
    DropMembers(p2, ParticipantPlayer, d.players);
  }

  lemma PurgedTeams(db: Db, d: Doomed)
    ensures forall t :: t in Purge(db, d).teams <==> t in db.teams && t.id !in d.teams
  {
    DropMembers(db.teams, TeamKey, d.teams);
  }

  lemma PurgedMembers(db: Db, d: Doomed)
    ensures forall m :: m in Purge(db, d).teamMembers <==> m in db.teamMembers && m.id !in d.members
  {
    DropMembers(db.teamMembers, MemberKey, d.members);
  }

  /** No result of an event in `events` survives, when those results are doomed. */
  lemma PurgedResultsAvoid(db: Db, d: Doomed, events: set<Id>)
    requires forall r :: r in db.results && r.eventId in events ==> r.id in d.results
    ensures forall r :: r in Purge(db, d).results ==> r.eventId !in events
  {
    var kept := Drop(db.results, ResultKey, d.results);
    var after := Purge(db, d).results;
    DropMembers(db.results, ResultKey, d.results);
    forall r | r in after ensures r.eventId !in events {
      var i :| 0 <= i < |after| && after[i] == r;
      assert kept[i] in kept;
    }
  }

  /** With no result doomed, every result stays in place and only loses a
      winning group that is doomed. */
  lemma PurgedWinners(db: Db, d: Doomed)
    requires d.results == {}
    ensures Purge(db, d).results == UnlinkWinners(db.results, d.groups)
  {
    DropNothing(db.results, ResultKey);
  }

  /** With no group doomed, every group stays in place and only loses a team
      that is doomed. */
  lemma PurgedTeamLinks(db: Db, d: Doomed)
    requires d.groups == {}
    ensures Purge(db, d).groups == UnlinkTeams(db.groups, d.teams)
  {
    DropNothing(db.groups, GroupKey);
  }

  lemma UnlinkNoTeams(gs: seq<EventParticipantGroup>)
    ensures UnlinkTeams(gs, {}) == gs
  {
  }

  lemma UnlinkNoWinners(rs: seq<EventResult>)
    ensures UnlinkWinners(rs, {}) == rs
  {
  }

  /** A purge leaves every table it has nothing to remove from, or to clear
      in, exactly as it was. */
  lemma PurgeFrame(db: Db, d: Doomed)
    ensures d.activities == {} ==> Purge(db, d).activities == db.activities
    ensures d.users == {} ==> Purge(db, d).users == db.users
    ensures d.permissions == {} ==> Purge(db, d).permissions == db.permissions
    ensures d.roles == {} ==> Purge(db, d).roles == db.roles
    ensures d.rolePermissions == {} && d.permissions == {} && d.roles == {} ==>
              Purge(db, d).rolePermissions == db.rolePermissions
    ensures d.tenants == {} ==> Purge(db, d).tenants == db.tenants
    ensures d.memberships == {} && d.users == {} && d.tenants == {} ==>
              Purge(db, d).memberships == db.memberships
    ensures d.players == {} ==> Purge(db, d).players == db.players
    ensures d.events == {} ==> Purge(db, d).events == db.events
    ensures d.groups == {} && d.teams == {} ==> Purge(db, d).groups == db.groups
    ensures d.participants == {} && d.groups == {} && d.players == {} ==>
              Purge(db, d).participants == db.participants
    ensures d.teams == {} ==> Purge(db, d).teams == db.teams
    ensures d.members == {} ==> Purge(db, d).teamMembers == db.teamMembers
    ensures d.results == {} && d.groups == {} ==> Purge(db, d).results == db.results
  {
    DropNothing(db.activities, ActivityKey);
    DropNothing(db.users, UserKey);
    DropNothing(db.permissions, PermissionKey);
    DropNothing(db.roles, RoleKey);
    DropNothing(db.rolePermissions, RolePermissionKey);
    DropNothing(db.rolePermissions, RolePermissionPermission);
    DropNothing(db.rolePermissions, RolePermissionRole);
    DropNothing(db.tenants, TenantKey);
    DropNothing(db.memberships, MembershipKey);
    DropNothing(db.memberships, MembershipUser);
    DropNothing(db.memberships, MembershipTenant);
    DropNothing(db.players, PlayerKey);
    DropNothing(db.events, EventKey);
    DropNothing(db.groups, GroupKey);
    UnlinkNoTeams(db.groups);
    DropNothing(db.participants, ParticipantKey);
    DropNothing(db.participants, ParticipantGroup);
    DropNothing(db.participants, ParticipantPlayer);
    DropNothing(db.teams, TeamKey);
    DropNothing(db.teamMembers, MemberKey);
    DropNothing(db.results, ResultKey);
    UnlinkNoWinners(db.results);
  }

  /** A delete whose roots reach no cascade dooms exactly its roots. */
  lemma QuietClose(db: Db, roots: Doomed)
    requires roots.tenants == {} && roots.users == {} && roots.events == {}
    requires roots.teams == {} && roots.players == {}
    ensures Close(db, roots) == roots
  {
    ReferringNone(db.players, PlayerKey, PlayerTenant, roots.tenants);
    ReferringNone(db.players, PlayerKey, PlayerUser, roots.users);
    ReferringNone(db.events, EventKey, EventTenant, roots.tenants);
    ReferringNone(db.teams, TeamKey, TeamTenant, roots.tenants);
    ReferringNone(db.groups, GroupKey, GroupEvent, roots.events);
    ReferringNone(db.teamMembers, MemberKey, MemberTeam, roots.teams);
    ReferringNone(db.teamMembers, MemberKey, MemberPlayer, roots.players);
    ReferringNone(db.results, ResultKey, ResultEvent, roots.events);
  }

  /** The groups a purge keeps, each with its TeamId cleared when that team is doomed. */
  lemma PurgedGroupLinks(db: Db, d: Doomed)
    ensures forall g :: g in db.groups && g.id !in d.groups ==> UnlinkTeam(g, d.teams) in Purge(db, d).groups
    ensures forall x :: x in Purge(db, d).groups ==>
              exists g :: g in db.groups && g.id !in d.groups && x == UnlinkTeam(g, d.teams)
  {
    var kept := Drop(db.groups, GroupKey, d.groups);
    var after := Purge(db, d).groups;
    DropMembers(db.groups, GroupKey, d.groups);
    forall g | g in db.groups && g.id !in d.groups ensures UnlinkTeam(g, d.teams) in after {
      var i :| 0 <= i < |kept| && kept[i] == g;
      assert after[i] == UnlinkTeam(g, d.teams);
    }
    forall x | x in after ensures exists g :: g in db.groups && g.id !in d.groups && x == UnlinkTeam(g, d.teams) {
      var i :| 0 <= i < |after| && after[i] == x;
      assert kept[i] in kept;
    }
  }

  /** The results a purge keeps, each with its winner cleared when that group is doomed. */
  lemma PurgedResultLinks(db: Db, d: Doomed)
    ensures forall r :: r in db.results && r.id !in d.results ==> UnlinkWinner(r, d.groups) in Purge(db, d).results
    ensures forall x :: x in Purge(db, d).results ==>
              exists r :: r in db.results && r.id !in d.results && x == UnlinkWinner(r, d.groups)
  {
    var kept := Drop(db.results, ResultKey, d.results);
    var after := Purge(db, d).results;
    DropMembers(db.results, ResultKey, d.results);
    forall r | r in db.results && r.id !in d.results ensures UnlinkWinner(r, d.groups) in after {
      var i :| 0 <= i < |kept| && kept[i] == r;
      assert after[i] == UnlinkWinner(r, d.groups);
    }
    forall x | x in after ensures exists r :: r in db.results && r.id !in d.results && x == UnlinkWinner(r, d.groups) {
      var i :| 0 <= i < |after| && after[i] == x;
      assert kept[i] in kept;
    }
  }

  // The ids a delete reaches through its cascades.

  function TeamsOf(db: Db, tenantId: Id): set<Id>
  {
    set t | t in db.teams && t.tenantId == tenantId :: t.id
  }

  function PlayersIn(db: Db, tenantId: Id): set<Id>
  {
    set p | p in db.players && p.tenantId == tenantId :: p.id
  }

  function PlayersFor(db: Db, userId: Id): set<Id>
  {
    set p | p in db.players && p.appUserId == userId :: p.id
  }

  function EventsOf(db: Db, tenantId: Id): set<Id>
  {
    set e | e in db.events && e.tenantId == tenantId :: e.id
  }

  function GroupsOf(db: Db, events: set<Id>): set<Id>
  {
    set g | g in db.groups && g.eventId in events :: g.id
  }

  lemma TeamsOfIs(db: Db, tenantId: Id)
    ensures TeamsOf(db, tenantId) == Referring(db.teams, TeamKey, TeamTenant, {tenantId})
  {
    ReferringIs(db.teams, TeamKey, TeamTenant, {tenantId});
  }

  lemma PlayersInIs(db: Db, tenantId: Id)
    ensures PlayersIn(db, tenantId) == Referring(db.players, PlayerKey, PlayerTenant, {tenantId})
  {
    ReferringIs(db.players, PlayerKey, PlayerTenant, {tenantId});
  }

  lemma PlayersForIs(db: Db, userId: Id)
    ensures PlayersFor(db, userId) == Referring(db.players, PlayerKey, PlayerUser, {userId})
  {
    ReferringIs(db.players, PlayerKey, PlayerUser, {userId});
  }

  lemma EventsOfIs(db: Db, tenantId: Id)
    ensures EventsOf(db, tenantId) == Referring(db.events, EventKey, EventTenant, {tenantId})
  {
    ReferringIs(db.events, EventKey, EventTenant, {tenantId});
  }

  lemma GroupsOfIs(db: Db, events: set<Id>)
    ensures GroupsOf(db, events) == Referring(db.groups, GroupKey, GroupEvent, events)
  {
    ReferringIs(db.groups, GroupKey, GroupEvent, events);
  }

  // ---------------------------------------------------------------- Restrict

  /** An activity that some tenant plays cannot be deleted. */
  lemma ActivityInUseBlocksDelete(db: Db, t: Tenant)
    requires Consistent(db) && t in db.tenants
    ensures Delete(db, ActivityKeyOf(t.activityId)) == Err(ForeignKeyViolation(FkTenantsActivity))
  {
    assert DeleteViolation(db, ActivityKeyOf(t.activityId)) == Some(ForeignKeyViolation(FkTenantsActivity));
  }

  /** A role that is some tenant's default role cannot be deleted. */
  lemma DefaultRoleBlocksDelete(db: Db, t: Tenant)
    requires Consistent(db) && t in db.tenants
    ensures Delete(db, RoleKeyOf(t.defaultRoleId)) == Err(ForeignKeyViolation(FkTenantsDefaultRole))
  {
    assert DeleteViolation(db, RoleKeyOf(t.defaultRoleId)) == Some(ForeignKeyViolation(FkTenantsDefaultRole));
  }

  /** A role that some membership grants cannot be deleted (the tenants'
      DefaultRoleId key is checked first). */
  lemma MembershipRoleBlocksDelete(db: Db, m: Membership)
    requires Consistent(db) && m in db.memberships
    ensures Delete(db, RoleKeyOf(m.roleId)).Err?
    ensures (forall t :: t in db.tenants ==> t.defaultRoleId != m.roleId) ==>
              Delete(db, RoleKeyOf(m.roleId)) == Err(ForeignKeyViolation(FkMembershipsRole))
  {
    assert DeleteViolation(db, RoleKeyOf(m.roleId)).Some?;
    if forall t :: t in db.tenants ==> t.defaultRoleId != m.roleId {
      assert DeleteViolation(db, RoleKeyOf(m.roleId)) == Some(ForeignKeyViolation(FkMembershipsRole));
    }
  }

  /** A role nobody refers to can be deleted, and its permission grants go with it. */
  lemma UnusedRoleDelete(db: Db, id: Id)
    requires id in RoleIds(db)
    requires forall t :: t in db.tenants ==> t.defaultRoleId != id
    requires forall m :: m in db.memberships ==> m.roleId != id
    ensures Delete(db, RoleKeyOf(id)) == Ok(Cascaded(db, RoleKeyOf(id)))
    ensures forall r :: r in Cascaded(db, RoleKeyOf(id)).roles <==> r in db.roles && r.id != id
    ensures forall rp :: rp in Cascaded(db, RoleKeyOf(id)).rolePermissions <==>
              rp in db.rolePermissions && rp.roleId != id
    ensures var after := Cascaded(db, RoleKeyOf(id));
      after == db.(roles := after.roles, rolePermissions := after.rolePermissions)
  {
    DeleteIsCascade(db, RoleKeyOf(id));
    RoleGone(db, id);
    RoleFrame(db, id);
  }

  lemma RoleGone(db: Db, id: Id)
    ensures forall r :: r in Cascaded(db, RoleKeyOf(id)).roles <==> r in db.roles && r.id != id
    ensures forall rp :: rp in Cascaded(db, RoleKeyOf(id)).rolePermissions <==>
              rp in db.rolePermissions && rp.roleId != id
  {
    var d := Close(db, Roots(RoleKeyOf(id)));
    PurgedRoles(db, d);
    PurgedRolePermissions(db, d);
  }

  /** Deleting a permission removes exactly its grants. */
  lemma PermissionDeleteRemovesGrants(db: Db, id: Id)
    requires id in PermissionIds(db)
    ensures Delete(db, PermissionKeyOf(id)) == Ok(Cascaded(db, PermissionKeyOf(id)))
    ensures forall p :: p in Cascaded(db, PermissionKeyOf(id)).permissions <==>
              p in db.permissions && p.id != id
    ensures forall rp :: rp in Cascaded(db, PermissionKeyOf(id)).rolePermissions <==>
              rp in db.rolePermissions && rp.permissionId != id
    ensures var after := Cascaded(db, PermissionKeyOf(id));
      after == db.(permissions := after.permissions, rolePermissions := after.rolePermissions)
  {
    DeleteIsCascade(db, PermissionKeyOf(id));
    PermissionGone(db, id);
    PermissionFrame(db, id);
  }

  lemma PermissionGone(db: Db, id: Id)
    ensures forall p :: p in Cascaded(db, PermissionKeyOf(id)).permissions <==> p in db.permissions && p.id != id
    ensures forall rp :: rp in Cascaded(db, PermissionKeyOf(id)).rolePermissions <==>
              rp in db.rolePermissions && rp.permissionId != id
  {
    var d := Close(db, Roots(PermissionKeyOf(id)));
    PurgedPermissions(db, d);
    PurgedRolePermissions(db, d);
  }

  /** Only the roles and the grants change when a role is deleted. */
  lemma RoleFrame(db: Db, id: Id)
    ensures var after := Cascaded(db, RoleKeyOf(id));
      after == db.(roles := after.roles, rolePermissions := after.rolePermissions)
  {
    var roots := Roots(RoleKeyOf(id));
    QuietClose(db, roots);
    PurgeFrame(db, roots);
  }

  /** Only the permissions and the grants change when a permission is deleted. */
  lemma PermissionFrame(db: Db, id: Id)
    ensures var after := Cascaded(db, PermissionKeyOf(id));
      after == db.(permissions := after.permissions, rolePermissions := after.rolePermissions)
  {
    var roots := Roots(PermissionKeyOf(id));
    QuietClose(db, roots);
    PurgeFrame(db, roots);
  }

  // ---------------------------------------------------------------- Cascade

  // Each lemma below states what one delete does to one table.

  lemma TenantGone(db: Db, id: Id)
    ensures forall t :: t in Cascaded(db, TenantKeyOf(id)).tenants <==> t in db.tenants && t.id != id
  {
    PurgedTenants(db, Close(db, Roots(TenantKeyOf(id))));
  }

  lemma TenantMembershipsGone(db: Db, id: Id)
    ensures forall m :: m in Cascaded(db, TenantKeyOf(id)).memberships <==>
              m in db.memberships && m.tenantId != id
  {
    PurgedMemberships(db, Close(db, Roots(TenantKeyOf(id))));
  }

  lemma TenantPlayersGone(db: Db, id: Id)
    requires Unique(db.players, PlayerKey)
    ensures forall p :: p in Cascaded(db, TenantKeyOf(id)).players <==> p in db.players && p.tenantId != id
  {
    PurgedPlayers(db, Close(db, Roots(TenantKeyOf(id))));
    ReferringExact(db.players, PlayerKey, PlayerTenant, {id});
    ReferringNone(db.players, PlayerKey, PlayerUser, {});
  }

  lemma TenantEventsGone(db: Db, id: Id)
    requires Unique(db.events, EventKey)
    ensures forall e :: e in Cascaded(db, TenantKeyOf(id)).events <==> e in db.events && e.tenantId != id
  {
    PurgedEvents(db, Close(db, Roots(TenantKeyOf(id))));
    ReferringExact(db.events, EventKey, EventTenant, {id});
  }

  lemma TenantTeamsGone(db: Db, id: Id)
    requires Unique(db.teams, TeamKey)
    ensures forall t :: t in Cascaded(db, TenantKeyOf(id)).teams <==> t in db.teams && t.tenantId != id
  {
    PurgedTeams(db, Close(db, Roots(TenantKeyOf(id))));
    ReferringExact(db.teams, TeamKey, TeamTenant, {id});
  }

  lemma TenantTenuresGone(db: Db, id: Id)
    ensures forall m, t :: m in Cascaded(db, TenantKeyOf(id)).teamMembers && t in db.teams && t.tenantId == id ==>
              m.teamId != t.id
  {
    var d := Close(db, Roots(TenantKeyOf(id)));
    PurgedMembers(db, d);
    ReferringHas(db.teams, TeamKey, TeamTenant, {id});
    ReferringHas(db.teamMembers, MemberKey, MemberTeam, d.teams);
  }

  lemma TenantResultsGone(db: Db, id: Id)
    ensures forall r, e :: r in Cascaded(db, TenantKeyOf(id)).results && e in db.events && e.tenantId == id ==>
              r.eventId != e.id
  {
    var d := Close(db, Roots(TenantKeyOf(id)));
    ReferringHas(db.events, EventKey, EventTenant, {id});
    ReferringHas(db.results, ResultKey, ResultEvent, d.events);
    PurgedResultsAvoid(db, d, d.events);
  }

  /** A tenure survives a tenant delete exactly when neither its team nor its
      player belongs to the tenant. */
  lemma TenantTenuresKept(db: Db, id: Id)
    requires Unique(db.teamMembers, MemberKey)
    ensures forall m :: m in Cascaded(db, TenantKeyOf(id)).teamMembers <==>
              m in db.teamMembers && m.teamId !in TeamsOf(db, id) && m.playerId !in PlayersIn(db, id)
  {
    var d := Close(db, Roots(TenantKeyOf(id)));
    ReferringNone(db.players, PlayerKey, PlayerUser, {});
    TeamsOfIs(db, id);
    PlayersInIs(db, id);
    assert d.teams == TeamsOf(db, id) && d.players == PlayersIn(db, id);
    ReferringExact(db.teamMembers, MemberKey, MemberTeam, d.teams);
    ReferringExact(db.teamMembers, MemberKey, MemberPlayer, d.players);
    PurgedMembers(db, d);
  }

  /** A participant row survives a tenant delete exactly when its group is not
      on one of the tenant's events and its player is not one of the tenant's. */
  lemma TenantParticipantsKept(db: Db, id: Id)
    ensures forall ep :: ep in Cascaded(db, TenantKeyOf(id)).participants <==>
              ep in db.participants && ep.groupId !in GroupsOf(db, EventsOf(db, id)) &&
              ep.playerId !in PlayersIn(db, id)
  {
    var d := Close(db, Roots(TenantKeyOf(id)));
    ReferringNone(db.players, PlayerKey, PlayerUser, {});
    EventsOfIs(db, id);
    GroupsOfIs(db, d.events);
    PlayersInIs(db, id);
    assert d.groups == GroupsOf(db, EventsOf(db, id)) && d.players == PlayersIn(db, id);
    PurgedParticipants(db, d);
  }

  /** The groups left by a tenant delete: every group of another tenant's
      event, with its TeamId cleared when it named one of the tenant's teams. */
  lemma TenantGroupsKept(db: Db, id: Id)
    requires Unique(db.groups, GroupKey)
    ensures var after := Cascaded(db, TenantKeyOf(id));
      && (forall g :: g in db.groups && g.eventId !in EventsOf(db, id) ==> UnlinkTeam(g, TeamsOf(db, id)) in after.groups)
      && (forall x :: x in after.groups ==>
            exists g :: g in db.groups && g.eventId !in EventsOf(db, id) && x == UnlinkTeam(g, TeamsOf(db, id)))
  {
    var d := Close(db, Roots(TenantKeyOf(id)));
    EventsOfIs(db, id);
    TeamsOfIs(db, id);
    assert d.events == EventsOf(db, id) && d.teams == TeamsOf(db, id);
    ReferringExact(db.groups, GroupKey, GroupEvent, d.events);
    PurgedGroupLinks(db, d);
  }

  /** The results left by a tenant delete: every result of another tenant's
      event, with its winner cleared when it was a group of one of the
      tenant's events. */
  lemma TenantResultsKept(db: Db, id: Id)
    requires Unique(db.results, ResultKey)
    ensures var after := Cascaded(db, TenantKeyOf(id));
      var gone := GroupsOf(db, EventsOf(db, id));
      && (forall r :: r in db.results && r.eventId !in EventsOf(db, id) ==> UnlinkWinner(r, gone) in after.results)
      && (forall x :: x in after.results ==>
            exists r :: r in db.results && r.eventId !in EventsOf(db, id) && x == UnlinkWinner(r, gone))
  {
    var d := Close(db, Roots(TenantKeyOf(id)));
    EventsOfIs(db, id);
    GroupsOfIs(db, d.events);
    assert d.events == EventsOf(db, id) && d.groups == GroupsOf(db, EventsOf(db, id));
    ReferringExact(db.results, ResultKey, ResultEvent, d.events);
    PurgedResultLinks(db, d);
  }

  /** A tenant delete changes nothing outside the tenant, membership, player,
      event, group, participant, team, tenure and result tables. */
  lemma TenantFrame(db: Db, id: Id)
    ensures var after := Cascaded(db, TenantKeyOf(id));
      after == db.(tenants := after.tenants, memberships := after.memberships, players := after.players,
                   events := after.events, groups := after.groups, participants := after.participants,
                   teams := after.teams, teamMembers := after.teamMembers, results := after.results)
  {
    PurgeFrame(db, Close(db, Roots(TenantKeyOf(id))));
  }

  /** Deleting a tenant removes its memberships, players, scheduled events
      (with their groups, participants and results) and teams (with every
      tenure on them); rows of other tenants stay, losing only their links to
      the tenant's teams and groups, and the other tables are untouched. */
  lemma TenantDeleteCascades(db: Db, id: Id)
    requires Unique(db.players, PlayerKey) && Unique(db.events, EventKey) && Unique(db.teams, TeamKey)
    requires Unique(db.groups, GroupKey) && Unique(db.teamMembers, MemberKey) && Unique(db.results, ResultKey)
    requires id in TenantIds(db)
    ensures Delete(db, TenantKeyOf(id)) == Ok(Cascaded(db, TenantKeyOf(id)))
    ensures var after := Cascaded(db, TenantKeyOf(id));
      && (forall t :: t in after.tenants <==> t in db.tenants && t.id != id)
      && (forall m :: m in after.memberships <==> m in db.memberships && m.tenantId != id)
      && (forall p :: p in after.players <==> p in db.players && p.tenantId != id)
      && (forall e :: e in after.events <==> e in db.events && e.tenantId != id)
      && (forall t :: t in after.teams <==> t in db.teams && t.tenantId != id)
      && (forall m :: m in after.teamMembers <==>
            m in db.teamMembers && m.teamId !in TeamsOf(db, id) && m.playerId !in PlayersIn(db, id))
      && (forall ep :: ep in after.participants <==>
            ep in db.participants && ep.groupId !in GroupsOf(db, EventsOf(db, id)) && ep.playerId !in PlayersIn(db, id))
    ensures var after := Cascaded(db, TenantKeyOf(id));
      && (forall g :: g in db.groups && g.eventId !in EventsOf(db, id) ==> UnlinkTeam(g, TeamsOf(db, id)) in after.groups)
      && (forall x :: x in after.groups ==>
            exists g :: g in db.groups && g.eventId !in EventsOf(db, id) && x == UnlinkTeam(g, TeamsOf(db, id)))
    ensures var after := Cascaded(db, TenantKeyOf(id));
      var gone := GroupsOf(db, EventsOf(db, id));
      && (forall r :: r in db.results && r.eventId !in EventsOf(db, id) ==> UnlinkWinner(r, gone) in after.results)
      && (forall x :: x in after.results ==>
            exists r :: r in db.results && r.eventId !in EventsOf(db, id) && x == UnlinkWinner(r, gone))
    ensures var after := Cascaded(db, TenantKeyOf(id));
      after == db.(tenants := after.tenants, memberships := after.memberships, players := after.players,
                   events := after.events, groups := after.groups, participants := after.participants,
                   teams := after.teams, teamMembers := after.teamMembers, results := after.results)
  {
    DeleteIsCascade(db, TenantKeyOf(id));
    TenantGone(db, id);
    TenantMembershipsGone(db, id);
    TenantPlayersGone(db, id);
    TenantEventsGone(db, id);
    TenantTeamsGone(db, id);
    TenantTenuresKept(db, id);
    TenantParticipantsKept(db, id);
    TenantGroupsKept(db, id);
    TenantResultsKept(db, id);
    TenantFrame(db, id);
  }

  lemma UserGone(db: Db, id: Id)
    ensures forall u :: u in Cascaded(db, UserKeyOf(id)).users <==> u in db.users && u.id != id
  {
    PurgedUsers(db, Close(db, Roots(UserKeyOf(id))));
  }

  lemma UserMembershipsGone(db: Db, id: Id)
    ensures forall m :: m in Cascaded(db, UserKeyOf(id)).memberships <==>
              m in db.memberships && m.appUserId != id
  {
    PurgedMemberships(db, Close(db, Roots(UserKeyOf(id))));
  }

  lemma UserPlayersGone(db: Db, id: Id)
    requires Unique(db.players, PlayerKey)
    ensures forall p :: p in Cascaded(db, UserKeyOf(id)).players <==> p in db.players && p.appUserId != id
  {
    PurgedPlayers(db, Close(db, Roots(UserKeyOf(id))));
    ReferringNone(db.players, PlayerKey, PlayerTenant, {});
    ReferringExact(db.players, PlayerKey, PlayerUser, {id});
  }

  lemma UserTenuresGone(db: Db, id: Id)
    ensures forall m, p :: m in Cascaded(db, UserKeyOf(id)).teamMembers && p in db.players && p.appUserId == id ==>
              m.playerId != p.id
  {
    var d := Close(db, Roots(UserKeyOf(id)));
    PurgedMembers(db, d);
    ReferringHas(db.players, PlayerKey, PlayerUser, {id});
    ReferringHas(db.teamMembers, MemberKey, MemberPlayer, d.players);
  }

  lemma UserParticipationsGone(db: Db, id: Id)
    ensures forall ep, p :: ep in Cascaded(db, UserKeyOf(id)).participants && p in db.players && p.appUserId == id ==>
              ep.playerId != p.id
  {
    var d := Close(db, Roots(UserKeyOf(id)));
    PurgedParticipants(db, d);
    ReferringHas(db.players, PlayerKey, PlayerUser, {id});
  }

  /** A tenure survives an account delete exactly when its player is not one
      of the account's. */
  lemma UserTenuresKept(db: Db, id: Id)
    requires Unique(db.teamMembers, MemberKey)
    ensures forall m :: m in Cascaded(db, UserKeyOf(id)).teamMembers <==>
              m in db.teamMembers && m.playerId !in PlayersFor(db, id)
  {
    var d := Close(db, Roots(UserKeyOf(id)));
    ReferringNone(db.players, PlayerKey, PlayerTenant, {});
    ReferringNone(db.teams, TeamKey, TeamTenant, {});
    ReferringNone(db.teamMembers, MemberKey, MemberTeam, {});
    PlayersForIs(db, id);
    assert d.players == PlayersFor(db, id);
    ReferringExact(db.teamMembers, MemberKey, MemberPlayer, d.players);
    PurgedMembers(db, d);
  }

  /** A participant row survives an account delete exactly when its player is
      not one of the account's. */
  lemma UserParticipationsKept(db: Db, id: Id)
    ensures forall ep :: ep in Cascaded(db, UserKeyOf(id)).participants <==>
              ep in db.participants && ep.playerId !in PlayersFor(db, id)
  {
    var d := Close(db, Roots(UserKeyOf(id)));
    ReferringNone(db.players, PlayerKey, PlayerTenant, {});
    ReferringNone(db.events, EventKey, EventTenant, {});
    ReferringNone(db.groups, GroupKey, GroupEvent, {});
    PlayersForIs(db, id);
    assert d.players == PlayersFor(db, id) && d.groups == {};
    PurgedParticipants(db, d);
  }

  /** An account delete changes only the user, membership, player,
      participant and tenure tables. */
  lemma UserFrame(db: Db, id: Id)
    ensures var after := Cascaded(db, UserKeyOf(id));
      after == db.(users := after.users, memberships := after.memberships, players := after.players,
                   participants := after.participants, teamMembers := after.teamMembers)
  {
    var d := Close(db, Roots(UserKeyOf(id)));
    ReferringNone(db.events, EventKey, EventTenant, {});
    ReferringNone(db.teams, TeamKey, TeamTenant, {});
    ReferringNone(db.groups, GroupKey, GroupEvent, {});
    ReferringNone(db.results, ResultKey, ResultEvent, {});
    PurgeFrame(db, d);
  }

  /** Deleting an account removes its memberships and its players in every
      tenant, and with those players exactly their tenures and event
      participations; the other tables are untouched. */
  lemma UserDeleteCascades(db: Db, id: Id)
    requires Unique(db.players, PlayerKey) && Unique(db.teamMembers, MemberKey) && id in UserIds(db)
    ensures Delete(db, UserKeyOf(id)) == Ok(Cascaded(db, UserKeyOf(id)))
    ensures var after := Cascaded(db, UserKeyOf(id));
      && (forall u :: u in after.users <==> u in db.users && u.id != id)
      && (forall m :: m in after.memberships <==> m in db.memberships && m.appUserId != id)
      && (forall p :: p in after.players <==> p in db.players && p.appUserId != id)
      && (forall m :: m in after.teamMembers <==> m in db.teamMembers && m.playerId !in PlayersFor(db, id))
      && (forall ep :: ep in after.participants <==> ep in db.participants && ep.playerId !in PlayersFor(db, id))
    ensures var after := Cascaded(db, UserKeyOf(id));
      after == db.(users := after.users, memberships := after.memberships, players := after.players,
                   participants := after.participants, teamMembers := after.teamMembers)
  {
    DeleteIsCascade(db, UserKeyOf(id));
    UserGone(db, id);
    UserMembershipsGone(db, id);
    UserPlayersGone(db, id);
    UserTenuresKept(db, id);
    UserParticipationsKept(db, id);
    UserFrame(db, id);
  }

  lemma PlayerGone(db: Db, id: Id)
    ensures forall p :: p in Cascaded(db, PlayerKeyOf(id)).players <==> p in db.players && p.id != id
  {
    var d := Close(db, Roots(PlayerKeyOf(id)));
    ReferringNone(db.players, PlayerKey, PlayerTenant, {});
    ReferringNone(db.players, PlayerKey, PlayerUser, {});
    PurgedPlayers(db, d);
  }

  lemma PlayerParticipationsGone(db: Db, id: Id)
    ensures forall ep :: ep in Cascaded(db, PlayerKeyOf(id)).participants <==>
              ep in db.participants && ep.playerId != id
  {
    var d := Close(db, Roots(PlayerKeyOf(id)));
    ReferringNone(db.players, PlayerKey, PlayerTenant, {});
    ReferringNone(db.players, PlayerKey, PlayerUser, {});
    ReferringNone(db.events, EventKey, EventTenant, {});
    ReferringNone(db.groups, GroupKey, GroupEvent, d.events);
    PurgedParticipants(db, d);
  }

  lemma PlayerTenuresGone(db: Db, id: Id)
    requires Unique(db.teamMembers, MemberKey)
    ensures forall m :: m in Cascaded(db, PlayerKeyOf(id)).teamMembers <==>
              m in db.teamMembers && m.playerId != id
  {
    var d := Close(db, Roots(PlayerKeyOf(id)));
    ReferringNone(db.players, PlayerKey, PlayerTenant, {});
    ReferringNone(db.players, PlayerKey, PlayerUser, {});
    ReferringNone(db.teams, TeamKey, TeamTenant, {});
    ReferringNone(db.teamMembers, MemberKey, MemberTeam, d.teams);
    ReferringExact(db.teamMembers, MemberKey, MemberPlayer, d.players);
    PurgedMembers(db, d);
  }

  /** A player delete changes only the player, participant and tenure tables. */
  lemma PlayerFrame(db: Db, id: Id)
    ensures var after := Cascaded(db, PlayerKeyOf(id));
      after == db.(players := after.players, participants := after.participants, teamMembers := after.teamMembers)
  {
    var d := Close(db, Roots(PlayerKeyOf(id)));
    ReferringNone(db.players, PlayerKey, PlayerTenant, {});
    ReferringNone(db.players, PlayerKey, PlayerUser, {});
    ReferringNone(db.events, EventKey, EventTenant, {});
    ReferringNone(db.teams, TeamKey, TeamTenant, {});
    ReferringNone(db.groups, GroupKey, GroupEvent, {});
    ReferringNone(db.results, ResultKey, ResultEvent, {});
    PurgeFrame(db, d);
  }

  /** Deleting a player removes exactly its event participations and its
      tenures, and no other table changes. */
  lemma PlayerDeleteCascades(db: Db, id: Id)
    requires Unique(db.teamMembers, MemberKey) && id in PlayerIds(db)
    ensures Delete(db, PlayerKeyOf(id)) == Ok(Cascaded(db, PlayerKeyOf(id)))
    ensures var after := Cascaded(db, PlayerKeyOf(id));
      && (forall p :: p in after.players <==> p in db.players && p.id != id)
      && (forall ep :: ep in after.participants <==> ep in db.participants && ep.playerId != id)
      && (forall m :: m in after.teamMembers <==> m in db.teamMembers && m.playerId != id)
    ensures var after := Cascaded(db, PlayerKeyOf(id));
      after == db.(players := after.players, participants := after.participants, teamMembers := after.teamMembers)
  {
    DeleteIsCascade(db, PlayerKeyOf(id));
    PlayerGone(db, id);
    PlayerParticipationsGone(db, id);
    PlayerTenuresGone(db, id);
    PlayerFrame(db, id);
  }

  lemma EventGone(db: Db, id: Id)
    ensures forall e :: e in Cascaded(db, EventKeyOf(id)).events <==> e in db.events && e.id != id
  {
    var d := Close(db, Roots(EventKeyOf(id)));
    ReferringNone(db.events, EventKey, EventTenant, {});
    PurgedEvents(db, d);
  }

  lemma EventGroupsGone(db: Db, id: Id)
    requires Unique(db.groups, GroupKey)
    ensures forall g :: g in Cascaded(db, EventKeyOf(id)).groups <==> g in db.groups && g.eventId != id
  {
    var d := Close(db, Roots(EventKeyOf(id)));
    ReferringNone(db.events, EventKey, EventTenant, {});
    ReferringNone(db.teams, TeamKey, TeamTenant, {});
    ReferringExact(db.groups, GroupKey, GroupEvent, d.events);
    PurgedGroups(db, d);
  }

  lemma EventParticipationsGone(db: Db, id: Id)
    ensures forall ep, g :: ep in Cascaded(db, EventKeyOf(id)).participants && g in db.groups && g.eventId == id ==>
              ep.groupId != g.id
  {
    var d := Close(db, Roots(EventKeyOf(id)));
    ReferringNone(db.events, EventKey, EventTenant, {});
    ReferringHas(db.groups, GroupKey, GroupEvent, d.events);
    PurgedParticipants(db, d);
  }

  lemma EventResultsGone(db: Db, id: Id)
    ensures forall r :: r in Cascaded(db, EventKeyOf(id)).results ==> r.eventId != id
  {
    var d := Close(db, Roots(EventKeyOf(id)));
    ReferringNone(db.events, EventKey, EventTenant, {});
    ReferringHas(db.results, ResultKey, ResultEvent, d.events);
    PurgedResultsAvoid(db, d, {id});
  }

  /** A participant row survives an event delete exactly when its group is not
      one of the event's. */
  lemma EventParticipationsKept(db: Db, id: Id)
    ensures forall ep :: ep in Cascaded(db, EventKeyOf(id)).participants <==>
              ep in db.participants && ep.groupId !in GroupsOf(db, {id})
  {
    var d := Close(db, Roots(EventKeyOf(id)));
    ReferringNone(db.players, PlayerKey, PlayerTenant, {});
    ReferringNone(db.players, PlayerKey, PlayerUser, {});
    ReferringNone(db.events, EventKey, EventTenant, {});
    assert d.events == {id};
    GroupsOfIs(db, {id});
    assert d.groups == GroupsOf(db, {id}) && d.players == {};
    PurgedParticipants(db, d);
  }

  /** The results left by an event delete: every result of another event, with
      its winner cleared when it was one of the deleted event's groups. */
  lemma EventResultsKept(db: Db, id: Id)
    requires Unique(db.results, ResultKey)
    ensures var after := Cascaded(db, EventKeyOf(id));
      && (forall r :: r in db.results && r.eventId != id ==> UnlinkWinner(r, GroupsOf(db, {id})) in after.results)
      && (forall x :: x in after.results ==>
            exists r :: r in db.results && r.eventId != id && x == UnlinkWinner(r, GroupsOf(db, {id})))
  {
    var d := Close(db, Roots(EventKeyOf(id)));
    ReferringNone(db.events, EventKey, EventTenant, {});
    GroupsOfIs(db, {id});
    assert d.events == {id} && d.groups == GroupsOf(db, {id});
    ReferringExact(db.results, ResultKey, ResultEvent, d.events);
    PurgedResultLinks(db, d);
  }

  /** An event delete changes only the event, group, participant and result tables. */
  lemma EventFrame(db: Db, id: Id)
    ensures var after := Cascaded(db, EventKeyOf(id));
      after == db.(events := after.events, groups := after.groups,
                   participants := after.participants, results := after.results)
  {
    var d := Close(db, Roots(EventKeyOf(id)));
    ReferringNone(db.players, PlayerKey, PlayerTenant, {});
    ReferringNone(db.players, PlayerKey, PlayerUser, {});
    ReferringNone(db.teams, TeamKey, TeamTenant, {});
    ReferringNone(db.teamMembers, MemberKey, MemberTeam, {});
    ReferringNone(db.teamMembers, MemberKey, MemberPlayer, {});
    PurgeFrame(db, d);
  }

  /** Deleting a scheduled event removes its groups, exactly their direct
      participants, and its results; other events' results stay, losing only a
      winner that was one of its groups, and the other tables are untouched. */
  lemma EventDeleteCascades(db: Db, id: Id)
    requires Unique(db.groups, GroupKey) && Unique(db.results, ResultKey) && id in EventIds(db)
    ensures Delete(db, EventKeyOf(id)) == Ok(Cascaded(db, EventKeyOf(id)))
    ensures var after := Cascaded(db, EventKeyOf(id));
      && (forall e :: e in after.events <==> e in db.events && e.id != id)
      && (forall g :: g in after.groups <==> g in db.groups && g.eventId != id)
      && (forall ep :: ep in after.participants <==> ep in db.participants && ep.groupId !in GroupsOf(db, {id}))
      && (forall r :: r in after.results ==> r.eventId != id)
    ensures var after := Cascaded(db, EventKeyOf(id));
      && (forall r :: r in db.results && r.eventId != id ==> UnlinkWinner(r, GroupsOf(db, {id})) in after.results)
      && (forall x :: x in after.results ==>
            exists r :: r in db.results && r.eventId != id && x == UnlinkWinner(r, GroupsOf(db, {id})))
    ensures var after := Cascaded(db, EventKeyOf(id));
      after == db.(events := after.events, groups := after.groups,
                   participants := after.participants, results := after.results)
  {
    DeleteIsCascade(db, EventKeyOf(id));
    EventGone(db, id);
    EventGroupsGone(db, id);
    EventParticipationsKept(db, id);
    EventResultsGone(db, id);
    EventResultsKept(db, id);
    EventFrame(db, id);
  }

  // ---------------------------------------------------------------- SetNull

  lemma GroupGone(db: Db, id: Id)
    ensures forall g :: g in Cascaded(db, GroupKeyOf(id)).groups <==> g in db.groups && g.id != id
  {
    var d := Close(db, Roots(GroupKeyOf(id)));
    ReferringNone(db.teams, TeamKey, TeamTenant, {});
    ReferringNone(db.events, EventKey, EventTenant, {});
    ReferringNone(db.groups, GroupKey, GroupEvent, d.events);
    PurgedGroups(db, d);
  }

  lemma GroupParticipantsGone(db: Db, id: Id)
    ensures forall ep :: ep in Cascaded(db, GroupKeyOf(id)).participants <==>
              ep in db.participants && ep.groupId != id
  {
    var d := Close(db, Roots(GroupKeyOf(id)));
    ReferringNone(db.players, PlayerKey, PlayerTenant, {});
    ReferringNone(db.players, PlayerKey, PlayerUser, {});
    ReferringNone(db.events, EventKey, EventTenant, {});
    ReferringNone(db.groups, GroupKey, GroupEvent, d.events);
    PurgedParticipants(db, d);
  }

  lemma GroupWinnersCleared(db: Db, id: Id)
    ensures Cascaded(db, GroupKeyOf(id)).results == UnlinkWinners(db.results, {id})
  {
    var d := Close(db, Roots(GroupKeyOf(id)));
    ReferringNone(db.events, EventKey, EventTenant, {});
    ReferringNone(db.results, ResultKey, ResultEvent, d.events);
    ReferringNone(db.groups, GroupKey, GroupEvent, d.events);
    PurgedWinners(db, d);
  }

  /** A group delete changes only the group, participant and result tables. */
  lemma GroupFrame(db: Db, id: Id)
    ensures var after := Cascaded(db, GroupKeyOf(id));
      after == db.(groups := after.groups, participants := after.participants, results := after.results)
  {
    var roots := Roots(GroupKeyOf(id));
    QuietClose(db, roots);
    PurgeFrame(db, roots);
  }

  /** Deleting a group removes its direct participants and clears, in place,
      every result's winning group that named it; no result is removed. */
  lemma GroupDeleteEffects(db: Db, id: Id)
    requires id in GroupIds(db)
    ensures Delete(db, GroupKeyOf(id)) == Ok(Cascaded(db, GroupKeyOf(id)))
    ensures var after := Cascaded(db, GroupKeyOf(id));
      && (forall g :: g in after.groups <==> g in db.groups && g.id != id)
      && (forall ep :: ep in after.participants <==> ep in db.participants && ep.groupId != id)
      && |after.results| == |db.results|
      && (forall i :: 0 <= i < |db.results| ==>
            after.results[i] == db.results[i].(winningGroupId :=
              if db.results[i].winningGroupId == Some(id) then None else db.results[i].winningGroupId))
    ensures var after := Cascaded(db, GroupKeyOf(id));
      after == db.(groups := after.groups, participants := after.participants, results := after.results)
  {
    DeleteIsCascade(db, GroupKeyOf(id));
    GroupGone(db, id);
    GroupParticipantsGone(db, id);
    GroupWinnersCleared(db, id);
    GroupFrame(db, id);
  }

  lemma TeamGone(db: Db, id: Id)
    ensures forall t :: t in Cascaded(db, TeamKeyOf(id)).teams <==> t in db.teams && t.id != id
  {
    var d := Close(db, Roots(TeamKeyOf(id)));
    ReferringNone(db.teams, TeamKey, TeamTenant, {});
    PurgedTeams(db, d);
  }

  lemma TeamTenuresGone(db: Db, id: Id)
    requires Unique(db.teamMembers, MemberKey)
    ensures forall m :: m in Cascaded(db, TeamKeyOf(id)).teamMembers <==> m in db.teamMembers && m.teamId != id
  {
    var d := Close(db, Roots(TeamKeyOf(id)));
    ReferringNone(db.teams, TeamKey, TeamTenant, {});
    ReferringNone(db.players, PlayerKey, PlayerTenant, {});
    ReferringNone(db.players, PlayerKey, PlayerUser, {});
    ReferringNone(db.teamMembers, MemberKey, MemberPlayer, d.players);
    ReferringExact(db.teamMembers, MemberKey, MemberTeam, d.teams);
    PurgedMembers(db, d);
  }

  lemma TeamLinksCleared(db: Db, id: Id)
    ensures Cascaded(db, TeamKeyOf(id)).groups == UnlinkTeams(db.groups, {id})
  {
    var d := Close(db, Roots(TeamKeyOf(id)));
    ReferringNone(db.teams, TeamKey, TeamTenant, {});
    ReferringNone(db.events, EventKey, EventTenant, {});
    ReferringNone(db.groups, GroupKey, GroupEvent, d.events);
    PurgedTeamLinks(db, d);
  }

  /** A team delete changes only the team, tenure and group tables. */
  lemma TeamFrame(db: Db, id: Id)
    ensures var after := Cascaded(db, TeamKeyOf(id));
      after == db.(teams := after.teams, teamMembers := after.teamMembers, groups := after.groups)
  {
    var d := Close(db, Roots(TeamKeyOf(id)));
    ReferringNone(db.players, PlayerKey, PlayerTenant, {});
    ReferringNone(db.players, PlayerKey, PlayerUser, {});
    ReferringNone(db.events, EventKey, EventTenant, {});
    ReferringNone(db.teams, TeamKey, TeamTenant, {});
    ReferringNone(db.groups, GroupKey, GroupEvent, {});
    ReferringNone(db.results, ResultKey, ResultEvent, {});
    ReferringNone(db.teamMembers, MemberKey, MemberPlayer, {});
    PurgeFrame(db, d);
  }

  /** Deleting a team removes its tenures and turns, in place, every group it
      backed into a group of direct participants; no group is removed. */
  lemma TeamDeleteEffects(db: Db, id: Id)
    requires Unique(db.teamMembers, MemberKey) && id in TeamIds(db)
    ensures Delete(db, TeamKeyOf(id)) == Ok(Cascaded(db, TeamKeyOf(id)))
    ensures var after := Cascaded(db, TeamKeyOf(id));
      && (forall t :: t in after.teams <==> t in db.teams && t.id != id)
      && (forall m :: m in after.teamMembers <==> m in db.teamMembers && m.teamId != id)
      && |after.groups| == |db.groups|
      && (forall i :: 0 <= i < |db.groups| ==>
            after.groups[i] == db.groups[i].(teamId :=
              if db.groups[i].teamId == Some(id) then None else db.groups[i].teamId))
    ensures var after := Cascaded(db, TeamKeyOf(id));
      after == db.(teams := after.teams, teamMembers := after.teamMembers, groups := after.groups)
  {
    DeleteIsCascade(db, TeamKeyOf(id));
    TeamGone(db, id);
    TeamTenuresGone(db, id);
    TeamLinksCleared(db, id);
    TeamFrame(db, id);
  }

  // ---------------------------------------------------------------- keys on insert

  /** A second membership for the same (AppUserId, TenantId) is refused. */
  lemma DuplicateMembershipRejected(db: Db, m: Membership, other: Membership)
    requires m in db.memberships
    requires other.appUserId == m.appUserId && other.tenantId == m.tenantId
    ensures Insert(db, MembershipRow(other)) == Err(UniqueViolation(PkMemberships))
  {
  }

  /** A second player for the same (TenantId, AppUserId) is refused, whatever its id. */
  lemma DuplicatePlayerRejected(db: Db, p: Player, other: Player)
    requires p in db.players
    requires other.tenantId == p.tenantId && other.appUserId == p.appUserId
    ensures Insert(db, PlayerRow(other)).Err?
    ensures other.id !in PlayerIds(db) ==>
              Insert(db, PlayerRow(other)) == Err(UniqueViolation(IxPlayersTenantAppUser))
  {
    assert PlayerTenantUserKey(other) == PlayerTenantUserKey(p);
  }

  /** A second app user with the same AwsSubject is refused. */
  lemma DuplicateAwsSubjectRejected(db: Db, u: AppUser, other: AppUser)
    requires u in db.users && other.awsSubject == u.awsSubject && other.id !in UserIds(db)
    ensures Insert(db, UserRow(other)) == Err(UniqueViolation(IxAppUsersAwsSubject))
  {
    assert AwsSubjectKey(other) == AwsSubjectKey(u);
  }

  /** A second open tenure for the same (team, player) is refused. */
  lemma SecondOpenTenureRejected(db: Db, m: StaticTeamMember, other: StaticTeamMember)
    requires m in db.teamMembers && IsOpen(m)
    requires IsOpen(other) && other.teamId == m.teamId && other.playerId == m.playerId
    requires other.id !in MemberIds(db)
    ensures Insert(db, MemberRow(other)) == Err(UniqueViolation(IxTeamMembersOpenTenure))
  {
    var i :| 0 <= i < |db.teamMembers| && db.teamMembers[i] == m;
  }

  /** A closed tenure is outside the partial index: with a fresh id and
      existing team and player it is accepted, whatever tenures the pair has. */
  lemma ClosedTenureAccepted(db: Db, m: StaticTeamMember)
    requires !IsOpen(m) && m.id !in MemberIds(db)
    requires m.teamId in TeamIds(db) && m.playerId in PlayerIds(db)
    ensures Insert(db, MemberRow(m)) == Ok(db.(teamMembers := db.teamMembers + [m]))
  {
  }

  /** A group without a team needs only a fresh id and an existing event. */
  lemma GroupWithoutTeamAccepted(db: Db, g: EventParticipantGroup)
    requires g.teamId.None? && g.id !in GroupIds(db) && g.eventId in EventIds(db)
    ensures Insert(db, GroupRow(g)) == Ok(db.(groups := db.groups + [g]))
  {
  }

  /** The index on a result's ScheduledEventId is not unique: a result with a
      fresh id, an existing event and no winner is accepted even when that event
      already has results. */
  lemma ResultWithoutWinnerAccepted(db: Db, r: EventResult)
    requires r.winningGroupId.None? && r.id !in ResultIds(db) && r.eventId in EventIds(db)
    ensures Insert(db, ResultRow(r)) == Ok(db.(results := db.results + [r]))
  {
  }

  /** A second result for an event that already has one is not refused. */
  lemma SecondResultAccepted(db: Db, r: EventResult, other: EventResult)
    requires ResultRefs(db.results, EventIds(db), GroupIds(db))
    requires r in db.results && other.eventId == r.eventId
    requires other.winningGroupId.None? && other.id !in ResultIds(db)
    ensures Insert(db, ResultRow(other)) == Ok(db.(results := db.results + [other]))
  {
    ResultWithoutWinnerAccepted(db, other);
  }
}
