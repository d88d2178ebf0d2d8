# Event participants, soft delete and the relational schema — a Dafny model

This project models the core of a multi-tenant sports-league back end (ASP.NET
with Entity Framework Core on PostgreSQL). It has three parts.

- **Participant resolver** (`Participants`, from `EventParticipantService`).
  An event participant group is one side of a scheduled event. Its roster
  comes from one of two sources:
  - the open tenures (`LeftAt` null) of the static team it names;
  - otherwise its own `EventParticipant` rows.

  `GetParticipants`, `GetParticipantCount` and `IsStaticTeam` are functions of
  a store snapshot. The three queries only read, so each is a function and
  none can change the store. The list branches on "has a TeamId and the team
  is a StaticTeam". The count and the flag branch on "has a TeamId" alone.
  The model keeps that asymmetry. `DanglingTeamSplitsSources` exhibits a
  store where the two disagree. Referential integrity rules that store out,
  and `ConsistentCountIsLength` proves that in a consistent store the count
  is always the list's length. `CountIsRowCount` states the count as a
  number of stored rows.
- **Soft-delete save hook and query filters** (`Context`, from
  `ApplicationDbContext`).
  - The change tracker is an array of entries.
  - `ApplySoftDeleteLogic` is a loop that rewrites, in place, every pending
    delete of an auditable entity into an update raising `IsDeleted`.
  - `SaveChanges` and `SaveChangesAsync` run it before handing the entries
    to the base save.
  - The query filters are predicates that hide flagged rows, and hide
    `AppUserLeague` links whose user is flagged.
- **Relational store** (`Entities`, `Schema`, `Integrity`, `Effects`,
  `Store`), from the current migrations: InitialCreate of 2026-02-15,
  AddedStaticTeamOptionalFeature and AddedEventResult.
  - Tables are sequences of rows.
  - Primary keys and unique indexes are index-based invariants. This
    includes the partial index allowing one open tenure per (team, player).
  - `Insert` refuses the first violated key, unique index or foreign key.
  - `Delete` refuses a missing row or a Restrict reference. Otherwise it
    computes the cascade closure, removes the doomed rows and the join rows
    naming them, and clears the SetNull references (a group's `TeamId`, a
    result's `WinningGroupId`).
  - `Integrity` proves that both operations preserve consistency: keys,
    unique indexes and referential integrity.
  - `Effects` states what each kind of delete and insert does.
  - `Store.Database` is the class that performs these operations in place.
    Its methods are proved against the snapshot functions, and the class
    invariant is consistency.

Ids (Guid v7) are natural numbers, and timestamps are integers. The `team`
table stores the Team hierarchy with a discriminator, and StaticTeam is its
only concrete class. So "the group's Team is a StaticTeam" holds exactly when
the referenced team row exists. Entity Framework's `FirstOrDefault` is the
first row in table order. The `Select(x => x.Player)` navigation is a join on
the players table that yields nothing for a missing player.

## Model

| member | source | states |
|---|---|---|
| Participants.GetParticipants | Api/Services/EventParticipantService.cs:40-68 | An unknown group id yields the empty list. |
| Participants.GetParticipantCount | Api/Services/EventParticipantService.cs:74-95 | An unknown group id yields 0. |
| Participants.IsStaticTeam | Api/Services/EventParticipantService.cs:100-106 | True only for a stored group id. |
| Participants.AnyWithTeam | Api/Services/EventParticipantService.cs:102-105 | True exactly when some group row has this id and a TeamId. |
| Participants.OpenTenures | Api/Services/EventParticipantService.cs:55-56 | Exactly the tenures on the team whose LeftAt is null, each as often as it is stored and no other row. |
| Participants.DirectParticipants | Api/Services/EventParticipantService.cs:65-66 | Exactly the participant rows of the group, each as often as it is stored and no other row. |
| Participants.PlayersOf | Api/Services/EventParticipantService.cs:57-58 | The join yields at most one player per row. |
| Participants.PlayersOfNamed | Api/Services/EventParticipantService.cs:57-58 | Every player produced is stored and named by some row. |
| Participants.PlayersOfExact | Api/Services/EventParticipantService.cs:57-58 | Under the players' key, a stored player is produced iff some row names it. |
| Participants.PlayersOfLength | Api/Services/EventParticipantService.cs:65-67 | When every row names a stored player, no row is lost. |
| Participants.PlayersOfDistinct | Api/Services/EventParticipantService.cs:58-59 | Rows naming distinct players produce no duplicate. |
| Participants.OpenTenuresDistinct | Api/Migrations/20260216023545_AddedStaticTeamOptionalFeature.cs:121-127 | The open-tenure index makes a team's open tenures name pairwise distinct players. |
| Participants.DirectParticipantsDistinct | Api/Migrations/20260215233742_InitialCreate.cs:301 | The (GroupId, PlayerId) key makes a group's participant rows name distinct players. |
| Participants.UnknownGroup | Api/Services/EventParticipantService.cs:46-105 | An unknown group id gives the empty list, a count of 0 and a false flag. |
| Participants.StaticRoster | Api/Services/EventParticipantService.cs:52-61 | A group naming a stored team lists exactly the players with an open tenure on it. Closed tenures never appear, and its direct rows are not read. |
| Participants.DirectList | Api/Services/EventParticipantService.cs:64-67 | Any other group lists exactly the players of its own participant rows. The tenure table is not read. |
| Participants.CountIsLength | Api/Services/EventParticipantService.cs:40-95 | When the list reads the source the count reads and every row names a stored player, the count is the list's length. |
| Participants.ConsistentCountIsLength | Api/Services/EventParticipantService.cs:84-94 | In a consistent store the count always equals the list's length. |
| Participants.CountIsRowCount | Api/Services/EventParticipantService.cs:76-94 | The count of a stored group is the number of open-tenure rows on its team when it names one, and the number of its own participant rows otherwise. |
| Participants.OpenTenuresCount | Api/Services/EventParticipantService.cs:86-88 | The open-tenure list has one entry per table position holding an open tenure on the team. |
| Participants.DirectParticipantsCount | Api/Services/EventParticipantService.cs:92-94 | The direct list has one entry per table position holding a participant row of the group. |
| Participants.DanglingTeamSplitsSources | Api/Services/EventParticipantService.cs:52 | A group naming a missing team lists its direct participant while counting 0 and reporting a static team. |
| Participants.IsStaticTeamExact | Api/Services/EventParticipantService.cs:104 | The flag holds iff the group is stored and has a TeamId. |
| Participants.ParticipantsDistinct | Api/Services/EventParticipantService.cs:55-67 | Under the schema's keys no player is listed twice, on either path. |
| Participants.TeamColumnsIrrelevant | Api/Services/EventParticipantService.cs:52 | Only the team row's existence matters: a team table with the same ids gives the same three answers. |
| Context.SoftDeleteAll | Api/Data/ApplicationDbContext.cs:21-28 | The hook keeps the number of entries. |
| Context.NoHardDeleteRemains | Api/Data/ApplicationDbContext.cs:21-28 | After the hook no auditable entry is in state Deleted. |
| Context.SoftDeleteExact | Api/Data/ApplicationDbContext.cs:23-27 | Each pending auditable delete becomes Modified with IsDeleted raised. Every other entry, non-auditable ones included, is unchanged. |
| Context.SoftDeleteIdempotent | Api/Data/ApplicationDbContext.cs:19-29 | Applying the hook twice equals applying it once. |
| Context.ApplicationDbContext.constructor | Api/Data/ApplicationDbContext.cs:8-11 | The context tracks the given entries. |
| Context.ApplicationDbContext.ApplySoftDeleteLogic | Api/Data/ApplicationDbContext.cs:19-29 | The in-place loop leaves exactly the hook's rewrite of the old entries, and no hard delete remains. |
| Context.ApplicationDbContext.SaveChanges | Api/Data/ApplicationDbContext.cs:31-35 | The base save receives the rewritten entries, which hold no hard delete. |
| Context.ApplicationDbContext.SaveChangesAsync | Api/Data/ApplicationDbContext.cs:37-41 | The same, for the asynchronous save. |
| Context.VisibleExact | Api/Data/ApplicationDbContext.cs:55-58 | A default read returns exactly the stored rows whose flag is down. |
| Context.DefaultReadsHideDeleted | Api/Data/ApplicationDbContext.cs:55-58 | Users, activities, leagues and scheduled events are read iff stored with IsDeleted false. |
| Context.VisibleIdempotent | Api/Data/ApplicationDbContext.cs:55-58 | Filtering twice equals filtering once. |
| Context.VisibleLinks | Api/Data/ApplicationDbContext.cs:59 | A link is read iff it is stored and its user is stored and not soft-deleted. |
| Context.LinkVisibleExact | Api/Data/ApplicationDbContext.cs:59 | Under the users' key a link is visible iff its user is not flagged, and links of the same user are both visible or both hidden. |
| Context.VisibleLinksKeepKey | Api/Data/ApplicationDbContext.cs:69-70 | Filtering links keeps the (AppUserId, LeagueId) key unique. |
| Schema.Insert | Api/Migrations/20260215233742_InitialCreate.cs:17-366 | Refused iff some key, unique index or foreign key is violated. Otherwise the row is stored, every earlier row is kept and the row count grows by one. `InsertAcceptedIff` states the refusal against the consistency invariant in both directions. |
| Schema.AppendAddsRow | Api/Migrations/20260215233742_InitialCreate.cs:17-316 | Appending stores the row, keeps every other row and adds exactly one row. |
| Schema.CloseIsCascadeClosed | Api/Migrations/20260215233742_InitialCreate.cs:217-288 | The closure of a delete reaches every row an ON DELETE CASCADE key leads to. |
| Schema.UnlinkTeamsKeepsKeys | Api/Migrations/20260216023545_AddedStaticTeamOptionalFeature.cs:135-143 | SetNull on TeamId keeps every group and its key. |
| Schema.UnlinkWinnersKeepsKeys | Api/Migrations/20260216004447_AddedEventResult.cs:35-41 | SetNull on WinningGroupId keeps every result and its key. |
| Schema.Delete | Api/Migrations/20260215233742_InitialCreate.cs:109-315 | Refused iff the row is missing or a Restrict key protects it. Otherwise the row is gone. |
| Schema.DeleteRemovesKey | Api/Migrations/20260215233742_InitialCreate.cs:109-315 | After the cascades the deleted key is no longer present. |
| Integrity.EmptyIsConsistent | Api/Migrations/20260215233742_InitialCreate.cs:17-316 | The freshly created schema satisfies every constraint. |
| Integrity.InsertPreservesConsistency | Api/Migrations/20260215233742_InitialCreate.cs:109-366 | An accepted insert keeps every key, unique index and foreign key. |
| Integrity.ConsistentInsertAccepted | Api/Migrations/20260215233742_InitialCreate.cs:17-366 | An insert whose result would satisfy every key, unique index and foreign key is accepted. |
| Integrity.InsertAcceptedIff | Api/Migrations/20260215233742_InitialCreate.cs:17-366 | On a consistent store an insert is accepted exactly when the store with the row appended is consistent. |
| Integrity.AppendActivityRowKeeps | Api/Migrations/20260215233742_InitialCreate.cs:17-34 | An accepted activity keeps the store consistent. |
| Integrity.AppendUserRowKeeps | Api/Migrations/20260215233742_InitialCreate.cs:318-323 | An accepted user keeps the store consistent, the AwsSubject index included. |
| Integrity.AppendPermissionRowKeeps | Api/Migrations/20260215233742_InitialCreate.cs:58-76 | An accepted permission keeps the store consistent. |
| Integrity.AppendRoleRowKeeps | Api/Migrations/20260215233742_InitialCreate.cs:78-96 | An accepted role keeps the store consistent. |
| Integrity.AppendRolePermissionRowKeeps | Api/Migrations/20260215233742_InitialCreate.cs:98-123 | An accepted grant keeps the store consistent. |
| Integrity.AppendTenantRowKeeps | Api/Migrations/20260215233742_InitialCreate.cs:125-161 | An accepted tenant keeps the store consistent. |
| Integrity.AppendMembershipRowKeeps | Api/Migrations/20260215233742_InitialCreate.cs:163-197 | An accepted membership keeps the store consistent. |
| Integrity.AppendPlayerRowKeeps | Api/Migrations/20260215233742_InitialCreate.cs:361-366 | An accepted player keeps the store consistent, the (TenantId, AppUserId) index included. |
| Integrity.AppendEventRowKeeps | Api/Migrations/20260215233742_InitialCreate.cs:233-262 | An accepted scheduled event keeps the store consistent. |
| Integrity.AppendGroupRowKeeps | Api/Migrations/20260215233742_InitialCreate.cs:264-289 | An accepted group keeps the store consistent. |
| Integrity.AppendParticipantRowKeeps | Api/Migrations/20260215233742_InitialCreate.cs:291-316 | An accepted participant keeps the store consistent. |
| Integrity.AppendTeamRowKeeps | Api/Migrations/20260216023545_AddedStaticTeamOptionalFeature.cs:33-64 | An accepted team keeps the store consistent. |
| Integrity.AppendMemberRowKeeps | Api/Migrations/20260216023545_AddedStaticTeamOptionalFeature.cs:121-127 | An accepted tenure keeps the store consistent, the open-tenure index included. |
| Integrity.AppendResultRowKeeps | Api/Migrations/20260216004447_AddedEventResult.cs:14-49 | An accepted result keeps the store consistent. |
| Integrity.ActivityAccepted | Api/Migrations/20260215233742_InitialCreate.cs:17-34 | An activity that leaves every key, unique index and foreign key intact is not refused. |
| Integrity.UserAccepted | Api/Migrations/20260215233742_InitialCreate.cs:318-323 | A user that leaves every key, unique index and foreign key intact is not refused. |
| Integrity.PermissionAccepted | Api/Migrations/20260215233742_InitialCreate.cs:58-76 | A permission that leaves every key, unique index and foreign key intact is not refused. |
| Integrity.RoleAccepted | Api/Migrations/20260215233742_InitialCreate.cs:78-96 | A role that leaves every key, unique index and foreign key intact is not refused. |
| Integrity.RolePermissionAccepted | Api/Migrations/20260215233742_InitialCreate.cs:98-123 | A grant that leaves every key, unique index and foreign key intact is not refused. |
| Integrity.TenantAccepted | Api/Migrations/20260215233742_InitialCreate.cs:125-161 | A tenant that leaves every key, unique index and foreign key intact is not refused. |
| Integrity.MembershipAccepted | Api/Migrations/20260215233742_InitialCreate.cs:163-197 | A membership that leaves every key, unique index and foreign key intact is not refused. |
| Integrity.PlayerAccepted | Api/Migrations/20260215233742_InitialCreate.cs:361-366 | A player that leaves every key, unique index and foreign key intact is not refused. |
| Integrity.EventAccepted | Api/Migrations/20260215233742_InitialCreate.cs:233-262 | A scheduled event that leaves every key, unique index and foreign key intact is not refused. |
| Integrity.GroupAccepted | Api/Migrations/20260215233742_InitialCreate.cs:264-289 | A group that leaves every key, unique index and foreign key intact is not refused. |
| Integrity.ParticipantAccepted | Api/Migrations/20260215233742_InitialCreate.cs:291-316 | A participant that leaves every key, unique index and foreign key intact is not refused. |
| Integrity.TeamAccepted | Api/Migrations/20260216023545_AddedStaticTeamOptionalFeature.cs:33-64 | A team that leaves every key, unique index and foreign key intact is not refused. |
| Integrity.MemberAccepted | Api/Migrations/20260216023545_AddedStaticTeamOptionalFeature.cs:121-127 | A tenure that leaves every key, unique index and foreign key intact is not refused. |
| Integrity.ResultAccepted | Api/Migrations/20260216004447_AddedEventResult.cs:14-49 | A result that leaves every key, unique index and foreign key intact is not refused. |
| Integrity.PurgeKeepsKeys | Api/Migrations/20260215233742_InitialCreate.cs:318-366 | Removing rows and clearing SetNull references keeps every key and unique index. |
| Integrity.UnlinkTeamsKeepsUnique | Api/Migrations/20260216023545_AddedStaticTeamOptionalFeature.cs:135-143 | Clearing TeamId keeps the group key unique. |
| Integrity.UnlinkWinnersKeepsUnique | Api/Migrations/20260216004447_AddedEventResult.cs:35-41 | Clearing WinningGroupId keeps the result key unique. |
| Integrity.PurgeIds | Api/Migrations/20260215233742_InitialCreate.cs:109-315 | After the purge each table's key set is the old one minus the doomed keys. |
| Integrity.PurgeKeepsRefs | Api/Migrations/20260215233742_InitialCreate.cs:109-315 | A purge closed under Cascade and clear of Restrict keeps referential integrity. |
| Integrity.PurgeKeepsRolePermissionRefs | Api/Migrations/20260215233742_InitialCreate.cs:109-122 | Grants survive only with their role and permission. |
| Integrity.PurgeKeepsTenantRefs | Api/Migrations/20260215233742_InitialCreate.cs:147-160 | With no Restrict reference doomed, every tenant keeps its activity and default role. |
| Integrity.PurgeKeepsMembershipRefs | Api/Migrations/20260215233742_InitialCreate.cs:176-196 | Every surviving membership keeps its user, tenant and role. |
| Integrity.PurgeKeepsPlayerRefs | Api/Migrations/20260215233742_InitialCreate.cs:217-230 | Every surviving player keeps its user and tenant. |
| Integrity.PurgeKeepsEventRefs | Api/Migrations/20260215233742_InitialCreate.cs:255-261 | Every surviving event keeps its tenant. |
| Integrity.PurgeKeepsParticipantRefs | Api/Migrations/20260215233742_InitialCreate.cs:302-315 | Every surviving participant keeps its group and player. |
| Integrity.PurgeKeepsTeamRefs | Api/Migrations/20260216023545_AddedStaticTeamOptionalFeature.cs:57-63 | Every surviving team keeps its tenant. |
| Integrity.PurgeKeepsMemberRefs | Api/Migrations/20260216023545_AddedStaticTeamOptionalFeature.cs:81-94 | Every surviving tenure keeps its team and player. |
| Integrity.PurgeKeepsGroupRefs | Api/Migrations/20260216023545_AddedStaticTeamOptionalFeature.cs:135-143 | Every surviving group keeps its event, and its TeamId is cleared or names a surviving team. |
| Integrity.PurgeKeepsResultRefs | Api/Migrations/20260216004447_AddedEventResult.cs:35-48 | Every surviving result keeps its event, and its winner is cleared or names a surviving group. |
| Integrity.PurgePreservesConsistency | Api/Migrations/20260215233742_InitialCreate.cs:109-366 | A purge closed under Cascade and clear of Restrict keeps the store consistent. |
| Integrity.AllowedDeleteIsRestrictClear | Api/Migrations/20260215233742_InitialCreate.cs:147-189 | A delete that is not refused dooms no row a surviving Restrict key names. |
| Integrity.DeletePreservesConsistency | Api/Migrations/20260215233742_InitialCreate.cs:109-315 | After any accepted delete every foreign key still names an existing row. |
| Effects.ActivityInUseBlocksDelete | Api/Migrations/20260215233742_InitialCreate.cs:147-153 | Deleting an activity a tenant uses is refused by the Restrict key. |
| Effects.DefaultRoleBlocksDelete | Api/Migrations/20260215233742_InitialCreate.cs:154-160 | Deleting a tenant's default role is refused. |
| Effects.MembershipRoleBlocksDelete | Api/Migrations/20260215233742_InitialCreate.cs:183-189 | Deleting a role a membership holds is refused. |
| Effects.UnusedRoleDelete | Api/Migrations/20260215233742_InitialCreate.cs:116-122 | An unreferenced role is deleted together with exactly its grants, and every other table is unchanged. |
| Effects.RoleGone | Api/Migrations/20260215233742_InitialCreate.cs:116-122 | The role's cascade removes exactly that role and its grants. |
| Effects.RoleFrame | Api/Migrations/20260215233742_InitialCreate.cs:116-122 | A role delete changes only the roles and grants tables. |
| Effects.PermissionDeleteRemovesGrants | Api/Migrations/20260215233742_InitialCreate.cs:109-115 | Deleting a permission succeeds and removes exactly it and its grants. Every other table is unchanged. |
| Effects.PermissionGone | Api/Migrations/20260215233742_InitialCreate.cs:109-115 | The permission's cascade removes exactly it and its grants. |
| Effects.PermissionFrame | Api/Migrations/20260215233742_InitialCreate.cs:109-115 | A permission delete changes only the permissions and grants tables. |
| Effects.TenantGone | Api/Migrations/20260215233742_InitialCreate.cs:125-146 | The tenant's cascade removes exactly that tenant. |
| Effects.TenantMembershipsGone | Api/Migrations/20260215233742_InitialCreate.cs:190-196 | It removes exactly the tenant's memberships. |
| Effects.TenantPlayersGone | Api/Migrations/20260215233742_InitialCreate.cs:224-230 | It removes exactly the tenant's players. |
| Effects.TenantEventsGone | Api/Migrations/20260215233742_InitialCreate.cs:255-261 | It removes exactly the tenant's scheduled events. |
| Effects.TenantTeamsGone | Api/Migrations/20260216023545_AddedStaticTeamOptionalFeature.cs:57-63 | It removes exactly the tenant's teams. |
| Effects.TenantTenuresGone | Api/Migrations/20260216023545_AddedStaticTeamOptionalFeature.cs:88-94 | No tenure on one of the tenant's teams survives. |
| Effects.TenantResultsGone | Api/Migrations/20260216004447_AddedEventResult.cs:42-48 | No result of one of the tenant's events survives. |
| Effects.TenantTenuresKept | Api/Migrations/20260216023545_AddedStaticTeamOptionalFeature.cs:81-94 | A tenure survives a tenant delete iff neither its team nor its player belongs to the tenant. |
| Effects.TenantParticipantsKept | Api/Migrations/20260215233742_InitialCreate.cs:302-315 | A participant row survives a tenant delete iff its group is not on a tenant event and its player is not a tenant player. |
| Effects.TenantGroupsKept | Api/Migrations/20260215233742_InitialCreate.cs:282-288 | Exactly the groups of other tenants' events survive, each with its TeamId cleared iff it named a tenant team. |
| Effects.TenantResultsKept | Api/Migrations/20260216004447_AddedEventResult.cs:35-48 | Exactly the results of other tenants' events survive, each with its winner cleared iff it was a group of a tenant event. |
| Effects.TenantFrame | Api/Migrations/20260215233742_InitialCreate.cs:125-161 | A tenant delete leaves activities, users, permissions, roles and grants unchanged. |
| Effects.TenantDeleteCascades | Api/Migrations/20260215233742_InitialCreate.cs:190-261 | Deleting a tenant succeeds. It removes exactly its memberships, players, events and teams. A tenure survives iff neither its team nor its player is the tenant's. A participant row survives iff neither its group's event nor its player is the tenant's. Groups and results of other events stay, losing only links to the tenant's teams or groups. Activities, users, permissions, roles and grants are unchanged. |
| Effects.UserGone | Api/Migrations/20260215233742_InitialCreate.cs:36-56 | The user's cascade removes exactly that user. |
| Effects.UserMembershipsGone | Api/Migrations/20260215233742_InitialCreate.cs:176-182 | It removes exactly the user's memberships. |
| Effects.UserPlayersGone | Api/Migrations/20260215233742_InitialCreate.cs:217-223 | It removes exactly the user's players. |
| Effects.UserTenuresGone | Api/Migrations/20260216023545_AddedStaticTeamOptionalFeature.cs:81-87 | No tenure of one of the user's players survives. |
| Effects.UserParticipationsGone | Api/Migrations/20260215233742_InitialCreate.cs:309-315 | No participation of one of the user's players survives. |
| Effects.UserTenuresKept | Api/Migrations/20260216023545_AddedStaticTeamOptionalFeature.cs:81-87 | A tenure survives an account delete iff its player is not one of the account's. |
| Effects.UserParticipationsKept | Api/Migrations/20260215233742_InitialCreate.cs:309-315 | A participant row survives an account delete iff its player is not one of the account's. |
| Effects.UserFrame | Api/Migrations/20260215233742_InitialCreate.cs:36-56 | An account delete changes only the users, memberships, players, participants and tenures tables. |
| Effects.UserDeleteCascades | Api/Migrations/20260215233742_InitialCreate.cs:176-223 | Deleting a user succeeds and removes exactly their memberships and players. A tenure or participation survives iff its player is not one of theirs. Every other table is unchanged. |
| Effects.PlayerGone | Api/Migrations/20260215233742_InitialCreate.cs:199-231 | The player's cascade removes exactly that player. |
| Effects.PlayerParticipationsGone | Api/Migrations/20260215233742_InitialCreate.cs:309-315 | It removes exactly the player's participant rows. |
| Effects.PlayerTenuresGone | Api/Migrations/20260216023545_AddedStaticTeamOptionalFeature.cs:81-87 | It removes exactly the player's tenures on every team. |
| Effects.PlayerFrame | Api/Migrations/20260215233742_InitialCreate.cs:199-231 | A player delete changes only the players, participants and tenures tables. |
| Effects.PlayerDeleteCascades | Api/Migrations/20260216023545_AddedStaticTeamOptionalFeature.cs:81-87 | Deleting a player succeeds and removes exactly their participations and tenures. Every other table is unchanged. |
| Effects.EventGone | Api/Migrations/20260215233742_InitialCreate.cs:233-262 | The event's cascade removes exactly that event. |
| Effects.EventGroupsGone | Api/Migrations/20260215233742_InitialCreate.cs:282-288 | It removes exactly the event's groups. |
| Effects.EventParticipationsGone | Api/Migrations/20260215233742_InitialCreate.cs:302-308 | No participant of one of the event's groups survives. |
| Effects.EventResultsGone | Api/Migrations/20260216004447_AddedEventResult.cs:42-48 | No result of the event survives. |
| Effects.EventParticipationsKept | Api/Migrations/20260215233742_InitialCreate.cs:302-308 | A participant row survives an event delete iff its group is not one of the event's. |
| Effects.EventResultsKept | Api/Migrations/20260216004447_AddedEventResult.cs:35-48 | Exactly the results of other events survive, each with its winner cleared iff it was one of the event's groups. |
| Effects.EventFrame | Api/Migrations/20260215233742_InitialCreate.cs:233-262 | An event delete changes only the events, groups, participants and results tables. |
| Effects.EventDeleteCascades | Api/Migrations/20260215233742_InitialCreate.cs:282-308 | Deleting an event succeeds and removes exactly its groups and their participant rows. Results of other events stay, losing only a winner that was one of its groups. Every other table is unchanged. |
| Effects.GroupGone | Api/Migrations/20260215233742_InitialCreate.cs:264-289 | The group's cascade removes exactly that group. |
| Effects.GroupParticipantsGone | Api/Migrations/20260215233742_InitialCreate.cs:302-308 | It removes exactly the group's participant rows. |
| Effects.GroupWinnersCleared | Api/Migrations/20260216004447_AddedEventResult.cs:35-41 | Results are kept, and only those won by the group lose their winner. |
| Effects.GroupFrame | Api/Migrations/20260215233742_InitialCreate.cs:264-289 | A group delete changes only the groups, participants and results tables. |
| Effects.GroupDeleteEffects | Api/Migrations/20260216004447_AddedEventResult.cs:35-41 | Deleting a group succeeds, removes its participants, keeps every result and clears only the WinningGroupId equal to it. Every other table is unchanged. |
| Effects.TeamGone | Api/Migrations/20260216023545_AddedStaticTeamOptionalFeature.cs:33-64 | The team's cascade removes exactly that team. |
| Effects.TeamTenuresGone | Api/Migrations/20260216023545_AddedStaticTeamOptionalFeature.cs:88-94 | It removes exactly the team's tenures. |
| Effects.TeamLinksCleared | Api/Migrations/20260216023545_AddedStaticTeamOptionalFeature.cs:135-143 | Groups are kept, and only those naming the team lose their TeamId. |
| Effects.TeamFrame | Api/Migrations/20260216023545_AddedStaticTeamOptionalFeature.cs:33-64 | A team delete changes only the teams, tenures and groups tables. |
| Effects.TeamDeleteEffects | Api/Migrations/20260216023545_AddedStaticTeamOptionalFeature.cs:135-143 | Deleting a team succeeds, removes its tenures, keeps every group and clears only the TeamId equal to it. Every other table is unchanged. |
| Effects.DuplicateMembershipRejected | Api/Migrations/20260215233742_InitialCreate.cs:175 | A second membership for the same (AppUserId, TenantId) is refused by the key. |
| Effects.DuplicatePlayerRejected | Api/Migrations/20260215233742_InitialCreate.cs:361-366 | A second player for the same (TenantId, AppUserId) is refused, by the unique index when the id is fresh. |
| Effects.DuplicateAwsSubjectRejected | Api/Migrations/20260215233742_InitialCreate.cs:318-323 | A second user with the same AwsSubject is refused. |
| Effects.SecondOpenTenureRejected | Api/Migrations/20260216023545_AddedStaticTeamOptionalFeature.cs:121-127 | A second open tenure for the same (team, player) is refused by the partial index. |
| Effects.ClosedTenureAccepted | Api/Migrations/20260216023545_AddedStaticTeamOptionalFeature.cs:121-127 | A closed tenure is outside the index and is accepted whatever tenures the pair has. |
| Effects.GroupWithoutTeamAccepted | Api/Migrations/20260216023545_AddedStaticTeamOptionalFeature.cs:26-31 | A group with no TeamId is accepted. |
| Effects.ResultWithoutWinnerAccepted | Api/Migrations/20260216004447_AddedEventResult.cs:21 | A result with no WinningGroupId is accepted. |
| Effects.SecondResultAccepted | Api/Migrations/20260216004447_AddedEventResult.cs:51-55 | The ScheduledEventId index is not unique: a second result for the same event is accepted. |
| Effects.PurgeFrame | Api/Migrations/20260215233742_InitialCreate.cs:109-315 | A purge leaves a table exactly as it was when it dooms none of its rows and clears none of its references. |
| Store.Database.constructor | Api/Migrations/20260215233742_InitialCreate.cs:12-316 | A new store is empty and consistent. |
| Store.Database.Insert | Api/Migrations/20260215233742_InitialCreate.cs:17-366 | The in-place insert refuses with the snapshot insert's violation, or leaves its result. Consistency is kept either way. |
| Store.Database.AppendRow | Api/Migrations/20260215233742_InitialCreate.cs:17-316 | The row is appended to its own table and no other table changes. |
| Store.Database.Delete | Api/Migrations/20260215233742_InitialCreate.cs:109-315 | The in-place delete refuses with the snapshot delete's violation, or leaves its cascade. Consistency is kept either way. |
| Store.Database.RemoveRows | Api/Migrations/20260215233742_InitialCreate.cs:109-315 | The tables become the purge of the doomed rows. |
| Store.Database.ClearTeams | Api/Migrations/20260216023545_AddedStaticTeamOptionalFeature.cs:135-143 | The loop clears exactly the TeamIds naming a removed team and changes no other table. |
| Store.Database.ClearWinners | Api/Migrations/20260216004447_AddedEventResult.cs:35-41 | The loop clears exactly the WinningGroupIds naming a removed group and changes no other table. |

## Left out

- I/O and asynchrony are not modelled. This covers the database round trips, `async`/`await` and the `CancellationToken`. The base `SaveChanges` is not modelled: its returned row count is replaced by the batch of entries it receives.
- Guid v7 generation is left out, and ids are opaque naturals. Timestamps are integers. Audit columns (CreatedAt, UpdatedAt, CreatedBy, UpdatedBy) are not modelled.
- Context.ApplicationDbContext.constructor: the `DbContextOptions` are not modelled. The model takes the tracked entries as given.
- The change tracker's handling of the rewritten entries after the save is not modelled.
- Only the `Deleted` to `Modified` rewrite and the `IsDeleted` flag are modelled.
- `ApplicationDbContext.cs` declares `League` and `AppUserLeague` sets, their filters (lines 57, 59) and the key at lines 69-70. The current migrations create no such tables. The filters are therefore modelled over their own row types, outside the relational store.
- The League and AppUserLeague cascades (lines 72-96) are not part of the relational store for the same reason.
- The index on `ScheduledEvent.LeagueId` (line 65) is not modelled.
- Query filters are not applied to the resolver's tables, because the code applies none to groups, tenures or participants. The resolver reads every stored row, soft-deleted ones included.
- The order of the resolver's list is table order. The code has no ORDER BY, so the database's order is unspecified.
- Participants.GetParticipants: the function's own contract covers only the unknown-group case. Its full behaviour on known groups is stated by `StaticRoster`, `DirectList`, `CountIsLength` and `ParticipantsDistinct`.
- Participants.StaticRoster, Participants.DirectList, Participants.IsStaticTeamExact: these require only the primary keys of groups and players, not the whole consistency invariant. Without those keys, `FirstOrDefault` may pick a different row with the same id.
- Effects.TenantDeleteCascades, Effects.UserDeleteCascades, Effects.PlayerDeleteCascades, Effects.EventDeleteCascades, Effects.TeamDeleteEffects: each requires only the primary keys it needs, not full consistency. In a consistent store every such key holds. Without a key, a row sharing the id of a doomed row would go with it.
- The EF shadow column `EventParticipantGroupId1`, its index and its foreign key (Api/Migrations/20260216023545_AddedStaticTeamOptionalFeature.cs:145-152) are not modelled. That key has no referential action, so it is NO ACTION: a non-null value would refuse a group delete that left it dangling. The model treats the column as always null. It takes a group's participant rows to be those whose `EventParticipantGroupId` names it, which is how Entity Framework pairs the entity classes by convention. `ApplicationDbContext.cs` declares no sets for these tables.
- Indexes that are not unique are not modelled, because they do not constrain writes. The index on a result's ScheduledEventId is the exception: `SecondResultAccepted` states that it does not constrain writes.
- The later migration making `DisplayName` unique is not part of this model.
- The superseded migrations (InitialCreate of 2026-02-07, UpdatedVersionTypeForEvents) are not part of this model.
- Column lengths, `NOT NULL` on text columns and the `Discriminator` column are left out. The `team` table holds only static teams.
- The services that only pass through to EF (tenant, league, event), authentication, the HTTP endpoints and the web client are not part of this model.
- Updates (SQL `UPDATE`) are not modelled as a store operation. The schema has no referential action on update, and the shown code issues none.
- Schema.DeleteViolation, Schema.Delete: a delete of a missing key is refused with `NotFound`, as Entity Framework refuses a delete that affects no row. Plain SQL would affect no row and succeed. The migrations themselves say nothing about this case.
- The exact Npgsql message of a refused write is not modelled. A violation names the constraint, but when a row breaks several constraints the one the database reports is not fixed. The model reports the key first, then the unique indexes, then the foreign keys in declaration order.
