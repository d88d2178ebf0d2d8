/** The store as the database keeps it: the tables, updated in place by
    INSERT and DELETE. Each operation is specified by the snapshot function
    of the same name in `Schema`, so every property proved there about a
    snapshot holds of the store after the call; the class invariant is the
    schema's consistency (keys, unique indexes, referential integrity). */
module Store {
  import opened Tables
  import opened Entities
  import opened Schema
  import Integrity

  /** The answer to a write: applied, or refused with the violated constraint. */
  datatype Outcome = Done | Refused(error: Violation)

  class Database {
    /** The current contents of every table. */
    var tables: Db

    /** Every key, unique index and foreign key holds. */
    ghost predicate Valid()
      reads this
    {
      Consistent(tables)
    }

    /** A freshly created schema: every table empty. */
    constructor()
      ensures tables == EmptyDb
      ensures Valid()
    {
      tables := EmptyDb;
      Integrity.EmptyIsConsistent();
    }

    /** INSERT: refused with the first violated key, unique index or foreign
        key; otherwise the row is appended to its table. */
    method Insert(row: Row) returns (outcome: Outcome)
      requires Valid()
      modifies this
      ensures Valid()
      ensures Schema.Insert(old(tables), row).Ok? ==>
                outcome == Done && tables == Schema.Insert(old(tables), row).value
      ensures Schema.Insert(old(tables), row).Err? ==>
                outcome == Refused(Schema.Insert(old(tables), row).error) && tables == old(tables)
    {
      Integrity.InsertPreservesConsistency(tables, row);
      var violation := InsertViolation(tables, row);
      if violation.Some? {
        return Refused(violation.value);
      }
      AppendRow(row);
      return Done;
    }

    /** Appends the row to its own table and changes no other table. */
    method AppendRow(row: Row)
      modifies this
      ensures tables == Append(old(tables), row)
    {
      match row
      case ActivityRow(a) => tables := tables.(activities := tables.activities + [a]);
      case UserRow(u) => tables := tables.(users := tables.users + [u]);
      case PermissionRow(p) => tables := tables.(permissions := tables.permissions + [p]);
      case RoleRow(r) => tables := tables.(roles := tables.roles + [r]);
      case RolePermissionRow(rp) => tables := tables.(rolePermissions := tables.rolePermissions + [rp]);
      case TenantRow(t) => tables := tables.(tenants := tables.tenants + [t]);
      case MembershipRow(m) => tables := tables.(memberships := tables.memberships + [m]);
      case PlayerRow(p) => tables := tables.(players := tables.players + [p]);
      case EventRow(e) => tables := tables.(events := tables.events + [e]);
      case GroupRow(g) => tables := tables.(groups := tables.groups + [g]);
      case ParticipantRow(ep) => tables := tables.(participants := tables.participants + [ep]);
      case TeamRow(t) => tables := tables.(teams := tables.teams + [t]);
      case MemberRow(m) => tables := tables.(teamMembers := tables.teamMembers + [m]);
      case ResultRow(r) => tables := tables.(results := tables.results + [r]);
    }

    /** DELETE: refused when the row is missing or a Restrict key protects it;
        otherwise the row and everything its cascades reach are removed, and
        the SetNull references to removed rows are cleared in place. */
    method Delete(key: RowKey) returns (outcome: Outcome)
      requires Valid()
      modifies this
      ensures Valid()
      ensures Schema.Delete(old(tables), key).Ok? ==>
                outcome == Done && tables == Schema.Delete(old(tables), key).value
      ensures Schema.Delete(old(tables), key).Err? ==>
                outcome == Refused(Schema.Delete(old(tables), key).error) && tables == old(tables)
    {
      Integrity.DeletePreservesConsistency(tables, key);
      var violation := DeleteViolation(tables, key);
      if violation.Some? {
        return Refused(violation.value);
      }
      RemoveRows(Close(tables, Roots(key)));
      return Done;
    }

    /** Removes the doomed rows and the join rows that name them, then clears
        the SetNull references to removed groups and teams. */
    method RemoveRows(d: Doomed)
      modifies this
      ensures tables == Purge(old(tables), d)
    {
      var t := tables;
      tables := t.(
        activities := Drop(t.activities, ActivityKey, d.activities),
        users := Drop(t.users, UserKey, d.users),
        permissions := Drop(t.permissions, PermissionKey, d.permissions),
        roles := Drop(t.roles, RoleKey, d.roles),
        rolePermissions := Drop(Drop(Drop(t.rolePermissions, RolePermissionKey, d.rolePermissions),
                                     RolePermissionPermission, d.permissions), RolePermissionRole, d.roles),
        tenants := Drop(t.tenants, TenantKey, d.tenants),
        memberships := Drop(Drop(Drop(t.memberships, MembershipKey, d.memberships),
                                 MembershipUser, d.users), MembershipTenant, d.tenants),
        players := Drop(t.players, PlayerKey, d.players),
        events := Drop(t.events, EventKey, d.events),
        groups := Drop(t.groups, GroupKey, d.groups),
        participants := Drop(Drop(Drop(t.participants, ParticipantKey, d.participants),
                                  ParticipantGroup, d.groups), ParticipantPlayer, d.players),
        teams := Drop(t.teams, TeamKey, d.teams),
        teamMembers := Drop(t.teamMembers, MemberKey, d.members),
        results := Drop(t.results, ResultKey, d.results));
      ClearTeams(d.teams);
      ClearWinners(d.groups);
    }

    /** ON DELETE SET NULL of a group's TeamId, one row at a time; no other
        table changes. */
    method ClearTeams(gone: set<Id>)
      modifies this
      ensures tables == old(tables).(groups := UnlinkTeams(old(tables).groups, gone))
    {
      var i := 0;
      while i < |tables.groups|
        invariant 0 <= i <= |tables.groups| == |old(tables).groups|
        invariant tables == old(tables).(groups := tables.groups)
        invariant forall k :: 0 <= k < i ==> tables.groups[k] == UnlinkTeam(old(tables).groups[k], gone)
        invariant forall k :: i <= k < |tables.groups| ==> tables.groups[k] == old(tables).groups[k]
      {
        var g := tables.groups[i];
        if g.teamId.Some? && g.teamId.value in gone {
          tables := tables.(groups := tables.groups[i := g.(teamId := None)]);
        }
        i := i + 1;
      }
    }

    /** ON DELETE SET NULL of a result's WinningGroupId, one row at a time; no
        other table changes. */
    method ClearWinners(gone: set<Id>)
      modifies this
      ensures tables == old(tables).(results := UnlinkWinners(old(tables).results, gone))
    {
      var i := 0;
      while i < |tables.results|
        invariant 0 <= i <= |tables.results| == |old(tables).results|
        invariant tables == old(tables).(results := tables.results)
        invariant forall k :: 0 <= k < i ==> tables.results[k] == UnlinkWinner(old(tables).results[k], gone)
        invariant forall k :: i <= k < |tables.results| ==> tables.results[k] == old(tables).results[k]
      {
        var r := tables.results[i];
        if r.winningGroupId.Some? && r.winningGroupId.value in gone {
          tables := tables.(results := tables.results[i := r.(winningGroupId := None)]);
        }
        i := i + 1;
      }
    }
  }
}
