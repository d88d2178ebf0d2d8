/** The participant resolver of EventParticipantService: given a group id it
    answers who competes for that group, from one of two sources. A group
    backed by a static team takes the team's current roster (its tenures whose
    LeftAt is null); any other group takes its own direct participant rows.
    The three queries only read, so each is a function of a store snapshot. */
module Participants {
  import opened Tables
  import opened Entities
  import opened Schema

  /** The tenures on team `teamId` whose LeftAt is null, in table order. */
  function OpenTenures(ms: seq<StaticTeamMember>, teamId: Id): (r: seq<StaticTeamMember>)
    ensures forall m :: m in r <==> m in ms && IsOpen(m) && m.teamId == teamId
    ensures forall m :: multiset(r)[m] == if IsOpen(m) && m.teamId == teamId then multiset(ms)[m] else 0
  {
    if |ms| == 0 then []
    else
      var rest := OpenTenures(ms[1..], teamId);
      assert ms == [ms[0]] + ms[1..];
      if IsOpen(ms[0]) && ms[0].teamId == teamId then [ms[0]] + rest else rest
  }

  /** The direct participant rows of group `groupId`, in table order. */
  function DirectParticipants(eps: seq<EventParticipant>, groupId: Id): (r: seq<EventParticipant>)
    ensures forall ep :: ep in r <==> ep in eps && ep.groupId == groupId
    ensures forall ep :: multiset(r)[ep] == if ep.groupId == groupId then multiset(eps)[ep] else 0
  {
    if |eps| == 0 then []
    else
      var rest := DirectParticipants(eps[1..], groupId);
      assert eps == [eps[0]] + eps[1..];
      if eps[0].groupId == groupId then [eps[0]] + rest else rest
  }

  /** The players that `rows` name, joined to the players table (the Select of
      each row's Player navigation); a row whose player is missing yields none. */
  function PlayersOf<T>(rows: seq<T>, playerOf: T -> Id, players: seq<Player>): (r: seq<Player>)
    ensures |r| <= |rows|
  {
    if |rows| == 0 then []
    else match FindFirst(players, PlayerKey, playerOf(rows[0]))
      case None => PlayersOf(rows[1..], playerOf, players)
      case Some(p) => [p] + PlayersOf(rows[1..], playerOf, players)
  }

  /** `group.TeamId.HasValue && group.Team is StaticTeam`: the team table holds
      only static teams, so the navigation is a static team exactly when the
      referenced row exists. */
  predicate TeamBacked(db: Db, g: EventParticipantGroup)
  {
    g.teamId.Some? && FindFirst(db.teams, TeamKey, g.teamId.value).Some?
  }

  /** GetParticipantsAsync. */
  function GetParticipants(db: Db, groupId: Id): (r: seq<Player>)
    ensures groupId !in GroupIds(db) ==> r == []
  {
    match FindFirst(db.groups, GroupKey, groupId)
    case None => []
    case Some(g) =>
      if TeamBacked(db, g) then PlayersOf(OpenTenures(db.teamMembers, g.teamId.value), MemberPlayer, db.players)
      else PlayersOf(DirectParticipants(db.participants, groupId), ParticipantPlayer, db.players)
  }

  /** GetParticipantCountAsync: branches on TeamId alone and counts rows
      without joining players. */
  function GetParticipantCount(db: Db, groupId: Id): (r: nat)
    ensures groupId !in GroupIds(db) ==> r == 0
  {
    match FindFirst(db.groups, GroupKey, groupId)
    case None => 0
    case Some(g) =>
      if g.teamId.Some? then |OpenTenures(db.teamMembers, g.teamId.value)|
      else |DirectParticipants(db.participants, groupId)|
  }

  /** Whether some group row with this id has a TeamId (AnyAsync over the filter). */
  function AnyWithTeam(gs: seq<EventParticipantGroup>, groupId: Id): (r: bool)
    ensures r <==> exists g :: g in gs && g.id == groupId && g.teamId.Some?
  {
    if |gs| == 0 then false
    else
      assert gs == [gs[0]] + gs[1..];
      (gs[0].id == groupId && gs[0].teamId.Some?) || AnyWithTeam(gs[1..], groupId)
  }

  /** IsStaticTeamAsync. */
  function IsStaticTeam(db: Db, groupId: Id): (r: bool)
    ensures r ==> groupId in GroupIds(db)
  {
    AnyWithTeam(db.groups, groupId)
  }

  // ---------------------------------------------------------------- the join

  /** Every player produced is a stored player named by one of the rows. */
  lemma {:induction false} PlayersOfNamed<T>(rows: seq<T>, playerOf: T -> Id, players: seq<Player>)
    ensures forall p :: p in PlayersOf(rows, playerOf, players) ==>
              p in players && exists i :: 0 <= i < |rows| && playerOf(rows[i]) == p.id
  {
    if |rows| > 0 {
      PlayersOfNamed(rows[1..], playerOf, players);
      forall p | p in PlayersOf(rows[1..], playerOf, players)
        ensures exists i :: 0 <= i < |rows| && playerOf(rows[i]) == p.id
      {
        var i :| 0 <= i < |rows| - 1 && playerOf(rows[1..][i]) == p.id;
        assert rows[i + 1] == rows[1..][i];
      }
    }
  }

  /** Under the players' primary key, a stored player is produced exactly when
      some row names it. */
  lemma {:induction false} PlayersOfExact<T(!new)>(rows: seq<T>, playerOf: T -> Id, players: seq<Player>)
    requires Unique(players, PlayerKey)
    ensures forall p :: p in PlayersOf(rows, playerOf, players) <==>
              p in players && exists x :: x in rows && playerOf(x) == p.id
  {
    PlayersOfNamed(rows, playerOf, players);
    if |rows| > 0 {
      PlayersOfExact(rows[1..], playerOf, players);
      assert rows == [rows[0]] + rows[1..];
      var r := PlayersOf(rows, playerOf, players);
      forall p | p in players && playerOf(rows[0]) == p.id ensures p in r {
        var q := FindFirst(players, PlayerKey, p.id).value;
        UniqueRows(players, PlayerKey, p, q);
      }
    }
  }

  /** When every row names a stored player, the join loses no row. */
  lemma {:induction false} PlayersOfLength<T>(rows: seq<T>, playerOf: T -> Id, players: seq<Player>)
    requires forall i :: 0 <= i < |rows| ==> playerOf(rows[i]) in Keys(players, PlayerKey)
    ensures |PlayersOf(rows, playerOf, players)| == |rows|
  {
    if |rows| > 0 {
      assert forall i :: 0 <= i < |rows| - 1 ==> rows[1..][i] == rows[i + 1];
      PlayersOfLength(rows[1..], playerOf, players);
    }
  }

  /** Rows that name pairwise different players produce no player twice. */
  lemma {:induction false} PlayersOfDistinct<T>(rows: seq<T>, playerOf: T -> Id, players: seq<Player>)
    requires DistinctBy(rows, playerOf)
    ensures NoDuplicates(PlayersOf(rows, playerOf, players))
  {
    if |rows| > 0 {
      var tail := rows[1..];
      assert forall i :: 0 <= i < |tail| ==> tail[i] == rows[i + 1];
      PlayersOfDistinct(tail, playerOf, players);
      var rest := PlayersOf(tail, playerOf, players);
      match FindFirst(players, PlayerKey, playerOf(rows[0]))
      case None =>
      case Some(p) =>
        PlayersOfNamed(tail, playerOf, players);
        forall k | 0 <= k < |rest| ensures rest[k] != p {
          assert rest[k] in rest;
          var i :| 0 <= i < |tail| && playerOf(tail[i]) == rest[k].id;
        }
        NoDuplicatesCons(p, rest);
    }
  }

  /** The open-tenure index leaves at most one open tenure per player on a team. */
  lemma {:induction false} OpenTenuresDistinct(ms: seq<StaticTeamMember>, teamId: Id)
    requires UniqueWhere(ms, MemberTeamPlayer, IsOpen)
    ensures DistinctBy(OpenTenures(ms, teamId), MemberPlayer)
  {
    if |ms| > 0 {
      UniqueWhereSplit(ms, MemberTeamPlayer, IsOpen);
      OpenTenuresDistinct(ms[1..], teamId);
      var rest := OpenTenures(ms[1..], teamId);
      if IsOpen(ms[0]) && ms[0].teamId == teamId {
        assert forall y :: y in rest ==> MemberTeamPlayer(y) != MemberTeamPlayer(ms[0]);
        DistinctByCons(ms[0], rest, MemberPlayer);
      }
    }
  }

  /** The participant key (GroupId, PlayerId) leaves each player at most once in a group. */
  lemma {:induction false} DirectParticipantsDistinct(eps: seq<EventParticipant>, groupId: Id)
    requires Unique(eps, ParticipantKey)
    ensures DistinctBy(DirectParticipants(eps, groupId), ParticipantPlayer)
  {
    if |eps| > 0 {
      UniqueWhereSplit(eps, ParticipantKey, Everywhere);
      DirectParticipantsDistinct(eps[1..], groupId);
      var rest := DirectParticipants(eps[1..], groupId);
      if eps[0].groupId == groupId {
        assert forall y :: y in rest ==> ParticipantKey(y) != ParticipantKey(eps[0]);
        DistinctByCons(eps[0], rest, ParticipantPlayer);
      }
    }
  }

  /** The roster has one entry per stored open tenure on the team: its length
      is the number of table positions holding such a row. */
  lemma {:induction false} OpenTenuresCount(ms: seq<StaticTeamMember>, teamId: Id)
    ensures |OpenTenures(ms, teamId)| == |set i | 0 <= i < |ms| && IsOpen(ms[i]) && ms[i].teamId == teamId|
  {
    if |ms| > 0 {
      OpenTenuresCount(ms[1..], teamId);
      OpenPositionsCons(ms, teamId);
    }
  }

  /** The open-tenure positions of a non-empty table: the head's, then the
      tail's. */
  lemma OpenPositionsCons(ms: seq<StaticTeamMember>, teamId: Id)
    requires |ms| > 0
    ensures |set i | 0 <= i < |ms| && IsOpen(ms[i]) && ms[i].teamId == teamId|
         == (if IsOpen(ms[0]) && ms[0].teamId == teamId then 1 else 0)
          + |set i | 0 <= i < |ms[1..]| && IsOpen(ms[1..][i]) && ms[1..][i].teamId == teamId|
  {
    var p := (m: StaticTeamMember) => IsOpen(m) && m.teamId == teamId;
    PositionsCons(ms, p);
    var tail := ms[1..];
    assert Positions(ms, p) == set i | 0 <= i < |ms| && IsOpen(ms[i]) && ms[i].teamId == teamId;
    assert Positions(tail, p) == set i | 0 <= i < |tail| && IsOpen(tail[i]) && tail[i].teamId == teamId;
  }

  /** The direct list has one entry per participant row of the group. */
  lemma {:induction false} DirectParticipantsCount(eps: seq<EventParticipant>, groupId: Id)
    ensures |DirectParticipants(eps, groupId)| == |set i | 0 <= i < |eps| && eps[i].groupId == groupId|
  {
    if |eps| > 0 {
      DirectParticipantsCount(eps[1..], groupId);
      GroupPositionsCons(eps, groupId);
    }
  }

  /** The participant positions of a non-empty table: the head's, then the
      tail's. */
  lemma GroupPositionsCons(eps: seq<EventParticipant>, groupId: Id)
    requires |eps| > 0
    ensures |set i | 0 <= i < |eps| && eps[i].groupId == groupId|
         == (if eps[0].groupId == groupId then 1 else 0)
          + |set i | 0 <= i < |eps[1..]| && eps[1..][i].groupId == groupId|
  {
    var p := (ep: EventParticipant) => ep.groupId == groupId;
    PositionsCons(eps, p);
    var tail := eps[1..];
    assert Positions(eps, p) == set i | 0 <= i < |eps| && eps[i].groupId == groupId;
    assert Positions(tail, p) == set i | 0 <= i < |tail| && tail[i].groupId == groupId;
  }

  // ---------------------------------------------------------------- the resolver

  /** An unknown group id has no participants, a count of zero and no static team. */
  lemma UnknownGroup(db: Db, groupId: Id)
    requires groupId !in GroupIds(db)
    ensures GetParticipants(db, groupId) == []
    ensures GetParticipantCount(db, groupId) == 0
    ensures !IsStaticTeam(db, groupId)
  {
  }

  /** A group backed by an existing team resolves to exactly the players with
      an open tenure on that team; its direct participant rows are not read. */
  lemma StaticRoster(db: Db, g: EventParticipantGroup, eps: seq<EventParticipant>)
    requires Unique(db.groups, GroupKey) && Unique(db.players, PlayerKey)
    requires g in db.groups && g.teamId.Some? && g.teamId.value in TeamIds(db)
    ensures forall p :: p in GetParticipants(db, g.id) <==>
              p in db.players &&
              exists m :: m in db.teamMembers && IsOpen(m) && m.teamId == g.teamId.value && m.playerId == p.id
    ensures GetParticipants(db.(participants := eps), g.id) == GetParticipants(db, g.id)
  {
    UniqueRows(db.groups, GroupKey, FindFirst(db.groups, GroupKey, g.id).value, g);
    PlayersOfExact(OpenTenures(db.teamMembers, g.teamId.value), MemberPlayer, db.players);
  }

  /** Any other group resolves to exactly the players of its own participant
      rows; the tenure table is not read. */
  lemma DirectList(db: Db, g: EventParticipantGroup, ms: seq<StaticTeamMember>)
    requires Unique(db.groups, GroupKey) && Unique(db.players, PlayerKey)
    requires g in db.groups && (g.teamId.None? || g.teamId.value !in TeamIds(db))
    ensures forall p :: p in GetParticipants(db, g.id) <==>
              p in db.players && exists ep :: ep in db.participants && ep.groupId == g.id && ep.playerId == p.id
    ensures GetParticipants(db.(teamMembers := ms), g.id) == GetParticipants(db, g.id)
  {
    UniqueRows(db.groups, GroupKey, FindFirst(db.groups, GroupKey, g.id).value, g);
    PlayersOfExact(DirectParticipants(db.participants, g.id), ParticipantPlayer, db.players);
  }

  /** The count agrees with the list whenever the list comes from the source
      the count reads and every row names a stored player. */
  lemma CountIsLength(db: Db, groupId: Id)
    requires MemberRefs(db.teamMembers, TeamIds(db), PlayerIds(db))
    requires ParticipantRefs(db.participants, GroupIds(db), PlayerIds(db))
    requires forall g :: g in db.groups && g.id == groupId && g.teamId.Some? ==> g.teamId.value in TeamIds(db)
    ensures GetParticipantCount(db, groupId) == |GetParticipants(db, groupId)|
  {
    match FindFirst(db.groups, GroupKey, groupId)
    case None =>
    case Some(g) =>
      if g.teamId.Some? {
        var rows := OpenTenures(db.teamMembers, g.teamId.value);
        assert forall i :: 0 <= i < |rows| ==> rows[i] in rows;
        PlayersOfLength(rows, MemberPlayer, db.players);
      } else {
        var rows := DirectParticipants(db.participants, groupId);
        assert forall i :: 0 <= i < |rows| ==> rows[i] in rows;
        PlayersOfLength(rows, ParticipantPlayer, db.players);
      }
  }

  /** In a consistent store the count is always the length of the list. */
  lemma ConsistentCountIsLength(db: Db, groupId: Id)
    requires Consistent(db)
    ensures GetParticipantCount(db, groupId) == |GetParticipants(db, groupId)|
  {
    CountIsLength(db, groupId);
  }

  /** The count of a stored group is a number of table rows: the open tenures
      on its static team when it names one, its own participant rows otherwise. */
  lemma CountIsRowCount(db: Db, g: EventParticipantGroup)
    requires Unique(db.groups, GroupKey) && g in db.groups
    ensures g.teamId.Some? ==> (GetParticipantCount(db, g.id)
      == |set i | 0 <= i < |db.teamMembers| && IsOpen(db.teamMembers[i]) && db.teamMembers[i].teamId == g.teamId.value|)
    ensures g.teamId.None? ==> (GetParticipantCount(db, g.id)
      == |set i | 0 <= i < |db.participants| && db.participants[i].groupId == g.id|)
  {
    var found := FindFirst(db.groups, GroupKey, g.id);
    assert GroupKey(g) == g.id;
    assert found.Some?;
    var i :| 0 <= i < |db.groups| && db.groups[i] == found.value;
    var j :| 0 <= j < |db.groups| && db.groups[j] == g;
    UniqueKeyDetermines(db.groups, GroupKey, Everywhere, i, j);
    if g.teamId.Some? {
      OpenTenuresCount(db.teamMembers, g.teamId.value);
    } else {
      DirectParticipantsCount(db.participants, g.id);
    }
  }

  /** The list and the count consult different sources when a group names a
      team that is not stored: the list falls back to the direct participants
      while the count reads the (empty) roster. Referential integrity rules
      this state out. */
  lemma DanglingTeamSplitsSources()
    ensures var p := Player(1, 0, 0, "p", false);
      var db := EmptyDb.(groups := [EventParticipantGroup(2, 0, Some(3), "g", 0, false)],
                         participants := [EventParticipant(2, 1)],
                         players := [p]);
      GetParticipants(db, 2) == [p] && GetParticipantCount(db, 2) == 0 && IsStaticTeam(db, 2)
  {
    var p := Player(1, 0, 0, "p", false);
    var db := EmptyDb.(groups := [EventParticipantGroup(2, 0, Some(3), "g", 0, false)],
                       participants := [EventParticipant(2, 1)],
                       players := [p]);
    assert 3 !in TeamIds(db);
    assert DirectParticipants(db.participants, 2) == [EventParticipant(2, 1)];
  }

  /** IsStaticTeam holds exactly when the group exists and has a TeamId. */
  lemma IsStaticTeamExact(db: Db, groupId: Id)
    requires Unique(db.groups, GroupKey)
    ensures IsStaticTeam(db, groupId) <==>
              FindFirst(db.groups, GroupKey, groupId).Some? && FindFirst(db.groups, GroupKey, groupId).value.teamId.Some?
  {
    if IsStaticTeam(db, groupId) {
      var g :| g in db.groups && g.id == groupId && g.teamId.Some?;
      UniqueRows(db.groups, GroupKey, FindFirst(db.groups, GroupKey, groupId).value, g);
    }
  }

  /** Under the schema's keys no player is listed twice: the open-tenure index
      covers a team's roster and the participant key covers a direct list. */
  lemma ParticipantsDistinct(db: Db, groupId: Id)
    requires UniqueWhere(db.teamMembers, MemberTeamPlayer, IsOpen)
    requires Unique(db.participants, ParticipantKey)
    ensures NoDuplicates(GetParticipants(db, groupId))
  {
    match FindFirst(db.groups, GroupKey, groupId)
    case None =>
    case Some(g) =>
      if TeamBacked(db, g) {
        OpenTenuresDistinct(db.teamMembers, g.teamId.value);
        PlayersOfDistinct(OpenTenures(db.teamMembers, g.teamId.value), MemberPlayer, db.players);
      } else {
        DirectParticipantsDistinct(db.participants, groupId);
        PlayersOfDistinct(DirectParticipants(db.participants, groupId), ParticipantPlayer, db.players);
      }
  }

  /** Only the existence of the team row matters, not its columns (TeamType
      included): replacing the team table by one with the same ids changes no
      answer. */
  lemma TeamColumnsIrrelevant(db: Db, teams: seq<Team>, groupId: Id)
    requires Keys(teams, TeamKey) == TeamIds(db)
    ensures GetParticipants(db.(teams := teams), groupId) == GetParticipants(db, groupId)
    ensures GetParticipantCount(db.(teams := teams), groupId) == GetParticipantCount(db, groupId)
    ensures IsStaticTeam(db.(teams := teams), groupId) == IsStaticTeam(db, groupId)
  {
  }
}
