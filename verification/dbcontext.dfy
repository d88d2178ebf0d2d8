/** ApplicationDbContext: the soft-delete hook that runs before every save,
    and the standing query filters that hide soft-deleted rows from default
    reads. The change tracker's entries are an array the hook rewrites in
    place; the filters are predicates over table snapshots. */
module Context {
  import opened Tables
  import opened Entities

  /** The states an entity entry can be in within the change tracker. */
  datatype EntityState = Detached | Unchanged | Deleted | Modified | Added

  /** A tracked entry: its state, whether its entity is an AuditableEntity
      (only those carry the IsDeleted flag), and that flag. */
  datatype Entry = Entry(state: EntityState, auditable: bool, isDeleted: bool)

  /** An entry that would make the base save physically delete an auditable row. */
  predicate HardDelete(e: Entry)
  {
    e.auditable && e.state == Deleted
  }

  /** What the hook does to one entry: a pending delete of an auditable entity
      becomes an update that raises IsDeleted; every other entry is left alone. */
  function SoftDelete(e: Entry): Entry
  {
    if HardDelete(e) then e.(state := Modified, isDeleted := true) else e
  }

  /** The hook over the whole change tracker, entry by entry, in order. */
  function SoftDeleteAll(s: seq<Entry>): (r: seq<Entry>)
    ensures |r| == |s|
  {
    seq(|s|, i requires 0 <= i < |s| => SoftDelete(s[i]))
  }

  /** After the hook no entry would hard-delete an auditable row. */
  lemma NoHardDeleteRemains(s: seq<Entry>)
    ensures forall e :: e in SoftDeleteAll(s) ==> !HardDelete(e)
  {
    var r := SoftDeleteAll(s);
    forall e | e in r ensures !HardDelete(e) {
      var i :| 0 <= i < |r| && r[i] == e;
    }
  }

  /** Exactly the pending deletes of auditable entities change: each becomes
      Modified with IsDeleted raised, and every other entry, non-auditable ones
      included, keeps its state and flag. */
  lemma SoftDeleteExact(s: seq<Entry>)
    ensures forall i :: 0 <= i < |s| && HardDelete(s[i]) ==>
              SoftDeleteAll(s)[i].state == Modified && SoftDeleteAll(s)[i].isDeleted &&
              SoftDeleteAll(s)[i].auditable
    ensures forall i :: 0 <= i < |s| && !HardDelete(s[i]) ==> SoftDeleteAll(s)[i] == s[i]
  {
  }

  /** Running the hook twice is the same as running it once. */
  lemma SoftDeleteIdempotent(s: seq<Entry>)
    ensures SoftDeleteAll(SoftDeleteAll(s)) == SoftDeleteAll(s)
  {
  }

  /** The context as far as the hook sees it: the tracked entries. */
  class ApplicationDbContext {
    const entries: array<Entry>

    constructor(tracked: array<Entry>)
      ensures entries == tracked
    {
      entries := tracked;
    }

    /** ApplySoftDeleteLogic: visits the entries in order and rewrites each
        pending delete of an auditable entity in place. */
    method ApplySoftDeleteLogic()
      modifies entries
      ensures entries[..] == SoftDeleteAll(old(entries[..]))
      ensures forall i :: 0 <= i < entries.Length ==> !HardDelete(entries[i])
    {
      var i := 0;
      while i < entries.Length
        invariant 0 <= i <= entries.Length
        invariant forall k :: 0 <= k < i ==> entries[k] == SoftDelete(old(entries[k]))
        invariant forall k :: i <= k < entries.Length ==> entries[k] == old(entries[k])
      {
        if HardDelete(entries[i]) {
          entries[i] := entries[i].(state := Modified, isDeleted := true);
        }
        i := i + 1;
      }
    }

    /** SaveChanges: the hook runs first, and the base save receives the
        rewritten entries, which are returned here as `batch`. */
    method SaveChanges() returns (batch: seq<Entry>)
      modifies entries
      ensures batch == entries[..] == SoftDeleteAll(old(entries[..]))
      ensures forall e :: e in batch ==> !HardDelete(e)
    {
      ApplySoftDeleteLogic();
      batch := entries[..];
    }

    /** SaveChangesAsync: the same order of steps; the cancellation token only
        reaches the base save. */
    method SaveChangesAsync() returns (batch: seq<Entry>)
      modifies entries
      ensures batch == entries[..] == SoftDeleteAll(old(entries[..]))
      ensures forall e :: e in batch ==> !HardDelete(e)
    {
      ApplySoftDeleteLogic();
      batch := entries[..];
    }
  }

  // ---------------------------------------------------------------- query filters

  /** A row of the Leagues set the context still declares. */
  datatype League = League(id: Id, name: string, visibility: string, activityId: Id, isDeleted: bool)

  /** A row of the AppUserLeagues join set, keyed by (AppUserId, LeagueId). */
  datatype AppUserLeague = AppUserLeague(appUserId: Id, leagueId: Id, nicknameInLeague: string, joinedAt: int)

  function UserDeleted(u: AppUser): bool { u.isDeleted }
  function ActivityDeleted(a: Activity): bool { a.isDeleted }
  function LeagueDeleted(l: League): bool { l.isDeleted }
  function EventDeleted(e: ScheduledEvent): bool { e.isDeleted }
  function LinkKey(ul: AppUserLeague): (Id, Id) { (ul.appUserId, ul.leagueId) }

  /** The rows a default read returns: those whose IsDeleted flag is down,
      in stored order. */
  function Visible<T>(s: seq<T>, deleted: T -> bool): seq<T>
  {
    Drop(s, deleted, {true})
  }

  lemma VisibleExact<T(!new)>(s: seq<T>, deleted: T -> bool)
    ensures forall x :: x in Visible(s, deleted) <==> x in s && !deleted(x)
  {
    DropMembers(s, deleted, {true});
  }

  /** The four soft-delete filters, by entity. */
  function VisibleUsers(us: seq<AppUser>): seq<AppUser> { Visible(us, UserDeleted) }
  function VisibleActivities(as_: seq<Activity>): seq<Activity> { Visible(as_, ActivityDeleted) }
  function VisibleLeagues(ls: seq<League>): seq<League> { Visible(ls, LeagueDeleted) }
  function VisibleEvents(es: seq<ScheduledEvent>): seq<ScheduledEvent> { Visible(es, EventDeleted) }

  /** Default reads of users, activities, leagues and scheduled events return
      exactly the stored rows whose IsDeleted is false. */
  lemma DefaultReadsHideDeleted(us: seq<AppUser>, as_: seq<Activity>, ls: seq<League>, es: seq<ScheduledEvent>)
    ensures forall u :: u in VisibleUsers(us) <==> u in us && !u.isDeleted
    ensures forall a :: a in VisibleActivities(as_) <==> a in as_ && !a.isDeleted
    ensures forall l :: l in VisibleLeagues(ls) <==> l in ls && !l.isDeleted
    ensures forall e :: e in VisibleEvents(es) <==> e in es && !e.isDeleted
  {
    VisibleExact(us, UserDeleted);
    VisibleExact(as_, ActivityDeleted);
    VisibleExact(ls, LeagueDeleted);
    VisibleExact(es, EventDeleted);
  }

  /** Filtering twice hides nothing more than filtering once. */
  lemma {:induction false} VisibleIdempotent<T>(s: seq<T>, deleted: T -> bool)
    ensures Visible(Visible(s, deleted), deleted) == Visible(s, deleted)
  {
    if |s| > 0 {
      VisibleIdempotent(s[1..], deleted);
      if !deleted(s[0]) {
        assert ([s[0]] + Visible(s[1..], deleted))[1..] == Visible(s[1..], deleted);
      }
    }
  }

  /** The AppUserLeague filter: a link is visible when the user it belongs to
      is stored and not soft-deleted. */
  predicate LinkVisible(ul: AppUserLeague, users: seq<AppUser>)
  {
    match FindFirst(users, UserKey, ul.appUserId)
    case None => false
    case Some(u) => !u.isDeleted
  }

  function VisibleLinks(uls: seq<AppUserLeague>, users: seq<AppUser>): (r: seq<AppUserLeague>)
    ensures forall ul :: ul in r <==> ul in uls && LinkVisible(ul, users)
  {
    if |uls| == 0 then []
    else
      var rest := VisibleLinks(uls[1..], users);
      assert uls == [uls[0]] + uls[1..];
      if LinkVisible(uls[0], users) then [uls[0]] + rest else rest
  }

  /** Under the users' primary key a link is visible exactly when its user is
      not soft-deleted, and nothing else about the link matters: two links of
      the same user are both visible or both hidden. */
  lemma LinkVisibleExact(users: seq<AppUser>, u: AppUser, ul: AppUserLeague, other: AppUserLeague)
    requires Unique(users, UserKey) && u in users && ul.appUserId == u.id
    requires other.appUserId == ul.appUserId
    ensures LinkVisible(ul, users) <==> !u.isDeleted
    ensures LinkVisible(other, users) == LinkVisible(ul, users)
  {
    UniqueRows(users, UserKey, FindFirst(users, UserKey, u.id).value, u);
  }

  /** Hiding links never breaks the (AppUserId, LeagueId) key. */
  lemma {:induction false} VisibleLinksKeepKey(uls: seq<AppUserLeague>, users: seq<AppUser>)
    requires Unique(uls, LinkKey)
    ensures Unique(VisibleLinks(uls, users), LinkKey)
  {
    if |uls| > 0 {
      UniqueWhereSplit(uls, LinkKey, Everywhere);
      VisibleLinksKeepKey(uls[1..], users);
      var rest := VisibleLinks(uls[1..], users);
      if LinkVisible(uls[0], users) {
        forall i | 0 <= i < |rest| ensures LinkKey(rest[i]) != LinkKey(uls[0]) {
          assert rest[i] in rest;
        }
        UniqueWhereCons(uls[0], rest, LinkKey, Everywhere);
      }
    }
  }
}
