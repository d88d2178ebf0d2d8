/** Generic machinery for relational tables held as sequences of rows.
    A table is a `seq` in physical (insertion) order; keys and unique indexes
    are invariants over it, and removing rows keeps the order of the rest. */
module Tables {

  /** Row identifiers (the source's Guid v7 ids) are opaque naturals. */
  type Id = nat

  datatype Option<+T> = None | Some(value: T)

  /** The set of keys that occur in a table. */
  function Keys<T, K>(s: seq<T>, key: T -> K): (r: set<K>)
    ensures forall i :: 0 <= i < |s| ==> key(s[i]) in r
    ensures forall k :: k in r ==> exists i :: 0 <= i < |s| && key(s[i]) == k
  {
    set i | 0 <= i < |s| :: key(s[i])
  }

  /** The first row whose key is `id`, as a FirstOrDefault query returns it. */
  function FindFirst<T>(s: seq<T>, key: T -> Id, id: Id): (r: Option<T>)
    ensures r.Some? ==> r.value in s && key(r.value) == id
    ensures r.None? <==> id !in Keys(s, key)
  {
    if |s| == 0 then None
    else if key(s[0]) == id then Some(s[0])
    else
      var rest := FindFirst(s[1..], key, id);
      assert forall i :: 1 <= i < |s| ==> s[i] == s[1..][i - 1];
      rest
  }

  /** A (possibly filtered) unique index: no two rows inside `scope` share a key. */
  ghost predicate UniqueWhere<T, K>(s: seq<T>, key: T -> K, scope: T -> bool)
  {
    forall i, j :: 0 <= i < j < |s| && scope(s[i]) && scope(s[j]) ==> key(s[i]) != key(s[j])
  }

  function Everywhere<T>(x: T): bool { true }

  /** A primary key or an unfiltered unique index. */
  ghost predicate Unique<T, K>(s: seq<T>, key: T -> K)
  {
    UniqueWhere(s, key, Everywhere)
  }

  /** The rows whose `fk` column is not among `gone`, in their original order:
      the effect of a DELETE (or of a cascade) keyed on that column. */
  function Drop<T, K>(s: seq<T>, fk: T -> K, gone: set<K>): seq<T>
  {
    if |s| == 0 then []
    else if fk(s[0]) in gone then Drop(s[1..], fk, gone)
    else [s[0]] + Drop(s[1..], fk, gone)
  }

  /** A row survives `Drop` exactly when its `fk` column is not among `gone`. */
  lemma {:induction false} DropMembers<T(!new), K>(s: seq<T>, fk: T -> K, gone: set<K>)
    ensures forall x :: x in Drop(s, fk, gone) <==> x in s && fk(x) !in gone
  {
    if |s| > 0 {
      DropMembers(s[1..], fk, gone);
      assert s == [s[0]] + s[1..];
    }
  }

  /** The keys of the rows whose `fk` column names one of `targets`: the rows
      an ON DELETE CASCADE key on that column reaches. */
  function Referring<T, K, F>(s: seq<T>, key: T -> K, fk: T -> F, targets: set<F>): set<K>
  {
    if |s| == 0 then {}
    else (if fk(s[0]) in targets then {key(s[0])} else {}) + Referring(s[1..], key, fk, targets)
  }

  lemma {:induction false} ReferringHas<T(!new), K, F>(s: seq<T>, key: T -> K, fk: T -> F, targets: set<F>)
    ensures forall x :: x in s && fk(x) in targets ==> key(x) in Referring(s, key, fk, targets)
  {
    if |s| > 0 {
      ReferringHas(s[1..], key, fk, targets);
      assert s == [s[0]] + s[1..];
    }
  }

  lemma {:induction false} ReferringOnly<T, K, F>(s: seq<T>, key: T -> K, fk: T -> F, targets: set<F>, k: K)
    requires k in Referring(s, key, fk, targets)
    ensures exists i :: 0 <= i < |s| && fk(s[i]) in targets && key(s[i]) == k
  {
    if !(fk(s[0]) in targets && key(s[0]) == k) {
      ReferringOnly(s[1..], key, fk, targets, k);
      var i :| 0 <= i < |s| - 1 && fk(s[1..][i]) in targets && key(s[1..][i]) == k;
      assert s[i + 1] == s[1..][i];
    }
  }

  /** No row refers to an empty set of targets. */
  lemma {:induction false} ReferringNone<T, K, F>(s: seq<T>, key: T -> K, fk: T -> F, targets: set<F>)
    requires targets == {}
    ensures Referring(s, key, fk, targets) == {}
  {
    if |s| > 0 {
      ReferringNone(s[1..], key, fk, targets);
    }
  }

  /** The referring keys are exactly the keys of the rows that refer to a target. */
  lemma ReferringIs<T(!new), K, F>(s: seq<T>, key: T -> K, fk: T -> F, targets: set<F>)
    ensures Referring(s, key, fk, targets) == set x | x in s && fk(x) in targets :: key(x)
  {
    ReferringHas(s, key, fk, targets);
    forall k | k in Referring(s, key, fk, targets)
      ensures k in set x | x in s && fk(x) in targets :: key(x)
    {
      ReferringOnly(s, key, fk, targets, k);
      var i :| 0 <= i < |s| && fk(s[i]) in targets && key(s[i]) == k;
      assert s[i] in s;
    }
  }

  /** Under a unique key, a row's key is among the referring keys exactly when
      the row itself refers to a target. */
  lemma ReferringExact<T(!new), K, F>(s: seq<T>, key: T -> K, fk: T -> F, targets: set<F>)
    requires Unique(s, key)
    ensures forall x :: x in s ==> (key(x) in Referring(s, key, fk, targets) <==> fk(x) in targets)
  {
    ReferringHas(s, key, fk, targets);
    forall x | x in s && key(x) in Referring(s, key, fk, targets) ensures fk(x) in targets {
      ReferringOnly(s, key, fk, targets, key(x));
      var i :| 0 <= i < |s| && fk(s[i]) in targets && key(s[i]) == key(x);
      UniqueRows(s, key, s[i], x);
    }
  }

  lemma KeysAppend<T, K>(s: seq<T>, x: T, key: T -> K)
    ensures Keys(s + [x], key) == Keys(s, key) + {key(x)}
  {
    var t := s + [x];
    assert forall i :: 0 <= i < |s| ==> t[i] == s[i];
    assert t[|s|] == x;
  }

  /** Deleting by primary key removes exactly the doomed keys. */
  lemma DropKeys<T(!new), K>(s: seq<T>, key: T -> K, gone: set<K>)
    ensures Keys(Drop(s, key, gone), key) == Keys(s, key) - gone
  {
    var r := Drop(s, key, gone);
    DropMembers(s, key, gone);
    forall k | k in Keys(s, key) - gone ensures k in Keys(r, key) {
      var i :| 0 <= i < |s| && key(s[i]) == k;
      assert s[i] in r;
    }
    forall k | k in Keys(r, key) ensures k in Keys(s, key) - gone {
      var i :| 0 <= i < |r| && key(r[i]) == k;
      assert r[i] in s;
    }
  }

  /** Splitting a filtered unique index at its first row. */
  lemma UniqueWhereCons<T, K>(x: T, s: seq<T>, key: T -> K, scope: T -> bool)
    ensures UniqueWhere([x] + s, key, scope) <==>
              UniqueWhere(s, key, scope) &&
              (scope(x) ==> forall i :: 0 <= i < |s| && scope(s[i]) ==> key(s[i]) != key(x))
  {
    var t := [x] + s;
    assert forall i :: 0 <= i < |s| ==> t[i + 1] == s[i];
    if UniqueWhere(t, key, scope) {
      forall i, j | 0 <= i < j < |s| && scope(s[i]) && scope(s[j])
        ensures key(s[i]) != key(s[j])
      {
        assert t[i + 1] == s[i] && t[j + 1] == s[j];
      }
      forall i | 0 <= i < |s| && scope(s[i]) && scope(x)
        ensures key(s[i]) != key(x)
      {
        assert t[0] == x && t[i + 1] == s[i];
      }
    }
    if UniqueWhere(s, key, scope) && (scope(x) ==> forall i :: 0 <= i < |s| && scope(s[i]) ==> key(s[i]) != key(x)) {
      forall i, j | 0 <= i < j < |t| && scope(t[i]) && scope(t[j])
        ensures key(t[i]) != key(t[j])
      {
        if i > 0 {
          assert t[i] == s[i - 1] && t[j] == s[j - 1];
        } else {
          assert t[j] == s[j - 1];
        }
      }
    }
  }

  /** Removing rows never breaks a unique index. */
  lemma {:induction false} DropKeepsUnique<T(!new), K, F>(s: seq<T>, key: T -> K, scope: T -> bool, fk: T -> F, gone: set<F>)
    requires UniqueWhere(s, key, scope)
    ensures UniqueWhere(Drop(s, fk, gone), key, scope)
  {
    if |s| > 0 {
      UniqueWhereCons(s[0], s[1..], key, scope);
      assert [s[0]] + s[1..] == s;
      DropKeepsUnique(s[1..], key, scope, fk, gone);
      var rest := Drop(s[1..], fk, gone);
      DropMembers(s[1..], fk, gone);
      if fk(s[0]) !in gone {
        forall i | 0 <= i < |rest| && scope(rest[i]) && scope(s[0])
          ensures key(rest[i]) != key(s[0])
        {
          assert rest[i] in s[1..];
        }
        UniqueWhereCons(s[0], rest, key, scope);
      }
    }
  }

  /** Appending a row whose key is fresh (or which lies outside the index's
      scope) keeps a unique index. */
  lemma AppendKeepsUnique<T, K>(s: seq<T>, x: T, key: T -> K, scope: T -> bool)
    requires UniqueWhere(s, key, scope)
    requires scope(x) ==> forall i :: 0 <= i < |s| && scope(s[i]) ==> key(s[i]) != key(x)
    ensures UniqueWhere(s + [x], key, scope)
  {
    var t := s + [x];
    forall i, j | 0 <= i < j < |t| && scope(t[i]) && scope(t[j])
      ensures key(t[i]) != key(t[j])
    {
      if j < |s| {
        assert t[i] == s[i] && t[j] == s[j];
      } else {
        assert t[i] == s[i] && t[j] == x;
      }
    }
  }

  /** In a unique index over `s + [x]`, the appended row's key is not used by
      an earlier row in scope. */
  lemma AppendFresh<T, K>(s: seq<T>, x: T, key: T -> K, scope: T -> bool)
    requires UniqueWhere(s + [x], key, scope) && scope(x)
    ensures forall i :: 0 <= i < |s| && scope(s[i]) ==> key(s[i]) != key(x)
  {
    var t := s + [x];
    forall i | 0 <= i < |s| && scope(s[i]) ensures key(s[i]) != key(x) {
      assert t[i] == s[i] && t[|s|] == x;
    }
  }

  /** The same for an unfiltered key, stated on the key set. */
  lemma FreshKey<T, K>(s: seq<T>, x: T, key: T -> K)
    requires Unique(s + [x], key)
    ensures key(x) !in Keys(s, key)
  {
    AppendFresh(s, x, key, Everywhere);
  }

  /** Under a unique index, two rows in scope with the same key are the same row. */
  lemma UniqueKeyDetermines<T, K>(s: seq<T>, key: T -> K, scope: T -> bool, i: nat, j: nat)
    requires UniqueWhere(s, key, scope)
    requires i < |s| && j < |s| && scope(s[i]) && scope(s[j]) && key(s[i]) == key(s[j])
    ensures i == j
  {
  }

  /** The same, for rows named by value. */
  lemma UniqueRows<T, K>(s: seq<T>, key: T -> K, x: T, y: T)
    requires Unique(s, key)
    requires x in s && y in s && key(x) == key(y)
    ensures x == y
  {
    var i :| 0 <= i < |s| && s[i] == x;
    var j :| 0 <= j < |s| && s[j] == y;
    UniqueKeyDetermines(s, key, Everywhere, i, j);
  }

  /** Dropping no key leaves the table as it was. */
  lemma {:induction false} DropNothing<T(!new), K>(s: seq<T>, fk: T -> K)
    ensures Drop(s, fk, {}) == s
  {
    if |s| > 0 {
      DropNothing(s[1..], fk);
      assert [s[0]] + s[1..] == s;
    }
  }

  /** No two rows of `s` share the value of column `f`. */
  ghost predicate DistinctBy<T, K>(s: seq<T>, f: T -> K)
  {
    forall i, j :: 0 <= i < j < |s| ==> f(s[i]) != f(s[j])
  }

  lemma DistinctByCons<T, K>(x: T, s: seq<T>, f: T -> K)
    requires DistinctBy(s, f)
    requires forall y :: y in s ==> f(y) != f(x)
    ensures DistinctBy([x] + s, f)
  {
    var t := [x] + s;
    forall i, j | 0 <= i < j < |t| ensures f(t[i]) != f(t[j]) {
      assert t[j] == s[j - 1] && t[j] in s;
      if i > 0 { assert t[i] == s[i - 1]; }
    }
  }

  /** A unique index over a non-empty table holds on its tail, and the head
      row's key (when in scope) occurs nowhere in the tail's scope. */
  lemma UniqueWhereSplit<T, K>(s: seq<T>, key: T -> K, scope: T -> bool)
    requires |s| > 0 && UniqueWhere(s, key, scope)
    ensures UniqueWhere(s[1..], key, scope)
    ensures scope(s[0]) ==> forall x :: x in s[1..] && scope(x) ==> key(x) != key(s[0])
  {
    var tail := s[1..];
    forall i, j | 0 <= i < j < |tail| && scope(tail[i]) && scope(tail[j]) ensures key(tail[i]) != key(tail[j]) {
      assert tail[i] == s[i + 1] && tail[j] == s[j + 1];
    }
    forall x | x in tail && scope(x) && scope(s[0]) ensures key(x) != key(s[0]) {
      var k :| 0 <= k < |tail| && tail[k] == x;
      assert s[k + 1] == x;
    }
  }

  /** A sequence in which no value occurs twice. */
  ghost predicate NoDuplicates<T>(s: seq<T>)
  {
    forall i, j :: 0 <= i < j < |s| ==> s[i] != s[j]
  }

  lemma NoDuplicatesCons<T>(x: T, s: seq<T>)
    requires NoDuplicates(s)
    requires forall i :: 0 <= i < |s| ==> s[i] != x
    ensures NoDuplicates([x] + s)
  {
    var t := [x] + s;
    forall i, j | 0 <= i < j < |t| ensures t[i] != t[j] {
      assert t[j] == s[j - 1];
      if i > 0 { assert t[i] == s[i - 1]; }
    }
  }

  /** The positions of `s` whose element satisfies `p`. */
  ghost function Positions<T>(s: seq<T>, p: T -> bool): set<int>
  {
    set i | 0 <= i < |s| && p(s[i])
  }

  /** Appending a row adds its position, and only when it satisfies `p`. */
  lemma PositionsSnoc<T>(s: seq<T>, x: T, p: T -> bool)
    ensures |Positions(s + [x], p)| == |Positions(s, p)| + (if p(x) then 1 else 0)
  {
    var t := s + [x];
    var last: set<int> := if p(x) then {|s|} else {};
    forall i | i in Positions(t, p) ensures i in Positions(s, p) + last {
      if i < |s| { assert t[i] == s[i]; }
    }
    forall i | i in Positions(s, p) + last ensures i in Positions(t, p) {
      if i < |s| { assert t[i] == s[i]; }
    }
    assert Positions(t, p) == Positions(s, p) + last;
    assert |s| !in Positions(s, p);
  }

  /** Removing the head drops its position and shifts the others down by one. */
  lemma {:induction false} PositionsCons<T>(s: seq<T>, p: T -> bool)
    requires |s| > 0
    ensures |Positions(s, p)| == (if p(s[0]) then 1 else 0) + |Positions(s[1..], p)|
    decreases |s|
  {
    if |s| == 1 {
      assert s == [] + [s[0]] && s[1..] == [];
      PositionsSnoc([], s[0], p);
    } else {
      var init, x := s[..|s| - 1], s[|s| - 1];
      assert s == init + [x] && s[1..] == init[1..] + [x] && init[0] == s[0];
      PositionsCons(init, p);
      PositionsSnoc(init, x, p);
      PositionsSnoc(init[1..], x, p);
    }
  }
}
