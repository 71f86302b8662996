/**
 * The `Migration` contract (version, description, applicability, `migrate`,
 * `Comparable`) and the ordering the orchestrator sorts migrations by.
 */
module Migrations {
  import opened Wrappers

  /**
   * A migration as the orchestrator sees it. `AbstractMigration` is not part
   * of this model, so `equals` is taken to be value equality of these fields,
   * and the script and hash that a `Metadata` record copies from a migration
   * are carried here (absent for migrations that are not script based).
   */
  datatype Migration = Migration(version: int, description: string, script: Option<string>, hash: Option<string>)

  /** What one call of `migrate(session)` did: returned true, returned false, or threw MigrationException. */
  datatype RunResult = Succeeded | Failed | Threw

  /**
   * `isApplicable(from, to)`: the implementation is not part of this model, so
   * the orchestrator takes it as a parameter of this type.
   */
  type Applicability = (Migration, int, int) -> bool

  /** A suggested instantiation of `isApplicable`: the version lies in the half-open range (from, to]. */
  predicate InRange(m: Migration, from: int, to: int)
  {
    from < m.version <= to
  }

  /**
   * `compareTo`, instantiated (as an assumption about `AbstractMigration`) as
   * the comparison of versions.
   */
  function CompareTo(a: Migration, b: Migration): (r: int)
  {
    if a.version < b.version then -1 else if a.version == b.version then 0 else 1
  }

  /** `compareTo` is a total preorder: antisymmetric in sign, transitive and total. */
  lemma {:induction false} CompareToIsTotalPreorder(a: Migration, b: Migration, c: Migration)
    ensures CompareTo(a, b) == -CompareTo(b, a)
    ensures CompareTo(a, b) <= 0 && CompareTo(b, c) <= 0 ==> CompareTo(a, c) <= 0
    ensures CompareTo(a, b) <= 0 || CompareTo(b, a) <= 0
    ensures CompareTo(a, b) == 0 <==> a.version == b.version
  {
  }

  /**
   * `a` may stand before `b` in a list sorted by `compareTo`, in reverse order
   * (`Collections.reverseOrder()`) when `descending` holds.
   */
  predicate Precedes(a: Migration, b: Migration, descending: bool)
  {
    if descending then CompareTo(a, b) >= 0 else CompareTo(a, b) <= 0
  }

  predicate Sorted(s: seq<Migration>, descending: bool)
  {
    forall i, j :: 0 <= i < j < |s| ==> Precedes(s[i], s[j], descending)
  }

  /** Inserts `x` into a sorted list in front of every element it does not have to follow. */
  function Insert(x: Migration, t: seq<Migration>, descending: bool): (r: seq<Migration>)
    requires Sorted(t, descending)
    ensures Sorted(r, descending)
    ensures multiset(r) == multiset(t) + multiset{x}
    ensures |r| == |t| + 1
  {
    if t == [] || Precedes(x, t[0], descending) then
      [x] + t
    else
      var rest := Insert(x, t[1..], descending);
      InsertKeepsHead(x, t, rest, descending);
      [t[0]] + rest
  }

  /** Putting the head of `t` back in front of the insertion into its tail keeps the list sorted. */
  lemma {:induction false} InsertKeepsHead(x: Migration, t: seq<Migration>, rest: seq<Migration>, descending: bool)
    requires t != [] && Sorted(t, descending) && !Precedes(x, t[0], descending)
    requires Sorted(rest, descending) && multiset(rest) == multiset(t[1..]) + multiset{x}
    ensures Sorted([t[0]] + rest, descending)
    ensures multiset([t[0]] + rest) == multiset(t) + multiset{x}
  {
    assert t == [t[0]] + t[1..];
    forall k | 0 <= k < |rest| ensures Precedes(t[0], rest[k], descending) {
      assert rest[k] in multiset(rest);
      if rest[k] != x {
        assert rest[k] in multiset(t[1..]);
        var j :| 0 <= j < |t[1..]| && t[1..][j] == rest[k];
        assert t[j + 1] == rest[k];
      }
    }
    var r := [t[0]] + rest;
    forall i, j | 0 <= i < j < |r| ensures Precedes(r[i], r[j], descending) {
      if i > 0 {
        assert r[i] == rest[i - 1] && r[j] == rest[j - 1];
      }
    }
  }

  /**
   * `Collections.sort(list, order)`: a stable sort by `compareTo`, in reverse
   * order when `descending` holds.
   */
  function Sort(s: seq<Migration>, descending: bool): (r: seq<Migration>)
    ensures Sorted(r, descending)
    ensures multiset(r) == multiset(s)
    ensures |r| == |s|
  {
    if s == [] then []
    else
      assert s == [s[0]] + s[1..];
      Insert(s[0], Sort(s[1..], descending), descending)
  }

  /** The largest version in a non-empty list. */
  function MaxVersion(s: seq<Migration>): (r: int)
    requires s != []
    ensures exists i :: 0 <= i < |s| && s[i].version == r
    ensures forall i :: 0 <= i < |s| ==> s[i].version <= r
  {
    if |s| == 1 then s[0].version
    else
      var m := MaxVersion(s[1..]);
      assert forall i :: 1 <= i < |s| ==> s[i] == s[1..][i - 1];
      if s[0].version >= m then s[0].version else m
  }

  /** The smallest version in a non-empty list. */
  function MinVersion(s: seq<Migration>): (r: int)
    requires s != []
    ensures exists i :: 0 <= i < |s| && s[i].version == r
    ensures forall i :: 0 <= i < |s| ==> r <= s[i].version
  {
    if |s| == 1 then s[0].version
    else
      var m := MinVersion(s[1..]);
      assert forall i :: 1 <= i < |s| ==> s[i] == s[1..][i - 1];
      if s[0].version <= m then s[0].version else m
  }

  /** Two lists with the same elements have the same largest and smallest version. */
  lemma {:induction false} ExtremesOfPermutation(s: seq<Migration>, t: seq<Migration>)
    requires s != [] && multiset(s) == multiset(t)
    ensures t != []
    ensures MaxVersion(s) == MaxVersion(t) && MinVersion(s) == MinVersion(t)
  {
    forall x | x in s ensures x in t {
      assert x in multiset(s);
    }
    forall x | x in t ensures x in s {
      assert x in multiset(t);
    }
    ExtremesOfSubset(s, t);
    ExtremesOfSubset(t, s);
  }

  /** Every element of `s` also in `t`: `t` reaches at least as far both ways. */
  lemma {:induction false} ExtremesOfSubset(s: seq<Migration>, t: seq<Migration>)
    requires s != [] && forall x :: x in s ==> x in t
    ensures t != []
    ensures MaxVersion(s) <= MaxVersion(t) && MinVersion(t) <= MinVersion(s)
  {
    assert s[0] in t;
    var i :| 0 <= i < |s| && s[i].version == MaxVersion(s);
    assert s[i] in t;
    var k :| 0 <= k < |s| && s[k].version == MinVersion(s);
    assert s[k] in t;
  }

  /** The last element of a list sorted in reverse order carries the smallest version. */
  lemma {:induction false} LastOfReverseIsMin(s: seq<Migration>)
    requires s != [] && Sorted(s, true)
    ensures s[|s| - 1].version == MinVersion(s)
  {
    var k :| 0 <= k < |s| && s[k].version == MinVersion(s);
    assert k == |s| - 1 || Precedes(s[k], s[|s| - 1], true);
  }

  /** The last element of a list sorted in ascending order carries the largest version. */
  lemma {:induction false} LastOfAscendingIsMax(s: seq<Migration>)
    requires s != [] && Sorted(s, false)
    ensures s[|s| - 1].version == MaxVersion(s)
  {
    var l :| 0 <= l < |s| && s[l].version == MaxVersion(s);
    assert l == |s| - 1 || Precedes(s[l], s[|s| - 1], false);
  }

  /** Sorting in reverse order puts the smallest version last; ascending, the largest. */
  lemma {:induction false} SortedEnds(s: seq<Migration>)
    requires s != []
    ensures Sort(s, true) != [] && Sort(s, true)[|s| - 1].version == MinVersion(s)
    ensures Sort(s, false) != [] && Sort(s, false)[|s| - 1].version == MaxVersion(s)
  {
    var down := Sort(s, true);
    var up := Sort(s, false);
    ExtremesOfPermutation(s, down);
    ExtremesOfPermutation(s, up);
    LastOfReverseIsMin(down);
    LastOfAscendingIsMax(up);
  }
}
