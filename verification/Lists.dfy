/** Lists without repetitions, and the sets of their members. */
module Lists {

  predicate Distinct<T(==)>(s: seq<T>) {
    forall i, j :: 0 <= i < j < |s| ==> s[i] != s[j]
  }

  ghost function Members<T(!new)>(s: seq<T>): set<T> { set x | x in s }

  lemma {:induction false} DistinctMembers<T(!new)>(s: seq<T>)
    requires Distinct(s)
    ensures |Members(s)| == |s|
  {
    if s == [] {
      assert Members(s) == {};
    } else {
      var n := |s| - 1;
      DistinctMembers(s[..n]);
      assert s[n] !in Members(s[..n]);
      assert Members(s) == Members(s[..n]) + {s[n]};
    }
  }

  lemma SubsetIsSmaller<T>(s: set<T>, t: set<T>)
    requires s <= t
    ensures |s| <= |t|
  {
    if s != t {
      assert s + (t - s) == t;
    }
  }

  /** The results that a query ordered by `keys` and cut at `limit` may return: the lowest rows, lowest first. */
  ghost predicate IsLowest<T(!new)>(keys: map<T, int>, limit: nat, s: seq<T>) {
    && Distinct(s) && |s| <= limit
    && (forall x :: x in s ==> x in keys)
    && (forall i, j :: 0 <= i < j < |s| ==> keys[s[i]] <= keys[s[j]])
    && (forall y :: y in keys && y !in s ==> |s| == limit && forall x :: x in s ==> keys[x] <= keys[y])
  }

  ghost function Below<T(!new)>(keys: map<T, int>, key: int): set<T> { set y | y in keys && keys[y] < key }

  /** A list of as many rows as the limit allows, of which the `i`-th has the `i`-th lowest key, counted from 0. */
  ghost predicate IsRanked<T(!new)>(keys: map<T, int>, limit: nat, s: seq<T>) {
    && |s| == (if |keys| < limit then |keys| else limit)
    && (forall x :: x in s ==> x in keys)
    && forall i :: 0 <= i < |s| ==> |Below(keys, keys[s[i]])| <= i < |Below(keys, keys[s[i]] + 1)|
  }

  lemma LowestAreRanked<T(!new)>(keys: map<T, int>, limit: nat, s: seq<T>)
    requires IsLowest(keys, limit, s)
    ensures IsRanked(keys, limit, s)
  {
    DistinctMembers(s);
    SubsetIsSmaller(Members(s), keys.Keys);
    if |s| < limit {
      assert keys.Keys == Members(s);
    }
    forall i | 0 <= i < |s| ensures |Below(keys, keys[s[i]])| <= i < |Below(keys, keys[s[i]] + 1)| {
      RankOf(keys, limit, s, i);
    }
  }

  lemma RankOf<T(!new)>(keys: map<T, int>, limit: nat, s: seq<T>, i: nat)
    requires IsLowest(keys, limit, s) && i < |s|
    ensures |Below(keys, keys[s[i]])| <= i < |Below(keys, keys[s[i]] + 1)|
  {
    DistinctMembers(s[..i]);
    forall y | y in Below(keys, keys[s[i]]) ensures y in s[..i] {
      var j :| 0 <= j < |s| && s[j] == y;
    }
    SubsetIsSmaller(Below(keys, keys[s[i]]), Members(s[..i]));
    DistinctMembers(s[..i + 1]);
    SubsetIsSmaller(Members(s[..i + 1]), Below(keys, keys[s[i]] + 1));
  }

  lemma {:induction false} Lowest<T(!new)>(keys: map<T, int>, rows: set<T>) returns (x: T)
    requires rows != {} && rows <= keys.Keys
    ensures x in rows && forall y :: y in rows ==> keys[x] <= keys[y]
    decreases |rows|
  {
    x :| x in rows;
    var rest := rows - {x};
    assert forall y :: y in rows ==> y == x || y in rest;
    if rest != {} {
      var y := Lowest(keys, rest);
      if keys[y] < keys[x] {
        x := y;
      }
    }
  }

  /** Such a query always has a result. */
  lemma {:induction false} LowestExist<T(!new)>(keys: map<T, int>, limit: nat) returns (s: seq<T>)
    ensures IsLowest(keys, limit, s)
  {
    s := [];
    if limit > 0 {
      s := LowestExist(keys, limit - 1);
      var rest := keys.Keys - Members(s);
      assert forall y :: y in keys && y !in s ==> y in rest;
      if rest != {} {
        var x := Lowest(keys, rest);
        assert |s| == limit - 1 && x !in s;
        s := s + [x];
      }
    }
  }
}
