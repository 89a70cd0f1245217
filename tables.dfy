/**
 * Helpers for a repository table, seen as a map from generated key to record: which key a
 * `save` writes, and the rows of a table as a sequence (a query's result list).
 */
module Tables {
  import opened Wrappers

  /** Distinct keys hold distinct records. */
  ghost predicate Injective<R>(m: map<int, R>) {
    forall a, b :: a in m && b in m && m[a] == m[b] ==> a == b
  }

  /** Some element of a non-empty set. */
  lemma Pick<T>(s: set<T>) returns (x: T)
    requires s != {}
    ensures x in s
  {
    if forall y :: y !in s {
      assert false;
    }
    x :| x in s;
  }

  /** A key under which a stored record is held. */
  lemma KeyOf<R>(m: map<int, R>, v: R) returns (k: int)
    requires v in m.Values
    ensures k in m && m[k] == v
  {
    if forall j :: j in m ==> m[j] != v {
      assert false;
    }
    k :| k in m && m[k] == v;
  }

  lemma {:induction false} MinExists(s: set<int>)
    requires s != {}
    ensures exists m :: m in s && forall x :: x in s ==> m <= x
  {
    var y := Pick(s);
    if s - {y} != {} {
      MinExists(s - {y});
      var m :| m in s - {y} && forall x :: x in s - {y} ==> m <= x;
      if y < m {
        assert forall x :: x in s ==> x == y || x in s - {y};
      } else {
        assert forall x :: x in s ==> x == y || x in s - {y};
      }
    } else {
      assert forall x :: x in s ==> x == y || x in s - {y};
    }
  }

  /** The smallest key of a non-empty key set. */
  function Min(s: set<int>): (m: int)
    requires s != {}
    ensures m in s && forall x :: x in s ==> m <= x
  {
    MinExists(s);
    var m :| m in s && forall x :: x in s ==> m <= x;
    m
  }

  /**
   * The rows of a table, in ascending key order. The order is this model's choice: a query
   * without an ORDER BY, or with ties in its ORDER BY, promises no particular order.
   */
  function Rows<R(==)>(m: map<int, R>): (r: seq<R>)
    ensures |r| == |m|
    ensures forall x :: x in r ==> x in m.Values
    decreases |m|
  {
    if |m| == 0 then []
    else
      var k := Min(m.Keys);
      assert (m - {k}).Keys == m.Keys - {k};
      [m[k]] + Rows(m - {k})
  }

  /** Each record of an injective table appears in its rows exactly once. */
  lemma {:induction false} RowsAreValues<R>(m: map<int, R>)
    requires Injective(m)
    ensures multiset(Rows(m)) == multiset(m.Values)
    decreases |m|
  {
    if |m| != 0 {
      var k := Min(m.Keys);
      var rest := m - {k};
      assert rest.Keys == m.Keys - {k};
      assert Injective(rest);
      RowsAreValues(rest);
      forall v | v in m.Values
        ensures v in {m[k]} + rest.Values
      {
        var j :| j in m && m[j] == v;
        if j != k { assert j in rest; }
      }
      assert m.Values == {m[k]} + rest.Values;
      assert m[k] !in rest.Values;
      assert Rows(m) == [m[k]] + Rows(rest);
      calc {
        multiset(Rows(m));
        multiset([m[k]]) + multiset(Rows(rest));
        multiset{m[k]} + multiset(rest.Values);
        multiset({m[k]} + rest.Values);
      }
    }
  }

  /** A sequence whose multiset is that of a set holds exactly the set's elements. */
  lemma SetMultisetMembers<T>(r: seq<T>, s: set<T>)
    requires multiset(r) == multiset(s)
    ensures forall x :: x in r <==> x in s
  {
    forall x ensures x in r <==> x in s {
      assert x in r <==> x in multiset(r);
    }
  }

  /** A sequence whose multiset is that of a set holds no element twice. */
  lemma SetMultisetNoDup<T>(r: seq<T>, s: set<T>)
    requires multiset(r) == multiset(s)
    ensures forall i, j :: 0 <= i < j < |r| ==> r[i] != r[j]
  {
    forall i, j | 0 <= i < j < |r|
      ensures r[i] != r[j]
    {
      assert r == r[..j] + r[j..];
      assert r[i] in r[..j];
      assert multiset(r)[r[j]] == multiset(r[..j])[r[j]] + multiset(r[j..])[r[j]];
      assert multiset(r[j..])[r[j]] >= 1;
    }
  }

  /**
   * The key a repository `save` writes: an id that is already stored is overwritten (a merge);
   * a missing id, or one that no row has, is inserted under the next generated key.
   */
  function SaveKey<R>(m: map<int, R>, id: Option<int>, next: int): (k: int)
    requires forall j :: j in m ==> j < next
    ensures k in m <==> id.Some? && id.value in m
    ensures k in m ==> id == Some(k)
    ensures k !in m ==> k == next
  {
    if id.Some? && id.value in m then id.value else next
  }
}
