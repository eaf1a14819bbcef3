/**
 * `ORDER BY`: the rows of a table listed in a total preorder. Rows that tie
 * come out in some fixed but unspecified order, as a database returns them.
 */
module Ordering {

  ghost predicate Total<V(!new)>(le: (V, V) -> bool) {
    forall x, y :: le(x, y) || le(y, x)
  }

  ghost predicate Transitive<V(!new)>(le: (V, V) -> bool) {
    forall x, y, z :: le(x, y) && le(y, z) ==> le(x, z)
  }

  ghost predicate Preorder<V(!new)>(le: (V, V) -> bool) {
    Total(le) && Transitive(le)
  }

  lemma NonEmptyHasKey<V>(m: map<int, V>)
    requires m != map[]
    ensures exists k :: k in m
  {
    if forall k :: k !in m {
      assert false;
    }
  }

  /** `k` holds a least value of `m`. */
  ghost predicate IsLeast<V>(m: map<int, V>, le: (V, V) -> bool, k: int) {
    k in m && forall j :: j in m ==> le(m[k], m[j])
  }

  lemma {:induction false} LeastExists<V(!new)>(m: map<int, V>, le: (V, V) -> bool)
    requires Preorder(le) && m != map[]
    ensures exists k :: IsLeast(m, le, k)
    decreases m.Keys
  {
    NonEmptyHasKey(m);
    var k0 :| k0 in m;
    var rest := m - {k0};
    assert le(m[k0], m[k0]);
    if rest == map[] {
      assert rest.Keys == m.Keys - {k0} == {};
      assert m.Keys == {k0};
      assert IsLeast(m, le, k0);
    } else {
      assert rest.Keys < m.Keys;
      LeastExists(rest, le);
      var k1 :| IsLeast(rest, le, k1);
      if le(m[k0], m[k1]) {
        forall j | j in m
          ensures le(m[k0], m[j])
        {
          if j != k0 {
            assert j in rest && le(m[k1], m[j]);
          }
        }
        assert IsLeast(m, le, k0);
      } else {
        assert le(m[k1], m[k0]);
        forall j | j in m
          ensures le(m[k1], m[j])
        {
          if j != k0 {
            assert j in rest;
          }
        }
        assert IsLeast(m, le, k1);
      }
    }
  }

  /** The ids of a listing, in order. */
  ghost predicate Lists<V>(r: seq<(int, V)>, m: map<int, V>) {
    && (forall i :: 0 <= i < |r| ==> r[i].0 in m && m[r[i].0] == r[i].1)
    && (forall k :: k in m ==> exists i :: 0 <= i < |r| && r[i].0 == k)
    && (forall i, j :: 0 <= i < j < |r| ==> r[i].0 != r[j].0)
  }

  /** `m` listed in ascending `le` order, each entry once. */
  ghost function OrderBy<V(!new)>(m: map<int, V>, le: (V, V) -> bool): (r: seq<(int, V)>)
    requires Preorder(le)
    ensures Lists(r, m)
    ensures |r| == |m|
    ensures forall i, j :: 0 <= i < j < |r| ==> le(r[i].1, r[j].1)
    decreases m.Keys
  {
    if m == map[] then []
    else
      LeastExists(m, le);
      var k :| IsLeast(m, le, k);
      var rest := m - {k};
      assert rest.Keys < m.Keys;
      var tail := OrderBy(rest, le);
      ConsLists(m, le, k, tail);
      [(k, m[k])] + tail
  }

  /** Putting a least entry in front of a listing of the other entries lists them all, in order. */
  lemma ConsLists<V(!new)>(m: map<int, V>, le: (V, V) -> bool, k: int, tail: seq<(int, V)>)
    requires IsLeast(m, le, k)
    requires Lists(tail, m - {k}) && |tail| == |m - {k}|
    requires forall i, j :: 0 <= i < j < |tail| ==> le(tail[i].1, tail[j].1)
    ensures var r := [(k, m[k])] + tail;
            Lists(r, m) && |r| == |m| && forall i, j :: 0 <= i < j < |r| ==> le(r[i].1, r[j].1)
  {
    var rest := m - {k};
    var r := [(k, m[k])] + tail;
    assert rest.Keys == m.Keys - {k};
    assert |rest| == |m| - 1;
    ConsCovers(m, k, tail);
    ConsDistinctSorted(m, le, k, tail);
  }

  lemma ConsCovers<V>(m: map<int, V>, k: int, tail: seq<(int, V)>)
    requires k in m && Lists(tail, m - {k})
    ensures var r := [(k, m[k])] + tail;
            (forall i :: 0 <= i < |r| ==> r[i].0 in m && m[r[i].0] == r[i].1)
            && (forall k' :: k' in m ==> exists i :: 0 <= i < |r| && r[i].0 == k')
  {
    var rest := m - {k};
    var r := [(k, m[k])] + tail;
    forall k' | k' in m
      ensures exists i :: 0 <= i < |r| && r[i].0 == k'
    {
      if k' == k {
        assert r[0].0 == k';
      } else {
        assert k' in rest;
        var i :| 0 <= i < |tail| && tail[i].0 == k';
        assert r[i + 1].0 == k';
      }
    }
    forall i | 0 <= i < |r|
      ensures r[i].0 in m && m[r[i].0] == r[i].1
    {
      if i > 0 {
        assert r[i] == tail[i - 1];
      }
    }
  }

  lemma ConsDistinctSorted<V>(m: map<int, V>, le: (V, V) -> bool, k: int, tail: seq<(int, V)>)
    requires IsLeast(m, le, k) && Lists(tail, m - {k})
    requires forall i, j :: 0 <= i < j < |tail| ==> le(tail[i].1, tail[j].1)
    ensures var r := [(k, m[k])] + tail;
            forall i, j :: 0 <= i < j < |r| ==> r[i].0 != r[j].0 && le(r[i].1, r[j].1)
  {
    var rest := m - {k};
    var r := [(k, m[k])] + tail;
    forall i, j | 0 <= i < j < |r|
      ensures r[i].0 != r[j].0 && le(r[i].1, r[j].1)
    {
      assert r[j] == tail[j - 1];
      if i == 0 {
        assert tail[j - 1].0 in rest;
      } else {
        assert r[i] == tail[i - 1];
      }
    }
  }
}
