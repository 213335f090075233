/**
 * The row-level meaning of the catalog's SQL statements, shared by both
 * tables: `WHERE id = ?` lookups, `COUNT(*)`, `UPDATE ... WHERE id = ?` and
 * `DELETE ... WHERE id = ?`. Rows are kept in insertion order, which is
 * ascending id order because ids come from an auto-increment counter.
 */
module Tables {
  import opened Base
  import Ordering

  /** Auto-increment ids: strictly increasing in insertion order, hence unique. */
  predicate IdsIncreasing<R>(rows: seq<R>, idOf: R -> int) {
    forall i, j :: 0 <= i < j < |rows| ==> idOf(rows[i]) < idOf(rows[j])
  }

  /** Some row carries this id. */
  predicate HasId<R>(rows: seq<R>, idOf: R -> int, id: int) {
    exists i :: 0 <= i < |rows| && idOf(rows[i]) == id
  }

  /** `SELECT * ... WHERE id = #{id}`: the row with that id, or null. */
  function FindById<R>(rows: seq<R>, idOf: R -> int, id: int): (r: Option<R>)
    ensures r.None? <==> !HasId(rows, idOf, id)
    ensures r.Some? ==> r.value in rows && idOf(r.value) == id
  {
    if rows == [] then None
    else if idOf(rows[0]) == id then Some(rows[0])
    else
      var r := FindById(rows[1..], idOf, id);
      assert HasId(rows, idOf, id) ==> HasId(rows[1..], idOf, id) by {
        if HasId(rows, idOf, id) {
          var i :| 0 <= i < |rows| && idOf(rows[i]) == id;
          assert idOf(rows[1..][i - 1]) == id;
        }
      }
      r
  }

  /** `COUNT(*) ... WHERE p`: the number of rows satisfying p. */
  function CountWhere<R>(rows: seq<R>, p: R -> bool): (n: nat)
    ensures n == |Ordering.Filter(rows, p)|
  {
    if rows == [] then 0 else (if p(rows[0]) then 1 else 0) + CountWhere(rows[1..], p)
  }

  /** The count is zero exactly when no row satisfies p. */
  lemma {:induction false} CountWhereZero<R>(rows: seq<R>, p: R -> bool)
    ensures CountWhere(rows, p) == 0 <==> forall i :: 0 <= i < |rows| ==> !p(rows[i])
  {
    if rows != [] {
      CountWhereZero(rows[1..], p);
      assert forall i :: 1 <= i < |rows| ==> rows[i] == rows[1..][i - 1];
    }
  }

  /** Counts agree on two tables whose rows agree, position by position, on the two conditions. */
  lemma {:induction false} CountWhereAgrees<R>(a: seq<R>, b: seq<R>, p: R -> bool, q: R -> bool)
    requires |a| == |b|
    requires forall i :: 0 <= i < |a| ==> p(a[i]) == q(b[i])
    ensures CountWhere(a, p) == CountWhere(b, q)
  {
    if a != [] {
      assert forall i :: 0 <= i < |a| - 1 ==> a[1..][i] == a[i + 1] && b[1..][i] == b[i + 1];
      CountWhereAgrees(a[1..], b[1..], p, q);
    }
  }

  /** The rows an `UPDATE` or `DELETE ... WHERE id = #{id}` matches. */
  function Matched<R>(rows: seq<R>, idOf: R -> int, id: int): (n: nat)
    ensures n == 0 <==> !HasId(rows, idOf, id)
    ensures IdsIncreasing(rows, idOf) ==> n <= 1
  {
    CountWhereZero(rows, x => idOf(x) == id);
    MatchedAtMostOne(rows, idOf, id);
    CountWhere(rows, x => idOf(x) == id)
  }

  /** The matched count is the count of any condition that holds exactly for that id. */
  lemma MatchedIsCount<R>(rows: seq<R>, idOf: R -> int, id: int, q: R -> bool)
    requires forall x :: q(x) == (idOf(x) == id)
    ensures Matched(rows, idOf, id) == CountWhere(rows, q)
  {
    CountWhereAgrees(rows, rows, x => idOf(x) == id, q);
  }

  lemma {:induction false} MatchedAtMostOne<R>(rows: seq<R>, idOf: R -> int, id: int)
    ensures IdsIncreasing(rows, idOf) ==> CountWhere(rows, x => idOf(x) == id) <= 1
  {
    if rows != [] && IdsIncreasing(rows, idOf) {
      var tail := rows[1..];
      MatchedAtMostOne(tail, idOf, id);
      if idOf(rows[0]) == id {
        CountWhereZero(tail, x => idOf(x) == id);
        assert forall i :: 0 <= i < |tail| ==> idOf(tail[i]) > id by {
          forall i | 0 <= i < |tail| ensures idOf(tail[i]) > id {
            assert tail[i] == rows[i + 1];
          }
        }
      }
    }
  }

  /** `UPDATE ... SET ... WHERE id = #{id}`: f applied to the matching rows only. */
  function UpdateWhere<R>(rows: seq<R>, idOf: R -> int, id: int, f: R -> R): (r: seq<R>)
    ensures |r| == |rows|
    ensures forall i :: 0 <= i < |rows| ==> r[i] == if idOf(rows[i]) == id then f(rows[i]) else rows[i]
  {
    if rows == [] then []
    else [if idOf(rows[0]) == id then f(rows[0]) else rows[0]] + UpdateWhere(rows[1..], idOf, id, f)
  }

  /** An update that keeps each row's id keeps the ids increasing. */
  lemma UpdateKeepsIds<R>(rows: seq<R>, idOf: R -> int, id: int, f: R -> R)
    requires forall x :: idOf(f(x)) == idOf(x)
    ensures var r := UpdateWhere(rows, idOf, id, f);
            forall i :: 0 <= i < |r| ==> idOf(r[i]) == idOf(rows[i])
  {
  }

  /** `DELETE ... WHERE id = #{id}` */
  function RemoveId<R>(rows: seq<R>, idOf: R -> int, id: int): seq<R> {
    Ordering.Filter(rows, x => idOf(x) != id)
  }

  /**
   * Deleting by id removes every row with that id and keeps every other row,
   * in order, with ids still increasing.
   */
  lemma {:induction false} RemoveIdRemovesOnlyThatRow<R>(rows: seq<R>, idOf: R -> int, id: int)
    requires IdsIncreasing(rows, idOf)
    ensures var r := RemoveId(rows, idOf, id);
            && !HasId(r, idOf, id)
            && (forall i :: 0 <= i < |rows| && idOf(rows[i]) != id ==> rows[i] in r)
            && (forall x :: x in r ==> x in rows)
            && |r| == |rows| - Matched(rows, idOf, id)
            && IdsIncreasing(r, idOf)
  {
    var p := x => idOf(x) != id;
    var r := RemoveId(rows, idOf, id);
    Ordering.FilterMembers(rows, p);
    FilterKeepsIdsIncreasing(rows, idOf, p);
    CountComplement(rows, p, x => idOf(x) == id);
  }

  lemma {:induction false} CountComplement<R>(rows: seq<R>, p: R -> bool, q: R -> bool)
    requires forall x :: q(x) == !p(x)
    ensures |Ordering.Filter(rows, p)| + CountWhere(rows, q) == |rows|
  {
    if rows != [] {
      CountComplement(rows[1..], p, q);
    }
  }

  lemma {:induction false} FilterKeepsIdsIncreasing<R>(rows: seq<R>, idOf: R -> int, p: R -> bool)
    requires IdsIncreasing(rows, idOf)
    ensures IdsIncreasing(Ordering.Filter(rows, p), idOf)
  {
    if rows != [] {
      var tail := rows[1..];
      assert IdsIncreasing(tail, idOf) by {
        forall i, j | 0 <= i < j < |tail| ensures idOf(tail[i]) < idOf(tail[j]) {
          assert tail[i] == rows[i + 1] && tail[j] == rows[j + 1];
        }
      }
      FilterKeepsIdsIncreasing(tail, idOf, p);
      var ft := Ordering.Filter(tail, p);
      if p(rows[0]) {
        Ordering.FilterMembers(tail, p);
        var r := [rows[0]] + ft;
        assert Ordering.Filter(rows, p) == r;
        forall i, j | 0 <= i < j < |r| ensures idOf(r[i]) < idOf(r[j]) {
          assert r[j] == ft[j - 1];
          if i == 0 {
            var m :| 0 <= m < |tail| && tail[m] == ft[j - 1];
            assert tail[m] == rows[m + 1];
          } else {
            assert r[i] == ft[i - 1];
          }
        }
      } else {
        assert Ordering.Filter(rows, p) == ft;
      }
    }
  }
}
