/**
 * A relational table with an identity column: rows keyed by id, and the next
 * id the sequence will hand out. A query without `ORDER BY` is modelled as
 * returning the selected rows in ascending id order.
 */
module Tables {

  datatype TableData<R> = TableData(rows: map<nat, R>, next: nat)

  /** Every id in use was handed out by the sequence already. */
  type Table<R> = t: TableData<R> | forall k :: k in t.rows ==> k < t.next
    witness TableData(map[], 1)

  predicate Increasing(s: seq<nat>) {
    forall i, j :: 0 <= i < j < |s| ==> s[i] < s[j]
  }

  /** The ids below `n` whose rows satisfy `p`, in ascending order. */
  function IdsBelow<R>(rows: map<nat, R>, n: nat, p: R -> bool): (ids: seq<nat>)
    ensures Increasing(ids)
    ensures forall k :: k in ids <==> k in rows && k < n && p(rows[k])
  {
    if n == 0 then []
    else
      var prev := IdsBelow(rows, n - 1, p);
      assert forall i :: 0 <= i < |prev| ==> prev[i] in prev;
      if n - 1 in rows && p(rows[n - 1]) then prev + [n - 1] else prev
  }

  /** `SELECT id FROM t WHERE p`: exactly the ids of the rows satisfying `p`, ascending. */
  function Select<R>(t: Table<R>, p: R -> bool): (ids: seq<nat>)
    ensures Increasing(ids)
    ensures forall k :: k in ids <==> k in t.rows && p(t.rows[k])
  {
    IdsBelow(t.rows, t.next, p)
  }

  /** The rows stored under `ids`, in the order of `ids`. */
  function RowsAt<R>(t: Table<R>, ids: seq<nat>): (r: seq<R>)
    requires forall k :: k in ids ==> k in t.rows
    ensures |r| == |ids|
    ensures forall i :: 0 <= i < |ids| ==> r[i] == t.rows[ids[i]]
  {
    seq(|ids|, i requires 0 <= i < |ids| => t.rows[ids[i]])
  }

  /** Two ascending id lists holding the same ids are the same list. */
  lemma {:induction false} IncreasingUnique(a: seq<nat>, b: seq<nat>)
    requires Increasing(a) && Increasing(b)
    requires forall k :: k in a <==> k in b
    ensures a == b
    decreases |a|
  {
    if a == [] {
      FirstIsMember(b);
    } else {
      assert a[0] in b;
      assert b != [];
      assert b[0] in a;
      var i :| 0 <= i < |a| && a[i] == b[0];
      var j :| 0 <= j < |b| && b[j] == a[0];
      assert a[0] <= a[i] && b[0] <= b[j];
      assert a[0] == b[0];
      forall k
        ensures k in a[1..] <==> k in b[1..]
      {
        if k in a[1..] {
          var x :| 0 <= x < |a[1..]| && a[1..][x] == k;
          assert a[x + 1] == k && k != a[0];
          assert k in a && k in b;
          var y :| 0 <= y < |b| && b[y] == k;
          assert y != 0;
          assert b[1..][y - 1] == k;
        }
        if k in b[1..] {
          var y :| 0 <= y < |b[1..]| && b[1..][y] == k;
          assert b[y + 1] == k && k != b[0];
          assert k in b && k in a;
          var x :| 0 <= x < |a| && a[x] == k;
          assert x != 0;
          assert a[1..][x - 1] == k;
        }
      }
      IncreasingUnique(a[1..], b[1..]);
      assert a == [a[0]] + a[1..];
      assert b == [b[0]] + b[1..];
    }
  }

  lemma FirstIsMember(s: seq<nat>)
    ensures s == [] || s[0] in s
  {
  }

  /** A query's answer depends only on which ids it selects. */
  lemma SelectDetermined<R, S>(t: Table<R>, p: R -> bool, u: Table<S>, q: S -> bool)
    requires forall k :: (k in t.rows && p(t.rows[k])) <==> (k in u.rows && q(u.rows[k]))
    ensures Select(t, p) == Select(u, q)
  {
    IncreasingUnique(Select(t, p), Select(u, q));
  }

  /** Inserting a row under the next id appends that id to every query the row satisfies. */
  lemma SelectAfterInsert<R>(t: Table<R>, r: R, p: R -> bool)
    ensures t.next !in t.rows
    ensures var t' := TableData(t.rows[t.next := r], t.next + 1);
      Select(t', p) == if p(r) then Select(t, p) + [t.next] else Select(t, p)
  {
    var t': Table<R> := TableData(t.rows[t.next := r], t.next + 1);
    assert IdsBelow(t'.rows, t.next, p) == IdsBelow(t.rows, t.next, p) by {
      IncreasingUnique(IdsBelow(t'.rows, t.next, p), IdsBelow(t.rows, t.next, p));
    }
  }

  /** `SELECT * FROM t WHERE p`: the rows of `Select(t, p)`, in the same order. */
  function Query<R(==)>(t: Table<R>, p: R -> bool): (rows: seq<R>)
    ensures |rows| == |Select(t, p)|
    ensures forall i :: 0 <= i < |rows| ==> rows[i] == t.rows[Select(t, p)[i]]
    ensures forall r :: r in rows ==> r in t.rows.Values && p(r)
    ensures forall k :: k in t.rows && p(t.rows[k]) ==> t.rows[k] in rows
  {
    RowsAt(t, Select(t, p))
  }

  /** `Specification.where(p).and(q)`: the rows both predicates accept. */
  function And<R(!new)>(p: R -> bool, q: R -> bool): (both: R -> bool)
    ensures forall r: R :: both(r) <==> p(r) && q(r)
  {
    (r: R) => p(r) && q(r)
  }

  /** `Page.map(f)`: each row of a query result, converted in place. */
  function MapRows<R(!new), D(!new)>(rows: seq<R>, f: R -> D): (page: seq<D>)
    ensures |page| == |rows|
    ensures forall i :: 0 <= i < |rows| ==> page[i] == f(rows[i])
    ensures forall r :: r in rows ==> f(r) in page
    ensures forall d :: d in page ==> exists r :: r in rows && d == f(r)
  {
    seq(|rows|, i requires 0 <= i < |rows| => f(rows[i]))
  }

  /** The ids of the rows satisfying `p`, as a set. */
  function Matching<R>(t: Table<R>, p: R -> bool): set<nat> {
    set k | k in t.rows && p(t.rows[k])
  }

  /** `SELECT COUNT(*) FROM t WHERE p`: how many rows satisfy `p`. */
  function Count<R>(t: Table<R>, p: R -> bool): (n: nat)
    ensures n == |Matching(t, p)|
  {
    var ids := Select(t, p);
    DistinctCount(ids);
    assert Members(ids) == Matching(t, p);
    |ids|
  }

  /** The members of a list, as a set. */
  function Members(s: seq<nat>): (m: set<nat>)
    ensures forall k :: k in m <==> k in s
  {
    if s == [] then {} else {s[0]} + Members(s[1..])
  }

  /** An ascending list has as many elements as its set of members. */
  lemma {:induction false} DistinctCount(s: seq<nat>)
    requires Increasing(s)
    ensures |Members(s)| == |s|
  {
    if s != [] {
      var rest := s[1..];
      assert Increasing(rest) by {
        forall i, j | 0 <= i < j < |rest|
          ensures rest[i] < rest[j]
        {
          assert rest[i] == s[i + 1] && rest[j] == s[j + 1];
        }
      }
      DistinctCount(rest);
      assert s[0] !in Members(rest);
    }
  }
}
