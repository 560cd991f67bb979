/**
 * The views the in-memory store takes of its tables. Every table is a `Map`
 * from ids handed out by a counter starting at 1, and rows are never deleted,
 * so `Array.from(table.values())` lists the rows in ascending id order (a
 * `Map` iterates in insertion order, and `set` on an existing key keeps its
 * place). `Rows` is that list; `FirstMatch` and `Filter` are `Array.find` and
 * `Array.filter` over it.
 */
module Tables {
  import opened Wrappers

  /** Table `m` holds exactly the ids `1 .. next-1`, each row under its own `key`. */
  ghost predicate Dense<T>(m: map<int, T>, next: int, key: T -> int) {
    && 1 <= next
    && (forall k :: k in m <==> 1 <= k < next)
    && (forall k :: k in m ==> key(m[k]) == k)
  }

  /** Storing a row under the next id keeps the table dense, one id longer; the new id is above every old one. */
  lemma DenseAppend<T>(m: map<int, T>, next: int, key: T -> int, x: T)
    requires Dense(m, next, key) && key(x) == next
    ensures Dense(m[next := x], next + 1, key)
    ensures next !in m && forall k :: k in m ==> k < next
  {
  }

  /** Replacing a row by one with the same id keeps the table dense. */
  lemma DenseReplace<T>(m: map<int, T>, next: int, key: T -> int, k: int, x: T)
    requires Dense(m, next, key) && k in m && key(x) == k
    ensures Dense(m[k := x], next, key)
  {
  }

  /** `Array.from(m.values())` for a table whose ids run from 1 to `next - 1`. */
  function Rows<T>(m: map<int, T>, next: int): seq<T>
    decreases next
  {
    if next <= 1 then [] else Rows(m, next - 1) + (if next - 1 in m then [m[next - 1]] else [])
  }

  /** Row `i` of a table with no gaps below `n` is the row with id `i + 1`. */
  lemma {:induction false} RowsAt<T>(m: map<int, T>, n: int)
    requires forall k :: 1 <= k < n ==> k in m
    ensures |Rows(m, n)| == if n <= 1 then 0 else n - 1
    ensures forall i :: 0 <= i < |Rows(m, n)| ==> Rows(m, n)[i] == m[i + 1]
    decreases n
  {
    if n > 1 {
      RowsAt(m, n - 1);
    }
  }

  /** A value is listed by `Rows` exactly when it is the row stored under its own id. */
  lemma RowsMembership<T>(m: map<int, T>, next: int, key: T -> int)
    requires Dense(m, next, key)
    ensures forall x :: x in Rows(m, next) <==> key(x) in m && m[key(x)] == x
  {
    RowsAt(m, next);
    var rows := Rows(m, next);
    forall x | key(x) in m && m[key(x)] == x
      ensures x in rows
    {
      assert rows[key(x) - 1] == x;
    }
  }

  /** The ids along `s` strictly increase, so no row appears twice. */
  ghost predicate Increasing<T>(s: seq<T>, key: T -> int) {
    forall i, j :: 0 <= i < j < |s| ==> key(s[i]) < key(s[j])
  }

  /** `Rows` lists a table in strictly increasing id order. */
  lemma RowsIncreasing<T>(m: map<int, T>, next: int, key: T -> int)
    requires Dense(m, next, key)
    ensures Increasing(Rows(m, next), key)
  {
    RowsAt(m, next);
  }

  /**
   * The searches and filters below take their condition as a relation `rel`
   * between a row and a query value `q` (`rel(x, q)` plays the callback of
   * `Array.find` / `Array.filter`), so that two searches with equal queries
   * are the same search.
   */

  /** The index of the first element `x` of `s` with `rel(x, q)`, or `|s|` if there is none. */
  function FirstIndex<T, Q>(s: seq<T>, rel: (T, Q) -> bool, q: Q): (i: nat)
    ensures i <= |s|
    ensures forall j :: 0 <= j < i ==> !rel(s[j], q)
    ensures i < |s| ==> rel(s[i], q)
  {
    if s == [] then 0 else if rel(s[0], q) then 0 else 1 + FirstIndex(s[1..], rel, q)
  }

  /** `Array.find`: the first element `x` of `s` with `rel(x, q)`. */
  function FirstMatch<T, Q>(s: seq<T>, rel: (T, Q) -> bool, q: Q): Option<T> {
    var i := FirstIndex(s, rel, q);
    if i < |s| then Some(s[i]) else None
  }

  /**
   * `Array.find` over a table: nothing is found exactly when no row matches,
   * and what is found is a stored row that matches, with no matching row of a
   * smaller id.
   */
  lemma FirstInTable<T, Q>(m: map<int, T>, next: int, key: T -> int, rel: (T, Q) -> bool, q: Q)
    requires Dense(m, next, key)
    ensures var r := FirstMatch(Rows(m, next), rel, q);
      && (r.None? <==> forall k :: k in m ==> !rel(m[k], q))
      && (r.Some? ==> key(r.value) in m && m[key(r.value)] == r.value && rel(r.value, q))
      && (r.Some? ==> forall k :: k in m && k < key(r.value) ==> !rel(m[k], q))
  {
    RowsAt(m, next);
    var rows := Rows(m, next);
    var i := FirstIndex(rows, rel, q);
    forall k | k in m && k < i + 1
      ensures !rel(m[k], q)
    {
      assert m[k] == rows[k - 1];
    }
  }

  /** Two queries that every element treats alike find the same element. */
  lemma {:induction false} FirstMatchAgrees<T, Q>(s: seq<T>, rel: (T, Q) -> bool, q1: Q, q2: Q)
    requires forall x :: rel(x, q1) == rel(x, q2)
    ensures FirstMatch(s, rel, q1) == FirstMatch(s, rel, q2)
  {
    FirstIndexAgrees(s, rel, q1, q2);
  }

  lemma {:induction false} FirstIndexAgrees<T, Q>(s: seq<T>, rel: (T, Q) -> bool, q1: Q, q2: Q)
    requires forall x :: rel(x, q1) == rel(x, q2)
    ensures FirstIndex(s, rel, q1) == FirstIndex(s, rel, q2)
  {
    if s != [] && !rel(s[0], q1) {
      FirstIndexAgrees(s[1..], rel, q1, q2);
    }
  }

  /** `Array.filter`: the elements `x` of `s` with `rel(x, q)`, in their order. */
  function Filter<T, Q>(s: seq<T>, rel: (T, Q) -> bool, q: Q): (r: seq<T>)
    ensures |r| <= |s|
    ensures forall i :: 0 <= i < |r| ==> r[i] in s && rel(r[i], q)
    ensures forall i :: 0 <= i < |s| && rel(s[i], q) ==> s[i] in r
  {
    if s == [] then [] else (if rel(s[0], q) then [s[0]] else []) + Filter(s[1..], rel, q)
  }

  /** Filtering keeps strictly increasing ids strictly increasing. */
  lemma {:induction false} FilterIncreasing<T, Q>(s: seq<T>, rel: (T, Q) -> bool, q: Q, key: T -> int)
    requires Increasing(s, key)
    ensures Increasing(Filter(s, rel, q), key)
  {
    if s != [] {
      FilterIncreasing(s[1..], rel, q, key);
      var rest := Filter(s[1..], rel, q);
      forall y | y in rest ensures key(s[0]) < key(y) {
        var j :| 0 <= j < |s[1..]| && s[1..][j] == y;
        assert s[j + 1] == y;
      }
    }
  }

  /** Two queries that every element treats alike keep the same elements. */
  lemma {:induction false} FilterAgrees<T, Q>(s: seq<T>, rel: (T, Q) -> bool, q1: Q, q2: Q)
    requires forall x :: rel(x, q1) == rel(x, q2)
    ensures Filter(s, rel, q1) == Filter(s, rel, q2)
  {
    if s != [] {
      FilterAgrees(s[1..], rel, q1, q2);
    }
  }

  /**
   * `Array.filter` over a table: the result holds exactly the stored rows
   * that match, once each and in ascending id order.
   */
  lemma FilterTable<T, Q>(m: map<int, T>, next: int, key: T -> int, rel: (T, Q) -> bool, q: Q)
    requires Dense(m, next, key)
    ensures forall x :: x in Filter(Rows(m, next), rel, q) <==> key(x) in m && m[key(x)] == x && rel(x, q)
    ensures Increasing(Filter(Rows(m, next), rel, q), key)
  {
    RowsMembership(m, next, key);
    RowsIncreasing(m, next, key);
    FilterIncreasing(Rows(m, next), rel, q, key);
  }
}
