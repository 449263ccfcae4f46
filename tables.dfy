/**
 * The query primitives the data-access layer builds on, over a table held
 * as a sequence of rows in storage order: look up the first row with a
 * key (`.filter(col == k).first()`), keep the rows that satisfy a
 * condition (`.filter(...).all()`), page with `.offset(skip).limit(n)`,
 * and order by an integer column (`.order_by(...)`). Rows are identified
 * by an integer key column given as a function.
 */
module Tables {
  import opened Common

  /** No two rows share a key: the key is a primary key. */
  predicate UniqueKeys<T>(rows: seq<T>, key: T -> int)
  {
    forall i, j :: 0 <= i < j < |rows| ==> key(rows[i]) != key(rows[j])
  }

  /** Every key is below `bound`: the next auto-increment value is still unused. */
  predicate KeysBelow<T>(rows: seq<T>, key: T -> int, bound: int)
  {
    forall i :: 0 <= i < |rows| ==> key(rows[i]) < bound
  }

  /** The key is a primary key whose values all lie below the next auto-increment value `bound`. */
  predicate Keyed<T>(rows: seq<T>, key: T -> int, bound: int)
  {
    UniqueKeys(rows, key) && KeysBelow(rows, key, bound)
  }

  /** Position of the first row whose key is `k`, if any. */
  function FirstIndex<T>(rows: seq<T>, key: T -> int, k: int): (r: Option<nat>)
    ensures r.None? <==> forall i :: 0 <= i < |rows| ==> key(rows[i]) != k
    ensures r.Some? ==> r.value < |rows| && key(rows[r.value]) == k
    ensures r.Some? ==> forall i :: 0 <= i < r.value ==> key(rows[i]) != k
  {
    if rows == [] then None
    else if key(rows[0]) == k then Some(0)
    else match FirstIndex(rows[1..], key, k)
      case None => None
      case Some(i) => Some(i + 1)
  }

  /** The first row whose key is `k` (`.first()`), or None when there is none. */
  function Find<T>(rows: seq<T>, key: T -> int, k: int): (r: Option<T>)
    ensures r.None? <==> forall i :: 0 <= i < |rows| ==> key(rows[i]) != k
    ensures r.Some? ==> r.value in rows && key(r.value) == k
  {
    match FirstIndex(rows, key, k)
    case None => None
    case Some(i) => Some(rows[i])
  }

  /** Under a primary key, the row found for `k` is the one row holding `k`. */
  lemma FindUnique<T>(rows: seq<T>, key: T -> int, i: nat)
    requires UniqueKeys(rows, key) && i < |rows|
    ensures FirstIndex(rows, key, key(rows[i])) == Some(i)
    ensures Find(rows, key, key(rows[i])) == Some(rows[i])
  {
  }

  /** Inserting a row with a fresh key makes it findable and changes no other lookup. */
  lemma FindAfterAppend<T>(rows: seq<T>, key: T -> int, x: T, k: int)
    requires forall i :: 0 <= i < |rows| ==> key(rows[i]) != key(x)
    ensures UniqueKeys(rows, key) ==> UniqueKeys(rows + [x], key)
    ensures Find(rows + [x], key, k) == if k == key(x) then Some(x) else Find(rows, key, k)
  {
    var rows' := rows + [x];
    assert forall i :: 0 <= i < |rows| ==> rows'[i] == rows[i];
    if k == key(x) {
      assert rows'[|rows|] == x;
      assert FirstIndex(rows', key, k) == Some(|rows|);
    } else {
      match FirstIndex(rows, key, k)
      case None =>
      case Some(i) =>
        assert FirstIndex(rows', key, k) == Some(i);
    }
  }

  /** Overwriting the first row that holds key K, keeping its key, changes only the lookup of K. */
  lemma FindAfterReplace<T>(rows: seq<T>, key: T -> int, i: nat, x: T, k: int)
    requires i < |rows| && FirstIndex(rows, key, key(rows[i])) == Some(i)
    requires key(x) == key(rows[i])
    ensures UniqueKeys(rows, key) ==> UniqueKeys(rows[i := x], key)
    ensures FirstIndex(rows[i := x], key, key(x)) == Some(i)
    ensures Find(rows[i := x], key, k) == if k == key(x) then Some(x) else Find(rows, key, k)
  {
    var rows' := rows[i := x];
    assert forall j :: 0 <= j < |rows| ==> key(rows'[j]) == key(rows[j]);
    match FirstIndex(rows, key, k)
    case None =>
    case Some(j) =>
      assert FirstIndex(rows', key, k) == Some(j);
  }

  /** A row stored with the next auto-increment value keeps the key a primary key. */
  lemma AppendFresh<T>(rows: seq<T>, key: T -> int, x: T, bound: int)
    requires Keyed(rows, key, bound) && key(x) == bound
    ensures Keyed(rows + [x], key, bound + 1)
  {
    FindAfterAppend(rows, key, x, bound);
  }

  /** Overwriting a row without changing its key keeps the key a primary key. */
  lemma ReplaceSameKey<T>(rows: seq<T>, key: T -> int, i: nat, x: T, bound: int)
    requires Keyed(rows, key, bound)
    requires i < |rows| && key(x) == key(rows[i])
    ensures Keyed(rows[i := x], key, bound)
  {
    assert forall j :: 0 <= j < |rows| ==> key(rows[i := x][j]) == key(rows[j]);
  }

  /**
   * Overwriting the row at position `i` of a keyed table with a row of the
   * same key: the table stays keyed, position `i` is the only one holding
   * that key, and only the lookup of that key changes.
   */
  lemma ReplaceKeyed<T>(rows: seq<T>, key: T -> int, i: nat, x: T, bound: int)
    requires Keyed(rows, key, bound) && i < |rows| && key(x) == key(rows[i])
    ensures Keyed(rows[i := x], key, bound)
    ensures forall j :: 0 <= j < |rows| ==> (key(rows[j]) == key(x) <==> j == i)
    ensures forall k :: Find(rows[i := x], key, k) == if k == key(x) then Some(x) else Find(rows, key, k)
  {
    FindUnique(rows, key, i);
    ReplaceSameKey(rows, key, i, x, bound);
    forall k ensures Find(rows[i := x], key, k) == if k == key(x) then Some(x) else Find(rows, key, k) {
      FindAfterReplace(rows, key, i, x, k);
    }
  }

  /** The table without its row at position `i`. */
  function RemoveAt<T>(rows: seq<T>, i: nat): (r: seq<T>)
    requires i < |rows|
    ensures |r| == |rows| - 1
    ensures forall j :: 0 <= j < i ==> r[j] == rows[j]
    ensures forall j :: i <= j < |r| ==> r[j] == rows[j + 1]
    ensures multiset(r) + multiset{rows[i]} == multiset(rows)
  {
    assert rows == rows[..i] + [rows[i]] + rows[i + 1..];
    rows[..i] + rows[i + 1..]
  }

  /** Deleting a row keeps a primary key a primary key, and its key is then absent. */
  lemma UniqueAfterRemove<T>(rows: seq<T>, key: T -> int, i: nat)
    requires i < |rows| && UniqueKeys(rows, key)
    ensures UniqueKeys(RemoveAt(rows, i), key)
    ensures Find(RemoveAt(rows, i), key, key(rows[i])).None?
  {
    var rows' := RemoveAt(rows, i);
    forall a, b | 0 <= a < b < |rows'| ensures key(rows'[a]) != key(rows'[b]) {
      var a', b' := if a < i then a else a + 1, if b < i then b else b + 1;
      assert rows'[a] == rows[a'] && rows'[b] == rows[b'];
    }
    forall j | 0 <= j < |rows'| ensures key(rows'[j]) != key(rows[i]) {
      var j' := if j < i then j else j + 1;
      assert rows'[j] == rows[j'];
    }
  }

  /** A lookup over two stretches of rows answers from the first one that has the key. */
  lemma {:induction false} FindConcat<T>(a: seq<T>, b: seq<T>, key: T -> int, k: int)
    ensures Find(a + b, key, k) == if Find(a, key, k).Some? then Find(a, key, k) else Find(b, key, k)
  {
    if a == [] {
      assert a + b == b;
    } else if key(a[0]) != k {
      assert (a + b)[0] == a[0];
      assert (a + b)[1..] == a[1..] + b;
      FindConcat(a[1..], b, key, k);
    } else {
      assert (a + b)[0] == a[0];
    }
  }

  /** Deleting a row whose key is not K changes no lookup of K. */
  lemma FindAfterRemove<T>(rows: seq<T>, key: T -> int, i: nat, k: int)
    requires i < |rows| && k != key(rows[i])
    ensures Find(RemoveAt(rows, i), key, k) == Find(rows, key, k)
  {
    var pre, post := rows[..i], rows[i + 1..];
    assert rows == pre + ([rows[i]] + post);
    FindConcat(pre, [rows[i]] + post, key, k);
    FindConcat([rows[i]], post, key, k);
    FindConcat(pre, post, key, k);
  }

  /** The rows that satisfy `keep`, in table order: contents, with multiplicities. */
  function Filter<T(!new)>(rows: seq<T>, keep: T -> bool): (r: seq<T>)
    ensures |r| <= |rows|
    ensures forall x :: x in r <==> x in rows && keep(x)
    ensures forall x :: multiset(r)[x] == if keep(x) then multiset(rows)[x] else 0
  {
    if rows == [] then []
    else
      assert rows == [rows[0]] + rows[1..];
      (if keep(rows[0]) then [rows[0]] else []) + Filter(rows[1..], keep)
  }

  function Min(a: int, b: int): int { if a <= b then a else b }

  /** `.offset(skip).limit(limit)`: at most `limit` rows, starting at position `skip`. */
  function Window<T>(rows: seq<T>, skip: nat, limit: nat): (r: seq<T>)
    ensures |r| <= limit
    ensures |r| == if skip >= |rows| then 0 else Min(limit, |rows| - skip)
    ensures forall i :: 0 <= i < |r| ==> r[i] == rows[skip + i]
  {
    if skip >= |rows| then [] else rows[skip..skip + Min(limit, |rows| - skip)]
  }

  /** Rows in non-decreasing order of `key`. */
  predicate SortedBy<T>(rows: seq<T>, key: T -> int)
  {
    forall i, j :: 0 <= i < j < |rows| ==> key(rows[i]) <= key(rows[j])
  }

  /** Places `x` before the first row of `sorted` whose key is not smaller. */
  function InsertBy<T>(x: T, sorted: seq<T>, key: T -> int): (r: seq<T>)
    ensures |r| == |sorted| + 1
    ensures multiset(r) == multiset(sorted) + multiset{x}
  {
    if sorted == [] then [x]
    else if key(x) <= key(sorted[0]) then [x] + sorted
    else
      assert sorted == [sorted[0]] + sorted[1..];
      [sorted[0]] + InsertBy(x, sorted[1..], key)
  }

  /** Inserting into a sorted table keeps it sorted. */
  lemma {:induction false} InsertBySorted<T>(x: T, sorted: seq<T>, key: T -> int)
    requires SortedBy(sorted, key)
    ensures SortedBy(InsertBy(x, sorted, key), key)
  {
    if sorted != [] && key(x) > key(sorted[0]) {
      var rest := InsertBy(x, sorted[1..], key);
      InsertBySorted(x, sorted[1..], key);
      forall y | y in rest ensures key(sorted[0]) <= key(y) {
        assert y in multiset(rest);
        if y != x {
          assert y in multiset(sorted[1..]);
        }
      }
      var r := [sorted[0]] + rest;
      forall i, j | 0 <= i < j < |r| ensures key(r[i]) <= key(r[j]) {
        assert r[j] == rest[j - 1];
        if i > 0 {
          assert r[i] == rest[i - 1];
        }
      }
    }
  }

  /** `.order_by(key)`: the same rows, rearranged in non-decreasing key order. */
  function SortBy<T>(rows: seq<T>, key: T -> int): (r: seq<T>)
    ensures SortedBy(r, key)
    ensures multiset(r) == multiset(rows)
  {
    if rows == [] then []
    else
      assert rows == [rows[0]] + rows[1..];
      InsertBySorted(rows[0], SortBy(rows[1..], key), key);
      InsertBy(rows[0], SortBy(rows[1..], key), key)
  }
}
