/**
 * `GROUP BY label ... ORDER BY label` with `SUM(quantity)` and
 * `SUM(total_amount)`: the reports turn each qualifying sale into one
 * entry under a text label, and answer one row per distinct label with the
 * sums of its entries, in label order.
 */
module Aggregate {
  import opened Text

  /** One sale's contribution under a label, or one group of the answer. */
  datatype Tally = Tally(key: string, units: int, revenue: int)

  /** `SUM(quantity)` over the entries under `key`. */
  function UnitsFor(es: seq<Tally>, key: string): int
  {
    if es == [] then 0 else (if es[0].key == key then es[0].units else 0) + UnitsFor(es[1..], key)
  }

  /** `SUM(total_amount)` over the entries under `key`. */
  function RevenueFor(es: seq<Tally>, key: string): int
  {
    if es == [] then 0 else (if es[0].key == key then es[0].revenue else 0) + RevenueFor(es[1..], key)
  }

  /** Revenue over all entries. */
  function TotalRevenue(es: seq<Tally>): int
  {
    if es == [] then 0 else es[0].revenue + TotalRevenue(es[1..])
  }

  /** Units over all entries. */
  function TotalUnits(es: seq<Tally>): int
  {
    if es == [] then 0 else es[0].units + TotalUnits(es[1..])
  }

  function Labels(es: seq<Tally>): set<string>
  {
    set i | 0 <= i < |es| :: es[i].key
  }

  /** Labels in strictly increasing text order: sorted, and no label twice. */
  predicate StrictlySorted(rows: seq<Tally>)
  {
    forall i, j :: 0 <= i < j < |rows| ==> Less(rows[i].key, rows[j].key)
  }

  /**
   * Adds one entry to sorted groups: into the group of its label if there
   * is one, else as a new group in its place in label order.
   */
  function Merge(e: Tally, rows: seq<Tally>): (r: seq<Tally>)
    requires StrictlySorted(rows)
    ensures StrictlySorted(r)
    ensures Labels(r) == Labels(rows) + {e.key}
    ensures r[0].key == e.key || (rows != [] && r[0].key == rows[0].key)
  {
    if rows == [] then
      LabelsCons(e, []);
      [e]
    else if rows[0].key == e.key then
      var r := [Tally(e.key, rows[0].units + e.units, rows[0].revenue + e.revenue)] + rows[1..];
      assert r[1..] == rows[1..];
      assert rows == [rows[0]] + rows[1..];
      LabelsCons(rows[0], rows[1..]);
      LabelsCons(r[0], rows[1..]);
      r
    else if Less(e.key, rows[0].key) then
      var r := [e] + rows;
      LabelsCons(e, rows);
      assert StrictlySorted(r) by {
        forall j | 0 < j < |r| ensures Less(e.key, r[j].key) {
          assert r[j] == rows[j - 1];
          if j > 1 {
            LessTransitive(e.key, rows[0].key, rows[j - 1].key);
          }
        }
      }
      r
    else
      var rest := Merge(e, rows[1..]);
      var r := [rows[0]] + rest;
      LessTotal(e.key, rows[0].key);
      assert rows == [rows[0]] + rows[1..];
      LabelsCons(rows[0], rows[1..]);
      LabelsCons(rows[0], rest);
      assert Less(rows[0].key, rest[0].key);
      assert StrictlySorted(r) by {
        forall j | 0 < j < |r| ensures Less(rows[0].key, r[j].key) {
          assert r[j] == rest[j - 1];
          if j > 1 {
            LessTransitive(rows[0].key, rest[0].key, rest[j - 1].key);
          }
        }
      }
      r
  }

  /** Merging an entry adds its sums to its own label only. */
  lemma {:induction false} MergeSums(e: Tally, rows: seq<Tally>, key: string)
    requires StrictlySorted(rows)
    ensures UnitsFor(Merge(e, rows), key) == UnitsFor(rows, key) + (if key == e.key then e.units else 0)
    ensures RevenueFor(Merge(e, rows), key) == RevenueFor(rows, key) + (if key == e.key then e.revenue else 0)
  {
    if rows != [] && rows[0].key != e.key && !Less(e.key, rows[0].key) {
      MergeSums(e, rows[1..], key);
      assert Merge(e, rows)[1..] == Merge(e, rows[1..]);
    } else if rows != [] && rows[0].key == e.key {
      assert Merge(e, rows)[1..] == rows[1..];
    } else if rows != [] {
      assert Merge(e, rows)[1..] == rows;
    }
  }

  /** Merging an entry adds its units and revenue to the grand totals. */
  lemma {:induction false} MergeTotals(e: Tally, rows: seq<Tally>)
    requires StrictlySorted(rows)
    ensures TotalUnits(Merge(e, rows)) == TotalUnits(rows) + e.units
    ensures TotalRevenue(Merge(e, rows)) == TotalRevenue(rows) + e.revenue
  {
    if rows != [] && rows[0].key != e.key && !Less(e.key, rows[0].key) {
      MergeTotals(e, rows[1..]);
      assert Merge(e, rows)[1..] == Merge(e, rows[1..]);
    } else if rows != [] && rows[0].key == e.key {
      assert Merge(e, rows)[1..] == rows[1..];
    } else if rows != [] {
      assert Merge(e, rows)[1..] == rows;
    }
  }

  lemma LabelsCons(x: Tally, rows: seq<Tally>)
    ensures Labels([x] + rows) == {x.key} + Labels(rows)
  {
    var r := [x] + rows;
    forall l | l in Labels(r) ensures l in {x.key} + Labels(rows) {
      var i :| 0 <= i < |r| && r[i].key == l;
      if i > 0 {
        assert r[i] == rows[i - 1];
      }
    }
    forall l | l in Labels(rows) ensures l in Labels(r) {
      var i :| 0 <= i < |rows| && rows[i].key == l;
      assert r[i + 1] == rows[i];
    }
    assert r[0] == x;
  }

  /** The grouped answer: one row per distinct label, sorted by label. */
  function Group(es: seq<Tally>): (r: seq<Tally>)
    ensures StrictlySorted(r)
    ensures Labels(r) == Labels(es)
  {
    if es == [] then []
    else
      assert es == [es[0]] + es[1..];
      LabelsCons(es[0], es[1..]);
      Merge(es[0], Group(es[1..]))
  }

  /** Under every label the groups hold the sums of that label's entries. */
  lemma {:induction false} GroupSums(es: seq<Tally>, key: string)
    ensures UnitsFor(Group(es), key) == UnitsFor(es, key)
    ensures RevenueFor(Group(es), key) == RevenueFor(es, key)
  {
    if es != [] {
      GroupSums(es[1..], key);
      MergeSums(es[0], Group(es[1..]), key);
    }
  }

  /** Grouping loses no units and no revenue. */
  lemma {:induction false} GroupTotals(es: seq<Tally>)
    ensures TotalUnits(Group(es)) == TotalUnits(es)
    ensures TotalRevenue(Group(es)) == TotalRevenue(es)
  {
    if es != [] {
      GroupTotals(es[1..]);
      MergeTotals(es[0], Group(es[1..]));
    }
  }

  /** In rows with distinct labels, a row's sums are the sums under its label. */
  lemma {:induction false} RowIsItsLabel(rows: seq<Tally>, i: nat)
    requires StrictlySorted(rows) && i < |rows|
    ensures UnitsFor(rows, rows[i].key) == rows[i].units
    ensures RevenueFor(rows, rows[i].key) == rows[i].revenue
  {
    if i == 0 {
      assert rows[0].key !in Labels(rows[1..]) by {
        if rows[0].key in Labels(rows[1..]) {
          var k :| 0 <= k < |rows[1..]| && rows[1..][k].key == rows[0].key;
          assert Less(rows[0].key, rows[k + 1].key);
          LessIrreflexive(rows[0].key);
        }
      }
      AbsentSumsZero(rows[1..], rows[0].key);
    } else {
      assert forall j :: 0 <= j < |rows[1..]| ==> rows[1..][j] == rows[j + 1];
      RowIsItsLabel(rows[1..], i - 1);
      LessIrreflexive(rows[i].key);
    }
  }

  /** A label with no entries sums to zero. */
  lemma {:induction false} AbsentSumsZero(rows: seq<Tally>, key: string)
    requires key !in Labels(rows)
    ensures UnitsFor(rows, key) == 0 && RevenueFor(rows, key) == 0
  {
    if rows != [] {
      assert rows[0].key in Labels(rows);
      assert Labels(rows[1..]) <= Labels(rows) by {
        forall l | l in Labels(rows[1..]) ensures l in Labels(rows) {
          var k :| 0 <= k < |rows[1..]| && rows[1..][k].key == l;
          assert rows[k + 1].key == l;
        }
      }
      AbsentSumsZero(rows[1..], key);
    }
  }

  /** Each row of the grouped answer holds exactly the sums of its label's entries. */
  lemma GroupRows(es: seq<Tally>, i: nat)
    requires i < |Group(es)|
    ensures Group(es)[i].units == UnitsFor(es, Group(es)[i].key)
    ensures Group(es)[i].revenue == RevenueFor(es, Group(es)[i].key)
  {
    RowIsItsLabel(Group(es), i);
    GroupSums(es, Group(es)[i].key);
  }
}
