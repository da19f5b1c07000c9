/** Sums over the rows of a table, and how they react when rows change. */
module Sums {
  function Sum<T>(rows: seq<T>, f: T -> nat): nat {
    if |rows| == 0 then 0 else Sum(rows[..|rows| - 1], f) + f(rows[|rows| - 1])
  }

  /** All rows but the k-th. */
  function Others<T>(rows: seq<T>, k: nat): seq<T> {
    if k < |rows| then rows[..k] + rows[k + 1..] else rows
  }

  lemma SumAppend<T>(rows: seq<T>, row: T, f: T -> nat)
    ensures Sum(rows + [row], f) == Sum(rows, f) + f(row)
  {
    assert (rows + [row])[..|rows|] == rows;
  }

  lemma {:induction false} SumConcat<T>(a: seq<T>, b: seq<T>, f: T -> nat)
    ensures Sum(a + b, f) == Sum(a, f) + Sum(b, f)
  {
    if |b| == 0 {
      assert a + b == a;
    } else {
      var n := |b| - 1;
      assert a + b == (a + b[..n]) + [b[n]];
      SumAppend(a + b[..n], b[n], f);
      SumConcat(a, b[..n], f);
    }
  }

  lemma SumOthers<T>(rows: seq<T>, k: nat, f: T -> nat)
    requires k < |rows|
    ensures Sum(rows, f) == Sum(Others(rows, k), f) + f(rows[k])
  {
    hide Sum;
    assert Sum(rows, f) == Sum(rows[..k + 1], f) + Sum(rows[k + 1..], f) by {
      SumConcat(rows[..k + 1], rows[k + 1..], f);
      assert rows[..k + 1] + rows[k + 1..] == rows;
    }
    assert Sum(rows[..k + 1], f) == Sum(rows[..k], f) + f(rows[k]) by {
      SumAppend(rows[..k], rows[k], f);
      assert rows[..k] + [rows[k]] == rows[..k + 1];
    }
    SumConcat(rows[..k], rows[k + 1..], f);
  }

  lemma SumUpdate<T>(rows: seq<T>, k: nat, row: T, f: T -> nat)
    requires k < |rows|
    ensures Sum(rows[k := row], f) == Sum(Others(rows, k), f) + f(row)
  {
    SumOthers(rows[k := row], k, f);
    assert Others(rows[k := row], k) == Others(rows, k);
  }

  lemma {:induction false} SumPointwise<T>(a: seq<T>, b: seq<T>, f: T -> nat, g: T -> nat)
    requires |a| == |b|
    requires forall i :: 0 <= i < |a| ==> f(a[i]) <= g(b[i])
    ensures Sum(a, f) <= Sum(b, g)
  {
    if |a| > 0 {
      SumPointwise(a[..|a| - 1], b[..|b| - 1], f, g);
    }
  }

  lemma {:induction false} SumZero<T>(rows: seq<T>, f: T -> nat)
    requires forall row :: row in rows ==> f(row) == 0
    ensures Sum(rows, f) == 0
  {
    if |rows| > 0 {
      SumZero(rows[..|rows| - 1], f);
    }
  }

  /** A row counts at most as much as the whole table. */
  lemma SumAtLeast<T>(rows: seq<T>, k: nat, f: T -> nat)
    requires k < |rows|
    ensures f(rows[k]) <= Sum(rows, f)
  {
    SumOthers(rows, k, f);
  }

  /** A longer table counts no more than a shorter one if each shared row counts no more and
      the further ones count nothing; leaving out the same row, or none, changes nothing. */
  lemma SumOthersBound<T>(a: seq<T>, b: seq<T>, k: nat, k': nat, f: T -> nat, g: T -> nat)
    requires |a| <= |b|
    requires forall i :: 0 <= i < |a| ==> f(b[i]) <= g(a[i])
    requires forall i :: |a| <= i < |b| ==> f(b[i]) == 0
    requires if k < |a| then k' == k else k' >= |b|
    ensures Sum(Others(b, k'), f) <= Sum(Others(a, k), g)
  {
    hide Sum;
    var shared, more := b[..|a|], b[|a|..];
    assert Others(b, k') == Others(shared, k) + more by {
      assert b == shared + more;
    }
    SumConcat(Others(shared, k), more, f);
    forall row | row in more
      ensures f(row) == 0
    {
      var i :| 0 <= i < |more| && more[i] == row;
      assert row == b[|a| + i];
    }
    SumZero(more, f);
    SumPointwise(Others(shared, k), Others(a, k), f, g);
  }

  /** A positive sum has a row that counts. */
  lemma SumPositive<T>(rows: seq<T>, f: T -> nat) returns (k: nat)
    requires Sum(rows, f) > 0
    ensures k < |rows| && f(rows[k]) > 0
  {
    if row :| row in rows && f(row) > 0 {
      k :| k < |rows| && rows[k] == row;
    } else {
      SumZero(rows, f);
      assert false;
    }
  }

  /** The order of the rows does not matter. */
  lemma {:induction false} SumReorders<T>(a: seq<T>, b: seq<T>, f: T -> nat)
    requires multiset(a) == multiset(b)
    ensures Sum(a, f) == Sum(b, f)
  {
    assert |multiset(a)| == |a| && |multiset(b)| == |b|;
    if |a| > 0 {
      hide Sum;
      var n := |a| - 1;
      assert a[n] in multiset(b);
      var k :| 0 <= k < |b| && b[k] == a[n];
      assert multiset(a) == multiset(a[..n]) + multiset{a[n]} by {
        assert a == a[..n] + [a[n]];
      }
      assert multiset(b) == multiset(Others(b, k)) + multiset{b[k]} by {
        assert b == b[..k] + [b[k]] + b[k + 1..];
      }
      assert multiset(Others(b, k)) == multiset(b) - multiset{b[k]};
      assert multiset(Others(b, k)) == multiset(a[..n]);
      SumReorders(a[..n], Others(b, k), f);
      SumOthers(b, k, f);
      SumAppend(a[..n], a[n], f);
      assert a == a[..n] + [a[n]];
    }
  }
}
