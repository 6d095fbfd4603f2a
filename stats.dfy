/** The median that pandas `Series.median` computes over the defined values
    of a column. */
module Stats {
  import opened Values

  predicate SortedAsc(s: seq<real>)
  {
    forall i, j :: 0 <= i < j < |s| ==> s[i] <= s[j]
  }

  function InsertAsc(x: real, s: seq<real>): (r: seq<real>)
    requires SortedAsc(s)
    ensures SortedAsc(r)
    ensures multiset(r) == multiset(s) + multiset{x}
  {
    if |s| == 0 then [x]
    else if x <= s[0] then [x] + s
    else
      var rest := InsertAsc(x, s[1..]);
      assert s == [s[0]] + s[1..];
      forall j | 0 <= j < |rest| ensures s[0] <= rest[j] {
        assert rest[j] in multiset(rest);
        if rest[j] != x {
          assert rest[j] in multiset(s[1..]);
          var k :| 0 <= k < |s[1..]| && s[1..][k] == rest[j];
          assert s[k + 1] == rest[j];
        }
      }
      ConsSorted(s[0], rest);
      [s[0]] + rest
  }

  /** A head no larger than any element of a sorted tail keeps it sorted. */
  lemma ConsSorted(h: real, t: seq<real>)
    requires SortedAsc(t)
    requires forall j :: 0 <= j < |t| ==> h <= t[j]
    ensures SortedAsc([h] + t)
  {
    var r := [h] + t;
    forall i, j | 0 <= i < j < |r| ensures r[i] <= r[j] {
      assert r[j] == t[j - 1];
      if i > 0 { assert r[i] == t[i - 1]; }
    }
  }

  /** The values of `s` in ascending order. */
  function SortAsc(s: seq<real>): (r: seq<real>)
    ensures SortedAsc(r)
    ensures multiset(r) == multiset(s)
  {
    if |s| == 0 then []
    else
      assert s == [s[0]] + s[1..];
      InsertAsc(s[0], SortAsc(s[1..]))
  }

  /** The median of ascending values: none for no values; otherwise a value
      that at least half the values lie at or below and at least half at or
      above, equidistant from the two middle values when their count is even. */
  function MedianOfSorted(s: seq<real>): (m: Option<real>)
    requires SortedAsc(s)
    ensures m.None? <==> |s| == 0
    ensures m.Some? ==> forall i :: 0 <= i < (|s| + 1) / 2 ==> s[i] <= m.value
    ensures m.Some? ==> forall i :: |s| / 2 <= i < |s| ==> m.value <= s[i]
    ensures m.Some? && |s| % 2 == 0 ==> m.value - s[|s| / 2 - 1] == s[|s| / 2] - m.value
  {
    if |s| == 0 then None
    else if |s| % 2 == 1 then Some(s[|s| / 2])
    else Some((s[|s| / 2 - 1] + s[|s| / 2]) / 2.0)
  }

  /** `Series.median` over the defined values: none for no values, and
      otherwise a value lying between the least and the greatest of them. */
  function Median(values: seq<real>): (m: Option<real>)
    ensures m.None? <==> |values| == 0
    ensures m.Some? ==> exists i, j :: 0 <= i < |values| && 0 <= j < |values| && values[i] <= m.value <= values[j]
  {
    var s := SortAsc(values);
    assert |s| == |multiset(s)| == |multiset(values)| == |values|;
    var m := MedianOfSorted(s);
    assert m.Some? ==> exists i, j :: 0 <= i < |values| && 0 <= j < |values| && values[i] <= m.value <= values[j]
    by {
      if m.Some? {
        assert s[0] in multiset(values) && s[|s| - 1] in multiset(values);
        assert s[0] in values && s[|s| - 1] in values;
      }
    }
    m
  }

  /** The head of an ascending sequence is its least value. */
  lemma HeadIsLeast(s: seq<real>)
    requires SortedAsc(s) && |s| > 0
    ensures forall x :: x in multiset(s) ==> s[0] <= x
  {
    forall x | x in multiset(s) ensures s[0] <= x {
      assert x in s;
      var i :| 0 <= i < |s| && s[i] == x;
    }
  }

  /** Dropping the head of an ascending sequence keeps it ascending and
      removes one copy of the head from its values. */
  lemma DropHead(s: seq<real>)
    requires SortedAsc(s) && |s| > 0
    ensures SortedAsc(s[1..])
    ensures multiset(s[1..]) == multiset(s) - multiset{s[0]}
  {
    assert s == [s[0]] + s[1..];
    assert multiset(s) == multiset{s[0]} + multiset(s[1..]);
    forall i, j | 0 <= i < j < |s[1..]| ensures s[1..][i] <= s[1..][j] {
      assert s[1..][i] == s[i + 1] && s[1..][j] == s[j + 1];
    }
  }

  /** Two ascending sequences holding the same values are equal. */
  lemma {:induction false} SortedUnique(a: seq<real>, b: seq<real>)
    requires SortedAsc(a) && SortedAsc(b)
    requires multiset(a) == multiset(b)
    ensures a == b
    decreases |a|
  {
    assert |a| == |multiset(a)| == |multiset(b)| == |b|;
    if |a| > 0 {
      assert a[0] == b[0] by {
        HeadIsLeast(a);
        HeadIsLeast(b);
        assert a[0] in multiset(b) && b[0] in multiset(a);
      }
      assert SortedAsc(a[1..]) && SortedAsc(b[1..]) && multiset(a[1..]) == multiset(b[1..]) by {
        DropHead(a);
        DropHead(b);
      }
      SortedUnique(a[1..], b[1..]);
      assert a == [a[0]] + a[1..] && b == [b[0]] + b[1..];
    }
  }

  /** The median depends only on the values, not on their row order. */
  lemma MedianIgnoresOrder(a: seq<real>, b: seq<real>)
    requires multiset(a) == multiset(b)
    ensures Median(a) == Median(b)
  {
    SortedUnique(SortAsc(a), SortAsc(b));
  }

  /** The finite values of column `col`, in row order; every other cell
      (undefined, missing, non-numeric) is skipped. */
  function DefinedValues(rows: seq<Record>, col: string): (vs: seq<real>)
    ensures |vs| <= |rows|
    ensures forall x :: x in vs <==> exists i :: 0 <= i < |rows| && Field(rows[i], col) == Num(x)
  {
    if |rows| == 0 then []
    else
      var rest := DefinedValues(rows[1..], col);
      assert forall i :: 1 <= i < |rows| ==> rows[i] == rows[1..][i - 1];
      match Field(rows[0], col)
      case Num(x) => [x] + rest
      case _ => rest
  }

  /** `x` lies between two numbers of column `col`. */
  predicate Between(rows: seq<Record>, col: string, x: real)
  {
    exists i, j :: 0 <= i < |rows| && 0 <= j < |rows| && Numbered(rows[i], rows[j], col, x)
  }

  predicate Numbered(lo: Record, hi: Record, col: string, x: real)
  {
    Field(lo, col).Num? && Field(hi, col).Num? && Field(lo, col).x <= x <= Field(hi, col).x
  }

  /** `df[col].median()`: none exactly when no row holds a number in the
      column, otherwise a value between two of the column's numbers. */
  function ColumnMedian(rows: seq<Record>, col: string): (m: Option<real>)
    ensures m.None? <==> forall i :: 0 <= i < |rows| ==> !Field(rows[i], col).Num?
    ensures m.Some? ==> Between(rows, col, m.value)
  {
    var vs := DefinedValues(rows, col);
    DefinedValuesEmpty(rows, col);
    var m := Median(vs);
    assert m.Some? ==> Between(rows, col, m.value) by {
      if m.Some? {
        var a, b :| 0 <= a < |vs| && 0 <= b < |vs| && vs[a] <= m.value <= vs[b];
        ValueRow(rows, col, vs[a]);
        ValueRow(rows, col, vs[b]);
        var i :| 0 <= i < |rows| && Field(rows[i], col) == Num(vs[a]);
        var j :| 0 <= j < |rows| && Field(rows[j], col) == Num(vs[b]);
        assert Numbered(rows[i], rows[j], col, m.value);
      }
    }
    m
  }

  /** No defined values exactly when no row holds a number in the column. */
  lemma DefinedValuesEmpty(rows: seq<Record>, col: string)
    ensures |DefinedValues(rows, col)| == 0 <==> forall i :: 0 <= i < |rows| ==> !Field(rows[i], col).Num?
  {
    var vs := DefinedValues(rows, col);
    if |vs| > 0 {
      assert vs[0] in vs;
    }
    forall i | 0 <= i < |rows| && Field(rows[i], col).Num? ensures |vs| > 0 {
      assert Field(rows[i], col).x in vs;
    }
  }

  /** Every defined value comes from some row. */
  lemma ValueRow(rows: seq<Record>, col: string, x: real)
    requires x in DefinedValues(rows, col)
    ensures exists i :: 0 <= i < |rows| && Field(rows[i], col) == Num(x)
  {
  }

  /** A single row contributes its number, or nothing. */
  lemma DefinedValuesSingle(row: Record, col: string)
    ensures DefinedValues([row], col) == if Field(row, col).Num? then [Field(row, col).x] else []
  {
    assert [row][1..] == [];
  }

  /** The defined values of two row blocks are those of each, in order: with
      `DefinedValuesSingle` this fixes every value and its multiplicity. */
  lemma {:induction false} DefinedValuesAppend(a: seq<Record>, b: seq<Record>, col: string)
    ensures DefinedValues(a + b, col) == DefinedValues(a, col) + DefinedValues(b, col)
    decreases |a|
  {
    if |a| == 0 {
      assert a + b == b;
    } else {
      assert (a + b)[0] == a[0];
      assert (a + b)[1..] == a[1..] + b;
      DefinedValuesAppend(a[1..], b, col);
    }
  }

  /** Reordering the rows reorders the defined values and keeps each one's
      multiplicity. */
  lemma {:induction false} DefinedValuesPermute(r1: seq<Record>, r2: seq<Record>, col: string)
    requires multiset(r1) == multiset(r2)
    ensures multiset(DefinedValues(r1, col)) == multiset(DefinedValues(r2, col))
    decreases |r1|
  {
    assert |r1| == |r2| by {
      assert |r1| == |multiset(r1)| && |r2| == |multiset(r2)|;
    }
    if |r1| > 0 {
      var h := r1[0];
      var j :| 0 <= j < |r2| && r2[j] == h by {
        assert h in multiset(r2);
      }
      var front, back := r2[..j], r2[j + 1..];
      assert multiset(r1[1..]) == multiset(front + back) by {
        RemoveMatching(r1, r2, j);
      }
      DefinedValuesPermute(r1[1..], front + back, col);
      assert r1 == [h] + r1[1..];
      assert r2 == front + [h] + back;
      PermuteStep(h, r1[1..], front, back, col);
    }
  }

  /** The inductive step: the same row put at the head of one block and in
      the middle of the other keeps their defined values' multisets equal. */
  lemma PermuteStep(h: Record, t: seq<Record>, front: seq<Record>, back: seq<Record>, col: string)
    requires multiset(DefinedValues(t, col)) == multiset(DefinedValues(front + back, col))
    ensures multiset(DefinedValues([h] + t, col)) == multiset(DefinedValues(front + [h] + back, col))
  {
    ValuesOfCons(h, t, col);
    ValuesOfSplice(front, h, back, col);
  }

  lemma ValuesOfCons(h: Record, t: seq<Record>, col: string)
    ensures multiset(DefinedValues([h] + t, col)) == multiset(DefinedValues([h], col)) + multiset(DefinedValues(t, col))
  {
    DefinedValuesAppend([h], t, col);
  }

  lemma ValuesOfSplice(front: seq<Record>, h: Record, back: seq<Record>, col: string)
    ensures multiset(DefinedValues(front + [h] + back, col))
         == multiset(DefinedValues([h], col)) + multiset(DefinedValues(front + back, col))
  {
    DefinedValuesAppend(front + [h], back, col);
    DefinedValuesAppend(front, [h], col);
    DefinedValuesAppend(front, back, col);
  }

  /** Removing the head of `a` and a matching element of `b` keeps the two
      multisets equal. */
  lemma RemoveMatching<T>(a: seq<T>, b: seq<T>, j: nat)
    requires multiset(a) == multiset(b)
    requires 0 < |a| && j < |b| && b[j] == a[0]
    ensures multiset(a[1..]) == multiset(b[..j] + b[j + 1..])
  {
    assert a == [a[0]] + a[1..];
    assert b == b[..j] + [b[j]] + b[j + 1..];
    assert multiset(a) == multiset{a[0]} + multiset(a[1..]);
    assert multiset(b) == multiset(b[..j]) + multiset{b[j]} + multiset(b[j + 1..]);
    assert multiset(b[..j] + b[j + 1..]) == multiset(b[..j]) + multiset(b[j + 1..]);
    assert multiset(a[1..]) == multiset(a) - multiset{a[0]};
    assert multiset(b[..j] + b[j + 1..]) == multiset(b) - multiset{b[j]};
  }

  /** A stored dataset's column median does not depend on its row order. */
  lemma ColumnMedianIgnoresRowOrder(r1: seq<Record>, r2: seq<Record>, col: string)
    requires multiset(r1) == multiset(r2)
    ensures ColumnMedian(r1, col) == ColumnMedian(r2, col)
  {
    DefinedValuesPermute(r1, r2, col);
    MedianIgnoresOrder(DefinedValues(r1, col), DefinedValues(r2, col));
  }
}
