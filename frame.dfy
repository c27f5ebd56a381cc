/**
 * A pandas DataFrame of bank-statement rows as a sequence of rows, and a
 * boolean-mask selection `df[mask]` as an order-preserving filter.
 */
module Frame {

  /** One statement row, with the columns the filters read:
      `maara` is "Määrä EUROA" (the amount as decimal-comma text),
      `laji` the category code, `selitys` the description and `viesti` the
      free-text message. */
  datatype Row = Row(maara: string, laji: int, selitys: string, viesti: string)

  /** `a` is `b` with some elements left out, the rest in their original order. */
  predicate IsSubsequence<T(==)>(a: seq<T>, b: seq<T>)
    decreases |b|
  {
    a == [] ||
    (b != [] && ((a[0] == b[0] && IsSubsequence(a[1..], b[1..])) || IsSubsequence(a, b[1..])))
  }

  /** `df[mask]`: the rows for which `keep` holds, in their original order,
      each as many times as it occurs. */
  function Filter<T(==, !new)>(rows: seq<T>, keep: T -> bool): (r: seq<T>)
    ensures forall x :: x in r <==> x in rows && keep(x)
    ensures forall x :: multiset(r)[x] == if keep(x) then multiset(rows)[x] else 0
    ensures IsSubsequence(r, rows)
  {
    if rows == [] then []
    else
      assert rows == [rows[0]] + rows[1..];
      if keep(rows[0]) then [rows[0]] + Filter(rows[1..], keep) else Filter(rows[1..], keep)
  }

  /** Selecting with a weaker mask keeps, in order, everything a stronger mask keeps. */
  lemma {:induction false} FilterMonotone<T(!new)>(rows: seq<T>, p: T -> bool, q: T -> bool)
    requires forall x :: p(x) ==> q(x)
    ensures IsSubsequence(Filter(rows, p), Filter(rows, q))
  {
    if rows != [] {
      FilterMonotone(rows[1..], p, q);
      var fq := Filter(rows, q);
      if p(rows[0]) {
        assert fq[1..] == Filter(rows[1..], q);
      } else if q(rows[0]) {
        assert fq[1..] == Filter(rows[1..], q);
      }
    }
  }

  /** A mask and its negation split the frame: every row lands in exactly one of the two. */
  lemma {:induction false} FilterSplit<T(!new)>(rows: seq<T>, keep: T -> bool)
    ensures multiset(Filter(rows, keep)) + multiset(Filter(rows, x => !keep(x))) == multiset(rows)
    ensures |Filter(rows, keep)| + |Filter(rows, x => !keep(x))| == |rows|
  {
    if rows != [] {
      FilterSplit(rows[1..], keep);
    }
    var a, b := Filter(rows, keep), Filter(rows, x => !keep(x));
    forall x
      ensures (multiset(a) + multiset(b))[x] == multiset(rows)[x]
    {
    }
  }

  /** Selecting from two rows where only the first qualifies. */
  lemma FilterFirstOfTwo<T(!new)>(a: T, b: T, keep: T -> bool)
    requires keep(a) && !keep(b)
    ensures Filter([a, b], keep) == [a]
  {
    assert [a, b][1..] == [b];
    assert [b][1..] == [];
  }
}
