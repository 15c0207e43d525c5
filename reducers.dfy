/**
 * The reducers and the Reduce operation, which hands each group delivered by
 * the grouping to the reducer and concatenates what it yields.
 */
module Reducers {
  import opened Rows
  import opened Sorting
  import opened Grouping

  datatype Reducer =
    | First                          // FirstReducer
    | CountRows(column: string)
    | Count(column: string)
    | Sum(column: string)
    | TopN(column: string, n: int)

  /** `{key: row[key] for key in group_key}`: the group-key fields of a row. */
  function KeyFields(row: Row, keys: seq<string>): (r: Row)
    requires HasFields(row, keys)
    ensures r.Keys == set k | k in keys
    ensures forall k :: k in keys ==> r[k] == row[k]
  {
    map k | k in keys :: row[k]
  }

  /** Python's `+=` on the modelled values: integer sum or string concatenation. */
  function Add(a: Value, b: Value): (r: Result<Value>)
    ensures r.Ok? <==> a.Int? == b.Int?
  {
    match (a, b)
    case (Int(x), Int(y)) => Ok(Int(x + y))
    case (Str(x), Str(y)) => Ok(Str(x + y))
    case _ => Fail(TypeError)
  }

  /** `acc += row[column]` for each row in turn. */
  function SumFrom(acc: Value, rows: seq<Row>, column: string): (r: Result<Value>)
    decreases |rows|
  {
    if rows == [] then Ok(acc)
    else if column !in rows[0] then Fail(KeyError(column))
    else match Add(acc, rows[0][column])
      case Fail(e) => Fail(e)
      case Ok(v) => SumFrom(v, rows[1..], column)
  }

  /** `new_row[column] = row[column]` for the first row, then `+=` for the others. */
  function SumSpec(g: seq<Row>, column: string): (r: Result<Value>)
    requires g != []
  {
    if column !in g[0] then Fail(KeyError(column)) else SumFrom(g[0][column], g[1..], column)
  }

  /** `heapq.nlargest(n, ...)` for n >= 1, as the documentation states it: the first n after a stable descending sort. */
  function Take(rows: seq<Row>, n: int): (r: seq<Row>)
    ensures |r| == if n <= 0 then 0 else if n < |rows| then n else |rows|
    ensures r == rows[..|r|]
  {
    if n <= 0 then [] else if n < |rows| then rows[..n] else rows
  }

  /**
   * The reducer leaves the rest of the group unread, and nothing reads it
   * afterwards: with no key fields the group is the upstream itself, which
   * `_safe_groupby` hands over once and never touches again. FirstReducer
   * stops after one row; `heapq.nlargest` with `n <= 0` reads nothing.
   */
  predicate StopsReading(red: Reducer, keys: seq<string>, g: seq<Row>)
  {
    keys == [] && ((red.First? && g != []) || (red.TopN? && red.n <= 0))
  }

  /**
   * What a reducer yields for group `g`. When `cut` is an error, consuming
   * `g` to its end raises it: a reducer that reads the whole group fails
   * with it, after any error of its own that an earlier row provokes. With
   * key fields, `groupby` consumes the rest of the group before the next one
   * whether the reducer read it or not, so the error surfaces anyway.
   */
  function ReducerRun(red: Reducer, keys: seq<string>, g: seq<Row>, cut: Option<Error>): (out: Stream)
    ensures StopsReading(red, keys, g) ==> out.failure.None?
    ensures cut.Some? && !StopsReading(red, keys, g) ==> out.failure.Some?
    ensures out.failure.Some? && !red.First? ==> out.rows == []
    ensures out.failure.None? ==> cut.None? || StopsReading(red, keys, g)
  {
    match red
    case First =>
      // yields the first row and stops reading
      Stream(if g == [] then [] else [g[0]], if StopsReading(red, keys, g) then None else cut)
    case CountRows(col) =>
      if cut.Some? then Stream([], cut) else Stream([map[col := Int(|g|)]], None)
    case Count(col) =>
      if g == [] then Stream([], Some(if cut.Some? then cut.value else RuntimeError))
      else if FirstMissing(g[0], keys).Some? then Stream([], Some(KeyError(FirstMissing(g[0], keys).value)))
      else if cut.Some? then Stream([], cut)
      else Stream([KeyFields(g[0], keys)[col := Int(|g|)]], None)
    case Sum(col) =>
      if g == [] then Stream([], Some(if cut.Some? then cut.value else RuntimeError))
      else if FirstMissing(g[0], keys).Some? then Stream([], Some(KeyError(FirstMissing(g[0], keys).value)))
      else
        (match SumSpec(g, col)
         case Fail(e) => Stream([], Some(e))
         case Ok(v) => if cut.Some? then Stream([], cut) else Stream([KeyFields(g[0], keys)[col := v]], None))
    case TopN(col, n) =>
      if n <= 0 then Stream([], if keys == [] then None else cut)  // nlargest returns [] without reading
      else
        (match MissingKeyField(g, [col])
         case Some(f) => Stream([], Some(KeyError(f)))
         case None => if cut.Some? then Stream([], cut) else Stream(Take(SortRows(g, [col], true), n), None))
  }
  /** Reduce from group i on: each group's reducer output, stopping at the first error. */
  function ReduceFrom(red: Reducer, keys: seq<string>, gr: Grouped, i: nat): (r: Stream)
    requires i <= |gr.groups|
    decreases |gr.groups| - i
  {
    if i == |gr.groups| then
      // a FailsInLast error was raised while the last group was consumed, or
      // never is, because the reducer stopped reading the upstream
      Stream([], if gr.end.FailsAfter? then Some(gr.end.error) else None)
    else
      var out := ReducerRun(red, keys, gr.groups[i], CutOf(gr, i));
      if out.failure.Some? then out
      else Prepend(out.rows, ReduceFrom(red, keys, gr, i + 1))
  }

  /** The Reduce operation. */
  function ReduceStream(red: Reducer, keys: seq<string>, s: Stream): (r: Stream)
  {
    ReduceFrom(red, keys, GroupBy(s, keys), 0)
  }

  /* ---------- the accumulating reducers, as the loops they are ---------- */

  /** `Count.__call__`: counts the rows of the group into `new_row[column]`. */
  method CountGroup(keys: seq<string>, g: seq<Row>, column: string, cut: Option<Error>) returns (out: Stream)
    ensures out == ReducerRun(Count(column), keys, g, cut)
  {
    if g == [] {
      return Stream([], Some(if cut.Some? then cut.value else RuntimeError));
    }
    var first := g[0];
    var missing := FirstMissing(first, keys);
    if missing.Some? {
      return Stream([], Some(KeyError(missing.value)));
    }
    var newRow := KeyFields(first, keys)[column := Int(1)];
    var i := 1;
    while i < |g|
      invariant 1 <= i <= |g|
      invariant newRow == KeyFields(first, keys)[column := Int(i)]
    {
      newRow := newRow[column := Int(newRow[column].i + 1)];
      i := i + 1;
    }
    if cut.Some? {
      return Stream([], cut);
    }
    return Stream([newRow], None);
  }

  /** `Sum.__call__`: adds the column of every row of the group into `new_row[column]`. */
  method SumGroup(keys: seq<string>, g: seq<Row>, column: string, cut: Option<Error>) returns (out: Stream)
    ensures out == ReducerRun(Sum(column), keys, g, cut)
  {
    if g == [] {
      return Stream([], Some(if cut.Some? then cut.value else RuntimeError));
    }
    var first := g[0];
    var missing := FirstMissing(first, keys);
    if missing.Some? {
      return Stream([], Some(KeyError(missing.value)));
    }
    if column !in first {
      return Stream([], Some(KeyError(column)));
    }
    var acc := first[column];
    var i := 1;
    while i < |g|
      invariant 1 <= i <= |g|
      invariant SumFrom(acc, g[i..], column) == SumSpec(g, column)
    {
      assert g[i..][0] == g[i] && g[i..][1..] == g[i + 1..];
      if column !in g[i] {
        return Stream([], Some(KeyError(column)));
      }
      var next := Add(acc, g[i][column]);
      if next.Fail? {
        return Stream([], Some(next.error));
      }
      acc := next.value;
      i := i + 1;
    }
    if cut.Some? {
      return Stream([], cut);
    }
    return Stream([KeyFields(first, keys)[column := acc]], None);
  }

  /* ---------- properties of the reducers ---------- */

  /** The total of the integer column over the rows (0 where a row has none). */
  function ColumnTotal(rows: seq<Row>, column: string): int
  {
    if rows == [] then 0
    else (if column in rows[0] && rows[0][column].Int? then rows[0][column].i else 0) + ColumnTotal(rows[1..], column)
  }

  lemma {:induction false} SumFromInts(acc: int, rows: seq<Row>, column: string)
    requires forall i :: 0 <= i < |rows| ==> column in rows[i] && rows[i][column].Int?
    ensures SumFrom(Int(acc), rows, column) == Ok(Int(acc + ColumnTotal(rows, column)))
    decreases |rows|
  {
    if rows != [] {
      SumFromInts(acc + rows[0][column].i, rows[1..], column);
    }
  }

  /**
   * Sum on an integer column yields the group-key fields of the first row and
   * the total of the column over the group.
   */
  lemma SumOfInts(keys: seq<string>, g: seq<Row>, column: string)
    requires g != [] && HasFields(g[0], keys)
    requires forall i :: 0 <= i < |g| ==> column in g[i] && g[i][column].Int?
    ensures ReducerRun(Sum(column), keys, g, None)
              == Stream([KeyFields(g[0], keys)[column := Int(ColumnTotal(g, column))]], None)
  {
    SumFromInts(g[0][column].i, g[1..], column);
  }

  /**
   * Count yields one row: the group-key fields of the first row and the
   * number of rows of the group; CountRows yields just the number.
   */
  lemma CountsRows(keys: seq<string>, g: seq<Row>, column: string)
    requires g != [] && HasFields(g[0], keys)
    ensures var out := ReducerRun(Count(column), keys, g, None);
      && out.failure.None? && |out.rows| == 1
      && out.rows[0].Keys == (set k | k in keys) + {column}
      && out.rows[0][column] == Int(|g|)
      && forall k :: k in keys && k != column ==> out.rows[0][k] == g[0][k]
    ensures ReducerRun(CountRows(column), keys, g, None) == Stream([map[column := Int(|g|)]], None)
  {
  }

  /** FirstReducer yields only the first row of its group. */
  lemma FirstYieldsFirst(keys: seq<string>, g: seq<Row>)
    requires g != []
    ensures ReducerRun(First, keys, g, None) == Stream([g[0]], None)
  {
  }

  /** TopN yields the first n rows of the group after a stable sort on the column, descending. */
  lemma TopNTakes(keys: seq<string>, g: seq<Row>, column: string, n: int)
    requires forall x :: x in g ==> column in x
    ensures ReducerRun(TopN(column, n), keys, g, None) == Stream(Take(SortRows(g, [column], true), n), None)
  {
    if n > 0 {
      assert forall i :: 0 <= i < |g| ==> g[i] in g && HasFields(g[i], [column]);
      assert MissingKeyField(g, [column]).None?;
    }
  }

  /**
   * Those rows are at most n rows of the group, in descending order of the
   * column, and no row left out has a strictly larger value than a row kept.
   */
  lemma TopNLargest(g: seq<Row>, column: string, n: int)
    requires forall x :: x in g ==> column in x
    ensures |Take(SortRows(g, [column], true), n)| == (if n <= 0 then 0 else if n < |g| then n else |g|)
    ensures multiset(Take(SortRows(g, [column], true), n)) <= multiset(g)
    ensures SortedBy(Take(SortRows(g, [column], true), n), [column], true)
    ensures forall x, y :: x in Take(SortRows(g, [column], true), n) &&
                           y in multiset(g) - multiset(Take(SortRows(g, [column], true), n)) ==>
              column in x && column in y && CompareValues(y[column], x[column]) <= 0
  {
    var sorted := SortRows(g, [column], true);
    assert |sorted| == |multiset(sorted)| == |multiset(g)| == |g|;
    var top := Take(sorted, n);
    var m := |top|;
    TakeOfSorted(sorted, [column], m);
    PrefixRest(sorted, m);
    assert forall x :: x in sorted ==> x in multiset(g);
    PrefixDominates(sorted, column, m);
    forall x, y | x in top && y in multiset(g) - multiset(top)
      ensures column in x && column in y && CompareValues(y[column], x[column]) <= 0
    {
      assert y in sorted[m..];
    }
  }

  /** Taking a prefix away from a sequence leaves the multiset of its suffix. */
  lemma PrefixRest(s: seq<Row>, m: nat)
    requires m <= |s|
    ensures multiset(s[..m]) <= multiset(s)
    ensures multiset(s) - multiset(s[..m]) == multiset(s[m..])
  {
    assert s == s[..m] + s[m..];
  }

  /** In a descending sequence, no row after position m has a larger value than one before it. */
  lemma PrefixDominates(sorted: seq<Row>, column: string, m: nat)
    requires m <= |sorted| && SortedBy(sorted, [column], true)
    requires forall x :: x in sorted ==> column in x
    ensures forall x, y :: x in sorted[..m] && y in sorted[m..] ==> CompareValues(y[column], x[column]) <= 0
  {
    forall x, y | x in sorted[..m] && y in sorted[m..]
      ensures CompareValues(y[column], x[column]) <= 0
    {
      var i :| 0 <= i < m && sorted[i] == x;
      var j :| 0 <= j < |sorted| - m && sorted[m..][j] == y;
      assert sorted[m + j] == y;
      assert !Precedes(KeyOf(sorted[m + j], [column]), KeyOf(sorted[i], [column]), true);
      SingletonKey(y, x, column);
    }
  }

  lemma TakeOfSorted(rows: seq<Row>, keys: seq<string>, m: nat)
    requires m <= |rows| && SortedBy(rows, keys, true)
    ensures SortedBy(rows[..m], keys, true)
  {
    assert forall i :: 0 <= i < m ==> rows[..m][i] == rows[i];
  }

  /** Comparing one-field keys is comparing the fields' values. */
  lemma SingletonKey(y: Row, x: Row, column: string)
    requires column in x && column in y
    requires !Precedes(KeyOf(y, [column]), KeyOf(x, [column]), true)
    ensures CompareValues(y[column], x[column]) <= 0
  {
    var ky, kx := KeyOf(y, [column]), KeyOf(x, [column]);
    assert ky[0] == y[column] && kx[0] == x[column];
    assert ky[1..] == [] && kx[1..] == [];
  }

  /* ---------- properties of Reduce ---------- */

  /** The reducer's output for each group, when none of them fails. */
  function GroupOutputs(red: Reducer, keys: seq<string>, groups: seq<seq<Row>>): (outs: seq<seq<Row>>)
    ensures |outs| == |groups|
  {
    seq(|groups|, i requires 0 <= i < |groups| => ReducerRun(red, keys, groups[i], None).rows)
  }

  lemma GroupOutputsCons(red: Reducer, keys: seq<string>, groups: seq<seq<Row>>)
    requires groups != []
    ensures GroupOutputs(red, keys, groups)
            == [ReducerRun(red, keys, groups[0], None).rows] + GroupOutputs(red, keys, groups[1..])
  {
    assert GroupOutputs(red, keys, groups)[1..] == GroupOutputs(red, keys, groups[1..]);
  }

  lemma {:induction false} ReduceFromConcatenates(red: Reducer, keys: seq<string>, gr: Grouped, i: nat)
    requires i <= |gr.groups| && gr.end.Exhausted?
    requires forall j :: i <= j < |gr.groups| ==> ReducerRun(red, keys, gr.groups[j], None).failure.None?
    ensures ReduceFrom(red, keys, gr, i) == Stream(Flatten(GroupOutputs(red, keys, gr.groups[i..])), None)
    decreases |gr.groups| - i
  {
    if i < |gr.groups| {
      ReduceFromConcatenates(red, keys, gr, i + 1);
      assert gr.groups[i..][1..] == gr.groups[i + 1..];
      assert GroupOutputs(red, keys, gr.groups[i..])[1..] == GroupOutputs(red, keys, gr.groups[i + 1..]);
    }
  }

  /**
   * On a stream sorted by the keys, Reduce runs the reducer exactly once per
   * maximal run of rows with equal keys, in stream order, and concatenates
   * the outputs.
   */
  lemma ReduceOncePerRun(red: Reducer, keys: seq<string>, s: Stream)
    requires keys != [] && s.rows != [] && s.failure.None?
    requires forall i :: 0 <= i < |s.rows| ==> HasFields(s.rows[i], keys)
    requires SortedBy(s.rows, keys, false)
    requires forall j :: 0 <= j < |Runs(s.rows, keys)| ==> ReducerRun(red, keys, Runs(s.rows, keys)[j], None).failure.None?
    ensures ReduceStream(red, keys, s) == Stream(Flatten(GroupOutputs(red, keys, Runs(s.rows, keys))), None)
  {
    GroupBySorted(s, keys);
    var gr := GroupBy(s, keys);
    ReduceFromConcatenates(red, keys, gr, 0);
    assert gr.groups[0..] == gr.groups;
  }

  /** With no key fields the whole stream is one group, and the stream's error comes after it. */
  lemma ReduceNoKeys(red: Reducer, s: Stream)
    ensures ReduceStream(red, [], s) == ReducerRun(red, [], s.rows, s.failure)
  {
    var gr := GroupBy(s, []);
    assert gr.groups == [s.rows];
    assert CutOf(gr, 0) == s.failure;
    var out := ReducerRun(red, [], s.rows, s.failure);
    if out.failure.None? {
      assert ReduceFrom(red, [], gr, 1) == Stream([], None);
      assert out.rows + [] == out.rows;
    }
  }

  /**
   * With no key fields, a reducer that stops reading leaves an upstream error
   * unraised: FirstReducer on a non-empty stream and TopN with `n <= 0` end cleanly.
   */
  lemma NoKeysStopsEarly(s: Stream, column: string, n: int)
    ensures s.rows != [] ==> ReduceStream(First, [], s) == Stream([s.rows[0]], None)
    ensures n <= 0 ==> ReduceStream(TopN(column, n), [], s) == Stream([], None)
  {
    ReduceNoKeys(First, s);
    ReduceNoKeys(TopN(column, n), s);
  }

  /** With key fields, an empty stream makes Reduce fail instead of yielding nothing. */
  lemma ReduceEmpty(red: Reducer, keys: seq<string>)
    requires keys != []
    ensures ReduceStream(red, keys, Stream([], None)) == Stream([], Some(RuntimeError))
  {
    GroupByEmpty(keys);
  }

  lemma {:induction false} ReduceFromFailsAfter(red: Reducer, keys: seq<string>, gr: Grouped, i: nat)
    requires i <= |gr.groups| && gr.end.FailsAfter?
    ensures ReduceFrom(red, keys, gr, i).failure.Some?
    ensures (forall j :: i <= j < |gr.groups| ==> ReducerRun(red, keys, gr.groups[j], None).failure.None?) ==>
              ReduceFrom(red, keys, gr, i).failure == Some(gr.end.error)
    decreases |gr.groups| - i
  {
    if i < |gr.groups| {
      assert CutOf(gr, i).None?;
      var out := ReducerRun(red, keys, gr.groups[i], None);
      if out.failure.None? {
        ReduceFromFailsAfter(red, keys, gr, i + 1);
        assert ReduceFrom(red, keys, gr, i).failure == ReduceFrom(red, keys, gr, i + 1).failure;
      }
    }
  }

  /**
   * On a clean stream that is not sorted by the keys, Reduce fails with
   * ValueError once the reducer has run on the groups before the descent
   * (unless the reducer itself fails first).
   */
  lemma ReduceUnsorted(red: Reducer, keys: seq<string>, s: Stream)
    requires keys != [] && s.rows != [] && s.failure.None?
    requires forall i :: 0 <= i < |s.rows| ==> HasFields(s.rows[i], keys)
    requires !SortedBy(s.rows, keys, false)
    ensures ReduceStream(red, keys, s).failure.Some?
    ensures (forall j :: 0 <= j < |GroupBy(s, keys).groups| ==>
               ReducerRun(red, keys, GroupBy(s, keys).groups[j], None).failure.None?) ==>
              ReduceStream(red, keys, s).failure == Some(ValueError)
  {
    GroupBySorted(s, keys);
    ReduceFromFailsAfter(red, keys, GroupBy(s, keys), 0);
  }
}
