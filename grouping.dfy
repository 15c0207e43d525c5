/**
 * `_safe_groupby`: splitting a stream into maximal runs of rows with equal
 * key values, as the Reduce and Join operations pull them.
 *
 * The groups a consumer receives, and how the grouping ends, are recorded in
 * `Grouped`. An error raised by the underlying stream (or a row without a key
 * field, which fails inside itertools.groupby) surfaces while the last group
 * is being consumed; the ordering check and the `next` on an empty stream
 * fail when the consumer asks for the next group.
 */
module Grouping {
  import opened Rows
  import opened Sorting

  datatype GroupEnd =
    | Exhausted               // every group was delivered; the next request ends the loop
    | FailsInLast(error: Error) // consuming the last group raises `error`
    | FailsAfter(error: Error)  // asking for the group after the last one raises `error`

  datatype Grouped = Grouped(groups: seq<seq<Row>>, keys: seq<Key>, end: GroupEnd)

  ghost predicate WellFormed(g: Grouped)
  {
    && |g.groups| == |g.keys|
    && (g.end.FailsInLast? ==> |g.groups| > 0)
  }

  /** The key of group i is not below the key of group i - 1. */
  predicate AscendsAt(ks: seq<Key>, i: int)
  {
    0 < i < |ks| && CompareKeys(ks[i - 1], ks[i]) <= 0
  }

  /** The key of group i is above the key of group i - 1. */
  predicate RisesAt(ks: seq<Key>, i: int)
  {
    0 < i < |ks| && CompareKeys(ks[i - 1], ks[i]) < 0
  }

  /** Run i starts with a key other than the one run i - 1 starts with. */
  predicate NewKeyAt(gs: seq<seq<Row>>, keys: seq<string>, i: int)
  {
    0 < i < |gs| && gs[i - 1] != [] && gs[i] != [] && KeyOf(gs[i - 1][0], keys) != KeyOf(gs[i][0], keys)
  }

  /** Keys strictly increase from group to group. */
  ghost predicate StrictlyIncreasing(ks: seq<Key>)
  {
    forall i, j :: 0 <= i < j < |ks| ==> CompareKeys(ks[i], ks[j]) < 0
  }

  /** Every row of group i carries the key fields, with values `ks[i]`. */
  ghost predicate Homogeneous(groups: seq<seq<Row>>, ks: seq<Key>, keys: seq<string>)
    requires |groups| == |ks|
  {
    forall i, r :: 0 <= i < |groups| && r in groups[i] ==> HasFields(r, keys) && KeyOf(r, keys) == ks[i]
  }

  /**
   * The rows groupby reads before it meets a row lacking a key field (then it
   * raises KeyError) or the end of the stream (then the stream's own failure).
   */
  function ReadKeyed(rows: seq<Row>, keys: seq<string>, failure: Option<Error>): (r: Stream)
    ensures |r.rows| <= |rows| && r.rows == rows[..|r.rows|]
    ensures forall i :: 0 <= i < |r.rows| ==> HasFields(r.rows[i], keys)
    ensures |r.rows| == |rows| ==> r.failure == failure
    ensures |r.rows| < |rows| ==>
              && FirstMissing(rows[|r.rows|], keys).Some?
              && r.failure == Some(KeyError(FirstMissing(rows[|r.rows|], keys).value))
  {
    if rows == [] then Stream([], failure)
    else match FirstMissing(rows[0], keys)
      case Some(f) => Stream([], Some(KeyError(f)))
      case None =>
        var rest := ReadKeyed(rows[1..], keys, failure);
        assert rows == [rows[0]] + rows[1..];
        Prepend([rows[0]], rest)
  }

  /** The number of leading rows whose key is `k`. */
  function RunLength(rows: seq<Row>, keys: seq<string>, k: Key): (n: nat)
    ensures n <= |rows|
    ensures forall i :: 0 <= i < n ==> KeyOf(rows[i], keys) == k
    ensures n < |rows| ==> KeyOf(rows[n], keys) != k
  {
    if rows == [] || KeyOf(rows[0], keys) != k then 0
    else 1 + RunLength(rows[1..], keys, k)
  }

  /**
   * The maximal runs of consecutive rows with equal keys: together they are
   * the rows, none is empty, each has one key, and neighbours differ in key.
   */
  function Runs(rows: seq<Row>, keys: seq<string>): (gs: seq<seq<Row>>)
    ensures Flatten(gs) == rows
    ensures forall i :: 0 <= i < |gs| ==> |gs[i]| > 0
    ensures forall i, r :: 0 <= i < |gs| && r in gs[i] ==> KeyOf(r, keys) == KeyOf(gs[i][0], keys)
    ensures forall i :: 0 < i < |gs| ==> NewKeyAt(gs, keys, i)
    decreases |rows|
  {
    if rows == [] then []
    else
      var n := RunLength(rows, keys, KeyOf(rows[0], keys));
      var rest := Runs(rows[n..], keys);
      ConsRun(rows, keys, n, rest);
      [rows[..n]] + rest
  }

  /** A first run of n rows with one key, followed by the runs of the remaining rows. */
  lemma ConsRun(rows: seq<Row>, keys: seq<string>, n: nat, rest: seq<seq<Row>>)
    requires 0 < n <= |rows|
    requires forall i :: 0 <= i < n ==> KeyOf(rows[i], keys) == KeyOf(rows[0], keys)
    requires n < |rows| ==> KeyOf(rows[n], keys) != KeyOf(rows[0], keys)
    requires Flatten(rest) == rows[n..]
    requires forall i :: 0 <= i < |rest| ==> |rest[i]| > 0
    requires forall i, r :: 0 <= i < |rest| && r in rest[i] ==> KeyOf(r, keys) == KeyOf(rest[i][0], keys)
    requires forall i :: 0 < i < |rest| ==> NewKeyAt(rest, keys, i)
    ensures var gs := [rows[..n]] + rest;
      && Flatten(gs) == rows
      && (forall i :: 0 <= i < |gs| ==> |gs[i]| > 0)
      && (forall i, r :: 0 <= i < |gs| && r in gs[i] ==> KeyOf(r, keys) == KeyOf(gs[i][0], keys))
      && (forall i :: 0 < i < |gs| ==> NewKeyAt(gs, keys, i))
  {
    var gs := [rows[..n]] + rest;
    assert gs[1..] == rest;
    assert rows == rows[..n] + rows[n..];
    forall i, r | 0 <= i < |gs| && r in gs[i]
      ensures KeyOf(r, keys) == KeyOf(gs[i][0], keys)
    {
      if i > 0 { assert gs[i] == rest[i - 1]; }
    }
    assert rest != [] ==> rest[0][0] == rows[n] by {
      if rest != [] { assert Flatten(rest) == rest[0] + Flatten(rest[1..]); }
    }
    forall i | 0 < i < |gs|
      ensures NewKeyAt(gs, keys, i)
    {
      if i > 1 {
        assert NewKeyAt(rest, keys, i - 1);
        assert gs[i - 1] == rest[i - 2] && gs[i] == rest[i - 1];
      }
    }
  }

  /** The key of each group: the key of its first row. */
  function GroupKeys(gs: seq<seq<Row>>, keys: seq<string>): (ks: seq<Key>)
    requires forall i :: 0 <= i < |gs| ==> |gs[i]| > 0
    ensures |ks| == |gs|
    ensures forall i :: 0 <= i < |gs| ==> ks[i] == KeyOf(gs[i][0], keys)
  {
    seq(|gs|, i requires 0 <= i < |gs| => KeyOf(gs[i][0], keys))
  }

  /** The first group index i >= `from` whose key is smaller than the previous group's. */
  function FirstDescent(ks: seq<Key>, from: nat): (d: nat)
    requires 1 <= from
    ensures from <= d || d == |ks|
    ensures d <= |ks| || d == from
    ensures forall i :: from <= i < d && i < |ks| ==> AscendsAt(ks, i)
    ensures d < |ks| ==> CompareKeys(ks[d - 1], ks[d]) > 0
    decreases |ks| - from
  {
    if from >= |ks| then |ks|
    else if CompareKeys(ks[from - 1], ks[from]) > 0 then from
    else FirstDescent(ks, from + 1)
  }

  /** What `_safe_groupby(rows, keys)` delivers to its consumer. */
  function GroupBy(s: Stream, keys: seq<string>): (g: Grouped)
  {
    if keys == [] then
      // the whole stream is handed over as one group
      Grouped([s.rows], [[]], if s.failure.Some? then FailsInLast(s.failure.value) else Exhausted)
    else
      var read := ReadKeyed(s.rows, keys, s.failure);
      if read.rows == [] then
        // `next(groups)` on an empty stream: StopIteration becomes RuntimeError
        Grouped([], [], FailsAfter(if read.failure.Some? then read.failure.value else RuntimeError))
      else GroupRuns(read, keys)
  }

  /** The error that consuming group i raises at its end, if any. */
  function CutOf(gr: Grouped, i: nat): Option<Error>
  {
    if gr.end.FailsInLast? && i + 1 == |gr.groups| then Some(gr.end.error) else None
  }

  /** Grouping of rows that all carry the key fields, followed by `read.failure`. */
  function GroupRuns(read: Stream, keys: seq<string>): (g: Grouped)
  {
    var gs := Runs(read.rows, keys);
    var ks := GroupKeys(gs, keys);
    var d := FirstDescent(ks, 1);
    if d < |gs| then Grouped(gs[..d], ks[..d], FailsAfter(ValueError))
    else Grouped(gs, ks, if read.failure.Some? then FailsInLast(read.failure.value) else Exhausted)
  }

  /* ---------- properties ---------- */

  lemma {:induction false} NoDescentIncreasing(ks: seq<Key>)
    requires forall i :: 0 < i < |ks| ==> RisesAt(ks, i)
    ensures StrictlyIncreasing(ks)
  {
    if |ks| > 1 {
      forall i | 0 < i < |ks| - 1 ensures RisesAt(ks[1..], i) {
        assert RisesAt(ks, i + 1);
      }
      NoDescentIncreasing(ks[1..]);
      assert RisesAt(ks, 1);
      forall j | 0 < j < |ks| ensures CompareKeys(ks[0], ks[j]) < 0 {
        if j > 1 {
          assert CompareKeys(ks[1], ks[j]) < 0 by { assert ks[1..][0] == ks[1] && ks[1..][j - 1] == ks[j]; }
          CompareKeysTrans(ks[0], ks[1], ks[j]);
        }
      }
      forall i, j | 0 < i < j < |ks| ensures CompareKeys(ks[i], ks[j]) < 0 {
        assert ks[1..][i - 1] == ks[i] && ks[1..][j - 1] == ks[j];
      }
    }
  }

  /**
   * Whatever the input, the groups delivered are non-empty (for a non-empty
   * key list), carry their key, come in strictly increasing key order, and
   * together are a prefix of the input rows.
   */
  lemma GroupByShape(s: Stream, keys: seq<string>)
    ensures WellFormed(GroupBy(s, keys))
    ensures StrictlyIncreasing(GroupBy(s, keys).keys)
    ensures Homogeneous(GroupBy(s, keys).groups, GroupBy(s, keys).keys, keys)
    ensures keys != [] ==> forall i :: 0 <= i < |GroupBy(s, keys).groups| ==> |GroupBy(s, keys).groups[i]| > 0
    ensures var f := Flatten(GroupBy(s, keys).groups); |f| <= |s.rows| && f == s.rows[..|f|]
  {
    if keys == [] {
      var g := GroupBy(s, keys);
      assert Flatten(g.groups) == s.rows by { assert g.groups[1..] == []; }
      assert s.rows[..|s.rows|] == s.rows;
    } else {
      var read := ReadKeyed(s.rows, keys, s.failure);
      if read.rows != [] {
        KeyedShape(s, keys, read);
      }
    }
  }

  lemma KeyedShape(s: Stream, keys: seq<string>, read: Stream)
    requires keys != [] && read == ReadKeyed(s.rows, keys, s.failure) && read.rows != []
    ensures GroupBy(s, keys) == GroupRuns(read, keys)
    ensures WellFormed(GroupRuns(read, keys))
    ensures StrictlyIncreasing(GroupRuns(read, keys).keys)
    ensures Homogeneous(GroupRuns(read, keys).groups, GroupRuns(read, keys).keys, keys)
    ensures forall i :: 0 <= i < |GroupRuns(read, keys).groups| ==> |GroupRuns(read, keys).groups[i]| > 0
    ensures var f := Flatten(GroupRuns(read, keys).groups); |f| <= |s.rows| && f == s.rows[..|f|]
  {
    GroupRunsShape(read, keys);
    PrefixOfPrefix(Flatten(GroupRuns(read, keys).groups), read.rows, s.rows);
  }

  lemma PrefixOfPrefix(f: seq<Row>, a: seq<Row>, b: seq<Row>)
    requires |f| <= |a| && f == a[..|f|]
    requires |a| <= |b| && a == b[..|a|]
    ensures f == b[..|f|]
  {
  }

  /** The groups delivered for a keyed read are the first n runs, for some n. */
  lemma GroupRunsPrefix(read: Stream, keys: seq<string>) returns (n: nat)
    requires read.rows != []
    ensures 0 < n <= |Runs(read.rows, keys)|
    ensures GroupRuns(read, keys).groups == Runs(read.rows, keys)[..n]
    ensures GroupRuns(read, keys).keys == GroupKeys(Runs(read.rows, keys), keys)[..n]
    ensures forall i :: 0 < i < n ==> AscendsAt(GroupKeys(Runs(read.rows, keys), keys), i)
  {
    var gs := Runs(read.rows, keys);
    var ks := GroupKeys(gs, keys);
    var d := FirstDescent(ks, 1);
    assert gs != [] by { assert Flatten(gs) != []; }
    var g := GroupRuns(read, keys);
    n := if d < |gs| then d else |gs|;
    assert g.groups == gs[..n];
    assert g.keys == ks[..n];
  }

  lemma GroupRunsShape(read: Stream, keys: seq<string>)
    requires read.rows != []
    requires forall i :: 0 <= i < |read.rows| ==> HasFields(read.rows[i], keys)
    ensures WellFormed(GroupRuns(read, keys))
    ensures StrictlyIncreasing(GroupRuns(read, keys).keys)
    ensures Homogeneous(GroupRuns(read, keys).groups, GroupRuns(read, keys).keys, keys)
    ensures forall i :: 0 <= i < |GroupRuns(read, keys).groups| ==> |GroupRuns(read, keys).groups[i]| > 0
    ensures var f := Flatten(GroupRuns(read, keys).groups); |f| <= |read.rows| && f == read.rows[..|f|]
  {
    GroupRunsOrder(read, keys);
    GroupRunsContents(read, keys);
  }

  lemma GroupRunsOrder(read: Stream, keys: seq<string>)
    requires read.rows != []
    requires forall i :: 0 <= i < |read.rows| ==> HasFields(read.rows[i], keys)
    ensures WellFormed(GroupRuns(read, keys))
    ensures StrictlyIncreasing(GroupRuns(read, keys).keys)
    ensures Homogeneous(GroupRuns(read, keys).groups, GroupRuns(read, keys).keys, keys)
  {
    GroupRunsIncreasing(read, keys);
    GroupRunsHomogeneous(read, keys);
  }

  lemma GroupRunsIncreasing(read: Stream, keys: seq<string>)
    requires read.rows != []
    ensures WellFormed(GroupRuns(read, keys))
    ensures StrictlyIncreasing(GroupRuns(read, keys).keys)
  {
    var n := GroupRunsPrefix(read, keys);
    var gs := Runs(read.rows, keys);
    PrefixIncreasing(gs, GroupKeys(gs, keys), keys, n);
  }

  lemma GroupRunsHomogeneous(read: Stream, keys: seq<string>)
    requires read.rows != []
    requires forall i :: 0 <= i < |read.rows| ==> HasFields(read.rows[i], keys)
    ensures |GroupRuns(read, keys).groups| == |GroupRuns(read, keys).keys|
    ensures Homogeneous(GroupRuns(read, keys).groups, GroupRuns(read, keys).keys, keys)
  {
    var n := GroupRunsPrefix(read, keys);
    PrefixHomogeneous(read.rows, keys, n);
  }

  lemma GroupRunsContents(read: Stream, keys: seq<string>)
    requires read.rows != []
    requires forall i :: 0 <= i < |read.rows| ==> HasFields(read.rows[i], keys)
    ensures forall i :: 0 <= i < |GroupRuns(read, keys).groups| ==> |GroupRuns(read, keys).groups[i]| > 0
    ensures var f := Flatten(GroupRuns(read, keys).groups); |f| <= |read.rows| && f == read.rows[..|f|]
  {
    var n := GroupRunsPrefix(read, keys);
    var gs := Runs(read.rows, keys);
    FlattenPrefix(gs, n);
    forall i | 0 <= i < n ensures |gs[..n][i]| > 0 { assert gs[..n][i] == gs[i]; }
  }

  /** The first n runs of rows that carry the key fields carry their group's key. */
  lemma PrefixHomogeneous(rows: seq<Row>, keys: seq<string>, n: nat)
    requires forall i :: 0 <= i < |rows| ==> HasFields(rows[i], keys)
    requires n <= |Runs(rows, keys)|
    ensures var gs := Runs(rows, keys); Homogeneous(gs[..n], GroupKeys(gs, keys)[..n], keys)
  {
    var gs := Runs(rows, keys);
    var ks := GroupKeys(gs, keys);
    RunsHaveFields(rows, keys);
    forall i, r | 0 <= i < n && r in gs[..n][i]
      ensures HasFields(r, keys) && KeyOf(r, keys) == ks[..n][i]
    {
      assert gs[..n][i] == gs[i];
    }
  }

  lemma PrefixIncreasing(gs: seq<seq<Row>>, ks: seq<Key>, keys: seq<string>, n: nat)
    requires n <= |gs| == |ks|
    requires forall i :: 0 < i < |gs| ==> NewKeyAt(gs, keys, i)
    requires forall i :: 0 <= i < |gs| ==> |gs[i]| > 0 && ks[i] == KeyOf(gs[i][0], keys)
    requires forall i :: 0 < i < n ==> AscendsAt(ks, i)
    ensures StrictlyIncreasing(ks[..n])
  {
    forall i | 0 < i < n ensures RisesAt(ks[..n], i) {
      assert AscendsAt(ks, i) && NewKeyAt(gs, keys, i);
      assert ks[i - 1] == KeyOf(gs[i - 1][0], keys);
      CompareKeysProps(ks[i - 1], ks[i]);
    }
    NoDescentIncreasing(ks[..n]);
  }

  lemma RunsHaveFields(rows: seq<Row>, keys: seq<string>)
    requires forall i :: 0 <= i < |rows| ==> HasFields(rows[i], keys)
    ensures var gs := Runs(rows, keys);
      forall i, r :: 0 <= i < |gs| && r in gs[i] ==> HasFields(r, keys)
  {
    var gs := Runs(rows, keys);
    forall i, r | 0 <= i < |gs| && r in gs[i] ensures HasFields(r, keys) {
      FlattenMember(gs, i, r);
    }
  }

  lemma FlattenPrefix(gs: seq<seq<Row>>, n: nat)
    requires n <= |gs|
    ensures var f := Flatten(gs[..n]); |f| <= |Flatten(gs)| && f == Flatten(gs)[..|f|]
  {
    assert gs == gs[..n] + gs[n..];
    FlattenAppend(gs[..n], gs[n..]);
  }

  lemma {:induction false} FlattenMember(gs: seq<seq<Row>>, i: nat, r: Row)
    requires i < |gs| && r in gs[i]
    ensures r in Flatten(gs)
  {
    if i > 0 { FlattenMember(gs[1..], i - 1, r); }
  }

  lemma SortedDrop(rows: seq<Row>, keys: seq<string>, n: nat)
    requires n <= |rows| && SortedBy(rows, keys, false)
    ensures SortedBy(rows[n..], keys, false)
  {
    forall i, j | 0 <= i < j < |rows[n..]|
      ensures !Precedes(KeyOf(rows[n..][j], keys), KeyOf(rows[n..][i], keys), false)
    {
      assert rows[n..][j] == rows[n + j] && rows[n..][i] == rows[n + i];
    }
  }

  lemma FirstOfRuns(rows: seq<Row>, keys: seq<string>)
    requires rows != []
    ensures Runs(rows, keys) != [] && Runs(rows, keys)[0][0] == rows[0]
  {
    var gs := Runs(rows, keys);
    assert Flatten(gs) == gs[0] + Flatten(gs[1..]);
  }

  /** Keys of the runs of non-decreasing rows never decrease. */
  lemma {:induction false} RunsOfSorted(rows: seq<Row>, keys: seq<string>)
    requires SortedBy(rows, keys, false)
    ensures forall i :: 0 < i < |Runs(rows, keys)| ==> AscendsAt(GroupKeys(Runs(rows, keys), keys), i)
    decreases |rows|
  {
    if rows != [] {
      var n := RunLength(rows, keys, KeyOf(rows[0], keys));
      var gs := Runs(rows, keys);
      var rest := Runs(rows[n..], keys);
      assert gs == [rows[..n]] + rest;
      SortedDrop(rows, keys, n);
      RunsOfSorted(rows[n..], keys);
      var ks, kr := GroupKeys(gs, keys), GroupKeys(rest, keys);
      if rest != [] {
        FirstOfRuns(rows[n..], keys);
        assert rows[n..][0] == rows[n];
        assert !Precedes(KeyOf(rows[n], keys), KeyOf(rows[0], keys), false);
        CompareKeysProps(KeyOf(rows[n], keys), KeyOf(rows[0], keys));
        assert gs[0][0] == rows[0] && gs[1][0] == rows[n];
        assert AscendsAt(ks, 1);
      }
      forall i | 1 < i < |gs|
        ensures AscendsAt(ks, i)
      {
        assert AscendsAt(kr, i - 1);
        assert gs[i - 1] == rest[i - 2] && gs[i] == rest[i - 1];
        assert ks[i - 1] == kr[i - 2] && ks[i] == kr[i - 1];
      }
    }
  }

  /** Homogeneous groups with non-decreasing keys flatten to sorted rows. */
  lemma {:induction false} FlattenSorted(gs: seq<seq<Row>>, ks: seq<Key>, keys: seq<string>)
    requires |gs| == |ks|
    requires forall i, r :: 0 <= i < |gs| && r in gs[i] ==> KeyOf(r, keys) == ks[i]
    requires forall i :: 0 < i < |ks| ==> AscendsAt(ks, i)
    ensures SortedBy(Flatten(gs), keys, false)
  {
    if gs != [] {
      var rest := Flatten(gs[1..]);
      forall i | 0 < i < |ks| - 1 ensures AscendsAt(ks[1..], i) {
        assert AscendsAt(ks, i + 1);
      }
      FlattenSorted(gs[1..], ks[1..], keys);
      forall r | r in rest ensures CompareKeys(ks[0], KeyOf(r, keys)) <= 0 {
        var i := FlattenIndex(gs[1..], r);
        ChainLe(ks, i + 1);
      }
      var f := gs[0] + rest;
      forall i, j | 0 <= i < j < |f|
        ensures !Precedes(KeyOf(f[j], keys), KeyOf(f[i], keys), false)
      {
        var a, b := KeyOf(f[i], keys), KeyOf(f[j], keys);
        if j < |gs[0]| {
          assert f[i] in gs[0] && f[j] in gs[0];
          CompareKeysProps(a, b);
        } else if i < |gs[0]| {
          assert f[i] in gs[0] && f[j] in rest;
          CompareKeysProps(a, b);
        } else {
          assert f[i] == rest[i - |gs[0]|] && f[j] == rest[j - |gs[0]|];
        }
      }
    }
  }

  lemma {:induction false} FlattenIndex(gs: seq<seq<Row>>, r: Row) returns (i: nat)
    requires r in Flatten(gs)
    ensures i < |gs| && r in gs[i]
  {
    if r in gs[0] { i := 0; }
    else {
      var j := FlattenIndex(gs[1..], r);
      i := j + 1;
    }
  }

  lemma {:induction false} ChainLe(ks: seq<Key>, j: nat)
    requires j < |ks|
    requires forall i :: 0 < i < |ks| ==> AscendsAt(ks, i)
    ensures CompareKeys(ks[0], ks[j]) <= 0
  {
    if j == 0 { CompareKeysProps(ks[0], ks[0]); }
    else {
      ChainLe(ks, j - 1);
      assert AscendsAt(ks, j);
      CompareKeysTrans(ks[0], ks[j - 1], ks[j]);
    }
  }

  /**
   * On a clean stream whose rows all carry the key fields, grouping raises
   * ValueError exactly when the rows are not sorted by key; otherwise it
   * delivers every maximal run, in order, and ends normally.
   */
  lemma GroupBySorted(s: Stream, keys: seq<string>)
    requires keys != [] && s.rows != [] && s.failure.None?
    requires forall i :: 0 <= i < |s.rows| ==> HasFields(s.rows[i], keys)
    ensures GroupBy(s, keys).end == FailsAfter(ValueError) <==> !SortedBy(s.rows, keys, false)
    ensures SortedBy(s.rows, keys, false) ==>
              GroupBy(s, keys).groups == Runs(s.rows, keys) && GroupBy(s, keys).end == Exhausted
  {
    var read := ReadKeyed(s.rows, keys, s.failure);
    assert read.rows == s.rows;
    var gs := Runs(s.rows, keys);
    var ks := GroupKeys(gs, keys);
    var d := FirstDescent(ks, 1);
    if SortedBy(s.rows, keys, false) {
      RunsOfSorted(s.rows, keys);
      assert d < |gs| ==> AscendsAt(ks, d);
    } else if d >= |gs| {
      FlattenSorted(gs, ks, keys);
    }
  }

  /** With a non-empty key list an empty clean stream is not an empty result: it fails. */
  lemma GroupByEmpty(keys: seq<string>)
    requires keys != []
    ensures GroupBy(Stream([], None), keys) == Grouped([], [], FailsAfter(RuntimeError))
  {
  }

  /** With no key fields the whole stream is a single group. */
  lemma GroupByNoKeys(s: Stream)
    ensures GroupBy(s, []).groups == [s.rows]
    ensures GroupBy(s, []).end == (if s.failure.Some? then FailsInLast(s.failure.value) else Exhausted)
  {
  }
}
