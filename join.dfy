/**
 * The Join operation: a merge of two key-grouped streams that hands each pair of
 * groups with equal keys, and each group without a partner, to the joiner.
 */
module Join {
  import opened Rows
  import opened Sorting
  import opened Grouping
  import opened Joiners

  /** What `next(groups, (None, None))` hands back. */
  datatype Pulled =
    | Got(key: Key, group: Stream)   // a group and its key
    | Finished                       // the default `(None, None)`
    | Raise(error: Error)            // the grouping generator raised

  /** Pull group i of a grouping. */
  function Pull(g: Grouped, i: nat): (p: Pulled)
    requires |g.keys| == |g.groups|
    ensures p.Got? <==> i < |g.groups|
    ensures p.Got? ==> p.key == g.keys[i] && p.group.rows == g.groups[i] && p.group.failure == CutOf(g, i)
    ensures p.Finished? <==> i >= |g.groups| && g.end.Exhausted?
  {
    if i < |g.groups| then Got(g.keys[i], Stream(g.groups[i], CutOf(g, i)))
    else if g.end.Exhausted? then Finished
    else Raise(g.end.error)
  }

  /** The joiner's output, followed by `rest` unless the joiner failed. */
  function Then(out: Stream, rest: Stream): (r: Stream)
    ensures out.failure.Some? ==> r == out
    ensures out.failure.None? ==> r.rows == out.rows + rest.rows && r.failure == rest.failure
  {
    if out.failure.Some? then out else Prepend(out.rows, rest)
  }

  function NoRows(): Stream
  {
    Stream([], None)
  }

  /** One round of the loop: the two streams the joiner is given, and which sides advance. */
  datatype Round = Round(left: Stream, right: Stream, nextLeft: bool, nextRight: bool)

  /**
   * The branches of the loop body: equal keys join both groups, otherwise the group
   * with the smaller key (or the only one left) is joined against no rows.
   */
  function Choose(pl: Pulled, pr: Pulled): (m: Round)
    requires pl.Got? || pr.Got?
    ensures m.nextLeft ==> pl.Got? && m.left == pl.group
    ensures m.nextRight ==> pr.Got? && m.right == pr.group
    ensures !m.nextLeft ==> m.left == NoRows()
    ensures !m.nextRight ==> m.right == NoRows()
    ensures m.nextLeft || m.nextRight
    ensures m.nextLeft && m.nextRight <==> pl.Got? && pr.Got? && pl.key == pr.key
  {
    if pl.Got? && pr.Got? then
      if pl.key == pr.key then Round(pl.group, pr.group, true, true)
      else if CompareKeys(pl.key, pr.key) > 0 then Round(NoRows(), pr.group, false, true)
      else Round(pl.group, NoRows(), true, false)
    else if pl.Got? then Round(pl.group, NoRows(), true, false)
    else Round(NoRows(), pr.group, false, true)
  }

  /**
   * The join from the state where group i of the left grouping and group k of the
   * right one have just been pulled (the left one first).
   */
  function JoinFrom(j: Joiner, keys: seq<string>, L: Grouped, R: Grouped, i: nat, k: nat): (r: Stream)
    requires |L.keys| == |L.groups| && |R.keys| == |R.groups|
    requires i <= |L.groups| && k <= |R.groups|
    decreases |L.groups| - i + |R.groups| - k
  {
    var pl := Pull(L, i);
    var pr := Pull(R, k);
    if pl.Raise? then Stream([], Some(pl.error))
    else if pr.Raise? then Stream([], Some(pr.error))
    else if pl.Finished? && pr.Finished? then NoRows()
    else
      var m := Choose(pl, pr);
      Then(JoinerRun(j, keys, m.left, m.right), JoinFrom(j, keys, L, R, if m.nextLeft then i + 1 else i, if m.nextRight then k + 1 else k))
  }

  lemma PrependTwice(a: seq<Row>, b: seq<Row>, s: Stream)
    ensures Prepend(a, Prepend(b, s)) == Prepend(a + b, s)
  {
    assert a + (b + s.rows) == (a + b) + s.rows;
  }

  /** One round of the loop, unfolded. */
  lemma Advance(j: Joiner, keys: seq<string>, L: Grouped, R: Grouped, i: nat, k: nat)
    requires |L.keys| == |L.groups| && |R.keys| == |R.groups|
    requires i <= |L.groups| && k <= |R.groups|
    requires Pull(L, i).Got? || Pull(R, k).Got?
    requires !Pull(L, i).Raise? && !Pull(R, k).Raise?
    ensures var m := Choose(Pull(L, i), Pull(R, k));
            JoinFrom(j, keys, L, R, i, k)
            == Then(JoinerRun(j, keys, m.left, m.right), JoinFrom(j, keys, L, R, if m.nextLeft then i + 1 else i, if m.nextRight then k + 1 else k))
  {
  }

  /** Appending one round's part to the rows emitted so far. */
  lemma RoundThen(whole: Stream, rows: seq<Row>, part: Stream, rest: Stream)
    requires whole == Prepend(rows, Then(part, rest))
    ensures part.failure.Some? ==> whole == Stream(rows + part.rows, part.failure)
    ensures part.failure.None? ==> whole == Prepend(rows + part.rows, rest)
  {
    if part.failure.None? {
      PrependTwice(rows, part.rows, rest);
    }
  }

  /** A side whose next pull raises ends the join with that error and no further rows. */
  lemma RaiseStops(j: Joiner, keys: seq<string>, L: Grouped, R: Grouped, i: nat, k: nat)
    requires |L.keys| == |L.groups| && |R.keys| == |R.groups|
    requires i <= |L.groups| && k <= |R.groups|
    ensures Pull(L, i).Raise? ==> JoinFrom(j, keys, L, R, i, k) == Stream([], Some(Pull(L, i).error))
    ensures !Pull(L, i).Raise? && Pull(R, k).Raise? ==> JoinFrom(j, keys, L, R, i, k) == Stream([], Some(Pull(R, k).error))
  {
  }

  /**
   * One round of the loop, as the loop sees it: with `rows` emitted so far, the
   * round's part either ends the join with its error, or is emitted and the join
   * goes on from the advanced positions, where a raising pull ends it.
   */
  lemma NextRound(j: Joiner, keys: seq<string>, L: Grouped, R: Grouped, i: nat, k: nat,
                  rows: seq<Row>, whole: Stream)
    requires |L.keys| == |L.groups| && |R.keys| == |R.groups|
    requires i <= |L.groups| && k <= |R.groups|
    requires Pull(L, i).Got? || Pull(R, k).Got?
    requires !Pull(L, i).Raise? && !Pull(R, k).Raise?
    requires whole == Prepend(rows, JoinFrom(j, keys, L, R, i, k))
    ensures var m := Choose(Pull(L, i), Pull(R, k));
            var part := JoinerRun(j, keys, m.left, m.right);
            var i', k' := if m.nextLeft then i + 1 else i, if m.nextRight then k + 1 else k;
            && i' <= |L.groups| && k' <= |R.groups|
            && (part.failure.Some? ==> whole == Stream(rows + part.rows, part.failure))
            && (part.failure.None? ==> whole == Prepend(rows + part.rows, JoinFrom(j, keys, L, R, i', k')))
            && (part.failure.None? && Pull(L, i').Raise? ==>
                  whole == Stream(rows + part.rows, Some(Pull(L, i').error)))
            && (part.failure.None? && !Pull(L, i').Raise? && Pull(R, k').Raise? ==>
                  whole == Stream(rows + part.rows, Some(Pull(R, k').error)))
  {
    var m := Choose(Pull(L, i), Pull(R, k));
    Advance(j, keys, L, R, i, k);
    var i', k' := if m.nextLeft then i + 1 else i, if m.nextRight then k + 1 else k;
    RoundThen(whole, rows, JoinerRun(j, keys, m.left, m.right), JoinFrom(j, keys, L, R, i', k'));
    RaiseStops(j, keys, L, R, i', k');
  }

  /** The Join operation on a left stream `a` and a right stream `b`. */
  function JoinSpec(j: Joiner, keys: seq<string>, a: Stream, b: Stream): Stream
  {
    GroupByShape(a, keys);
    GroupByShape(b, keys);
    JoinFrom(j, keys, GroupBy(a, keys), GroupBy(b, keys), 0, 0)
  }

  /** `Join.__call__`: group both streams, then merge the groupings. */
  method JoinStreams(j: Joiner, keys: seq<string>, a: Stream, b: Stream) returns (out: Stream)
    ensures out == JoinSpec(j, keys, a, b)
  {
    var L := GroupBy(a, keys);
    var R := GroupBy(b, keys);
    GroupByShape(a, keys);
    GroupByShape(b, keys);
    out := MergeGroups(j, keys, L, R);
  }

  /** The `while True` loop of `Join.__call__`. */
  method MergeGroups(j: Joiner, keys: seq<string>, L: Grouped, R: Grouped) returns (out: Stream)
    requires |L.keys| == |L.groups| && |R.keys| == |R.groups|
    ensures out == JoinFrom(j, keys, L, R, 0, 0)
  {
    ghost var whole := JoinFrom(j, keys, L, R, 0, 0);
    var i, k := 0, 0;
    var pl := Pull(L, i);
    if pl.Raise? {
      return Stream([], Some(pl.error));
    }
    var pr := Pull(R, k);
    if pr.Raise? {
      return Stream([], Some(pr.error));
    }
    var rows: seq<Row> := [];
    while pl.Got? || pr.Got?
      invariant i <= |L.groups| && k <= |R.groups|
      invariant pl == Pull(L, i) && pr == Pull(R, k) && !pl.Raise? && !pr.Raise?
      invariant whole == Prepend(rows, JoinFrom(j, keys, L, R, i, k))
      decreases |L.groups| - i + |R.groups| - k
    {
      var m := Choose(pl, pr);
      var part := JoinerRun(j, keys, m.left, m.right);
      NextRound(j, keys, L, R, i, k, rows, whole);
      if part.failure.Some? {
        return Stream(rows + part.rows, part.failure);
      }
      rows := rows + part.rows;
      if m.nextLeft {
        i := i + 1;
        pl := Pull(L, i);
      }
      if m.nextRight {
        k := k + 1;
        pr := Pull(R, k);
      }
      // the left side is pulled first, so its error wins when both raise
      if pl.Raise? {
        return Stream(rows, Some(pl.error));
      }
      if pr.Raise? {
        return Stream(rows, Some(pr.error));
      }
    }
    out := Stream(rows, None);
  }

  /* ---------- errors ---------- */

  /**
   * The join fails exactly when one of the groupings does not end cleanly, and then
   * with that grouping's error: no error is swallowed and none is invented.
   */
  lemma {:induction false} JoinFromFailure(j: Joiner, keys: seq<string>, L: Grouped, R: Grouped, i: nat, k: nat)
    requires |L.keys| == |L.groups| && |R.keys| == |R.groups|
    requires i <= |L.groups| && k <= |R.groups|
    ensures JoinFrom(j, keys, L, R, i, k).failure.None? <==> L.end.Exhausted? && R.end.Exhausted?
    ensures JoinFrom(j, keys, L, R, i, k).failure.Some? ==>
              || (!L.end.Exhausted? && JoinFrom(j, keys, L, R, i, k).failure.value == L.end.error)
              || (!R.end.Exhausted? && JoinFrom(j, keys, L, R, i, k).failure.value == R.end.error)
    decreases |L.groups| - i + |R.groups| - k
  {
    var pl := Pull(L, i);
    var pr := Pull(R, k);
    if !pl.Raise? && !pr.Raise? && (pl.Got? || pr.Got?) {
      var m := Choose(pl, pr);
      JoinFromFailure(j, keys, L, R, if m.nextLeft then i + 1 else i, if m.nextRight then k + 1 else k);
    }
  }

  /* ---------- the schedule of a clean join ---------- */

  /** Which groups one round of the loop hands to the joiner. */
  datatype Visit = Both(left: nat, right: nat) | LeftOnly(left: nat) | RightOnly(right: nat)

  /** The rounds of the merge over the key sequences `lk` and `rk`, from groups i and k on. */
  function Visits(lk: seq<Key>, rk: seq<Key>, i: nat, k: nat): (vs: seq<Visit>)
    requires i <= |lk| && k <= |rk|
    decreases |lk| - i + |rk| - k
  {
    if i < |lk| && k < |rk| then
      if lk[i] == rk[k] then [Both(i, k)] + Visits(lk, rk, i + 1, k + 1)
      else if CompareKeys(lk[i], rk[k]) > 0 then [RightOnly(k)] + Visits(lk, rk, i, k + 1)
      else [LeftOnly(i)] + Visits(lk, rk, i + 1, k)
    else if i < |lk| then [LeftOnly(i)] + Visits(lk, rk, i + 1, k)
    else if k < |rk| then [RightOnly(k)] + Visits(lk, rk, i, k + 1)
    else []
  }

  /** The indices i, i+1, ..., n-1. */
  function Range(i: nat, n: nat): seq<nat>
    decreases n - i
  {
    if i < n then [i] + Range(i + 1, n) else []
  }

  function LeftIndices(vs: seq<Visit>): seq<nat>
  {
    if vs == [] then []
    else (if vs[0].RightOnly? then [] else [vs[0].left]) + LeftIndices(vs[1..])
  }

  function RightIndices(vs: seq<Visit>): seq<nat>
  {
    if vs == [] then []
    else (if vs[0].LeftOnly? then [] else [vs[0].right]) + RightIndices(vs[1..])
  }

  /** Every group of either side is visited exactly once, in the order of the grouping. */
  lemma {:induction false} VisitsCover(lk: seq<Key>, rk: seq<Key>, i: nat, k: nat)
    requires i <= |lk| && k <= |rk|
    ensures LeftIndices(Visits(lk, rk, i, k)) == Range(i, |lk|)
    ensures RightIndices(Visits(lk, rk, i, k)) == Range(k, |rk|)
    decreases |lk| - i + |rk| - k
  {
    var vs := Visits(lk, rk, i, k);
    if vs != [] {
      var i', k' := if vs[0].RightOnly? then i else i + 1, if vs[0].LeftOnly? then k else k + 1;
      assert vs[1..] == Visits(lk, rk, i', k');
      VisitsCover(lk, rk, i', k');
    }
  }

  /** Keys in a strictly increasing sequence grow with the index. */
  lemma Ascending(ks: seq<Key>, x: nat, y: nat)
    requires StrictlyIncreasing(ks) && x <= y < |ks|
    ensures CompareKeys(ks[x], ks[y]) <= 0
    ensures x < y ==> CompareKeys(ks[x], ks[y]) < 0
  {
    CompareKeysProps(ks[x], ks[y]);
  }

  /**
   * A round at or after (i, k) visits groups at or after (i, k): a pair with equal keys,
   * or a group whose key the other side lacks from there on.
   */
  ghost predicate Sound(v: Visit, lk: seq<Key>, rk: seq<Key>, i: nat, k: nat)
  {
    match v
    case Both(x, y) => i <= x < |lk| && k <= y < |rk| && lk[x] == rk[y]
    case LeftOnly(x) => i <= x < |lk| && forall y :: k <= y < |rk| ==> rk[y] != lk[x]
    case RightOnly(y) => k <= y < |rk| && forall x :: i <= x < |lk| ==> lk[x] != rk[y]
  }

  function VisitKey(v: Visit, lk: seq<Key>, rk: seq<Key>): Key
  {
    if v.RightOnly? then (if v.right < |rk| then rk[v.right] else [])
    else if v.left < |lk| then lk[v.left] else []
  }

  /** The first round's key is below every key still to be visited. */
  lemma FirstBelowRest(lk: seq<Key>, rk: seq<Key>, i: nat, k: nat, v: Visit)
    requires StrictlyIncreasing(lk) && StrictlyIncreasing(rk)
    requires i <= |lk| && k <= |rk|
    requires Visits(lk, rk, i, k) != []
    requires var h := Visits(lk, rk, i, k)[0];
             Sound(v, lk, rk, if h.RightOnly? then i else i + 1, if h.LeftOnly? then k else k + 1)
    ensures CompareKeys(VisitKey(Visits(lk, rk, i, k)[0], lk, rk), VisitKey(v, lk, rk)) < 0
  {
    var h := Visits(lk, rk, i, k)[0];
    CompareKeysProps(VisitKey(h, lk, rk), VisitKey(v, lk, rk));
    if i < |lk| && k < |rk| {
      CompareKeysProps(lk[i], rk[k]);
    }
    match v
    case Both(x, y) =>
      if h.RightOnly? {
        Ascending(rk, k, y);
      } else {
        Ascending(lk, i, x);
      }
    case LeftOnly(x) =>
      Ascending(lk, i, x);
      if h.RightOnly? {
        CompareKeysTrans(rk[k], lk[i], lk[x]);
      }
    case RightOnly(y) =>
      Ascending(rk, k, y);
      if h.LeftOnly? {
        CompareKeysTrans(lk[i], rk[k], rk[y]);
      }
  }

  /**
   * With strictly increasing keys on both sides, every round is sound, and the
   * rounds' keys strictly increase.
   */
  lemma {:induction false} VisitsSound(lk: seq<Key>, rk: seq<Key>, i: nat, k: nat)
    requires StrictlyIncreasing(lk) && StrictlyIncreasing(rk)
    requires i <= |lk| && k <= |rk|
    ensures forall t :: 0 <= t < |Visits(lk, rk, i, k)| ==> Sound(Visits(lk, rk, i, k)[t], lk, rk, i, k)
    decreases |lk| - i + |rk| - k
  {
    var vs := Visits(lk, rk, i, k);
    if vs != [] {
      var h := vs[0];
      var i', k' := if h.RightOnly? then i else i + 1, if h.LeftOnly? then k else k + 1;
      var rest := Visits(lk, rk, i', k');
      assert rest == vs[1..];
      VisitsSound(lk, rk, i', k');
      HeadSound(lk, rk, i, k);
      forall t | 0 < t < |vs|
        ensures Sound(vs[t], lk, rk, i, k)
      {
        assert vs[t] == rest[t - 1];
        WidenSound(lk, rk, i, k, vs[t]);
      }
    }
  }

  /** The rounds' keys strictly increase. */
  lemma {:induction false} VisitsAscend(lk: seq<Key>, rk: seq<Key>, i: nat, k: nat)
    requires StrictlyIncreasing(lk) && StrictlyIncreasing(rk)
    requires i <= |lk| && k <= |rk|
    ensures forall s, t :: 0 <= s < t < |Visits(lk, rk, i, k)| ==>
              CompareKeys(VisitKey(Visits(lk, rk, i, k)[s], lk, rk), VisitKey(Visits(lk, rk, i, k)[t], lk, rk)) < 0
    decreases |lk| - i + |rk| - k
  {
    var vs := Visits(lk, rk, i, k);
    if vs != [] {
      var h := vs[0];
      var i', k' := if h.RightOnly? then i else i + 1, if h.LeftOnly? then k else k + 1;
      var rest := Visits(lk, rk, i', k');
      assert rest == vs[1..];
      VisitsAscend(lk, rk, i', k');
      forall s, t | 0 <= s < t < |vs|
        ensures CompareKeys(VisitKey(vs[s], lk, rk), VisitKey(vs[t], lk, rk)) < 0
      {
        if s == 0 {
          HeadBelow(lk, rk, i, k, t);
        } else {
          assert vs[s] == rest[s - 1] && vs[t] == rest[t - 1];
        }
      }
    }
  }

  /** The first round's key is below that of every later round. */
  lemma HeadBelow(lk: seq<Key>, rk: seq<Key>, i: nat, k: nat, t: nat)
    requires StrictlyIncreasing(lk) && StrictlyIncreasing(rk)
    requires i <= |lk| && k <= |rk|
    requires 0 < t < |Visits(lk, rk, i, k)|
    ensures CompareKeys(VisitKey(Visits(lk, rk, i, k)[0], lk, rk), VisitKey(Visits(lk, rk, i, k)[t], lk, rk)) < 0
  {
    var vs := Visits(lk, rk, i, k);
    var h := vs[0];
    var i', k' := if h.RightOnly? then i else i + 1, if h.LeftOnly? then k else k + 1;
    var rest := Visits(lk, rk, i', k');
    assert rest == vs[1..];
    assert vs[t] == rest[t - 1];
    VisitsSound(lk, rk, i', k');
    FirstBelowRest(lk, rk, i, k, vs[t]);
  }

  /** The first round is sound. */
  lemma HeadSound(lk: seq<Key>, rk: seq<Key>, i: nat, k: nat)
    requires StrictlyIncreasing(lk) && StrictlyIncreasing(rk)
    requires i <= |lk| && k <= |rk|
    requires Visits(lk, rk, i, k) != []
    ensures Sound(Visits(lk, rk, i, k)[0], lk, rk, i, k)
  {
    var h := Visits(lk, rk, i, k)[0];
    if i < |lk| && k < |rk| {
      CompareKeysProps(lk[i], rk[k]);
    }
    match h
    case Both(x, y) =>
    case LeftOnly(x) =>
      forall y | k <= y < |rk|
        ensures rk[y] != lk[x]
      {
        Ascending(rk, k, y);
        CompareKeysTrans(lk[x], rk[k], rk[y]);
        CompareKeysProps(lk[x], rk[y]);
      }
    case RightOnly(y) =>
      forall x | i <= x < |lk|
        ensures lk[x] != rk[y]
      {
        Ascending(lk, i, x);
        CompareKeysTrans(rk[y], lk[i], lk[x]);
        CompareKeysProps(rk[y], lk[x]);
      }
  }

  /** A round sound after the first one is sound from (i, k). */
  lemma WidenSound(lk: seq<Key>, rk: seq<Key>, i: nat, k: nat, v: Visit)
    requires StrictlyIncreasing(lk) && StrictlyIncreasing(rk)
    requires i <= |lk| && k <= |rk|
    requires Visits(lk, rk, i, k) != []
    requires var h := Visits(lk, rk, i, k)[0];
             Sound(v, lk, rk, if h.RightOnly? then i else i + 1, if h.LeftOnly? then k else k + 1)
    ensures Sound(v, lk, rk, i, k)
  {
    FirstBelowRest(lk, rk, i, k, v);
    var h := Visits(lk, rk, i, k)[0];
    HeadSound(lk, rk, i, k);
    CompareKeysProps(VisitKey(h, lk, rk), VisitKey(v, lk, rk));
  }

  /** Group x of a grouping that ended cleanly, or no rows past its end. */
  function GroupAt(g: Grouped, x: nat): Stream
  {
    if x < |g.groups| then Stream(g.groups[x], None) else NoRows()
  }

  /** What the joiner yields in one round. */
  function VisitRows(j: Joiner, keys: seq<string>, L: Grouped, R: Grouped, v: Visit): seq<Row>
  {
    match v
    case Both(x, y) => JoinerRun(j, keys, GroupAt(L, x), GroupAt(R, y)).rows
    case LeftOnly(x) => JoinerRun(j, keys, GroupAt(L, x), NoRows()).rows
    case RightOnly(y) => JoinerRun(j, keys, NoRows(), GroupAt(R, y)).rows
  }

  /** What the joiner yields over a sequence of rounds. */
  function ScheduleRows(j: Joiner, keys: seq<string>, L: Grouped, R: Grouped, vs: seq<Visit>): seq<Row>
  {
    if vs == [] then [] else VisitRows(j, keys, L, R, vs[0]) + ScheduleRows(j, keys, L, R, vs[1..])
  }

  /** When both groupings end cleanly, the join is the joiner's output round after round. */
  lemma {:induction false} CleanJoin(j: Joiner, keys: seq<string>, L: Grouped, R: Grouped, i: nat, k: nat)
    requires |L.keys| == |L.groups| && |R.keys| == |R.groups|
    requires i <= |L.groups| && k <= |R.groups|
    requires L.end.Exhausted? && R.end.Exhausted?
    ensures JoinFrom(j, keys, L, R, i, k) == Stream(ScheduleRows(j, keys, L, R, Visits(L.keys, R.keys, i, k)), None)
    decreases |L.groups| - i + |R.groups| - k
  {
    var vs := Visits(L.keys, R.keys, i, k);
    var pl := Pull(L, i);
    var pr := Pull(R, k);
    if pl.Got? || pr.Got? {
      var m := Choose(pl, pr);
      var i', k' := if m.nextLeft then i + 1 else i, if m.nextRight then k + 1 else k;
      CleanJoin(j, keys, L, R, i', k');
      assert vs[1..] == Visits(L.keys, R.keys, i', k');
      assert JoinerRun(j, keys, m.left, m.right) == Stream(VisitRows(j, keys, L, R, vs[0]), None);
    }
  }

  /* ---------- the Join operation on streams ---------- */

  /** With no key fields the joiner is called once, on the two whole streams. */
  lemma JoinNoKeys(j: Joiner, a: Stream, b: Stream)
    ensures JoinSpec(j, [], a, b) == JoinerRun(j, [], a, b)
  {
    var L := GroupBy(a, []);
    var R := GroupBy(b, []);
    GroupByNoKeys(a);
    GroupByNoKeys(b);
    assert Pull(L, 0) == Got([], a);
    assert Pull(R, 0) == Got([], b);
    var out := JoinerRun(j, [], a, b);
    if out.failure.None? {
      assert JoinFrom(j, [], L, R, 1, 1) == NoRows();
      assert out.rows + [] == out.rows;
    }
  }

  /** With key fields, an empty left stream makes the join fail at its first pull. */
  lemma JoinEmptyLeft(j: Joiner, keys: seq<string>, b: Stream)
    requires keys != []
    ensures JoinSpec(j, keys, Stream([], None), b) == Stream([], Some(RuntimeError))
  {
    GroupByEmpty(keys);
  }

  /** With key fields, an empty right stream makes the join fail before the joiner runs. */
  lemma JoinEmptyRight(j: Joiner, keys: seq<string>, a: Stream)
    requires keys != [] && a.rows != [] && HasFields(a.rows[0], keys)
    ensures JoinSpec(j, keys, a, Stream([], None)) == Stream([], Some(RuntimeError))
  {
    GroupByEmpty(keys);
    var read := ReadKeyed(a.rows, keys, a.failure);
    assert read.rows != [];
    var n := GroupRunsPrefix(read, keys);
    assert |GroupBy(a, keys).groups| == n;
  }

  /**
   * A join of two clean, non-empty streams sorted by the keys: it fails with
   * ValueError exactly when one of them is not sorted, and otherwise yields the
   * joiner's output for each round of the merge of the two key runs.
   */
  lemma JoinSorted(j: Joiner, keys: seq<string>, a: Stream, b: Stream)
    requires keys != [] && a.rows != [] && b.rows != [] && a.failure.None? && b.failure.None?
    requires forall i :: 0 <= i < |a.rows| ==> HasFields(a.rows[i], keys)
    requires forall i :: 0 <= i < |b.rows| ==> HasFields(b.rows[i], keys)
    ensures (JoinSpec(j, keys, a, b).failure == Some(ValueError))
              <==> !(SortedBy(a.rows, keys, false) && SortedBy(b.rows, keys, false))
    ensures SortedBy(a.rows, keys, false) && SortedBy(b.rows, keys, false) ==>
              var L := GroupBy(a, keys);
              var R := GroupBy(b, keys);
              && L.groups == Runs(a.rows, keys) && R.groups == Runs(b.rows, keys)
              && JoinSpec(j, keys, a, b) == Stream(ScheduleRows(j, keys, L, R, Visits(L.keys, R.keys, 0, 0)), None)
  {
    var L := GroupBy(a, keys);
    var R := GroupBy(b, keys);
    GroupByShape(a, keys);
    GroupByShape(b, keys);
    GroupBySorted(a, keys);
    GroupBySorted(b, keys);
    JoinFromFailure(j, keys, L, R, 0, 0);
    if L.end.Exhausted? && R.end.Exhausted? {
      CleanJoin(j, keys, L, R, 0, 0);
    }
  }

  /**
   * The schedule of a join of two groupings: every group is visited once and in
   * order, paired groups have equal keys, an unpaired group's key is absent from
   * the other side, and the rounds go by strictly increasing key.
   */
  lemma JoinSchedule(keys: seq<string>, a: Stream, b: Stream)
    ensures var lk := GroupBy(a, keys).keys;
            var rk := GroupBy(b, keys).keys;
            var vs := Visits(lk, rk, 0, 0);
            && LeftIndices(vs) == Range(0, |lk|)
            && RightIndices(vs) == Range(0, |rk|)
            && (forall t :: 0 <= t < |vs| ==> Sound(vs[t], lk, rk, 0, 0))
            && (forall s, t :: 0 <= s < t < |vs| ==> CompareKeys(VisitKey(vs[s], lk, rk), VisitKey(vs[t], lk, rk)) < 0)
  {
    GroupByShape(a, keys);
    GroupByShape(b, keys);
    var lk := GroupBy(a, keys).keys;
    var rk := GroupBy(b, keys).keys;
    VisitsCover(lk, rk, 0, 0);
    VisitsSound(lk, rk, 0, 0);
    VisitsAscend(lk, rk, 0, 0);
  }
}
