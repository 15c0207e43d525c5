/**
 * The joiners: which rows come out of one step of a join, given the left and
 * the right group of rows for a key (either may be empty), and how
 * `common_join_part` combines a left row with a right row.
 */
module Joiners {
  import opened Rows

  datatype Kind = Inner | Left | Right | Outer

  /** A joiner and the suffixes it gives to clashing fields of the a-side and b-side rows. */
  datatype Joiner = Joiner(kind: Kind, suffixA: string, suffixB: string)

  /** A joiner built with the default suffixes '_1' and '_2'. */
  function WithDefaultSuffixes(kind: Kind): Joiner
  {
    Joiner(kind, "_1", "_2")
  }

  /* ---------- combining two rows ---------- */

  /** The non-key fields present in both rows: these are renamed. */
  function ClashOf(l: Row, r: Row, keys: seq<string>): set<string>
  {
    set f | f in l && f in r && f !in keys
  }

  function Suffixed(fields: set<string>, suffix: string): set<string>
  {
    set f | f in fields :: f + suffix
  }

  /** The fields that keep their names: the right row's unrenamed fields and the left row's new ones. */
  function Plain(l: Row, r: Row, keys: seq<string>): set<string>
  {
    (r.Keys - ClashOf(l, r, keys)) + (l.Keys - r.Keys)
  }

  /** The fields of the combined row. */
  function CombinedFields(l: Row, r: Row, keys: seq<string>, sa: string, sb: string): set<string>
  {
    Plain(l, r, keys) + Suffixed(ClashOf(l, r, keys), sa) + Suffixed(ClashOf(l, r, keys), sb)
  }

  /**
   * The renamed names collide neither with each other, nor with a plain
   * field, nor with a clashing field. Under this condition the result of
   * `common_join_part` does not depend on the order of the left row's fields.
   */
  predicate NoNameClash(l: Row, r: Row, keys: seq<string>, sa: string, sb: string)
  {
    var c := ClashOf(l, r, keys);
    var a := Suffixed(c, sa);
    var b := Suffixed(c, sb);
    Plain(l, r, keys) !! a && Plain(l, r, keys) !! b && a !! b && c !! a && c !! b
  }

  lemma SuffixedMember(f: string, fields: set<string>, suffix: string)
    requires f in fields
    ensures f + suffix in Suffixed(fields, suffix)
    ensures (f + suffix)[..|f|] == f
  {
  }

  lemma UnsuffixIn(k: string, fields: set<string>, suffix: string)
    requires k in Suffixed(fields, suffix)
    ensures |suffix| <= |k| && k[..|k| - |suffix|] in fields
  {
    var f :| f in fields && k == f + suffix;
    assert k[..|k| - |suffix|] == f;
  }

  /**
   * The value of field k in the combined row: a b-suffixed name carries the
   * right row's value of the clashing field, an a-suffixed name the left
   * row's, and any other field the right row's value if it has one, else
   * the left row's. (The last default is for names outside the row.)
   */
  function CombinedValue(l: Row, r: Row, keys: seq<string>, sa: string, sb: string, k: string): Value
  {
    var c := ClashOf(l, r, keys);
    if k in Suffixed(c, sb) then
      UnsuffixIn(k, c, sb);
      r[k[..|k| - |sb|]]
    else if k in Suffixed(c, sa) then
      UnsuffixIn(k, c, sa);
      l[k[..|k| - |sa|]]
    else if k in r then r[k]
    else if k in l then l[k]
    else Int(0)
  }

  /**
   * The row `common_join_part` builds from a left row `l` and a right row
   * `r`: a copy of `r` extended with the fields of `l`, where a non-key field
   * present in both is replaced by field+`sa` (left value) and field+`sb`
   * (right value).
   */
  function Combine(l: Row, r: Row, keys: seq<string>, sa: string, sb: string): (c: Row)
    ensures c.Keys == CombinedFields(l, r, keys, sa, sb)
    ensures forall k :: k in c ==> c[k] == CombinedValue(l, r, keys, sa, sb, k)
  {
    map k | k in CombinedFields(l, r, keys, sa, sb) :: CombinedValue(l, r, keys, sa, sb, k)
  }

  /**
   * Join-key fields appear once, with the right row's value; a field of only
   * one row keeps its value; a clashing field is replaced by its two
   * suffixed copies.
   */
  lemma CombineFields(l: Row, r: Row, keys: seq<string>, sa: string, sb: string)
    requires NoNameClash(l, r, keys, sa, sb)
    ensures var c := Combine(l, r, keys, sa, sb);
      && (forall k :: k in keys && k in r ==> k in c && c[k] == r[k])
      && (forall f :: f in r && f !in ClashOf(l, r, keys) ==> f in c && c[f] == r[f])
      && (forall f :: f in l && f !in r ==> f in c && c[f] == l[f])
      && (forall f :: f in ClashOf(l, r, keys) ==>
            f !in c && f + sa in c && f + sb in c && c[f + sa] == l[f] && c[f + sb] == r[f])
  {
    var c := Combine(l, r, keys, sa, sb);
    var C := ClashOf(l, r, keys);
    forall f | f in Plain(l, r, keys)
      ensures f in c && c[f] == (if f in r then r[f] else l[f])
    {
      assert f !in Suffixed(C, sa) && f !in Suffixed(C, sb);
    }
    forall f | f in C
      ensures f !in c && f + sa in c && f + sb in c && c[f + sa] == l[f] && c[f + sb] == r[f]
    {
      SuffixedMember(f, C, sa);
      SuffixedMember(f, C, sb);
    }
  }

  /**
   * The inner loop of `common_join_part`: start from a copy of the right row
   * and merge in the left row's fields one at a time, in the left row's own
   * (unmodelled) field order.
   */
  method MergeRow(l: Row, r: Row, keys: seq<string>, sa: string, sb: string) returns (row: Row)
    ensures NoNameClash(l, r, keys, sa, sb) ==> row == Combine(l, r, keys, sa, sb)
  {
    row := r;
    var pending := l.Keys;
    ghost var done: set<string> := {};
    if NoNameClash(l, r, keys, sa, sb) {
      MergeStart(l, r, keys, sa, sb);
    }
    while pending != {}
      invariant pending + done == l.Keys && pending !! done
      invariant NoNameClash(l, r, keys, sa, sb) ==> MergedSoFar(row, l, r, keys, sa, sb, done)
      decreases |pending|
    {
      var key :| key in pending;
      var value := l[key];
      ghost var before := row;
      if key !in row {
        row := row[key := value];
      } else if key !in keys {
        var oldRight := row[key];
        row := row - {key};
        row := row[key + sa := value];
        row := row[key + sb := oldRight];
      }
      if NoNameClash(l, r, keys, sa, sb) {
        MergeStep(before, row, l, r, keys, sa, sb, done, key);
      }
      MoveField(pending, done, l.Keys, key);
      pending := pending - {key};
      done := done + {key};
    }
    if NoNameClash(l, r, keys, sa, sb) {
      MergeDone(row, l, r, keys, sa, sb, done);
    }
  }

  /** Moving one field from the pending set to the done set keeps them a partition. */
  lemma MoveField(pending: set<string>, done: set<string>, all: set<string>, key: string)
    requires pending + done == all && pending !! done && key in pending
    ensures (pending - {key}) + (done + {key}) == all && (pending - {key}) !! (done + {key})
  {
  }

  lemma MergeStart(l: Row, r: Row, keys: seq<string>, sa: string, sb: string)
    requires NoNameClash(l, r, keys, sa, sb)
    ensures MergedSoFar(r, l, r, keys, sa, sb, {})
  {
    var C := ClashOf(l, r, keys);
    assert C * {} == {};
    assert Suffixed({}, sa) == {} && Suffixed({}, sb) == {};
    forall k | k in r ensures r[k] == CombinedValue(l, r, keys, sa, sb, k) {
      if k !in C {
        assert k in Plain(l, r, keys);
      }
    }
  }

  lemma MergeDone(row: Row, l: Row, r: Row, keys: seq<string>, sa: string, sb: string, done: set<string>)
    requires done == l.Keys && MergedSoFar(row, l, r, keys, sa, sb, done)
    ensures row == Combine(l, r, keys, sa, sb)
  {
    assert ClashOf(l, r, keys) * done == ClashOf(l, r, keys);
    assert row.Keys == CombinedFields(l, r, keys, sa, sb);
  }

  /** The row after the left fields in `done` have been merged into the right row. */
  ghost predicate MergedSoFar(row: Row, l: Row, r: Row, keys: seq<string>, sa: string, sb: string, done: set<string>)
  {
    var c := ClashOf(l, r, keys) * done;
    && row.Keys == (r.Keys - c) + ((l.Keys * done) - r.Keys) + Suffixed(c, sa) + Suffixed(c, sb)
    && forall k :: k in row ==> row[k] == CombinedValue(l, r, keys, sa, sb, k)
  }

  lemma SuffixedMono(c: set<string>, d: set<string>, suffix: string)
    requires c <= d
    ensures Suffixed(c, suffix) <= Suffixed(d, suffix)
  {
  }

  lemma SuffixedAdd(c: set<string>, f: string, suffix: string)
    ensures Suffixed(c + {f}, suffix) == Suffixed(c, suffix) + {f + suffix}
  {
  }

  lemma MergeStep(before: Row, after: Row, l: Row, r: Row, keys: seq<string>, sa: string, sb: string,
                  done: set<string>, key: string)
    requires NoNameClash(l, r, keys, sa, sb)
    requires key in l && key !in done
    requires MergedSoFar(before, l, r, keys, sa, sb, done)
    requires key !in before ==> after == before[key := l[key]]
    requires key in before && key in keys ==> after == before
    requires key in before && key !in keys ==>
               after == (before - {key})[key + sa := l[key]][key + sb := before[key]]
    ensures MergedSoFar(after, l, r, keys, sa, sb, done + {key})
  {
    if key !in before {
      MergeNewField(before, after, l, r, keys, sa, sb, done, key);
    } else if key in keys {
      assert ClashOf(l, r, keys) * (done + {key}) == ClashOf(l, r, keys) * done;
    } else {
      MergeClashField(before, after, l, r, keys, sa, sb, done, key);
    }
  }

  /** A left field the row does not have yet is a plain field: it is added with its value. */
  lemma MergeNewField(before: Row, after: Row, l: Row, r: Row, keys: seq<string>, sa: string, sb: string,
                      done: set<string>, key: string)
    requires NoNameClash(l, r, keys, sa, sb)
    requires key in l && key !in done && key !in before
    requires MergedSoFar(before, l, r, keys, sa, sb, done)
    requires after == before[key := l[key]]
    ensures MergedSoFar(after, l, r, keys, sa, sb, done + {key})
  {
    var C := ClashOf(l, r, keys);
    var c := C * done;
    assert key !in r;
    assert C * (done + {key}) == c;
    assert (l.Keys * (done + {key})) - r.Keys == ((l.Keys * done) - r.Keys) + {key};
    assert key in Plain(l, r, keys);
    assert key !in Suffixed(C, sa) && key !in Suffixed(C, sb);
  }

  /** The field-set algebra of one renaming step. */
  lemma RenameKeys(before: set<string>, after: set<string>, R: set<string>, L: set<string>, c: set<string>,
                   A: set<string>, B: set<string>, key: string, ka: string, kb: string)
    requires before == (R - c) + L + A + B
    requires after == before - {key} + {ka} + {kb}
    requires key in R && key !in c && key !in L && key !in A && key !in B
    ensures after == (R - (c + {key})) + L + (A + {ka}) + (B + {kb})
  {
  }

  /** A clashing left field is replaced by its two suffixed copies. */
  lemma MergeClashField(before: Row, after: Row, l: Row, r: Row, keys: seq<string>, sa: string, sb: string,
                        done: set<string>, key: string)
    requires NoNameClash(l, r, keys, sa, sb)
    requires key in l && key !in done && key in before && key !in keys
    requires MergedSoFar(before, l, r, keys, sa, sb, done)
    requires after == (before - {key})[key + sa := l[key]][key + sb := before[key]]
    ensures MergedSoFar(after, l, r, keys, sa, sb, done + {key})
  {
    ClashFacts(before, l, r, keys, sa, sb, done, key);
    var c := ClashOf(l, r, keys) * done;
    assert after.Keys == before.Keys - {key} + {key + sa} + {key + sb};
    assert (l.Keys * (done + {key})) - r.Keys == (l.Keys * done) - r.Keys;
    RenameKeys(before.Keys, after.Keys, r.Keys, (l.Keys * done) - r.Keys, c, Suffixed(c, sa), Suffixed(c, sb), key, key + sa, key + sb);
    ClashValues(before, after, l, r, keys, sa, sb, done, key);
  }

  /** What a clashing field's position in the merge tells about it. */
  lemma ClashFacts(before: Row, l: Row, r: Row, keys: seq<string>, sa: string, sb: string,
                   done: set<string>, key: string)
    requires NoNameClash(l, r, keys, sa, sb)
    requires key in l && key !in done && key in before && key !in keys
    requires MergedSoFar(before, l, r, keys, sa, sb, done)
    ensures var C := ClashOf(l, r, keys);
            var c := C * done;
            && key in r && key in C && before[key] == r[key]
            && C * (done + {key}) == c + {key}
            && Suffixed(c + {key}, sa) == Suffixed(c, sa) + {key + sa}
            && Suffixed(c + {key}, sb) == Suffixed(c, sb) + {key + sb}
            && key !in Suffixed(c, sa) && key !in Suffixed(c, sb)
            && key + sa != key + sb
  {
    var C := ClashOf(l, r, keys);
    var c := C * done;
    SuffixedMono(c, C, sa);
    SuffixedMono(c, C, sb);
    SuffixedAdd(c, key, sa);
    SuffixedAdd(c, key, sb);
    SuffixedMember(key, C, sa);
    SuffixedMember(key, C, sb);
  }

  /** After a renaming step every field still holds its combined value. */
  lemma ClashValues(before: Row, after: Row, l: Row, r: Row, keys: seq<string>, sa: string, sb: string,
                    done: set<string>, key: string)
    requires NoNameClash(l, r, keys, sa, sb)
    requires key in l && key in before
    requires key in r && key in ClashOf(l, r, keys) && key + sa != key + sb && before[key] == r[key]
    requires forall k :: k in before ==> before[k] == CombinedValue(l, r, keys, sa, sb, k)
    requires after == (before - {key})[key + sa := l[key]][key + sb := before[key]]
    ensures forall k :: k in after ==> after[k] == CombinedValue(l, r, keys, sa, sb, k)
  {
    var C := ClashOf(l, r, keys);
    SuffixedMember(key, C, sa);
    SuffixedMember(key, C, sb);
    forall k | k in after
      ensures after[k] == CombinedValue(l, r, keys, sa, sb, k)
    {
      if k == key + sb {
        assert k[..|k| - |sb|] == key;
      } else if k == key + sa {
        assert k !in Suffixed(C, sb);
        assert k[..|k| - |sa|] == key;
      }
    }
  }

  /* ---------- the cross product ---------- */

  /** One left row combined with every right row, in order. */
  function Pairs(left: Row, rights: seq<Row>, keys: seq<string>, sa: string, sb: string): (rs: seq<Row>)
    ensures |rs| == |rights|
    ensures forall j :: 0 <= j < |rights| ==> rs[j] == Combine(left, rights[j], keys, sa, sb)
  {
    seq(|rights|, j requires 0 <= j < |rights| => Combine(left, rights[j], keys, sa, sb))
  }

  /** The rows `common_join_part` yields: every pair, left-major. */
  function CrossRows(lefts: seq<Row>, rights: seq<Row>, keys: seq<string>, sa: string, sb: string): (rs: seq<Row>)
    ensures |rs| == |lefts| * |rights|
  {
    if lefts == [] then []
    else
      var rest := CrossRows(lefts[1..], rights, keys, sa, sb);
      assert |rights| + (|lefts| - 1) * |rights| == |lefts| * |rights|;
      Pairs(lefts[0], rights, keys, sa, sb) + rest
  }

  lemma MulSucc(i: nat, n: nat)
    ensures (i + 1) * n == i * n + n
  {
  }

  lemma MulBound(i: nat, j: nat, m: nat, n: nat)
    requires i < m && j < n
    ensures i * n + j < m * n
  {
    MulSucc(i, n);
    assert (i + 1) * n <= m * n;
  }

  /** Output i * |rights| + j combines left row i with right row j. */
  lemma {:induction false} CrossIndex(lefts: seq<Row>, rights: seq<Row>, keys: seq<string>, sa: string, sb: string, i: nat, j: nat)
    requires i < |lefts| && j < |rights|
    ensures i * |rights| + j < |lefts| * |rights|
    ensures CrossRows(lefts, rights, keys, sa, sb)[i * |rights| + j] == Combine(lefts[i], rights[j], keys, sa, sb)
  {
    MulBound(i, j, |lefts|, |rights|);
    if i == 0 {
      assert 0 * |rights| + j == j;
      CrossHead(lefts, rights, keys, sa, sb, j);
    } else {
      CrossIndex(lefts[1..], rights, keys, sa, sb, i - 1, j);
      MulSucc(i - 1, |rights|);
      CrossTail(lefts, rights, keys, sa, sb, (i - 1) * |rights| + j);
      assert lefts[1..][i - 1] == lefts[i];
    }
  }

  /** The first |rights| outputs pair the first left row with each right row. */
  lemma CrossHead(lefts: seq<Row>, rights: seq<Row>, keys: seq<string>, sa: string, sb: string, j: nat)
    requires lefts != [] && j < |rights|
    ensures j < |CrossRows(lefts, rights, keys, sa, sb)|
    ensures CrossRows(lefts, rights, keys, sa, sb)[j] == Combine(lefts[0], rights[j], keys, sa, sb)
  {
    assert CrossRows(lefts, rights, keys, sa, sb)
        == Pairs(lefts[0], rights, keys, sa, sb) + CrossRows(lefts[1..], rights, keys, sa, sb);
  }

  /** The outputs after the first |rights| are those of the remaining left rows. */
  lemma CrossTail(lefts: seq<Row>, rights: seq<Row>, keys: seq<string>, sa: string, sb: string, k: nat)
    requires lefts != [] && k < |CrossRows(lefts[1..], rights, keys, sa, sb)|
    ensures |rights| + k < |CrossRows(lefts, rights, keys, sa, sb)|
    ensures CrossRows(lefts, rights, keys, sa, sb)[|rights| + k] == CrossRows(lefts[1..], rights, keys, sa, sb)[k]
  {
    assert CrossRows(lefts, rights, keys, sa, sb)
        == Pairs(lefts[0], rights, keys, sa, sb) + CrossRows(lefts[1..], rights, keys, sa, sb);
  }

  lemma {:induction false} CrossAppend(lefts: seq<Row>, left: Row, rights: seq<Row>, keys: seq<string>, sa: string, sb: string)
    ensures CrossRows(lefts + [left], rights, keys, sa, sb)
              == CrossRows(lefts, rights, keys, sa, sb) + Pairs(left, rights, keys, sa, sb)
  {
    if lefts == [] {
      assert lefts + [left] == [left];
      assert CrossRows([left], rights, keys, sa, sb) == Pairs(left, rights, keys, sa, sb) + [];
    } else {
      assert (lefts + [left])[1..] == lefts[1..] + [left];
      CrossAppend(lefts[1..], left, rights, keys, sa, sb);
    }
  }

  predicate AllNoNameClash(lefts: seq<Row>, rights: seq<Row>, keys: seq<string>, sa: string, sb: string)
  {
    forall i, j :: 0 <= i < |lefts| && 0 <= j < |rights| ==> NoNameClash(lefts[i], rights[j], keys, sa, sb)
  }

  lemma PairsSnoc(left: Row, rights: seq<Row>, j: nat, keys: seq<string>, sa: string, sb: string)
    requires j < |rights|
    ensures Pairs(left, rights[..j + 1], keys, sa, sb)
              == Pairs(left, rights[..j], keys, sa, sb) + [Combine(left, rights[j], keys, sa, sb)]
  {
  }

  /** The inner loop of `common_join_part`: one left row merged with each right row in turn. */
  method MergeWithAll(left: Row, rights: seq<Row>, keys: seq<string>, sa: string, sb: string)
    returns (rows: seq<Row>)
    ensures |rows| == |rights|
    ensures (forall j :: 0 <= j < |rights| ==> NoNameClash(left, rights[j], keys, sa, sb)) ==>
              rows == Pairs(left, rights, keys, sa, sb)
  {
    ghost var clean := forall j :: 0 <= j < |rights| ==> NoNameClash(left, rights[j], keys, sa, sb);
    rows := [];
    var j := 0;
    while j < |rights|
      invariant 0 <= j <= |rights|
      invariant |rows| == j
      invariant clean ==> rows == Pairs(left, rights[..j], keys, sa, sb)
    {
      var row := MergeRow(left, rights[j], keys, sa, sb);
      if clean {
        PairsSnoc(left, rights, j, keys, sa, sb);
      }
      rows := rows + [row];
      j := j + 1;
    }
    assert rights[..j] == rights;
  }

  /** `Joiner.common_join_part`: nested loops over the left rows and the materialised right rows. */
  method CommonJoinPart(keys: seq<string>, lefts: seq<Row>, rights: seq<Row>, sa: string, sb: string)
    returns (out: seq<Row>)
    ensures |out| == |lefts| * |rights|
    ensures AllNoNameClash(lefts, rights, keys, sa, sb) ==> out == CrossRows(lefts, rights, keys, sa, sb)
  {
    ghost var clean := AllNoNameClash(lefts, rights, keys, sa, sb);
    out := [];
    var i := 0;
    while i < |lefts|
      invariant 0 <= i <= |lefts|
      invariant |out| == i * |rights|
      invariant clean ==> out == CrossRows(lefts[..i], rights, keys, sa, sb)
    {
      var rows := MergeWithAll(lefts[i], rights, keys, sa, sb);
      if clean {
        CrossAppend(lefts[..i], lefts[i], rights, keys, sa, sb);
        assert lefts[..i] + [lefts[i]] == lefts[..i + 1];
      }
      MulSucc(i, |rights|);
      out := out + rows;
      i := i + 1;
    }
    assert lefts[..i] == lefts;
  }

  /* ---------- the joiners ---------- */

  /**
   * One joiner call on the a-side group `a` and the b-side group `b`. A
   * group's `failure` is the error that consuming it to its end raises; an
   * empty side passed by the join loop is `Stream([], None)`. A side a joiner
   * materialises with `list(...)` is read before anything is yielded.
   */
  function JoinerRun(j: Joiner, keys: seq<string>, a: Stream, b: Stream): (out: Stream)
    ensures a.failure.Some? || b.failure.Some? ==> out.failure.Some?
    ensures out.failure.Some? ==> out.failure == a.failure || out.failure == b.failure
    ensures out.failure.None? ==> a.failure.None? && b.failure.None?
  {
    match j.kind
    case Inner =>
      if b.failure.Some? then Stream([], b.failure)
      else Stream(CrossRows(a.rows, b.rows, keys, j.suffixA, j.suffixB), a.failure)
    case Left =>
      if b.failure.Some? then Stream([], b.failure)
      else if b.rows != [] then Stream(CrossRows(a.rows, b.rows, keys, j.suffixA, j.suffixB), a.failure)
      else a
    case Right =>
      // the b rows are the left rows of common_join_part, with the suffix roles swapped
      if a.failure.Some? then Stream([], a.failure)
      else if a.rows != [] then Stream(CrossRows(b.rows, a.rows, keys, j.suffixB, j.suffixA), b.failure)
      else b
    case Outer =>
      if a.failure.Some? then Stream([], a.failure)
      else if b.failure.Some? then Stream([], b.failure)
      else if a.rows != [] && b.rows != [] then Stream(CrossRows(a.rows, b.rows, keys, j.suffixA, j.suffixB), None)
      else if a.rows != [] then a
      else b
  }

  /** InnerJoiner: every pair of rows, and nothing when either side is empty. */
  lemma InnerTable(j: Joiner, keys: seq<string>, a: seq<Row>, b: seq<Row>)
    requires j.kind == Inner
    ensures JoinerRun(j, keys, Stream(a, None), Stream(b, None)).failure.None?
    ensures |JoinerRun(j, keys, Stream(a, None), Stream(b, None)).rows| == |a| * |b|
    ensures a == [] || b == [] ==> JoinerRun(j, keys, Stream(a, None), Stream(b, None)).rows == []
    ensures JoinerRun(j, keys, Stream(a, None), Stream(b, None)).rows == CrossRows(a, b, keys, j.suffixA, j.suffixB)
  {
  }

  /** LeftJoiner: a-rows pass through unchanged when b is empty; b-only groups give nothing. */
  lemma LeftTable(j: Joiner, keys: seq<string>, a: seq<Row>, b: seq<Row>)
    requires j.kind == Left
    ensures b == [] ==> JoinerRun(j, keys, Stream(a, None), Stream(b, None)) == Stream(a, None)
    ensures a == [] ==> JoinerRun(j, keys, Stream(a, None), Stream(b, None)) == Stream([], None)
    ensures b != [] ==> |JoinerRun(j, keys, Stream(a, None), Stream(b, None)).rows| == |a| * |b|
    ensures b != [] ==> JoinerRun(j, keys, Stream(a, None), Stream(b, None)) == Stream(CrossRows(a, b, keys, j.suffixA, j.suffixB), None)
  {
  }

  /** RightJoiner: the mirror image of LeftJoiner. */
  lemma RightTable(j: Joiner, keys: seq<string>, a: seq<Row>, b: seq<Row>)
    requires j.kind == Right
    ensures a == [] ==> JoinerRun(j, keys, Stream(a, None), Stream(b, None)) == Stream(b, None)
    ensures b == [] ==> JoinerRun(j, keys, Stream(a, None), Stream(b, None)) == Stream([], None)
    ensures a != [] ==> |JoinerRun(j, keys, Stream(a, None), Stream(b, None)).rows| == |a| * |b|
    ensures a != [] ==> JoinerRun(j, keys, Stream(a, None), Stream(b, None)) == Stream(CrossRows(b, a, keys, j.suffixB, j.suffixA), None)
  {
  }

  /** OuterJoiner: the single non-empty side passes through; nothing when both are empty. */
  lemma OuterTable(j: Joiner, keys: seq<string>, a: seq<Row>, b: seq<Row>)
    requires j.kind == Outer
    ensures b == [] ==> JoinerRun(j, keys, Stream(a, None), Stream(b, None)) == Stream(a, None)
    ensures a == [] ==> JoinerRun(j, keys, Stream(a, None), Stream(b, None)) == Stream(b, None)
    ensures a != [] && b != [] ==> |JoinerRun(j, keys, Stream(a, None), Stream(b, None)).rows| == |a| * |b|
    ensures a != [] && b != [] ==> JoinerRun(j, keys, Stream(a, None), Stream(b, None)) == Stream(CrossRows(a, b, keys, j.suffixA, j.suffixB), None)
  {
  }

  /**
   * Combining an a-row with a b-row that agree on the key fields gives the
   * same row whichever is the left argument, provided the suffixes follow
   * their rows: so RightJoiner, which swaps the suffix roles, still puts the
   * a-side values under suffix_a.
   */
  lemma CombineSwap(a: Row, b: Row, keys: seq<string>, sa: string, sb: string)
    requires NoNameClash(a, b, keys, sa, sb)
    requires forall k :: k in keys && k in a && k in b ==> a[k] == b[k]
    ensures NoNameClash(b, a, keys, sb, sa)
    ensures Combine(a, b, keys, sa, sb) == Combine(b, a, keys, sb, sa)
  {
    assert ClashOf(a, b, keys) == ClashOf(b, a, keys);
    assert Plain(a, b, keys) == Plain(b, a, keys);
    var x := Combine(a, b, keys, sa, sb);
    var y := Combine(b, a, keys, sb, sa);
    assert x.Keys == y.Keys;
    forall k | k in x ensures x[k] == y[k] {
      if k in Plain(a, b, keys) {
        assert k !in Suffixed(ClashOf(a, b, keys), sa) && k !in Suffixed(ClashOf(a, b, keys), sb);
      }
    }
  }
}
