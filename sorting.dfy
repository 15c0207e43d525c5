/**
 * Ordering rows by key fields: the behaviour of a sort node (ascending by the
 * key fields) and the order `heapq.nlargest` uses in TopN (descending by one
 * column, earlier rows first among equals).
 */
module Sorting {
  import opened Rows

  /** `a` must be placed strictly before `b` in the requested direction. */
  predicate Precedes(a: Key, b: Key, descending: bool)
  {
    if descending then CompareKeys(a, b) > 0 else CompareKeys(a, b) < 0
  }

  /** No row is followed by a row that should strictly precede it. */
  predicate SortedBy(rows: seq<Row>, keys: seq<string>, descending: bool)
  {
    forall i, j :: 0 <= i < j < |rows| ==> !Precedes(KeyOf(rows[j], keys), KeyOf(rows[i], keys), descending)
  }

  lemma PrecedesAsymmetric(a: Key, b: Key, descending: bool)
    ensures Precedes(a, b, descending) ==> !Precedes(b, a, descending)
    ensures !Precedes(a, b, descending) && a != b ==> Precedes(b, a, descending)
  {
    CompareKeysProps(a, b);
  }

  lemma PrecedesTrans(a: Key, b: Key, c: Key, descending: bool)
    requires Precedes(a, b, descending) && !Precedes(c, b, descending)
    ensures Precedes(a, c, descending)
  {
    CompareKeysProps(b, c);
    CompareKeysProps(a, c);
    if descending {
      CompareKeysProps(c, b);
      CompareKeysProps(b, a);
      CompareKeysTrans(c, b, a);
    } else {
      CompareKeysTrans(a, b, c);
    }
  }

  /** Inserts `x` after every row it does not strictly precede. */
  function Insert(x: Row, s: seq<Row>, keys: seq<string>, descending: bool): (r: seq<Row>)
    requires SortedBy(s, keys, descending)
    ensures multiset(r) == multiset(s) + multiset{x}
    ensures SortedBy(r, keys, descending)
  {
    if s == [] then [x]
    else if Precedes(KeyOf(x, keys), KeyOf(s[0], keys), descending) then
      PrependSorted(x, s, keys, descending);
      [x] + s
    else
      SortedTail(s, keys, descending);
      var tail := Insert(x, s[1..], keys, descending);
      InsertBehind(x, s, tail, keys, descending);
      [s[0]] + tail
  }

  lemma SortedTail(s: seq<Row>, keys: seq<string>, descending: bool)
    requires s != [] && SortedBy(s, keys, descending)
    ensures SortedBy(s[1..], keys, descending)
  {
  }

  /** Inserting behind the head: the head may still lead the result. */
  lemma InsertBehind(x: Row, s: seq<Row>, tail: seq<Row>, keys: seq<string>, descending: bool)
    requires s != [] && SortedBy(s, keys, descending)
    requires !Precedes(KeyOf(x, keys), KeyOf(s[0], keys), descending)
    requires SortedBy(tail, keys, descending)
    requires multiset(tail) == multiset(s[1..]) + multiset{x}
    ensures multiset([s[0]] + tail) == multiset(s) + multiset{x}
    ensures SortedBy([s[0]] + tail, keys, descending)
  {
    assert s == [s[0]] + s[1..];
    forall y | y in multiset(tail)
      ensures !Precedes(KeyOf(y, keys), KeyOf(s[0], keys), descending)
    {
      if y != x {
        assert y in s[1..];
      }
    }
    ConsSorted(s[0], tail, keys, descending);
  }

  /** A row placed before a sorted sequence whose head it strictly precedes keeps it sorted. */
  lemma PrependSorted(x: Row, s: seq<Row>, keys: seq<string>, descending: bool)
    requires s != [] && SortedBy(s, keys, descending)
    requires Precedes(KeyOf(x, keys), KeyOf(s[0], keys), descending)
    ensures SortedBy([x] + s, keys, descending)
  {
    var r := [x] + s;
    forall j | 0 < j < |r|
      ensures !Precedes(KeyOf(r[j], keys), KeyOf(x, keys), descending)
    {
      if j > 1 {
        PrecedesTrans(KeyOf(x, keys), KeyOf(s[0], keys), KeyOf(s[j - 1], keys), descending);
      }
      PrecedesAsymmetric(KeyOf(x, keys), KeyOf(r[j], keys), descending);
    }
  }

  /** A row that no row of a sorted tail strictly precedes may head it. */
  lemma ConsSorted(h: Row, tail: seq<Row>, keys: seq<string>, descending: bool)
    requires SortedBy(tail, keys, descending)
    requires forall y :: y in multiset(tail) ==> !Precedes(KeyOf(y, keys), KeyOf(h, keys), descending)
    ensures SortedBy([h] + tail, keys, descending)
  {
    var r := [h] + tail;
    forall j | 0 < j < |r|
      ensures !Precedes(KeyOf(r[j], keys), KeyOf(h, keys), descending)
    {
      assert r[j] in multiset(tail);
    }
  }

  /**
   * The rows ordered by their keys; rows with equal keys keep their arrival
   * order (each row is inserted after the equal rows already placed).
   */
  function SortRows(rows: seq<Row>, keys: seq<string>, descending: bool): (r: seq<Row>)
    ensures multiset(r) == multiset(rows)
    ensures SortedBy(r, keys, descending)
  {
    if rows == [] then []
    else
      var n := |rows| - 1;
      assert rows == rows[..n] + [rows[n]];
      Insert(rows[n], SortRows(rows[..n], keys, descending), keys, descending)
  }

  /** The first row of `rows` that lacks one of the key fields, and that field. */
  function MissingKeyField(rows: seq<Row>, keys: seq<string>): (r: Option<string>)
    ensures r.None? <==> forall i :: 0 <= i < |rows| ==> HasFields(rows[i], keys)
    ensures r.Some? ==> r.value in keys
  {
    if rows == [] then None
    else match FirstMissing(rows[0], keys)
      case Some(f) => Some(f)
      case None => MissingKeyField(rows[1..], keys)
  }

  /**
   * A sort node: it reads its whole input before yielding anything, fails with
   * KeyError if a row lacks a key field, and otherwise yields the input
   * reordered ascending by the key fields.
   */
  function SortStream(s: Stream, keys: seq<string>): (r: Stream)
    ensures s.failure.Some? ==> r == Stream([], s.failure)
    ensures s.failure.None? && MissingKeyField(s.rows, keys).Some? ==>
              r == Stream([], Some(KeyError(MissingKeyField(s.rows, keys).value)))
    ensures r.failure.None? ==>
              multiset(r.rows) == multiset(s.rows) && SortedBy(r.rows, keys, false)
  {
    if s.failure.Some? then Stream([], s.failure)
    else match MissingKeyField(s.rows, keys)
      case Some(f) => Stream([], Some(KeyError(f)))
      case None => Stream(SortRows(s.rows, keys, false), None)
  }

  /** Sorting rows that are already in order leaves them unchanged. */
  lemma {:induction false} SortRowsIdempotent(rows: seq<Row>, keys: seq<string>, descending: bool)
    requires SortedBy(rows, keys, descending)
    ensures SortRows(rows, keys, descending) == rows
  {
    if rows != [] {
      var n := |rows| - 1;
      assert rows[..n] + [rows[n]] == rows;
      SortedParts(rows[..n], rows[n], keys, descending);
      SortRowsIdempotent(rows[..n], keys, descending);
      InsertAtEnd(rows[n], rows[..n], keys, descending);
    }
  }

  /** The parts of a sorted sequence ending in `x` that InsertAtEnd needs. */
  lemma SortedParts(s: seq<Row>, x: Row, keys: seq<string>, descending: bool)
    requires SortedBy(s + [x], keys, descending)
    ensures SortedBy(s, keys, descending)
    ensures s != [] ==> SortedBy(s[1..] + [x], keys, descending)
    ensures s != [] ==> !Precedes(KeyOf(x, keys), KeyOf(s[0], keys), descending)
  {
    assert forall i :: 0 <= i < |s| ==> (s + [x])[i] == s[i];
    if s != [] {
      assert (s + [x])[|s|] == x;
      assert s[1..] + [x] == (s + [x])[1..];
    }
  }

  lemma {:induction false} InsertAtEnd(x: Row, s: seq<Row>, keys: seq<string>, descending: bool)
    requires SortedBy(s + [x], keys, descending)
    ensures SortedBy(s, keys, descending)
    ensures Insert(x, s, keys, descending) == s + [x]
  {
    SortedParts(s, x, keys, descending);
    if s != [] {
      var t := s[1..];
      InsertAtEnd(x, t, keys, descending);
      InsertBehindHead(x, s, keys, descending);
      HeadThenRest(s, [x]);
    }
  }

  lemma HeadThenRest(s: seq<Row>, u: seq<Row>)
    requires s != []
    ensures [s[0]] + (s[1..] + u) == s + u
  {
    assert s == [s[0]] + s[1..];
  }

  /** A row that does not strictly precede the head is inserted into the tail. */
  lemma InsertBehindHead(x: Row, s: seq<Row>, keys: seq<string>, descending: bool)
    requires s != [] && SortedBy(s, keys, descending)
    requires !Precedes(KeyOf(x, keys), KeyOf(s[0], keys), descending)
    ensures SortedBy(s[1..], keys, descending)
    ensures Insert(x, s, keys, descending) == [s[0]] + Insert(x, s[1..], keys, descending)
  {
    SortedTail(s, keys, descending);
  }

  /* ---------- stability ---------- */

  /** The rows of `rows` whose key is `k`, in their order. */
  function WithKey(rows: seq<Row>, keys: seq<string>, k: Key): (r: seq<Row>)
    ensures |r| <= |rows|
    ensures forall i :: 0 <= i < |r| ==> KeyOf(r[i], keys) == k
  {
    if rows == [] then []
    else (if KeyOf(rows[0], keys) == k then [rows[0]] else []) + WithKey(rows[1..], keys, k)
  }

  lemma {:induction false} WithKeyAppend(a: seq<Row>, b: seq<Row>, keys: seq<string>, k: Key)
    ensures WithKey(a + b, keys, k) == WithKey(a, keys, k) + WithKey(b, keys, k)
  {
    if a == [] {
      assert a + b == b;
    } else {
      assert (a + b)[0] == a[0];
      assert (a + b)[1..] == a[1..] + b;
      WithKeyAppend(a[1..], b, keys, k);
    }
  }

  lemma {:induction false} WithKeyNone(s: seq<Row>, keys: seq<string>, k: Key)
    requires forall i :: 0 <= i < |s| ==> KeyOf(s[i], keys) != k
    ensures WithKey(s, keys, k) == []
  {
    if s != [] {
      WithKeyNone(s[1..], keys, k);
    }
  }

  /** No row of a sorted sequence has the key of a row that strictly precedes its head. */
  lemma BelowHead(x: Row, s: seq<Row>, keys: seq<string>, descending: bool)
    requires s != [] && SortedBy(s, keys, descending)
    requires Precedes(KeyOf(x, keys), KeyOf(s[0], keys), descending)
    ensures forall i :: 0 <= i < |s| ==> KeyOf(s[i], keys) != KeyOf(x, keys)
  {
    forall i | 0 <= i < |s|
      ensures KeyOf(s[i], keys) != KeyOf(x, keys)
    {
      var kx, k0, ki := KeyOf(x, keys), KeyOf(s[0], keys), KeyOf(s[i], keys);
      if i == 0 {
        PrecedesAsymmetric(kx, k0, descending);
      } else {
        PrecedesTrans(kx, k0, ki, descending);
        PrecedesAsymmetric(kx, ki, descending);
      }
    }
  }

  /** Inserting `x` puts it behind every row with the same key. */
  lemma {:induction false} InsertWithKey(x: Row, s: seq<Row>, keys: seq<string>, descending: bool, k: Key)
    requires SortedBy(s, keys, descending)
    ensures WithKey(Insert(x, s, keys, descending), keys, k) == WithKey(s, keys, k) + WithKey([x], keys, k)
  {
    if s == [] {
      assert Insert(x, s, keys, descending) == [x];
    } else if Precedes(KeyOf(x, keys), KeyOf(s[0], keys), descending) {
      InsertFrontWithKey(x, s, keys, descending, k);
    } else {
      InsertBehindHead(x, s, keys, descending);
      InsertWithKey(x, s[1..], keys, descending, k);
      InsertBehindWithKey(x, s, Insert(x, s[1..], keys, descending), keys, k);
    }
  }

  lemma InsertFrontWithKey(x: Row, s: seq<Row>, keys: seq<string>, descending: bool, k: Key)
    requires s != [] && SortedBy(s, keys, descending)
    requires Precedes(KeyOf(x, keys), KeyOf(s[0], keys), descending)
    ensures WithKey(Insert(x, s, keys, descending), keys, k) == WithKey(s, keys, k) + WithKey([x], keys, k)
  {
    assert Insert(x, s, keys, descending) == [x] + s;
    WithKeyAppend([x], s, keys, k);
    if KeyOf(x, keys) == k {
      BelowHead(x, s, keys, descending);
      WithKeyNone(s, keys, k);
    } else {
      assert WithKey([x], keys, k) == [];
    }
  }

  lemma InsertBehindWithKey(x: Row, s: seq<Row>, tail: seq<Row>, keys: seq<string>, k: Key)
    requires s != []
    requires WithKey(tail, keys, k) == WithKey(s[1..], keys, k) + WithKey([x], keys, k)
    ensures WithKey([s[0]] + tail, keys, k) == WithKey(s, keys, k) + WithKey([x], keys, k)
  {
    WithKeyAppend([s[0]], tail, keys, k);
    WithKeyAppend([s[0]], s[1..], keys, k);
    assert [s[0]] + s[1..] == s;
  }

  /**
   * The sort is stable: for every key, the rows with that key appear in the
   * output in the order they arrived.
   */
  lemma {:induction false} SortRowsStable(rows: seq<Row>, keys: seq<string>, descending: bool, k: Key)
    ensures WithKey(SortRows(rows, keys, descending), keys, k) == WithKey(rows, keys, k)
  {
    if rows != [] {
      var n := |rows| - 1;
      assert rows[..n] + [rows[n]] == rows;
      SortRowsStable(rows[..n], keys, descending, k);
      InsertWithKey(rows[n], SortRows(rows[..n], keys, descending), keys, descending, k);
      WithKeyAppend(rows[..n], [rows[n]], keys, k);
    }
  }

  /* ---------- sums that do not depend on the order of the rows ---------- */

  /** The sum of `f` over the rows. */
  function SumOf(rows: seq<Row>, f: Row -> int): int
  {
    if rows == [] then 0 else f(rows[0]) + SumOf(rows[1..], f)
  }

  lemma {:induction false} SumOfAppend(a: seq<Row>, b: seq<Row>, f: Row -> int)
    ensures SumOf(a + b, f) == SumOf(a, f) + SumOf(b, f)
  {
    if a != [] {
      assert (a + b)[1..] == a[1..] + b;
      SumOfAppend(a[1..], b, f);
    } else {
      assert a + b == b;
    }
  }

  lemma {:induction false} SumOfRemove(b: seq<Row>, k: nat, f: Row -> int)
    requires k < |b|
    ensures SumOf(b, f) == f(b[k]) + SumOf(b[..k] + b[k + 1..], f)
  {
    var tail := [b[k]] + b[k + 1..];
    assert b == b[..k] + tail;
    SumOfAppend(b[..k], tail, f);
    SumOfAppend(b[..k], b[k + 1..], f);
    assert tail[1..] == b[k + 1..];
  }

  lemma MultisetRemove(b: seq<Row>, k: nat)
    requires k < |b|
    ensures multiset(b[..k] + b[k + 1..]) == multiset(b) - multiset{b[k]}
  {
    assert b == b[..k] + [b[k]] + b[k + 1..];
  }

  /** Reordering the rows does not change a sum over them. */
  lemma {:induction false} SumOfPermutation(a: seq<Row>, b: seq<Row>, f: Row -> int)
    requires multiset(a) == multiset(b)
    ensures SumOf(a, f) == SumOf(b, f)
    decreases |a|
  {
    if a == [] {
      assert |b| == |multiset(b)| == 0;
      assert b == [];
    } else {
      var k := MatchHead(a, b);
      SumOfPermutation(a[1..], b[..k] + b[k + 1..], f);
      SumOfRemove(b, k, f);
    }
  }

  /** Where the head of `a` sits in its permutation `b`, and what is left of both. */
  lemma MatchHead(a: seq<Row>, b: seq<Row>) returns (k: nat)
    requires a != [] && multiset(a) == multiset(b)
    ensures k < |b| && b[k] == a[0]
    ensures multiset(a[1..]) == multiset(b[..k] + b[k + 1..])
  {
    k := IndexIn(b, a[0]);
    MultisetRemove(b, k);
    assert a == [a[0]] + a[1..];
  }

  lemma IndexIn(b: seq<Row>, x: Row) returns (k: nat)
    requires x in multiset(b)
    ensures k < |b| && b[k] == x
  {
    assert x in b;
    k :| 0 <= k < |b| && b[k] == x;
  }
}
