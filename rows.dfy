/**
 * Rows, values, keys and the streams that flow between the operators of a
 * compgraph pipeline.
 *
 * A row is a dictionary from field name to value. A stream is what a consumer
 * obtains by pulling a generator to its end: the rows it yields, and the
 * exception (if any) that stops it. Because the pipeline is lazy, an error
 * surfaces only after the rows that were produced before it.
 */
module Rows {

  datatype Option<+T> = None | Some(value: T)

  /** The scalar values the modelled operators handle. */
  datatype Value = Int(i: int) | Str(s: string)

  type Row = map<string, Value>

  /** The values of the key fields of a row, in the order of the key list. */
  type Key = seq<Value>

  /** The Python exceptions the modelled code raises. */
  datatype Error =
    | KeyError(name: string)   // missing field, or unbound input name
    | TypeError                // operand of the wrong type, or missing positional stream
    | AttributeError           // str method called on a non-string
    | IndexError               // Join node run with a single parent stream
    | ValueError               // 'Stream is not sorted by keys'
    | RuntimeError             // StopIteration escaping a generator (PEP 479)

  /** A computation on one row that either succeeds or raises. */
  datatype Result<+T> = Ok(value: T) | Fail(error: Error)

  /** The rows pulled from a generator and the exception that ended it, if any. */
  datatype Stream = Stream(rows: seq<Row>, failure: Option<Error>)

  /** `rows` are yielded first, then the rest of the stream `s` follows. */
  function Prepend(rows: seq<Row>, s: Stream): (r: Stream)
    ensures r.failure == s.failure && |r.rows| == |rows| + |s.rows|
    ensures r.rows[..|rows|] == rows && r.rows[|rows|..] == s.rows
  {
    Stream(rows + s.rows, s.failure)
  }

  /** The groups' rows, one group after the other. */
  function Flatten(groups: seq<seq<Row>>): (r: seq<Row>)
  {
    if groups == [] then [] else groups[0] + Flatten(groups[1..])
  }

  lemma {:induction false} FlattenAppend(a: seq<seq<Row>>, b: seq<seq<Row>>)
    ensures Flatten(a + b) == Flatten(a) + Flatten(b)
  {
    if a == [] {
      assert a + b == b;
    } else {
      assert (a + b)[1..] == a[1..] + b;
      FlattenAppend(a[1..], b);
    }
  }

  /** The first key field missing from `row`, in the order of `keys`. */
  function FirstMissing(row: Row, keys: seq<string>): (r: Option<string>)
    ensures r.None? <==> forall k :: k in keys ==> k in row
    ensures r.Some? ==> r.value in keys && r.value !in row
    ensures r.Some? ==> exists i :: 0 <= i < |keys| && keys[i] == r.value && forall j :: 0 <= j < i ==> keys[j] in row
  {
    if keys == [] then None
    else if keys[0] !in row then Some(keys[0])
    else FirstMissing(row, keys[1..])
  }

  predicate HasFields(row: Row, keys: seq<string>)
  {
    forall k :: k in keys ==> k in row
  }

  /**
   * The key of a row: the values of its key fields, as itemgetter(*keys) would
   * return them. Every operator checks FirstMissing before it consults this,
   * so the placeholder for an absent field is never observed.
   */
  function KeyOf(row: Row, keys: seq<string>): (k: Key)
    ensures |k| == |keys|
    ensures forall i :: 0 <= i < |keys| && keys[i] in row ==> k[i] == row[keys[i]]
  {
    seq(|keys|, i requires 0 <= i < |keys| => if keys[i] in row then row[keys[i]] else Int(0))
  }

  /* ---------- Ordering ---------- */

  /** Lexicographic comparison of strings by code point, as Python compares str. */
  function CompareStrings(s: string, t: string): (c: int)
    ensures -1 <= c <= 1
  {
    if s == [] then (if t == [] then 0 else -1)
    else if t == [] then 1
    else if s[0] < t[0] then -1
    else if s[0] > t[0] then 1
    else CompareStrings(s[1..], t[1..])
  }

  /**
   * Comparison of values. Ints compare numerically and strings
   * lexicographically; Python refuses to compare an int with a str, and the
   * model orders ints before strings instead.
   */
  function CompareValues(a: Value, b: Value): (c: int)
    ensures -1 <= c <= 1
  {
    match (a, b)
    case (Int(x), Int(y)) => if x < y then -1 else if x > y then 1 else 0
    case (Int(_), Str(_)) => -1
    case (Str(_), Int(_)) => 1
    case (Str(x), Str(y)) => CompareStrings(x, y)
  }

  /** Lexicographic comparison of keys, as Python compares tuples. */
  function CompareKeys(a: Key, b: Key): (c: int)
    ensures -1 <= c <= 1
  {
    if a == [] then (if b == [] then 0 else -1)
    else if b == [] then 1
    else if CompareValues(a[0], b[0]) != 0 then CompareValues(a[0], b[0])
    else CompareKeys(a[1..], b[1..])
  }

  lemma {:induction false} CompareStringsProps(s: string, t: string)
    ensures CompareStrings(s, t) == 0 <==> s == t
    ensures CompareStrings(s, t) == -CompareStrings(t, s)
  {
    if s != [] && t != [] && s[0] == t[0] {
      CompareStringsProps(s[1..], t[1..]);
      if s[1..] == t[1..] { assert s == [s[0]] + s[1..]; assert t == [t[0]] + t[1..]; }
    }
  }

  lemma {:induction false} CompareStringsTrans(a: string, b: string, c: string)
    requires CompareStrings(a, b) <= 0 && CompareStrings(b, c) <= 0
    ensures CompareStrings(a, c) <= 0
    ensures CompareStrings(a, b) < 0 || CompareStrings(b, c) < 0 ==> CompareStrings(a, c) < 0
  {
    if a != [] && b != [] && c != [] && a[0] == b[0] == c[0] {
      CompareStringsTrans(a[1..], b[1..], c[1..]);
    }
  }

  lemma CompareValuesProps(a: Value, b: Value)
    ensures CompareValues(a, b) == 0 <==> a == b
    ensures CompareValues(a, b) == -CompareValues(b, a)
  {
    if a.Str? && b.Str? { CompareStringsProps(a.s, b.s); }
  }

  lemma CompareValuesTrans(a: Value, b: Value, c: Value)
    requires CompareValues(a, b) <= 0 && CompareValues(b, c) <= 0
    ensures CompareValues(a, c) <= 0
    ensures CompareValues(a, b) < 0 || CompareValues(b, c) < 0 ==> CompareValues(a, c) < 0
  {
    if a.Str? && b.Str? && c.Str? { CompareStringsTrans(a.s, b.s, c.s); }
  }

  lemma {:induction false} CompareKeysProps(a: Key, b: Key)
    ensures CompareKeys(a, b) == 0 <==> a == b
    ensures CompareKeys(a, b) == -CompareKeys(b, a)
  {
    if a != [] && b != [] {
      CompareValuesProps(a[0], b[0]);
      if CompareValues(a[0], b[0]) == 0 {
        CompareKeysProps(a[1..], b[1..]);
        if a[1..] == b[1..] { assert a == [a[0]] + a[1..]; assert b == [b[0]] + b[1..]; }
      }
    }
  }

  lemma {:induction false} CompareKeysTrans(a: Key, b: Key, c: Key)
    requires CompareKeys(a, b) <= 0 && CompareKeys(b, c) <= 0
    ensures CompareKeys(a, c) <= 0
    ensures CompareKeys(a, b) < 0 || CompareKeys(b, c) < 0 ==> CompareKeys(a, c) < 0
  {
    if a != [] && b != [] && c != [] {
      CompareValuesProps(a[0], b[0]);
      CompareValuesProps(b[0], c[0]);
      CompareValuesProps(a[0], c[0]);
      CompareValuesTrans(a[0], b[0], c[0]);
      if CompareValues(a[0], b[0]) == 0 && CompareValues(b[0], c[0]) == 0 {
        CompareKeysTrans(a[1..], b[1..], c[1..]);
      }
    }
  }
}
