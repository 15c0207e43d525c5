/**
 * The row mappers and the Map operation, which flat-maps a mapper over a
 * stream. Each mapper turns one row into zero or more rows, or raises.
 */
module Mappers {
  import opened Rows

  /* ---------- characters and words ---------- */

  /** The 32 ASCII characters of Python's `string.punctuation`. */
  predicate IsPunctuation(c: char)
  {
    ('!' <= c <= '/') || (':' <= c <= '@') || ('[' <= c <= '`') || ('{' <= c <= '~')
  }

  /**
   * The characters for which `str.isspace` holds; they are also what the
   * regex class `\s` matches in a str pattern.
   */
  predicate IsSpace(c: char)
  {
    || ('\t' <= c <= '\r') || ('\U{1C}' <= c <= ' ')
    || c == '\U{85}' || c == '\U{A0}' || c == '\U{1680}'
    || ('\U{2000}' <= c <= '\U{200A}') || c == '\U{2028}' || c == '\U{2029}'
    || c == '\U{202F}' || c == '\U{205F}' || c == '\U{3000}'
  }

  predicate IsUpper(c: char) { 'A' <= c <= 'Z' }

  /** `s.translate(str.maketrans('', '', string.punctuation))`: punctuation deleted. */
  function StripPunctuation(s: string): (r: string)
    ensures forall c :: c in r ==> !IsPunctuation(c)
    ensures |r| <= |s|
  {
    if s == [] then []
    else (if IsPunctuation(s[0]) then [] else [s[0]]) + StripPunctuation(s[1..])
  }

  /** Every character that is not punctuation survives, as often as it occurs. */
  lemma {:induction false} StripPunctuationKeeps(s: string)
    ensures forall c :: !IsPunctuation(c) ==> multiset(StripPunctuation(s))[c] == multiset(s)[c]
  {
    if s != [] {
      StripPunctuationKeeps(s[1..]);
      assert s == [s[0]] + s[1..];
    }
  }

  /** Deleting punctuation keeps the order of the remaining characters. */
  lemma {:induction false} StripPunctuationAppend(a: string, b: string)
    ensures StripPunctuation(a + b) == StripPunctuation(a) + StripPunctuation(b)
  {
    if a == [] {
      assert a + b == b;
    } else {
      assert a + b == [a[0]] + (a[1..] + b);
      StripPunctuationAppend(a[1..], b);
      StripPunctuationCons(a[0], a[1..] + b);
      StripPunctuationCons(a[0], a[1..]);
      assert a == [a[0]] + a[1..];
      var h: string := if IsPunctuation(a[0]) then [] else [a[0]];
      assert h + (StripPunctuation(a[1..]) + StripPunctuation(b)) == (h + StripPunctuation(a[1..])) + StripPunctuation(b);
    }
  }

  lemma StripPunctuationCons(c: char, s: string)
    ensures StripPunctuation([c] + s) == (if IsPunctuation(c) then [] else [c]) + StripPunctuation(s)
  {
    assert ([c] + s)[1..] == s;
  }

  /** A string without punctuation is left as it is. */
  lemma {:induction false} StripPunctuationIdentity(s: string)
    requires forall c :: c in s ==> !IsPunctuation(c)
    ensures StripPunctuation(s) == s
  {
    if s != [] {
      assert s[0] in s;
      assert forall c :: c in s[1..] ==> c in s;
      StripPunctuationIdentity(s[1..]);
      assert s == [s[0]] + s[1..];
    }
  }

  /** `str.lower` on one character, for the ASCII letters. */
  function LowerChar(c: char): (d: char)
    ensures !IsUpper(d)
    ensures IsUpper(c) ==> d as int == c as int + 32
    ensures !IsUpper(c) ==> d == c
  {
    if IsUpper(c) then (c as int + 32) as char else c
  }

  /** `str.lower`, folding the ASCII capitals A-Z. */
  function Lower(s: string): (r: string)
    ensures |r| == |s|
    ensures forall c :: c in r ==> !IsUpper(c)
    ensures forall i :: 0 <= i < |s| ==> r[i] == LowerChar(s[i])
  {
    seq(|s|, i requires 0 <= i < |s| => LowerChar(s[i]))
  }

  lemma LowerIdempotent(s: string)
    ensures Lower(Lower(s)) == Lower(s)
  {
  }

  /** A token: a non-empty run of non-whitespace characters. */
  predicate IsWord(w: string)
  {
    w != [] && forall c :: c in w ==> !IsSpace(c)
  }

  /** The length of the run of non-whitespace characters that starts `s`. */
  function WordLength(s: string): (n: nat)
    ensures n <= |s|
    ensures forall i :: 0 <= i < n ==> !IsSpace(s[i])
    ensures n < |s| ==> IsSpace(s[n])
  {
    if s == [] || IsSpace(s[0]) then 0 else 1 + WordLength(s[1..])
  }

  /**
   * The values `Split` produces with the default separator: every match of
   * `(\S*)\s*`, stripped, and kept when non-empty. These are exactly the
   * maximal runs of non-whitespace characters, in order.
   */
  function Tokens(s: string): (ts: seq<string>)
    ensures forall i :: 0 <= i < |ts| ==> IsWord(ts[i])
    decreases |s|
  {
    if s == [] then []
    else if IsSpace(s[0]) then Tokens(s[1..])
    else
      var n := WordLength(s);
      assert s[..n][0] == s[0];
      [s[..n]] + Tokens(s[n..])
  }

  /** The words joined with single spaces, as `' '.join(words)`. */
  function Unwords(ws: seq<string>): (s: string)
  {
    if ws == [] then []
    else if |ws| == 1 then ws[0]
    else ws[0] + " " + Unwords(ws[1..])
  }

  lemma {:induction false} WordLengthOfWord(w: string, rest: string)
    requires forall c :: c in w ==> !IsSpace(c)
    requires rest == [] || IsSpace(rest[0])
    ensures WordLength(w + rest) == |w|
  {
    if w != [] {
      assert w[0] in w;
      assert forall c :: c in w[1..] ==> c in w;
      assert (w + rest)[1..] == w[1..] + rest;
      WordLengthOfWord(w[1..], rest);
    } else {
      assert w + rest == rest;
    }
  }

  /** A word followed by whitespace or nothing is the first token. */
  lemma TokensOfWord(w: string, rest: string)
    requires IsWord(w)
    requires rest == [] || IsSpace(rest[0])
    ensures Tokens(w + rest) == [w] + Tokens(rest)
  {
    WordLengthOfWord(w, rest);
    assert (w + rest)[0] in w;
    assert (w + rest)[..|w|] == w;
    assert (w + rest)[|w|..] == rest;
  }

  /** Splitting words joined by spaces gives the words back. */
  lemma {:induction false} TokensUnwords(ws: seq<string>)
    requires forall i :: 0 <= i < |ws| ==> IsWord(ws[i])
    ensures Tokens(Unwords(ws)) == ws
  {
    if |ws| == 1 {
      TokensOfWord(ws[0], []);
      assert ws[0] + [] == ws[0];
    } else if |ws| > 1 {
      var rest := Unwords(ws[1..]);
      assert Unwords(ws) == ws[0] + ([' '] + rest);
      TokensOfWord(ws[0], [' '] + rest);
      TokensSkipSpace(' ', rest);
      TokensUnwords(ws[1..]);
      assert ws == [ws[0]] + ws[1..];
    }
  }

  /** Whitespace at the front of a string does not change its tokens. */
  lemma TokensSkipSpace(c: char, s: string)
    requires IsSpace(c)
    ensures Tokens([c] + s) == Tokens(s)
  {
    assert ([c] + s)[1..] == s;
  }

  /* ---------- multiplication, as Python's `*` on ints and strings ---------- */

  /** `s * n`: `s` repeated n times, empty when n is not positive. */
  function Repeat(s: string, n: int): (r: string)
    ensures |r| == if n <= 0 then 0 else n * |s|
    decreases n
  {
    if n <= 0 then [] else s + Repeat(s, n - 1)
  }

  function Multiply(a: Value, b: Value): (r: Result<Value>)
    ensures r.Fail? <==> a.Str? && b.Str?
    ensures a.Int? && b.Int? ==> r == Ok(Int(a.i * b.i))
  {
    match (a, b)
    case (Int(x), Int(y)) => Ok(Int(x * y))
    case (Int(x), Str(t)) => Ok(Str(Repeat(t, x)))
    case (Str(t), Int(y)) => Ok(Str(Repeat(t, y)))
    case (Str(_), Str(_)) => Fail(TypeError)
  }

  /** The product of a list of integers. */
  function IntProduct(xs: seq<int>): int
  {
    if xs == [] then 1 else xs[0] * IntProduct(xs[1..])
  }

  /**
   * `row[result] *= row[column]` for each column in turn, starting from the
   * current value of `row[result]`; a later column may read the product so far.
   */
  function ProductFrom(row: Row, columns: seq<string>, result: string): (r: Result<Row>)
    requires result in row
    ensures r.Ok? ==> r.value.Keys == row.Keys
    ensures r.Ok? ==> forall k :: k in row && k != result ==> r.value[k] == row[k]
    ensures r.Fail? ==> r.error == TypeError || exists c :: c in columns && r.error == KeyError(c)
    decreases |columns|
  {
    if columns == [] then Ok(row)
    else if columns[0] !in row then Fail(KeyError(columns[0]))
    else match Multiply(row[result], row[columns[0]])
      case Fail(e) => Fail(e)
      case Ok(v) =>
        var r := ProductFrom(row[result := v], columns[1..], result);
        assert r.Fail? && r.error != TypeError ==> exists c :: c in columns && r.error == KeyError(c) by {
          if r.Fail? && r.error != TypeError {
            var c :| c in columns[1..] && r.error == KeyError(c);
            assert c in columns;
          }
        }
        r
  }

  /** What `Product(columns, result)` does to a row: set `result` to 1, then multiply in. */
  function ProductSpec(row: Row, columns: seq<string>, result: string): (r: Result<Row>)
  {
    ProductFrom(row[result := Int(1)], columns, result)
  }

  /** The method body of `Product.__call__`, updating the row in a loop. */
  method ApplyProduct(row: Row, columns: seq<string>, result: string) returns (r: Result<Row>)
    ensures r == ProductSpec(row, columns, result)
  {
    var current := row[result := Int(1)];
    var i := 0;
    while i < |columns|
      invariant 0 <= i <= |columns|
      invariant result in current
      invariant ProductFrom(current, columns[i..], result) == ProductSpec(row, columns, result)
    {
      assert columns[i..][0] == columns[i] && columns[i..][1..] == columns[i + 1..];
      var column := columns[i];
      if column !in current {
        return Fail(KeyError(column));
      }
      var product := Multiply(current[result], current[column]);
      if product.Fail? {
        return Fail(product.error);
      }
      current := current[result := product.value];
      i := i + 1;
    }
    return Ok(current);
  }

  /** The integer values of `columns` in `row`. */
  function IntValues(row: Row, columns: seq<string>): seq<int>
    requires forall c :: c in columns ==> c in row && row[c].Int?
  {
    seq(|columns|, i requires 0 <= i < |columns| => row[columns[i]].i)
  }

  lemma {:induction false} ProductFromInts(row: Row, columns: seq<string>, result: string, acc: int)
    requires result in row && row[result] == Int(acc) && result !in columns
    requires forall c :: c in columns ==> c in row && row[c].Int?
    ensures ProductFrom(row, columns, result) == Ok(row[result := Int(acc * IntProduct(IntValues(row, columns)))])
    decreases |columns|
  {
    var xs := IntValues(row, columns);
    if columns == [] {
      assert row[result := Int(acc * 1)] == row;
    } else {
      var next := row[result := Int(acc * xs[0])];
      assert forall c :: c in columns[1..] ==> c in columns;
      ProductFromInts(next, columns[1..], result, acc * xs[0]);
      assert IntValues(next, columns[1..]) == xs[1..];
      assert acc * xs[0] * IntProduct(xs[1..]) == acc * (xs[0] * IntProduct(xs[1..]));
      assert next[result := Int(acc * xs[0] * IntProduct(xs[1..]))] == row[result := Int(acc * IntProduct(xs))];
    }
  }

  /**
   * On integer columns other than the result column, Product stores the
   * product of their values and changes nothing else.
   */
  lemma ProductOfInts(row: Row, columns: seq<string>, result: string)
    requires result !in columns
    requires forall c :: c in columns ==> c in row && row[c].Int?
    ensures ProductSpec(row, columns, result) == Ok(row[result := Int(IntProduct(IntValues(row, columns)))])
  {
    var start := row[result := Int(1)];
    ProductFromInts(start, columns, result, 1);
    var p := IntProduct(IntValues(row, columns));
    assert IntValues(start, columns) == IntValues(row, columns);
    assert 1 * p == p;
    assert start[result := Int(p)] == row[result := Int(p)];
  }

  /* ---------- mappers ---------- */

  datatype Mapper =
    | Dummy
    | FilterPunctuation(column: string)
    | LowerCase(column: string)
    | Split(column: string)                          // default separator only
    | Product(columns: seq<string>, result: string)  // result defaults to 'product'
    | Filter(condition: Row -> bool)
    | Project(columns: seq<string>)
    | LongerThanN(column: string, n: int)
    | AtLeastNTimes(column: string, n: int)

  /** The rows `Split` yields: one copy of `row` per token, with the column replaced. */
  function SplitRows(row: Row, column: string, tokens: seq<string>): (rs: seq<Row>)
    ensures |rs| == |tokens|
    ensures forall i :: 0 <= i < |rs| ==> rs[i] == row[column := Str(tokens[i])]
  {
    seq(|tokens|, i requires 0 <= i < |tokens| => row[column := Str(tokens[i])])
  }

  /** A mapper applied to one row: the rows it yields, or the error it raises. */
  function Apply(m: Mapper, row: Row): (out: Stream)
    ensures out.failure.Some? ==> out.rows == []
  {
    match m
    case Dummy => Stream([row], None)
    case FilterPunctuation(col) =>
      if col !in row then Stream([], Some(KeyError(col)))
      else if row[col].Int? then Stream([], Some(AttributeError))  // int has no translate
      else Stream([row[col := Str(StripPunctuation(row[col].s))]], None)
    case LowerCase(col) =>
      if col !in row then Stream([], Some(KeyError(col)))
      else if row[col].Int? then Stream([], Some(AttributeError))  // int has no lower
      else Stream([row[col := Str(Lower(row[col].s))]], None)
    case Split(col) =>
      if col !in row then Stream([], Some(KeyError(col)))
      else if row[col].Int? then Stream([], Some(TypeError))       // re.finditer needs a string
      else Stream(SplitRows(row, col, Tokens(row[col].s)), None)
    case Product(cols, res) =>
      (match ProductSpec(row, cols, res)
       case Ok(r) => Stream([r], None)
       case Fail(e) => Stream([], Some(e)))
    case Filter(cond) => Stream(if cond(row) then [row] else [], None)
    case Project(cols) =>
      (match FirstMissing(row, cols)
       case Some(k) => Stream([], Some(KeyError(k)))
       case None => Stream([map k | k in cols :: row[k]], None))
    case LongerThanN(col, n) =>
      if col !in row then Stream([], Some(KeyError(col)))
      else if row[col].Int? then Stream([], Some(TypeError))       // len of an int
      else Stream(if |row[col].s| > n then [row] else [], None)
    case AtLeastNTimes(col, n) =>
      if col !in row then Stream([], Some(KeyError(col)))
      else if row[col].Str? then Stream([], Some(TypeError))       // str >= int
      else Stream(if row[col].i >= n then [row] else [], None)
  }

  /** Map: the mapper's outputs for each row in turn, stopping at the first error. */
  function MapStream(m: Mapper, s: Stream): (r: Stream)
    decreases |s.rows|
  {
    if s.rows == [] then s
    else
      var out := Apply(m, s.rows[0]);
      if out.failure.Some? then out
      else Prepend(out.rows, MapStream(m, Stream(s.rows[1..], s.failure)))
  }

  /** The rows the mapper yields for each input row. */
  function Outputs(m: Mapper, rows: seq<Row>): (outs: seq<seq<Row>>)
    ensures |outs| == |rows|
  {
    seq(|rows|, i requires 0 <= i < |rows| => Apply(m, rows[i]).rows)
  }

  lemma OutputsTail(m: Mapper, rows: seq<Row>)
    requires rows != []
    ensures Outputs(m, rows)[0] == Apply(m, rows[0]).rows
    ensures Outputs(m, rows)[1..] == Outputs(m, rows[1..])
  {
  }

  /**
   * When the mapper raises on no row, Map's output is the concatenation, in
   * input order, of what it yields for each row, and the stream ends as its
   * input ends.
   */
  lemma {:induction false} MapConcatenates(m: Mapper, s: Stream)
    requires forall i :: 0 <= i < |s.rows| ==> Apply(m, s.rows[i]).failure.None?
    ensures MapStream(m, s) == Stream(Flatten(Outputs(m, s.rows)), s.failure)
    decreases |s.rows|
  {
    if s.rows != [] {
      var rest := Stream(s.rows[1..], s.failure);
      MapConcatenates(m, rest);
      OutputsTail(m, s.rows);
    }
  }

  /**
   * When the mapper first raises on row k, Map yields the outputs for the
   * rows before k and then raises that error.
   */
  lemma {:induction false} MapStopsAtError(m: Mapper, s: Stream, k: nat)
    requires k < |s.rows| && Apply(m, s.rows[k]).failure.Some?
    requires forall i :: 0 <= i < k ==> Apply(m, s.rows[i]).failure.None?
    ensures MapStream(m, s) == Stream(Flatten(Outputs(m, s.rows[..k])), Apply(m, s.rows[k]).failure)
    decreases k
  {
    if k > 0 {
      var rest := Stream(s.rows[1..], s.failure);
      MapStopsAtError(m, rest, k - 1);
      assert s.rows[..k][1..] == rest.rows[..k - 1];
      OutputsTail(m, s.rows[..k]);
    }
  }

  /** DummyMapper makes Map the identity. */
  lemma {:induction false} MapDummy(s: Stream)
    ensures MapStream(Dummy, s) == s
    decreases |s.rows|
  {
    if s.rows != [] {
      MapDummy(Stream(s.rows[1..], s.failure));
      assert [s.rows[0]] + s.rows[1..] == s.rows;
    }
  }

  /** The rows satisfying `p`, in their original order. */
  function Keep(rows: seq<Row>, p: Row -> bool): (r: seq<Row>)
    ensures forall x :: x in r ==> x in rows && p(x)
    ensures forall x :: p(x) ==> multiset(r)[x] == multiset(rows)[x]
    ensures forall x :: !p(x) ==> multiset(r)[x] == 0
  {
    if rows == [] then []
    else
      assert rows == [rows[0]] + rows[1..];
      (if p(rows[0]) then [rows[0]] else []) + Keep(rows[1..], p)
  }

  /** Keeping rows commutes with concatenation: order is preserved. */
  lemma {:induction false} KeepAppend(a: seq<Row>, b: seq<Row>, p: Row -> bool)
    ensures Keep(a + b, p) == Keep(a, p) + Keep(b, p)
  {
    if a == [] {
      assert a + b == b;
    } else {
      assert (a + b)[1..] == a[1..] + b;
      KeepAppend(a[1..], b, p);
    }
  }

  /** A mapper that yields its row or nothing, according to `p`, filters the stream by `p`. */
  lemma {:induction false} MapKeeps(m: Mapper, s: Stream, p: Row -> bool)
    requires forall row: Row :: Apply(m, row) == Stream(if p(row) then [row] else [], None)
    ensures MapStream(m, s) == Stream(Keep(s.rows, p), s.failure)
    decreases |s.rows|
  {
    if s.rows != [] {
      MapKeeps(m, Stream(s.rows[1..], s.failure), p);
    }
  }

  /** Filter keeps exactly the rows that satisfy the condition, in order. */
  lemma MapFilter(cond: Row -> bool, s: Stream)
    ensures MapStream(Filter(cond), s) == Stream(Keep(s.rows, cond), s.failure)
  {
    forall row: Row
      ensures Apply(Filter(cond), row) == Stream(if cond(row) then [row] else [], None)
    {
      FilterRow(cond, row);
    }
    MapKeeps(Filter(cond), s, cond);
  }

  /** Filter yields its row exactly when the condition holds. */
  lemma FilterRow(cond: Row -> bool, row: Row)
    ensures Apply(Filter(cond), row) == Stream(if cond(row) then [row] else [], None)
  {
  }

  predicate LongerThan(row: Row, column: string, n: int)
  {
    column in row && row[column].Str? && |row[column].s| > n
  }

  predicate AtLeast(row: Row, column: string, n: int)
  {
    column in row && row[column].Int? && row[column].i >= n
  }

  /** On string values, LongerThanN keeps exactly the rows whose value is strictly longer than n. */
  lemma MapLongerThanN(column: string, n: int, s: Stream)
    requires forall i :: 0 <= i < |s.rows| ==> column in s.rows[i] && s.rows[i][column].Str?
    ensures MapStream(LongerThanN(column, n), s) == Stream(Keep(s.rows, row => LongerThan(row, column, n)), s.failure)
  {
    var p := (row: Row) => LongerThan(row, column, n);
    forall row: Row | column in row && row[column].Str?
      ensures Apply(LongerThanN(column, n), row) == Stream(if p(row) then [row] else [], None)
    {
      LongerThanRow(column, n, row);
    }
    KeepsOnStrings(LongerThanN(column, n), s, p, column, true);
  }

  /** On integer values, AtLeastNTimes keeps exactly the rows whose value is at least n. */
  lemma MapAtLeastNTimes(column: string, n: int, s: Stream)
    requires forall i :: 0 <= i < |s.rows| ==> column in s.rows[i] && s.rows[i][column].Int?
    ensures MapStream(AtLeastNTimes(column, n), s) == Stream(Keep(s.rows, row => AtLeast(row, column, n)), s.failure)
  {
    var p := (row: Row) => AtLeast(row, column, n);
    forall row: Row | column in row && !row[column].Str?
      ensures Apply(AtLeastNTimes(column, n), row) == Stream(if p(row) then [row] else [], None)
    {
      AtLeastRow(column, n, row);
    }
    KeepsOnStrings(AtLeastNTimes(column, n), s, p, column, false);
  }

  /** On a string value, LongerThanN yields its row exactly when the string is longer than n. */
  lemma LongerThanRow(column: string, n: int, row: Row)
    requires column in row && row[column].Str?
    ensures Apply(LongerThanN(column, n), row) == Stream(if LongerThan(row, column, n) then [row] else [], None)
  {
  }

  /** On an integer value, AtLeastNTimes yields its row exactly when the value is at least n. */
  lemma AtLeastRow(column: string, n: int, row: Row)
    requires column in row && row[column].Int?
    ensures Apply(AtLeastNTimes(column, n), row) == Stream(if AtLeast(row, column, n) then [row] else [], None)
  {
  }

  lemma {:induction false} KeepsOnStrings(m: Mapper, s: Stream, p: Row -> bool, column: string, strings: bool)
    requires forall i :: 0 <= i < |s.rows| ==> column in s.rows[i] && s.rows[i][column].Str? == strings
    requires forall row: Row :: column in row && row[column].Str? == strings ==>
               Apply(m, row) == Stream(if p(row) then [row] else [], None)
    ensures MapStream(m, s) == Stream(Keep(s.rows, p), s.failure)
    decreases |s.rows|
  {
    if s.rows != [] {
      KeepsOnStrings(m, Stream(s.rows[1..], s.failure), p, column, strings);
    }
  }

  /** Project yields a row with exactly the listed columns, or KeyError for the first missing one. */
  lemma ProjectKeepsColumns(columns: seq<string>, row: Row)
    ensures FirstMissing(row, columns).Some? ==>
              Apply(Project(columns), row) == Stream([], Some(KeyError(FirstMissing(row, columns).value)))
    ensures FirstMissing(row, columns).None? ==>
              && |Apply(Project(columns), row).rows| == 1
              && Apply(Project(columns), row).failure.None?
              && var r := Apply(Project(columns), row).rows[0];
                 && r.Keys == (set c | c in columns)
                 && forall c :: c in columns ==> r[c] == row[c]
  {
  }

  /**
   * FilterPunctuation, LowerCase and Product change only their target column:
   * every other field keeps its value and no field disappears.
   */
  lemma ChangesOnlyTarget(m: Mapper, row: Row, target: string)
    requires m.FilterPunctuation? || m.LowerCase? || m.Product?
    requires target == if m.Product? then m.result else m.column
    requires Apply(m, row).failure.None?
    ensures |Apply(m, row).rows| == 1
    ensures var r := Apply(m, row).rows[0];
      r.Keys == row.Keys + {target} && forall k :: k in row && k != target ==> r[k] == row[k]
  {
  }

  /**
   * Split yields one copy of the row per whitespace-separated token of the
   * column, in order, with only that column replaced.
   */
  lemma SplitYieldsTokens(column: string, row: Row)
    requires column in row && row[column].Str?
    ensures var out := Apply(Split(column), row);
      && out.failure.None?
      && |out.rows| == |Tokens(row[column].s)|
      && forall i :: 0 <= i < |out.rows| ==>
           && out.rows[i].Keys == row.Keys
           && out.rows[i][column] == Str(Tokens(row[column].s)[i])
           && IsWord(Tokens(row[column].s)[i])
           && forall k :: k in row && k != column ==> out.rows[i][k] == row[k]
  {
  }
}
