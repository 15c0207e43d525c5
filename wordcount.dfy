/**
 * `word_count_graph`: the pipeline that strips punctuation, lowercases and
 * splits a text column, then counts each distinct token and orders the
 * counts, as a composition of the modelled operators.
 */
module WordCount {
  import opened Rows
  import opened Sorting
  import opened Grouping
  import opened Mappers
  import opened Reducers
  import opened Graphs

  /** The graph `word_count_graph` builds on an iterator source. */
  function WordCountGraph(input: string, text: string, count: string): Graph
  {
    var tokens := Map(Map(Map(Copy(FromIter(input)), FilterPunctuation(text)), LowerCase(text)), Split(text));
    Sort(Reduce(Sort(tokens, [text]), Count(count), [text]), [count, text])
  }

  /** The text of a row as the first two mappers leave it. */
  function Normalize(s: string): string
  {
    Lower(StripPunctuation(s))
  }

  /** The tokens one input row contributes. */
  function RowWords(row: Row, text: string): seq<string>
  {
    if text in row && row[text].Str? then Tokens(Normalize(row[text].s)) else []
  }

  /** The tokens of all input rows, in order. */
  function Words(rows: seq<Row>, text: string): seq<string>
  {
    if rows == [] then [] else RowWords(rows[0], text) + Words(rows[1..], text)
  }

  /** Every input row carries a string in the text column. */
  ghost predicate Textual(rows: seq<Row>, text: string)
  {
    forall i :: 0 <= i < |rows| ==> text in rows[i] && rows[i][text].Str?
  }

  /** The text column of each row (a placeholder where it is missing). */
  function Texts(rows: seq<Row>, text: string): seq<Value>
  {
    seq(|rows|, i requires 0 <= i < |rows| => if text in rows[i] then rows[i][text] else Int(0))
  }

  function Strs(ws: seq<string>): seq<Value>
  {
    seq(|ws|, i requires 0 <= i < |ws| => Str(ws[i]))
  }

  /** The three mappers of the pipeline. */
  function Tokenized(rows: seq<Row>, text: string): Stream
  {
    MapStream(Split(text), MapStream(LowerCase(text), MapStream(FilterPunctuation(text), Stream(rows, None))))
  }

  /* ---------- stage 1: the mappers ---------- */

  lemma MapPrependOne(m: Mapper, x: Row, s: Stream)
    requires Apply(m, x).failure.None?
    ensures MapStream(m, Prepend([x], s)) == Prepend(Apply(m, x).rows, MapStream(m, s))
  {
    var p := Prepend([x], s);
    assert p.rows[1..] == s.rows;
  }

  lemma TextsAppend(a: seq<Row>, b: seq<Row>, text: string)
    ensures Texts(a + b, text) == Texts(a, text) + Texts(b, text)
  {
  }

  lemma StrsAppend(a: seq<string>, b: seq<string>)
    ensures Strs(a + b) == Strs(a) + Strs(b)
  {
  }

  /**
   * The mappers turn the input rows into one row per token, in order, with the
   * token in the text column.
   */
  lemma {:induction false} Tokenize(rows: seq<Row>, text: string)
    requires Textual(rows, text)
    ensures Tokenized(rows, text).failure.None?
    ensures Texts(Tokenized(rows, text).rows, text) == Strs(Words(rows, text))
    ensures forall r :: r in Tokenized(rows, text).rows ==> text in r
  {
    if rows != [] {
      assert Textual(rows[1..], text);
      Tokenize(rows[1..], text);
      TokenizedCons(rows, text);
      var toks := Tokens(Normalize(rows[0][text].s));
      var split := SplitRows(rows[0][text := Str(Normalize(rows[0][text].s))], text, toks);
      TextsAppend(split, Tokenized(rows[1..], text).rows, text);
      StrsAppend(toks, Words(rows[1..], text));
      assert Texts(split, text) == Strs(toks);
    }
  }

  /** The first input row becomes the rows of its tokens, ahead of the rest's. */
  lemma TokenizedCons(rows: seq<Row>, text: string)
    requires rows != [] && text in rows[0] && rows[0][text].Str?
    ensures Tokenized(rows, text)
            == Prepend(SplitRows(rows[0][text := Str(Normalize(rows[0][text].s))], text, Tokens(Normalize(rows[0][text].s))),
                       Tokenized(rows[1..], text))
  {
    var r := rows[0];
    var rest := Stream(rows[1..], None);
    assert Stream(rows, None) == Prepend([r], rest);
    var r1 := r[text := Str(StripPunctuation(r[text].s))];
    var r2 := r1[text := Str(Lower(r1[text].s))];
    assert r2 == r[text := Str(Normalize(r[text].s))];
    MapPrependOne(FilterPunctuation(text), r, rest);
    var s1 := MapStream(FilterPunctuation(text), rest);
    MapPrependOne(LowerCase(text), r1, s1);
    var s2 := MapStream(LowerCase(text), s1);
    MapPrependOne(Split(text), r2, s2);
  }

  /* ---------- counting rows by their text ---------- */

  /** 1 for a row whose text column is the string w, 0 otherwise. */
  function TextIs(text: string, w: string): Row -> int
  {
    (r: Row) => if text in r && r[text] == Str(w) then 1 else 0
  }

  /** The integer in the count column (0 where there is none). */
  function CountOf(count: string): Row -> int
  {
    (r: Row) => if count in r && r[count].Int? then r[count].i else 0
  }

  lemma {:induction false} SumTexts(rows: seq<Row>, text: string, w: string)
    ensures SumOf(rows, TextIs(text, w)) == multiset(Texts(rows, text))[Str(w)]
  {
    if rows != [] {
      SumTexts(rows[1..], text, w);
      assert Texts(rows, text) == [Texts(rows, text)[0]] + Texts(rows[1..], text);
    }
  }

  lemma {:induction false} StrsCount(ws: seq<string>, w: string)
    ensures multiset(Strs(ws))[Str(w)] == multiset(ws)[w]
  {
    if ws != [] {
      StrsCount(ws[1..], w);
      assert Strs(ws) == [Str(ws[0])] + Strs(ws[1..]);
      assert ws == [ws[0]] + ws[1..];
    }
  }

  /**
   * Groups of rows, each non-empty with one text value throughout, and no two
   * groups with the same text: the shape of the runs of a stream sorted by text.
   */
  ghost predicate ByText(gs: seq<seq<Row>>, text: string)
  {
    && (forall j :: 0 <= j < |gs| ==> gs[j] != [] && text in gs[j][0] && gs[j][0][text].Str?)
    && (forall j, r :: 0 <= j < |gs| && r in gs[j] ==> text in r && r[text] == gs[j][0][text])
    && (forall a, b :: 0 <= a < b < |gs| ==> gs[a][0][text] != gs[b][0][text])
  }

  /** Some group has the text w. */
  ghost predicate HasRun(gs: seq<seq<Row>>, text: string, w: string)
  {
    exists j :: 0 <= j < |gs| && gs[j] != [] && text in gs[j][0] && gs[j][0][text] == Str(w)
  }

  lemma {:induction false} SumOfGroup(g: seq<Row>, text: string, v: Value, w: string)
    requires forall r :: r in g ==> text in r && r[text] == v
    ensures SumOf(g, TextIs(text, w)) == if v == Str(w) then |g| else 0
  {
    if g != [] {
      assert forall r :: r in g[1..] ==> r in g;
      SumOfGroup(g[1..], text, v, w);
    }
  }

  /**
   * The first run's text is w, or some later run has it; when the first run has it,
   * no later one does.
   */
  lemma HasRunCons(gs: seq<seq<Row>>, text: string, w: string)
    requires ByText(gs, text) && gs != []
    ensures ByText(gs[1..], text)
    ensures HasRun(gs, text, w) <==> gs[0][0][text] == Str(w) || HasRun(gs[1..], text, w)
    ensures gs[0][0][text] == Str(w) ==> !HasRun(gs[1..], text, w)
  {
    var rest := gs[1..];
    assert forall j :: 0 <= j < |rest| ==> rest[j] == gs[j + 1];
    if HasRun(gs, text, w) && gs[0][0][text] != Str(w) {
      var j :| 0 <= j < |gs| && gs[j] != [] && text in gs[j][0] && gs[j][0][text] == Str(w);
      assert rest[j - 1] == gs[j];
    }
    if HasRun(rest, text, w) {
      var j :| 0 <= j < |rest| && rest[j] != [] && text in rest[j][0] && rest[j][0][text] == Str(w);
      assert gs[j + 1] == rest[j];
    }
  }

  lemma {:induction false} SumOfRuns(gs: seq<seq<Row>>, text: string, w: string)
    requires ByText(gs, text)
    ensures HasRun(gs, text, w) ==>
              forall j :: 0 <= j < |gs| && gs[j][0][text] == Str(w) ==> SumOf(Flatten(gs), TextIs(text, w)) == |gs[j]|
    ensures !HasRun(gs, text, w) ==> SumOf(Flatten(gs), TextIs(text, w)) == 0
  {
    if gs != [] {
      var rest := gs[1..];
      HasRunCons(gs, text, w);
      SumOfRuns(rest, text, w);
      SumOfAppend(gs[0], Flatten(rest), TextIs(text, w));
      SumOfGroup(gs[0], text, gs[0][0][text], w);
      if gs[0][0][text] != Str(w) {
        forall j | 0 <= j < |gs| && gs[j][0][text] == Str(w)
          ensures SumOf(Flatten(gs), TextIs(text, w)) == |gs[j]|
        {
          assert rest[j - 1] == gs[j];
        }
      }
    }
  }

  /* ---------- the Count reducer on the runs of the sorted tokens ---------- */

  /** The row Count yields for a group keyed by the text column. */
  function CountRow(g: seq<Row>, text: string, count: string): Row
    requires g != [] && text in g[0]
  {
    map[text := g[0][text], count := Int(|g|)]
  }

  /** One count row per group. */
  function Tally(gs: seq<seq<Row>>, text: string, count: string): seq<Row>
    requires forall j :: 0 <= j < |gs| ==> gs[j] != [] && text in gs[j][0]
  {
    seq(|gs|, j requires 0 <= j < |gs| => CountRow(gs[j], text, count))
  }

  lemma TallyTail(gs: seq<seq<Row>>, text: string, count: string)
    requires forall j :: 0 <= j < |gs| ==> gs[j] != [] && text in gs[j][0]
    requires gs != []
    ensures Tally(gs, text, count) == [CountRow(gs[0], text, count)] + Tally(gs[1..], text, count)
  {
    assert Tally(gs, text, count)[1..] == Tally(gs[1..], text, count);
  }

  lemma CountGroupRow(g: seq<Row>, text: string, count: string)
    requires g != [] && text in g[0] && text != count
    ensures ReducerRun(Count(count), [text], g, None) == Stream([CountRow(g, text, count)], None)
  {
    assert HasFields(g[0], [text]);
    CountsRows([text], g, count);
    var out := ReducerRun(Count(count), [text], g, None);
    assert (set k | k in [text]) == {text};
    assert out.rows[0] == CountRow(g, text, count);
  }

  lemma {:induction false} ReduceTally(gs: seq<seq<Row>>, text: string, count: string)
    requires forall j :: 0 <= j < |gs| ==> gs[j] != [] && text in gs[j][0]
    requires text != count
    ensures Flatten(GroupOutputs(Count(count), [text], gs)) == Tally(gs, text, count)
  {
    if gs != [] {
      GroupOutputsCons(Count(count), [text], gs);
      ReduceTally(gs[1..], text, count);
      CountGroupRow(gs[0], text, count);
      TallyTail(gs, text, count);
    }
  }

  /** The counts add up to the number of rows grouped. */
  lemma {:induction false} TallySums(gs: seq<seq<Row>>, text: string, count: string)
    requires forall j :: 0 <= j < |gs| ==> gs[j] != [] && text in gs[j][0]
    ensures SumOf(Tally(gs, text, count), CountOf(count)) == |Flatten(gs)|
  {
    if gs != [] {
      TallySums(gs[1..], text, count);
      assert Tally(gs, text, count)[1..] == Tally(gs[1..], text, count);
    }
  }

  /** Each text that has a group has exactly one count row. */
  lemma {:induction false} TallyTexts(gs: seq<seq<Row>>, text: string, count: string, w: string)
    requires ByText(gs, text) && text != count
    ensures SumOf(Tally(gs, text, count), TextIs(text, w)) == if HasRun(gs, text, w) then 1 else 0
  {
    if gs != [] {
      var rest := gs[1..];
      HasRunCons(gs, text, w);
      TallyTexts(rest, text, count, w);
      TallyTail(gs, text, count);
    }
  }

  lemma SingleKey(r: Row, text: string)
    requires text in r
    ensures KeyOf(r, [text]) == [r[text]]
  {
  }

  /** The runs of rows sorted by their (string) text column have the ByText shape. */
  lemma RunsByText(rows: seq<Row>, text: string)
    requires SortedBy(rows, [text], false)
    requires forall r: Row :: r in rows ==> text in r && r[text].Str?
    ensures ByText(Runs(rows, [text]), text)
  {
    var gs := Runs(rows, [text]);
    RunsTextual(rows, text);
    RunsDistinct(rows, text);
  }

  lemma RunsTextual(rows: seq<Row>, text: string)
    requires forall r: Row :: r in rows ==> text in r && r[text].Str?
    ensures var gs := Runs(rows, [text]);
            forall j :: 0 <= j < |gs| ==> gs[j] != [] && text in gs[j][0] && gs[j][0][text].Str?
    ensures var gs := Runs(rows, [text]);
            forall j, r: Row :: 0 <= j < |gs| && r in gs[j] ==> text in r && r[text] == gs[j][0][text]
  {
    var gs := Runs(rows, [text]);
    forall j, r: Row | 0 <= j < |gs| && r in gs[j]
      ensures text in r && r[text].Str? && r[text] == gs[j][0][text]
    {
      FlattenMember(gs, j, r);
      FlattenMember(gs, j, gs[j][0]);
      SingleKey(r, text);
      SingleKey(gs[j][0], text);
    }
    assert forall j :: 0 <= j < |gs| ==> gs[j] != [] && gs[j][0] in gs[j];
  }

  lemma RunsDistinct(rows: seq<Row>, text: string)
    requires SortedBy(rows, [text], false)
    requires forall r: Row :: r in rows ==> text in r && r[text].Str?
    ensures var gs := Runs(rows, [text]);
            forall a, b :: 0 <= a < b < |gs| ==> text in gs[a][0] && text in gs[b][0] && gs[a][0][text] != gs[b][0][text]
  {
    var gs := Runs(rows, [text]);
    var ks := GroupKeys(gs, [text]);
    RunsOfSorted(rows, [text]);
    forall i | 0 < i < |ks|
      ensures RisesAt(ks, i)
    {
      assert AscendsAt(ks, i) && NewKeyAt(gs, [text], i);
      CompareKeysProps(ks[i - 1], ks[i]);
    }
    NoDescentIncreasing(ks);
    forall a, b | 0 <= a < b < |gs|
      ensures text in gs[a][0] && text in gs[b][0] && gs[a][0][text] != gs[b][0][text]
    {
      FlattenMember(gs, a, gs[a][0]);
      FlattenMember(gs, b, gs[b][0]);
      CompareKeysProps(ks[a], ks[b]);
      SingleKey(gs[a][0], text);
      SingleKey(gs[b][0], text);
    }
  }

  /* ---------- the whole pipeline ---------- */

  /** Running the graph applies the six operations in turn to the rows of the source. */
  lemma PipelineUnfold(input: string, text: string, count: string, b: Bindings)
    requires NoParameterNames(b)
    ensures var source := Run(FromIter(input), b);
            Run(WordCountGraph(input, text, count), b)
              == SortStream(ReduceStream(Count(count), [text], SortStream(
                   MapStream(Split(text), MapStream(LowerCase(text), MapStream(FilterPunctuation(text), source))),
                   [text])), [count, text])
  {
    var source := Copy(FromIter(input));
    CopyRuns(FromIter(input), b);
    var s1 := Map(source, FilterPunctuation(text));
    var s2 := Map(s1, LowerCase(text));
    var tokens := Map(s2, Split(text));
    var sorted := Sort(tokens, [text]);
    var counted := Reduce(sorted, Count(count), [text]);
    ChainRuns(source, FilterPunctuation(text), First, [], b);
    ChainRuns(s1, LowerCase(text), First, [], b);
    ChainRuns(s2, Split(text), First, [text], b);
    ChainRuns(tokens, Dummy, First, [text], b);
    ChainRuns(sorted, Dummy, Count(count), [text], b);
    ChainRuns(counted, Dummy, First, [count, text], b);
  }

  /** The tokens sorted by text: every token once, as many times as it occurs. */
  lemma SortedTokens(rows: seq<Row>, text: string)
    requires Textual(rows, text)
    ensures var S := SortStream(Tokenized(rows, text), [text]);
            && S.failure.None?
            && |S.rows| == |Words(rows, text)|
            && SortedBy(S.rows, [text], false)
            && (forall r: Row :: r in S.rows ==> text in r && r[text].Str?)
            && (forall w :: SumOf(S.rows, TextIs(text, w)) == multiset(Words(rows, text))[w])
  {
    var T := Tokenized(rows, text);
    TokenRows(rows, text);
    SortByText(T.rows, text);
    assert T == Stream(T.rows, None);
  }

  /** The tokens carry their word in the text column, and each word as often as it occurs. */
  lemma TokenRows(rows: seq<Row>, text: string)
    requires Textual(rows, text)
    ensures var T := Tokenized(rows, text);
            && T.failure.None?
            && |T.rows| == |Words(rows, text)|
            && (forall r: Row :: r in T.rows ==> text in r && r[text].Str?)
            && (forall w :: SumOf(T.rows, TextIs(text, w)) == multiset(Words(rows, text))[w])
  {
    var T := Tokenized(rows, text);
    var W := Words(rows, text);
    Tokenize(rows, text);
    assert |T.rows| == |Texts(T.rows, text)| == |Strs(W)| == |W|;
    forall r: Row | r in T.rows
      ensures text in r && r[text].Str?
    {
      var i :| 0 <= i < |T.rows| && T.rows[i] == r;
      assert Texts(T.rows, text)[i] == Str(W[i]);
    }
    forall w
      ensures SumOf(T.rows, TextIs(text, w)) == multiset(W)[w]
    {
      SumTexts(T.rows, text, w);
      StrsCount(W, w);
    }
  }

  /** Sorting rows that all carry a string text column by that column keeps the per-word counts. */
  lemma SortByText(rows: seq<Row>, text: string)
    requires forall r: Row :: r in rows ==> text in r && r[text].Str?
    ensures var S := SortStream(Stream(rows, None), [text]);
            && S.failure.None?
            && |S.rows| == |rows|
            && SortedBy(S.rows, [text], false)
            && (forall r: Row :: r in S.rows ==> text in r && r[text].Str?)
            && (forall w :: SumOf(S.rows, TextIs(text, w)) == SumOf(rows, TextIs(text, w)))
  {
    assert forall i :: 0 <= i < |rows| ==> rows[i] in rows && HasFields(rows[i], [text]);
    var S := SortStream(Stream(rows, None), [text]);
    assert S.rows == SortRows(rows, [text], false);
    assert |S.rows| == |multiset(S.rows)| == |multiset(rows)| == |rows|;
    forall r: Row | r in S.rows
      ensures text in r && r[text].Str?
    {
      assert r in multiset(rows);
    }
    forall w
      ensures SumOf(S.rows, TextIs(text, w)) == SumOf(rows, TextIs(text, w))
    {
      SumOfPermutation(S.rows, rows, TextIs(text, w));
    }
  }

  /** Count over the runs of the sorted tokens yields one count row per run. */
  lemma CountedTokens(srows: seq<Row>, text: string, count: string)
    requires srows != [] && text != count
    requires SortedBy(srows, [text], false)
    requires forall r: Row :: r in srows ==> text in r && r[text].Str?
    ensures ByText(Runs(srows, [text]), text)
    ensures ReduceStream(Count(count), [text], Stream(srows, None)) == Stream(Tally(Runs(srows, [text]), text, count), None)
  {
    RunsByText(srows, text);
    var gs := Runs(srows, [text]);
    assert forall i :: 0 <= i < |srows| ==> HasFields(srows[i], [text]);
    forall j | 0 <= j < |gs|
      ensures ReducerRun(Count(count), [text], gs[j], None).failure.None?
    {
      CountGroupRow(gs[j], text, count);
    }
    ReduceOncePerRun(Count(count), [text], Stream(srows, None));
    ReduceTally(gs, text, count);
  }

  /**
   * `word_count_graph` on rows that all carry a string in the text column: with
   * no token at all the reduce fails at its first pull; otherwise the output has
   * exactly one row per distinct token, holding the token and its number of
   * occurrences and nothing else, ordered by (count, text), and the counts add up
   * to the number of tokens.
   */
  lemma WordCountOutput(input: string, text: string, count: string, b: Bindings)
    requires text != count
    requires input in b && Textual(b[input], text)
    requires NoParameterNames(b)
    ensures var W := Words(b[input], text);
            var out := Run(WordCountGraph(input, text, count), b);
            && (W == [] ==> out == Stream([], Some(RuntimeError)))
            && (W != [] ==> out.failure.None?)
            && (forall r :: r in out.rows ==>
                  && r.Keys == {text, count} && r[text].Str?
                  && r[count] == Int(multiset(W)[r[text].s]))
            && (forall w :: SumOf(out.rows, TextIs(text, w)) == if w in W then 1 else 0)
            && SortedBy(out.rows, [count, text], false)
            && SumOf(out.rows, CountOf(count)) == |W|
  {
    var rows := b[input];
    var W := Words(rows, text);
    PipelineUnfold(input, text, count, b);
    FromIterRuns(input, b);
    SortedTokens(rows, text);
    var S := SortStream(Tokenized(rows, text), [text]);
    if W == [] {
      assert S == Stream([], None);
      ReduceEmpty(Count(count), [text]);
    } else {
      CountedOutput(S.rows, W, text, count);
    }
  }

  /** The last two stages on the sorted tokens of a non-empty input. */
  lemma CountedOutput(srows: seq<Row>, W: seq<string>, text: string, count: string)
    requires srows != [] && text != count
    requires SortedBy(srows, [text], false)
    requires forall r: Row :: r in srows ==> text in r && r[text].Str?
    requires |srows| == |W|
    requires forall w :: SumOf(srows, TextIs(text, w)) == multiset(W)[w]
    ensures var out := SortStream(ReduceStream(Count(count), [text], Stream(srows, None)), [count, text]);
            && out.failure.None?
            && (forall r :: r in out.rows ==>
                  && r.Keys == {text, count} && r[text].Str?
                  && r[count] == Int(multiset(W)[r[text].s]))
            && (forall w :: SumOf(out.rows, TextIs(text, w)) == if w in W then 1 else 0)
            && SortedBy(out.rows, [count, text], false)
            && SumOf(out.rows, CountOf(count)) == |W|
  {
    CountedTokens(srows, text, count);
    var gs := Runs(srows, [text]);
    TallyRows(gs, W, text, count);
    TallySums(gs, text, count);
    SortTally(Tally(gs, text, count), W, text, count);
  }

  /** The final sort on (count, text) keeps the count rows and their sums. */
  lemma SortTally(tally: seq<Row>, W: seq<string>, text: string, count: string)
    requires forall r :: r in tally ==>
               && r.Keys == {text, count} && r[text].Str?
               && r[count] == Int(multiset(W)[r[text].s])
    requires forall w :: SumOf(tally, TextIs(text, w)) == if w in W then 1 else 0
    requires SumOf(tally, CountOf(count)) == |W|
    ensures var out := SortStream(Stream(tally, None), [count, text]);
            && out.failure.None?
            && (forall r :: r in out.rows ==>
                  && r.Keys == {text, count} && r[text].Str?
                  && r[count] == Int(multiset(W)[r[text].s]))
            && (forall w :: SumOf(out.rows, TextIs(text, w)) == if w in W then 1 else 0)
            && SortedBy(out.rows, [count, text], false)
            && SumOf(out.rows, CountOf(count)) == |W|
  {
    assert forall i :: 0 <= i < |tally| ==> tally[i] in tally && HasFields(tally[i], [count, text]);
    var out := SortStream(Stream(tally, None), [count, text]);
    assert out.rows == SortRows(tally, [count, text], false);
    forall w
      ensures SumOf(out.rows, TextIs(text, w)) == if w in W then 1 else 0
    {
      SumOfPermutation(out.rows, tally, TextIs(text, w));
    }
    forall r | r in out.rows
      ensures r in tally
    {
      assert r in multiset(tally);
    }
    SumOfPermutation(out.rows, tally, CountOf(count));
  }

  /** The count rows of runs whose texts occur as often as in W. */
  lemma TallyRows(gs: seq<seq<Row>>, W: seq<string>, text: string, count: string)
    requires ByText(gs, text) && text != count
    requires forall w :: SumOf(Flatten(gs), TextIs(text, w)) == multiset(W)[w]
    ensures forall w :: SumOf(Tally(gs, text, count), TextIs(text, w)) == if w in W then 1 else 0
    ensures forall r :: r in Tally(gs, text, count) ==>
              && r.Keys == {text, count} && r[text].Str?
              && r[count] == Int(multiset(W)[r[text].s])
  {
    var tally := Tally(gs, text, count);
    forall w
      ensures SumOf(tally, TextIs(text, w)) == if w in W then 1 else 0
    {
      SumOfRuns(gs, text, w);
      TallyTexts(gs, text, count, w);
      if HasRun(gs, text, w) {
        var j :| 0 <= j < |gs| && gs[j] != [] && text in gs[j][0] && gs[j][0][text] == Str(w);
        assert |gs[j]| > 0;
      }
    }
    forall r | r in tally
      ensures r.Keys == {text, count} && r[text].Str? && r[count] == Int(multiset(W)[r[text].s])
    {
      var j :| 0 <= j < |tally| && tally[j] == r;
      SumOfRuns(gs, text, r[text].s);
    }
  }

  /** An unbound input name makes the whole graph fail with KeyError. */
  lemma WordCountUnbound(input: string, text: string, count: string, b: Bindings)
    requires input !in b && NoParameterNames(b)
    ensures Run(WordCountGraph(input, text, count), b) == Stream([], Some(KeyError(input)))
  {
    PipelineUnfold(input, text, count, b);
    FromIterRuns(input, b);
    var e := Stream([], Some(KeyError(input)));
    assert MapStream(FilterPunctuation(text), e) == e;
    assert MapStream(LowerCase(text), e) == e;
    assert MapStream(Split(text), e) == e;
    assert GroupBy(e, [text]) == Grouped([], [], FailsAfter(KeyError(input)));
  }
}
