# compgraph in Dafny

compgraph builds computational graphs over streams of rows, where a row is a
dictionary from column names to values. A `Graph` node holds one operation and
its parent graphs. `run` evaluates the parents and then feeds their row streams
to the node's operation. The operations are:

- `Map`, which applies a mapper to each row;
- `Reduce`, which groups rows by key with `_safe_groupby` and applies a reducer
  to each group;
- `Join`, a sort-merge join of two grouped streams, with the inner, left, right
  or outer joiner;
- the sort node;
- `ReadIterGenerator`, which reads rows from a named keyword argument of `run`.

The word-count pipeline `word_count_graph` chains these operations: strip
punctuation, lower-case, split into words, sort, count and sort by count.

The model treats every stream as a value `Stream(rows, failure)`:

- `rows` are the rows a consumer receives before the generator stops;
- `failure` is the exception that stops it, or `None` for a clean end.

This is how the model keeps the source's lazy behaviour. An operation can yield
rows and only then raise `KeyError`, `TypeError`, `ValueError` or
`RuntimeError`, and the model keeps those rows and the error in order.

Rows are `map<string, Value>`, where a `Value` is an integer or a string.
Grouping produces `Grouped(groups, keys, end)`, and `end` records:

- whether the grouping ran out cleanly;
- whether an error surfaced while the last group was being consumed;
- whether an error was raised when the next group was requested.

The modules are:

| Module | Models |
|---|---|
| `Rows` | rows, values, errors and key comparison |
| `Sorting` | the sort node, a stable sort ascending by key |
| `Mappers` | the mappers and `Map` |
| `Grouping` | `_safe_groupby` |
| `Reducers` | the reducers and `Reduce` |
| `Joiners` | `common_join_part` and the four joiners |
| `Join` | the merge loop of `Join` |
| `Graphs` | `Graph`, its builders and `run` |
| `WordCount` | `word_count_graph` |

Three behaviours of the code shape the model:

- `Map` is a flat-map: a mapper yields zero or more rows.
- `Reduce` and `Join` on an empty stream with non-empty keys fail with
  `RuntimeError`. The bare `next(groups)` in `_safe_groupby` raises
  `StopIteration` inside a generator, and Python (PEP 479) turns that into
  `RuntimeError`.
- Unsorted input to `Reduce` or `Join` is detected. `_safe_groupby` raises
  `ValueError` on the first descending key, after the groups before it have been
  processed.

Four imperative parts of the source are Dafny methods, each proved equal to the
function that specifies it:

- `Joiners.MergeRow` and `Joiners.CommonJoinPart`, the loops of
  `common_join_part`;
- `Join.MergeGroups`, the `while True` loop of `Join`;
- `Reducers.CountGroup` and `Reducers.SumGroup`, the accumulating loops of
  `Count` and `Sum`;
- `Mappers.ApplyProduct`, the loop of `Product`.

## Model

| member | source | states |
|---|---|---|
| Rows.FirstMissing | compgraph/operations.py:318-319 | no column is reported exactly when the row has every listed column; otherwise the reported column is the first listed column, in list order, that the row lacks, which is the column the KeyError of `Project` and of `itemgetter` names |
| Rows.KeyOf | compgraph/operations.py:82 | `itemgetter(*keys)` gives one value per key column, in key order |
| Rows.CompareKeysProps | compgraph/operations.py:87 | the tuple order used for `prev_keys > keys` holds two keys equal only if they are the same, and is antisymmetric |
| Rows.CompareKeysTrans | compgraph/operations.py:87 | the tuple order is transitive, and strict when either step is strict |
| Rows.CompareValuesProps | compgraph/operations.py:87 | the value order holds two values equal only if they are the same, and is antisymmetric |
| Rows.CompareStringsProps | compgraph/operations.py:87 | the lexicographic string order holds two strings equal only if they are the same, and is antisymmetric |
| Sorting.SortRows | compgraph/graph.py:48-52 | the sorted rows are a permutation of the input, ordered by the key columns |
| Sorting.SortStream | compgraph/graph.py:48-52 | an upstream error passes through with no rows; a row lacking a key column gives a KeyError for a key column; otherwise the output is a permutation of the input, sorted ascending |
| Sorting.SortRowsIdempotent | compgraph/graph.py:48-52 | sorting rows that are already sorted changes neither their content nor their order |
| Sorting.SortRowsStable | compgraph/graph.py:48-52 | the sort is stable: for every key, the rows with that key come out in the order they arrived |
| Sorting.MissingKeyField | compgraph/graph.py:48-52 | no column is reported exactly when every row has all key columns; a reported column is a key column |
| Sorting.SumOfPermutation | compgraph/graph.py:48-52 | a per-row total is the same over any permutation of the rows, so sorting preserves counts |
| Mappers.StripPunctuation | compgraph/operations.py:211-214 | the result has no ASCII punctuation and is no longer than the input |
| Mappers.StripPunctuationKeeps | compgraph/operations.py:211-214 | every character that is not punctuation survives with its multiplicity |
| Mappers.StripPunctuationIdentity | compgraph/operations.py:211-214 | text without punctuation is returned unchanged |
| Mappers.StripPunctuationAppend | compgraph/operations.py:211-214 | `translate` works character by character, so it distributes over concatenation |
| Mappers.LowerChar | compgraph/operations.py:227-229 | an upper-case ASCII letter becomes its lower-case letter; every other character stays as it is |
| Mappers.Lower | compgraph/operations.py:227-229 | `lower()` keeps the length, leaves no upper-case letter and maps each character independently |
| Mappers.LowerIdempotent | compgraph/operations.py:227-232 | lower-casing twice is the same as lower-casing once |
| Mappers.Tokens | compgraph/operations.py:245-250 | the stripped, non-empty matches of `(\S*)\s*` are non-empty words without whitespace (the whitespace set of `str.isspace`) |
| Mappers.TokensUnwords | compgraph/operations.py:245-250 | splitting words joined by single spaces gives back exactly those words |
| Mappers.TokensSkipSpace | compgraph/operations.py:245-250 | leading whitespace produces no token |
| Mappers.SplitRows | compgraph/operations.py:247-253 | one copy of the row per token, in order, each with only the split column replaced |
| Mappers.SplitYieldsTokens | compgraph/operations.py:247-253 | `Split` on a string column yields exactly the rows of `SplitRows` for the column's tokens, with no error |
| Mappers.Repeat | compgraph/operations.py:270 | `str * int` has length `n * len(s)`, or 0 when `n <= 0` |
| Mappers.Multiply | compgraph/operations.py:270 | `*=` raises TypeError exactly for two strings; two integers multiply |
| Mappers.ProductFrom | compgraph/operations.py:268-271 | on success, only the result column changes; the only failures are TypeError or KeyError for a listed column |
| Mappers.ApplyProduct | compgraph/operations.py:267-271 | the loop that sets the result to 1 and then multiplies by each column computes `ProductSpec` |
| Mappers.ProductOfInts | compgraph/operations.py:267-271 | on integer columns, the result column holds the product of the listed columns and nothing else changes |
| Mappers.Apply | compgraph/operations.py:184-369 | a mapper that raises on a row yields no row for it |
| Mappers.MapConcatenates | compgraph/operations.py:63-65 | `Map` yields the mapper's outputs row by row, in input order, and ends as its input ends |
| Mappers.MapStopsAtError | compgraph/operations.py:63-65 | at the first row on which the mapper raises, `Map` stops with that error after the outputs of the rows before it |
| Mappers.MapDummy | compgraph/operations.py:184-188 | `Map(DummyMapper)` is the identity on streams |
| Mappers.Keep | compgraph/operations.py:304-306 | the kept rows satisfy the condition; a row that satisfies it keeps its multiplicity, any other row is dropped |
| Mappers.MapFilter | compgraph/operations.py:295-306 | `Map(Filter(cond))` yields exactly the rows satisfying `cond`, in order |
| Mappers.FilterRow | compgraph/operations.py:304-306 | a row is yielded if and only if the condition holds |
| Mappers.MapLongerThanN | compgraph/operations.py:340-353 | on string columns, exactly the rows whose value is longer than `n` are kept, in order |
| Mappers.LongerThanRow | compgraph/operations.py:351-353 | a row is yielded if and only if `len(value) > n` |
| Mappers.MapAtLeastNTimes | compgraph/operations.py:356-369 | on integer columns, exactly the rows whose value is at least `n` are kept, in order |
| Mappers.AtLeastRow | compgraph/operations.py:367-369 | a row is yielded if and only if `value >= n` |
| Mappers.ProjectKeepsColumns | compgraph/operations.py:309-319 | a missing listed column raises KeyError for the first listed column the row lacks; otherwise one row whose keys are exactly the listed columns, each with the input row's value |
| Mappers.ChangesOnlyTarget | compgraph/operations.py:213-271 | FilterPunctuation, LowerCase and Product yield one row that differs from the input only in their target column |
| Grouping.ReadKeyed | compgraph/operations.py:82 | groupby reads a prefix of rows that carry every key column; at the first row that does not, it raises KeyError for the first key column, in key order, that the row lacks; otherwise the upstream ending is kept |
| Grouping.Runs | compgraph/operations.py:82 | the groupby runs concatenate back to the rows; each run is non-empty and shares one key, and adjacent runs have different keys |
| Grouping.RunLength | compgraph/operations.py:82 | a run extends exactly while the key stays the same |
| Grouping.FirstDescent | compgraph/operations.py:86-88 | the first group whose key is below its predecessor's; every key before it ascends |
| Grouping.GroupByShape | compgraph/operations.py:79-92 | the groups are a prefix of the input, in order; group keys strictly increase; each group is non-empty and shares its key |
| Grouping.GroupBySorted | compgraph/operations.py:81-90 | on a clean keyed stream, ValueError is raised if and only if the rows are not sorted; sorted rows give exactly their runs and a clean end |
| Grouping.GroupByEmpty | compgraph/operations.py:83 | an empty stream with keys raises RuntimeError when the first group is requested |
| Grouping.GroupByNoKeys | compgraph/operations.py:91-92 | with no keys the whole stream is one group, and an upstream error surfaces inside it |
| Grouping.RunsOfSorted | compgraph/operations.py:86-89 | runs of sorted rows have ascending keys, so `_safe_groupby` never raises on them |
| Grouping.FlattenSorted | compgraph/operations.py:86-89 | groups with ascending keys concatenate to sorted rows, the converse of `RunsOfSorted` |
| Reducers.KeyFields | compgraph/operations.py:554 | the new row has exactly the key columns, with the first row's values |
| Reducers.Add | compgraph/operations.py:586 | `+=` succeeds exactly when both values are integers or both are strings |
| Reducers.Take | compgraph/operations.py:457 | taking `n` rows yields the first `min(n, len)` rows, or none when `n <= 0` |
| Reducers.ReducerRun | compgraph/operations.py:518-588 | with no key fields, FirstReducer on a non-empty group and TopN with `n <= 0` stop reading and end cleanly; otherwise an error cutting the group short always surfaces; a reducer other than FirstReducer that fails yields no row |
| Reducers.CountGroup | compgraph/operations.py:551-560 | the counting loop computes the Count reducer's output |
| Reducers.SumGroup | compgraph/operations.py:579-588 | the summing loop computes the Sum reducer's output |
| Reducers.SumFromInts | compgraph/operations.py:585-586 | over integer values, the accumulator ends at its start plus the column total |
| Reducers.SumOfInts | compgraph/operations.py:579-588 | over integer values, Sum yields one row: the key columns of the first row plus the column total |
| Reducers.CountsRows | compgraph/operations.py:530-560 | Count yields the key columns plus the group size; CountRows yields just the group size under its column |
| Reducers.FirstYieldsFirst | compgraph/operations.py:194-197 | FirstReducer yields exactly the first row of a non-empty group |
| Reducers.TopNTakes | compgraph/operations.py:456-457 | `nlargest(n)` is the first `n` rows of a stable descending sort by the column |
| Reducers.TopNLargest | compgraph/operations.py:456-457 | TopN yields `min(n, len)` rows from the group, in descending order, and no row left out is larger than a yielded one |
| Reducers.ReduceFromConcatenates | compgraph/operations.py:100-102 | without errors, `Reduce` yields the reducer's outputs group by group, concatenated in order |
| Reducers.ReduceOncePerRun | compgraph/operations.py:100-102 | on sorted input, the reducer is called once per maximal run of equal keys, with all and only that run's rows |
| Reducers.ReduceNoKeys | compgraph/operations.py:91-92 | with no keys, the reducer sees the whole stream once, and an upstream error surfaces only if the reducer reads that far |
| Reducers.NoKeysStopsEarly | compgraph/operations.py:91-92 | with no keys, `Reduce(FirstReducer())` on a non-empty stream yields its first row and ends cleanly, and `Reduce(TopN(c, n))` with `n <= 0` yields nothing and ends cleanly, even when the upstream would fail later |
| Reducers.ReduceEmpty | compgraph/operations.py:83 | `Reduce` with keys on an empty stream fails with RuntimeError and yields nothing |
| Reducers.ReduceFromFailsAfter | compgraph/operations.py:86-88 | a grouping that raises makes `Reduce` fail with the grouping's error, unless a reducer fails first |
| Reducers.ReduceUnsorted | compgraph/operations.py:87-88 | `Reduce` on input not sorted by the keys fails, with ValueError unless a reducer fails first |
| Joiners.Combine | compgraph/operations.py:128-140 | a joined row has exactly the combined columns, each with its combined value |
| Joiners.CombineFields | compgraph/operations.py:130-139 | key columns appear once with the right row's value; columns on one side only keep their value; a non-key column on both sides becomes two suffixed columns |
| Joiners.MergeRow | compgraph/operations.py:130-139 | the per-pair merge loop computes `Combine` |
| Joiners.Pairs | compgraph/operations.py:129-140 | one joined row per right row, in order |
| Joiners.CrossRows | compgraph/operations.py:128-140 | `common_join_part` yields one row for each left row and right row |
| Joiners.CrossIndex | compgraph/operations.py:128-140 | the rows come left-major: position `i*len(right)+j` holds left row `i` joined with right row `j` |
| Joiners.MergeWithAll | compgraph/operations.py:129-140 | the inner loop yields one row per right row, each the joined row |
| Joiners.CommonJoinPart | compgraph/operations.py:121-140 | the nested loops yield `len(left)*len(right)` rows, exactly `CrossRows` |
| Joiners.JoinerRun | compgraph/operations.py:626-669 | a joiner fails exactly when one of its inputs fails, and with that input's error |
| Joiners.InnerTable | compgraph/operations.py:626-630 | the inner joiner yields exactly `CrossRows(a, b)`: `len(a)*len(b)` rows, and nothing when either side is empty |
| Joiners.LeftTable | compgraph/operations.py:648-657 | the left joiner yields the left rows unchanged when the right side is empty, and otherwise exactly `CrossRows(a, b)` |
| Joiners.RightTable | compgraph/operations.py:660-669 | the right joiner yields the right rows unchanged when the left side is empty, and otherwise exactly `CrossRows(b, a)` with the suffixes swapped |
| Joiners.OuterTable | compgraph/operations.py:633-645 | the outer joiner yields one side unchanged when the other is empty, and otherwise exactly `CrossRows(a, b)` |
| Joiners.CombineSwap | compgraph/operations.py:123-126 | swapping the rows together with the suffixes gives the same joined row, which justifies the right joiner's suffix swap |
| Join.Pull | compgraph/operations.py:152-153 | `next(groups, (None, None))` gives a group exactly while groups remain, the default exactly at a clean end, and otherwise the grouping's error |
| Join.Choose | compgraph/operations.py:155-175 | both sides advance exactly when their keys are equal; otherwise the side with the smaller key, or the only side left, advances and is joined against no rows |
| Join.Then | compgraph/operations.py:159 | `yield from` on a failing joiner ends the stream there; otherwise the rest follows |
| Join.MergeGroups | compgraph/operations.py:155-178 | the `while True` merge loop computes the recursive join `JoinFrom` |
| Join.JoinStreams | compgraph/operations.py:148-178 | `Join` groups both inputs and merges them, computing `JoinSpec` |
| Join.JoinFromFailure | compgraph/operations.py:149-178 | the join ends cleanly if and only if both groupings do; otherwise it fails with the error of one of them |
| Join.RaiseStops | compgraph/operations.py:152-175 | an error from pulling the left group stops the join at once; an error from pulling the right group stops it when the left does not raise |
| Join.VisitsCover | compgraph/operations.py:155-178 | the merge visits every left group and every right group exactly once, in order |
| Join.VisitsSound | compgraph/operations.py:156-175 | paired groups have equal keys, and an unpaired group's key is absent on the other side |
| Join.VisitsAscend | compgraph/operations.py:158-167 | the merge rounds visit strictly increasing keys |
| Join.CleanJoin | compgraph/operations.py:155-178 | with clean groupings, the join yields the joiner outputs of the merge rounds, concatenated in order |
| Join.JoinNoKeys | compgraph/operations.py:91-92 | with no keys, the joiner runs once, on the two whole streams |
| Join.JoinEmptyLeft | compgraph/operations.py:149-153 | a keyed join whose left input is empty fails with RuntimeError |
| Join.JoinEmptyRight | compgraph/operations.py:149-153 | a keyed join whose right input is empty fails with RuntimeError |
| Join.JoinSorted | compgraph/operations.py:149-178 | a keyed join fails with ValueError if and only if either input is unsorted; with both sorted, the groups are the runs and the output is the joiner outputs over the merge schedule |
| Join.JoinSchedule | compgraph/operations.py:152-178 | the merge schedule of two groupings covers both sides once, is sound and has strictly ascending keys |
| Graphs.ReadSource | compgraph/operations.py:40-42 | `ReadIterGenerator` yields the rows bound to its name, or raises KeyError for an unbound name |
| Graphs.RunDependsOnReads | compgraph/graph.py:62-65 | `run` depends only on the bindings the graph's sources read, and on whether a binding is named `self` or `rows` |
| Graphs.RunIgnoresOtherBindings | compgraph/graph.py:62-65 | adding bindings that no source reads, and that are not named `self` or `rows`, leaves the result unchanged |
| Graphs.ParameterClashFails | compgraph/graph.py:62-65 | a binding named `self`, or one named `rows` at any node but a source, is passed twice to the operation call, and the run fails with TypeError |
| Graphs.CopyRuns | compgraph/graph.py:13-15 | a copy runs like the original and reads the same sources |
| Graphs.FromIterRuns | compgraph/graph.py:17-24 | a source node yields its bound rows, or KeyError when unbound, or TypeError for a binding named `self`, and reads only its name |
| Graphs.ChainRuns | compgraph/graph.py:35-52 | `map`, `reduce` and `sort` run their operation on the parent's output and read the same sources |
| Graphs.JoinRuns | compgraph/graph.py:54-60 | `join` runs the join on the outputs of both parents and reads the sources of both |
| Graphs.SortRuns | compgraph/graph.py:48-52 | a sort node passes an upstream error on; with all key columns present it yields a sorted permutation of its parent's rows |
| Graphs.MissingParents | compgraph/graph.py:62-65 | an operation that needs a stream fails with TypeError when it has no parent; a join with one parent fails with IndexError when no binding clashes with its parameters |
| WordCount.PipelineUnfold | compgraph/algorithms.py:16-28 | `word_count_graph` runs FilterPunctuation, LowerCase, Split, sort by text, Count and sort by count and text, in this order |
| WordCount.Tokenize | compgraph/algorithms.py:22-25 | over string texts, the three mappers succeed; the token rows carry exactly the normalised words, in order |
| WordCount.TokenRows | compgraph/algorithms.py:22-25 | there is one token row per word, and each word occurs in the token rows as often as in the text |
| WordCount.SortByText | compgraph/algorithms.py:26 | the sort by text keeps every word's occurrences and orders the rows by text |
| WordCount.SortedTokens | compgraph/algorithms.py:22-26 | the sorted token stream is clean, sorted by text, and has each word as often as the input text does |
| WordCount.CountedTokens | compgraph/algorithms.py:27 | on the sorted tokens, Count yields one row per run of equal words, with that run's size |
| WordCount.CountGroupRow | compgraph/algorithms.py:27 | Count over one run yields the word and the run's size |
| WordCount.RunsByText | compgraph/algorithms.py:26-27 | the runs of sorted token rows hold one word each |
| WordCount.RunsDistinct | compgraph/algorithms.py:26-27 | different runs of sorted token rows hold different words |
| WordCount.TallySums | compgraph/algorithms.py:27 | the counts add up to the number of tokens |
| WordCount.TallyTexts | compgraph/algorithms.py:27 | each word gets exactly one count row when it occurs, and none otherwise |
| WordCount.TallyRows | compgraph/algorithms.py:27 | each count row has exactly the text and count columns, and the count is the word's number of occurrences |
| WordCount.SortTally | compgraph/algorithms.py:28 | the final sort keeps the count rows and orders them by count, then by text |
| WordCount.CountedOutput | compgraph/algorithms.py:26-28 | counting and then sorting the sorted tokens gives the word-count table |
| WordCount.WordCountOutput | compgraph/algorithms.py:16-28 | for string texts and no binding named `self` or `rows`: with no word, RuntimeError; otherwise one row per distinct word with its number of occurrences, sorted by count then word, counts summing to the number of words |
| WordCount.WordCountUnbound | compgraph/algorithms.py:20-22 | with the input name unbound, the graph fails with KeyError for that name |

## Left out

- `Read`, `graph_from_file` and the file branch of `reader` are not modelled. They do file I/O, and the model's only source is `graph_from_iter`.
- The other mappers, reducers and pipelines are not modelled. These are the floating-point and date operators (`LogTransform`, `Mean`, `TermFrequency`, `Haversine` and so on) and the inverted-index, PMI and map-speed pipelines.
- `compgraph/external_sort.py` is not part of this model. The sort node is modelled as a stable, materialising sort that is ascending by the key columns. It raises KeyError when a row lacks a key column. Its `__call__` is taken to have the `Operation.__call__(self, rows, ...)` signature, so a binding named `rows` clashes with it as it does with the other operations.
- Rows.CompareValues: integers are ordered before strings. Python raises TypeError when it compares an integer with a string, and the model does not raise this.
- Mappers.Lower: only ASCII letters are lower-cased. Unicode case mapping is not modelled.
- `Split` with an explicit separator is not modelled. Only `separator=None` is, which is the form `word_count_graph` uses.
- Field insertion order of rows is not modelled. Rows are maps, so the order of the columns in a yielded dictionary is not visible.
- Joiners.MergeRow: equals `Combine` only when the suffixed names do not collide with other columns (`NoNameClash`). When they do collide, Python's in-place renaming depends on the iteration order of the left row's columns, and that order is not modelled.
- Joiners.CommonJoinPart: states its rows exactly only under `NoNameClash`, for the same reason. Under a name clash only the row count is stated.
- Joiners.MergeWithAll: states its rows exactly only under `NoNameClash`, for the same reason.
- Aliasing is not modelled. `FilterPunctuation`, `LowerCase` and `Product` change the row in place and yield it; the model yields a new row. Each evaluation of a source is assumed to yield fresh rows. A source whose callable returns the same dictionaries on every call, reached along two paths of one graph, lets a mapper on one path change the rows the other path reads; that sharing is not modelled.
- Exceptions raised by a `Filter` condition are not modelled. The condition is a total Dafny function.
- The joiners are not modelled on `None` join keys. Values are never `None`, so the `(None, None)` default of `next` is used only as the sentinel for an exhausted grouping.
- Generator suspension is modelled only where it decides the outcome. A reducer that stops reading its input before an upstream error leaves that error unraised (`Reducers.StopsReading`). Otherwise a stream is everything yielded before the end or the first error.
- Reducers.TopNTakes: `heapq.nlargest` is modelled by its documented equivalent, a stable descending sort followed by taking `n` rows. The heap algorithm itself is not modelled.
- `run` evaluates a subgraph that is reachable along two paths once per path. The model evaluates each path independently, on fresh rows; sharing of row objects between the two evaluations, node identity and `copy` sharing the parents list are not modelled.
