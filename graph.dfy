/**
 * The computational graph: an immutable node holding one operation and the
 * graphs whose outputs feed it, run against a set of named row sources.
 */
module Graphs {
  import opened Rows
  import opened Sorting
  import opened Mappers
  import opened Reducers
  import opened Joiners
  import opened Join

  /** The operation a node performs on the outputs of its parents. */
  datatype Operation =
    | ReadIter(name: string)                        // ReadIterGenerator
    | MapOp(mapper: Mapper)                         // Map
    | ReduceOp(reducer: Reducer, keys: seq<string>) // Reduce
    | SortOp(keys: seq<string>)                     // ExternalSort
    | JoinOp(joiner: Joiner, keys: seq<string>)     // Join

  datatype Graph = Graph(operation: Operation, parents: seq<Graph>)

  /**
   * The keyword arguments of `run`: for each name, the rows its callable yields.
   * A name that is not bound raises KeyError when the source is first pulled.
   */
  type Bindings = map<string, seq<Row>>

  /* ---------- builders ---------- */

  function FromIter(name: string): Graph
  {
    Graph(ReadIter(name), [])
  }

  function Map(g: Graph, m: Mapper): Graph
  {
    Graph(MapOp(m), [g])
  }

  function Reduce(g: Graph, r: Reducer, keys: seq<string>): Graph
  {
    Graph(ReduceOp(r, keys), [g])
  }

  function Sort(g: Graph, keys: seq<string>): Graph
  {
    Graph(SortOp(keys), [g])
  }

  function JoinWith(g: Graph, j: Joiner, other: Graph, keys: seq<string>): Graph
  {
    Graph(JoinOp(j, keys), [g, other])
  }

  function Copy(g: Graph): Graph
  {
    Graph(g.operation, g.parents)
  }

  /* ---------- running ---------- */

  /** `ReadIterGenerator.__call__`: the rows of the binding, or KeyError for an unbound name. */
  function ReadSource(name: string, bindings: Bindings): (r: Stream)
    ensures name in bindings ==> r == Stream(bindings[name], None)
    ensures name !in bindings ==> r == Stream([], Some(KeyError(name)))
  {
    if name in bindings then Stream(bindings[name], None) else Stream([], Some(KeyError(name)))
  }

  /**
   * `Graph.run`: every parent is run with the same bindings and its output passed
   * positionally. An operation called without the stream it takes first fails
   * with TypeError; a Join without a second parent fails with IndexError when
   * it reaches `args[0]`. Parents beyond the ones an operation takes are never pulled.
   */
  function Run(g: Graph, bindings: Bindings): Stream
    decreases g
  {
    if ParameterClash(g.operation, bindings) then Stream([], Some(TypeError))
    else match g.operation
    case ReadIter(name) => ReadSource(name, bindings)
    case MapOp(m) =>
      if |g.parents| == 0 then Stream([], Some(TypeError))
      else MapStream(m, Run(g.parents[0], bindings))
    case ReduceOp(r, keys) =>
      if |g.parents| == 0 then Stream([], Some(TypeError))
      else ReduceStream(r, keys, Run(g.parents[0], bindings))
    case SortOp(keys) =>
      if |g.parents| == 0 then Stream([], Some(TypeError))
      else SortStream(Run(g.parents[0], bindings), keys)
    case JoinOp(j, keys) =>
      if |g.parents| == 0 then Stream([], Some(TypeError))
      else if |g.parents| == 1 then Stream([], Some(IndexError))
      else JoinSpec(j, keys, Run(g.parents[0], bindings), Run(g.parents[1], bindings))
  }

  /**
   * `run` also hands every binding to the operation call as a keyword argument.
   * A binding named `self` clashes with the `self` of `run` and of every
   * `__call__`. A binding named `rows` clashes with the stream parameter of every
   * operation but ReadIterGenerator, whose `__call__` takes only `*args`; the sort
   * node is taken to have the `Operation.__call__(self, rows, ...)` signature.
   * Python rejects such a call with TypeError before anything is read.
   */
  predicate ParameterClash(op: Operation, bindings: Bindings)
  {
    "self" in bindings || ("rows" in bindings && !op.ReadIter?)
  }

  /** Bindings that clash with no operation's parameters. */
  predicate NoParameterNames(bindings: Bindings)
  {
    "self" !in bindings && "rows" !in bindings
  }

  /** The source names whose bindings a run of the graph pulls. */
  function Reads(g: Graph): set<string>
    decreases g
  {
    match g.operation
    case ReadIter(name) => {name}
    case JoinOp(_, _) =>
      if |g.parents| < 2 then {} else Reads(g.parents[0]) + Reads(g.parents[1])
    case _ =>
      if |g.parents| == 0 then {} else Reads(g.parents[0])
  }

  /** Two sets of bindings that agree on the names in `names`. */
  ghost predicate AgreeOn(names: set<string>, b1: Bindings, b2: Bindings)
  {
    forall n :: n in names ==> (n in b1 <==> n in b2) && (n in b1 ==> b1[n] == b2[n])
  }

  /* ---------- properties ---------- */

  /**
   * Nodes keep no state between runs: the output depends only on the bindings of
   * the sources the graph reads.
   */
  lemma {:induction false} RunDependsOnReads(g: Graph, b1: Bindings, b2: Bindings)
    requires AgreeOn(Reads(g), b1, b2)
    requires ("self" in b1 <==> "self" in b2) && ("rows" in b1 <==> "rows" in b2)
    ensures Run(g, b1) == Run(g, b2)
    decreases g
  {
    match g.operation
    case ReadIter(name) =>
      assert name in Reads(g);
    case JoinOp(_, _) =>
      if |g.parents| >= 2 {
        RunDependsOnReads(g.parents[0], b1, b2);
        RunDependsOnReads(g.parents[1], b1, b2);
      }
    case _ =>
      if |g.parents| > 0 {
        RunDependsOnReads(g.parents[0], b1, b2);
      }
  }

  /**
   * A graph's run ignores every binding outside the names it reads, except the
   * names that clash with the operations' parameters (see ParameterClashFails).
   */
  lemma RunIgnoresOtherBindings(g: Graph, b: Bindings, extra: Bindings)
    requires forall n :: n in extra ==> n !in Reads(g)
    requires NoParameterNames(extra)
    ensures Run(g, b + extra) == Run(g, b)
  {
    RunDependsOnReads(g, b + extra, b);
  }

  /** A copy runs exactly like the original. */
  lemma CopyRuns(g: Graph, bindings: Bindings)
    ensures Run(Copy(g), bindings) == Run(g, bindings)
    ensures Reads(Copy(g)) == Reads(g)
  {
  }

  /** A source node yields the rows of its binding; an unbound name fails with KeyError. */
  lemma FromIterRuns(name: string, bindings: Bindings)
    ensures "self" in bindings ==> Run(FromIter(name), bindings) == Stream([], Some(TypeError))
    ensures "self" !in bindings && name in bindings ==> Run(FromIter(name), bindings) == Stream(bindings[name], None)
    ensures "self" !in bindings && name !in bindings ==> Run(FromIter(name), bindings) == Stream([], Some(KeyError(name)))
    ensures Reads(FromIter(name)) == {name}
  {
  }

  /** A binding named `self`, or `rows` above a source node, makes the run fail at once. */
  lemma ParameterClashFails(g: Graph, bindings: Bindings)
    ensures "self" in bindings ==> Run(g, bindings) == Stream([], Some(TypeError))
    ensures "rows" in bindings && !g.operation.ReadIter? ==> Run(g, bindings) == Stream([], Some(TypeError))
    ensures !NoParameterNames(bindings) ==> Run(Map(g, Dummy), bindings) == Stream([], Some(TypeError))
  {
  }

  /** `map`, `reduce` and `sort` apply their operation to the receiver's output. */
  lemma ChainRuns(g: Graph, m: Mapper, r: Reducer, keys: seq<string>, bindings: Bindings)
    requires NoParameterNames(bindings)
    ensures Run(Map(g, m), bindings) == MapStream(m, Run(g, bindings))
    ensures Run(Reduce(g, r, keys), bindings) == ReduceStream(r, keys, Run(g, bindings))
    ensures Run(Sort(g, keys), bindings) == SortStream(Run(g, bindings), keys)
    ensures Reads(Map(g, m)) == Reads(Reduce(g, r, keys)) == Reads(Sort(g, keys)) == Reads(g)
  {
  }

  /** `join`: the receiver is the left stream, the other graph the right stream. */
  lemma JoinRuns(g: Graph, j: Joiner, other: Graph, keys: seq<string>, bindings: Bindings)
    requires NoParameterNames(bindings)
    ensures Run(JoinWith(g, j, other, keys), bindings) == JoinSpec(j, keys, Run(g, bindings), Run(other, bindings))
    ensures Reads(JoinWith(g, j, other, keys)) == Reads(g) + Reads(other)
  {
  }

  /**
   * A sort node yields its input reordered ascending by the keys, or the input's
   * error, or KeyError for the first row lacking a key field.
   */
  lemma SortRuns(g: Graph, keys: seq<string>, bindings: Bindings)
    requires NoParameterNames(bindings)
    ensures var inp := Run(g, bindings);
            var out := Run(Sort(g, keys), bindings);
            && (inp.failure.Some? ==> out == Stream([], inp.failure))
            && (inp.failure.None? && (forall row :: row in inp.rows ==> HasFields(row, keys)) ==>
                  out.failure.None? && multiset(out.rows) == multiset(inp.rows) && SortedBy(out.rows, keys, false))
  {
    var inp := Run(g, bindings);
    if inp.failure.None? && (forall row :: row in inp.rows ==> HasFields(row, keys)) {
      assert forall i :: 0 <= i < |inp.rows| ==> HasFields(inp.rows[i], keys);
    }
  }

  /** An operation that takes a stream fails when its node has no parent. */
  lemma MissingParents(op: Operation, g: Graph, bindings: Bindings)
    requires !op.ReadIter?
    ensures Run(Graph(op, []), bindings) == Stream([], Some(TypeError))
    ensures op.JoinOp? && NoParameterNames(bindings) ==> Run(Graph(op, [g]), bindings) == Stream([], Some(IndexError))
  {
  }
}
