/** The import graph of a source tree: walks, closed walks and orders. */
module ImportGraph {
  import opened Sequences

  type File = string
  type Graph = map<File, seq<File>>

  /** `importGraph.get(file) || []`. */
  function Deps(g: Graph, file: File): seq<File> {
    if file in g then g[file] else []
  }

  ghost predicate Edge(g: Graph, a: File, b: File) {
    b in Deps(g, a)
  }

  ghost predicate Walk(g: Graph, p: seq<File>) {
    forall i :: 0 < i < |p| ==> Edge(g, p[i - 1], p[i])
  }

  /** A walk of at least one edge that ends where it starts. */
  ghost predicate ClosedWalk(g: Graph, p: seq<File>) {
    |p| >= 2 && p[0] == p[|p| - 1] && Walk(g, p)
  }

  /** A closed walk whose only repetition is its end. */
  ghost predicate SimpleCycle(g: Graph, p: seq<File>) {
    ClosedWalk(g, p) && Distinct(p[..|p| - 1])
  }

  ghost predicate Acyclic(g: Graph) {
    forall p :: !ClosedWalk(g, p)
  }

  /** Every file that the graph mentions, as importer or as imported. */
  ghost function Universe(g: Graph): set<File> {
    g.Keys + set f, i | f in g && 0 <= i < |g[f]| :: g[f][i]
  }

  /** One import statement: file `file`, position `at` in its list of dependencies. */
  datatype Occurrence = Occurrence(file: File, at: nat)

  ghost predicate InGraph(g: Graph, e: Occurrence) {
    e.file in g && e.at < |g[e.file]|
  }

  function Target(g: Graph, e: Occurrence): File
    requires e.at < |Deps(g, e.file)|
  {
    Deps(g, e.file)[e.at]
  }

  /** `order` lists a file only after everything it imports. */
  ghost predicate Topological(g: Graph, order: seq<File>) {
    && Distinct(order)
    && (forall f :: f in order <==> f in Universe(g))
    && forall j, i :: 0 <= j < |order| && 0 <= i < |Deps(g, order[j])| ==> Deps(g, order[j])[i] in order[..j]
  }

  /** Along a topological order positions fall strictly, so a walk cannot come back. */
  lemma {:induction false} WalkDescends(g: Graph, order: seq<File>, p: seq<File>, at: nat) returns (end: nat)
    requires Topological(g, order) && Walk(g, p) && |p| >= 2
    requires at < |order| && order[at] == p[0]
    ensures end < at && order[end] == p[|p| - 1]
  {
    var i :| 0 <= i < |Deps(g, p[0])| && Deps(g, p[0])[i] == p[1] by {
      assert Edge(g, p[0], p[1]);
    }
    assert Deps(g, order[at])[i] in order[..at];
    var next: nat :| next < at && order[next] == p[1];
    if |p| == 2 {
      end := next;
    } else {
      var rest := p[1..];
      assert Walk(g, rest) by {
        forall k | 0 < k < |rest| ensures Edge(g, rest[k - 1], rest[k]) {
          assert Edge(g, p[k], p[k + 1]);
        }
      }
      end := WalkDescends(g, order, rest, next);
    }
  }

  lemma TopologicalMeansAcyclic(g: Graph, order: seq<File>)
    requires Topological(g, order)
    ensures Acyclic(g)
  {
    forall p | ClosedWalk(g, p) ensures false {
      assert Edge(g, p[0], p[1]);
      assert p[0] in g && p[0] in order;
      var at: nat :| at < |order| && order[at] == p[0];
      var end := WalkDescends(g, order, p, at);
    }
  }
}

/** The depth-first search that reports import cycles. */
module ImportCycles {
  import opened ImportGraph
  import opened Sequences

  datatype Mark = Visiting | Visited

  /**
    What the search has done so far: the marks, the files under visit, the reports,
    the files in the order in which their visits ended, and the import statements
    whose target was on the stack when they were met.
   */
  datatype Search = Search(
    state: map<File, Mark>,
    stack: seq<File>,
    cycles: seq<seq<File>>,
    finished: seq<File>,
    backEdges: seq<Occurrence>
  )

  function IndexOf(s: seq<File>, f: File): (i: nat)
    requires f in s
    ensures i < |s| && s[i] == f && f !in s[..i]
  {
    if s[0] == f then 0 else
      var i := IndexOf(s[1..], f);
      assert s[..i + 1] == [s[0]] + s[1..][..i];
      i + 1
  }

  /** `cycle` is a simple cycle of the graph and its last edge is the import statement `e`. */
  ghost predicate ReportOf(g: Graph, cycle: seq<File>, e: Occurrence) {
    && SimpleCycle(g, cycle) && InGraph(g, e)
    && cycle[|cycle| - 2] == e.file && cycle[|cycle| - 1] == Target(g, e)
  }

  /** The stack is a duplicate-free walk of the files under visit; a visited file is finished once. */
  ghost predicate Marked(g: Graph, s: Search) {
    && Distinct(s.stack) && Distinct(s.finished) && Walk(g, s.stack)
    && s.state.Keys <= Universe(g)
    && (forall f :: f in s.stack <==> f in s.state && s.state[f] == Visiting)
    && (forall f :: f in s.finished <==> f in s.state && s.state[f] == Visited)
  }

  /** A recorded import statement leaves a known file for one on the stack no higher than itself. */
  ghost predicate Recorded(g: Graph, s: Search) {
    && Distinct(s.backEdges)
    && (forall e <- s.backEdges :: InGraph(g, e) && e.file in s.state)
    && (forall k, n :: 0 <= k < |s.stack| && 0 <= n < |Deps(g, s.stack[k])| && Occurrence(s.stack[k], n) in s.backEdges ==>
          Deps(g, s.stack[k])[n] in s.stack[..k + 1])
  }

  /** Each statement of a finished file either was recorded or leads to a file finished earlier. */
  ghost predicate Explained(g: Graph, s: Search) {
    forall j, n :: 0 <= j < |s.finished| && 0 <= n < |Deps(g, s.finished[j])| ==>
      && Deps(g, s.finished[j])[n] in s.state
      && (Occurrence(s.finished[j], n) in s.backEdges <==> Deps(g, s.finished[j])[n] !in s.finished[..j])
  }

  /** One report per recorded statement, closed by that statement. */
  ghost predicate Reported(g: Graph, s: Search) {
    && |s.cycles| == |s.backEdges|
    && forall k :: 0 <= k < |s.cycles| ==> ReportOf(g, s.cycles[k], s.backEdges[k])
  }

  ghost predicate Valid(g: Graph, s: Search) {
    Marked(g, s) && Recorded(g, s) && Explained(g, s) && Reported(g, s)
  }

  /** What a run of the search never undoes. */
  ghost predicate Grows(s: Search, s': Search) {
    && s'.stack == s.stack
    && s.finished <= s'.finished && s.cycles <= s'.cycles && s.backEdges <= s'.backEdges
    && (forall f <- s.state :: f in s'.state && s'.state[f] == s.state[f])
    && (forall f <- s'.state :: f in s.state || s'.state[f] == Visited)
    && (forall e <- s'.backEdges :: e in s.backEdges || e.file !in s.state)
  }

  ghost function Opened(s: Search, file: File): Search {
    s.(state := s.state[file := Visiting], stack := s.stack + [file])
  }

  /** `cycles.push(stack.slice(start).concat(dependency))`. */
  ghost function Met(g: Graph, s: Search, file: File, n: nat): Search
    requires n < |Deps(g, file)| && Deps(g, file)[n] in s.stack
  {
    var dependency := Deps(g, file)[n];
    s.(cycles := s.cycles + [s.stack[IndexOf(s.stack, dependency)..] + [dependency]],
       backEdges := s.backEdges + [Occurrence(file, n)])
  }

  /** `stack.pop(); state.set(file, 'visited')`. */
  ghost function Closed(s: Search, file: File): Search
    requires s.stack != []
  {
    s.(stack := s.stack[..|s.stack| - 1], state := s.state[file := Visited], finished := s.finished + [file])
  }

  /** The first `n` statements of the file on top of the stack have been looked at. */
  ghost predicate Scanned(g: Graph, s: Search, file: File, n: nat)
    requires n <= |Deps(g, file)|
  {
    && (forall m :: n <= m ==> Occurrence(file, m) !in s.backEdges)
    && forall m :: 0 <= m < n ==>
      && Deps(g, file)[m] in s.state
      && (Occurrence(file, m) in s.backEdges <==> Deps(g, file)[m] in s.stack)
  }

  lemma PrefixesOf<T>(s: seq<T>, t: seq<T>)
    requires s <= t
    ensures forall k {:trigger t[..k]} {:trigger s[..k]} :: 0 <= k <= |s| ==> t[..k] == s[..k]
  {
  }

  lemma OpenKeepsMarked(g: Graph, s: Search, file: File)
    requires Marked(g, s) && file !in s.state && file in Universe(g)
    requires s.stack != [] ==> Edge(g, s.stack[|s.stack| - 1], file)
    ensures Marked(g, Opened(s, file))
  {
    assert Walk(g, Opened(s, file).stack);
  }

  lemma OpenKeepsValid(g: Graph, s: Search, file: File)
    requires Valid(g, s) && file !in s.state && file in Universe(g)
    requires s.stack != [] ==> Edge(g, s.stack[|s.stack| - 1], file)
    ensures Valid(g, Opened(s, file)) && Scanned(g, Opened(s, file), file, 0)
  {
    hide Marked, Universe, Edge, Distinct;
    OpenKeepsMarked(g, s, file);
    PrefixesOf(s.stack, Opened(s, file).stack);
    assert Recorded(g, Opened(s, file));
  }

  /** Cutting a duplicate-free walk at `start` and stepping back to its first file gives a simple cycle. */
  lemma SuffixCloses(g: Graph, stack: seq<File>, start: nat)
    requires Distinct(stack) && Walk(g, stack) && start < |stack| && Edge(g, stack[|stack| - 1], stack[start])
    ensures SimpleCycle(g, stack[start..] + [stack[start]])
  {
    var loop := stack[start..];
    var cycle := loop + [stack[start]];
    assert cycle[..|cycle| - 1] == loop;
    forall i | 0 < i < |cycle| ensures Edge(g, cycle[i - 1], cycle[i]) {
      if i < |loop| {
        assert Edge(g, stack[start + i - 1], stack[start + i]);
      }
    }
  }

  lemma MetIsReport(g: Graph, s: Search, file: File, n: nat)
    requires Marked(g, s) && s.stack != [] && s.stack[|s.stack| - 1] == file
    requires n < |Deps(g, file)| && Deps(g, file)[n] in s.stack
    ensures var cycles := Met(g, s, file, n).cycles; ReportOf(g, cycles[|cycles| - 1], Occurrence(file, n))
  {
    hide SimpleCycle, Distinct, Walk, Universe;
    SuffixCloses(g, s.stack, IndexOf(s.stack, Deps(g, file)[n]));
  }

  lemma MetKeepsRecorded(g: Graph, s: Search, file: File, n: nat)
    requires Marked(g, s) && Recorded(g, s) && s.stack != [] && s.stack[|s.stack| - 1] == file
    requires n < |Deps(g, file)| && Deps(g, file)[n] in s.stack && Occurrence(file, n) !in s.backEdges
    ensures Recorded(g, Met(g, s, file, n))
  {
    var s' := Met(g, s, file, n);
    assert s.stack[..|s.stack|] == s.stack;
    assert Distinct(s'.backEdges);
    forall k, m | 0 <= k < |s'.stack| && 0 <= m < |Deps(g, s'.stack[k])| && Occurrence(s'.stack[k], m) in s'.backEdges
      ensures Deps(g, s'.stack[k])[m] in s'.stack[..k + 1]
    {
      if s'.stack[k] == file {
        assert k == |s.stack| - 1;
      }
    }
  }

  lemma MetKeepsExplained(g: Graph, s: Search, file: File, n: nat)
    requires Marked(g, s) && Explained(g, s) && file in s.stack
    requires n < |Deps(g, file)| && Deps(g, file)[n] in s.stack
    ensures Explained(g, Met(g, s, file, n))
  {
    var s' := Met(g, s, file, n);
    forall j, m | 0 <= j < |s.finished| && 0 <= m < |Deps(g, s.finished[j])|
      ensures Occurrence(s.finished[j], m) in s'.backEdges <==> Occurrence(s.finished[j], m) in s.backEdges
    {
      assert s.finished[j] in s.finished;
    }
  }

  lemma MetKeepsReported(g: Graph, s: Search, file: File, n: nat)
    requires Reported(g, s) && n < |Deps(g, file)| && Deps(g, file)[n] in s.stack
    requires var cycles := Met(g, s, file, n).cycles; ReportOf(g, cycles[|cycles| - 1], Occurrence(file, n))
    ensures Reported(g, Met(g, s, file, n))
  {
    hide ReportOf;
  }

  lemma MetKeepsMarkedAndScanned(g: Graph, s: Search, file: File, n: nat)
    requires Marked(g, s) && n < |Deps(g, file)| && Deps(g, file)[n] in s.stack && Scanned(g, s, file, n)
    ensures Marked(g, Met(g, s, file, n)) && Scanned(g, Met(g, s, file, n), file, n + 1)
  {
    var s' := Met(g, s, file, n);
    assert s'.stack == s.stack && s'.state == s.state && s'.finished == s.finished;
    assert forall e :: e in s'.backEdges <==> e in s.backEdges || e == Occurrence(file, n);
  }

  lemma MetKeepsValid(g: Graph, s: Search, file: File, n: nat)
    requires Valid(g, s) && s.stack != [] && s.stack[|s.stack| - 1] == file
    requires n < |Deps(g, file)| && Deps(g, file)[n] in s.stack && Scanned(g, s, file, n)
    ensures Valid(g, Met(g, s, file, n)) && Scanned(g, Met(g, s, file, n), file, n + 1)
  {
    MetIsReport(g, s, file, n);
    MetKeepsReported(g, s, file, n);
    assert Occurrence(file, n) !in s.backEdges;
    hide Marked, Recorded, Explained, Reported, ReportOf, Scanned;
    MetKeepsMarkedAndScanned(g, s, file, n);
    MetKeepsRecorded(g, s, file, n);
    MetKeepsExplained(g, s, file, n);
  }

  lemma CloseKeepsMarked(g: Graph, s: Search, file: File)
    requires Marked(g, s) && s.stack != [] && s.stack[|s.stack| - 1] == file
    ensures Marked(g, Closed(s, file))
  {
    var s' := Closed(s, file);
    assert file in s.stack && file !in s.finished;
    assert s.stack == s'.stack + [file];
    assert file !in s'.stack;
  }

  lemma CloseKeepsRecorded(g: Graph, s: Search, file: File)
    requires Marked(g, s) && Recorded(g, s) && s.stack != [] && s.stack[|s.stack| - 1] == file
    ensures Recorded(g, Closed(s, file))
  {
    var s' := Closed(s, file);
    PrefixesOf(s'.stack, s.stack);
  }

  lemma CloseKeepsExplained(g: Graph, s: Search, file: File)
    requires Marked(g, s) && Explained(g, s) && s.stack != [] && s.stack[|s.stack| - 1] == file
    requires Scanned(g, s, file, |Deps(g, file)|)
    ensures Explained(g, Closed(s, file))
  {
    var s' := Closed(s, file);
    PrefixesOf(s.finished, s'.finished);
    assert s.finished[..|s.finished|] == s.finished;
    forall n | 0 <= n < |Deps(g, file)|
      ensures Occurrence(file, n) in s.backEdges <==> Deps(g, file)[n] !in s.finished
    {
    }
  }

  lemma CloseKeepsValid(g: Graph, s: Search, file: File)
    requires Valid(g, s) && s.stack != [] && s.stack[|s.stack| - 1] == file
    requires Scanned(g, s, file, |Deps(g, file)|)
    ensures Valid(g, Closed(s, file))
  {
    CloseKeepsMarked(g, s, file);
    CloseKeepsRecorded(g, s, file);
    CloseKeepsExplained(g, s, file);
  }

  /** A visit to `file` that began in `s0` has looked at its first `n` statements. */
  ghost predicate InVisit(g: Graph, s0: Search, s: Search, file: File, n: nat) {
    && Valid(g, s) && n <= |Deps(g, file)| && Scanned(g, s, file, n)
    && file !in s0.state && Grows(Opened(s0, file).(backEdges := s.backEdges), s)
    && s0.backEdges <= s.backEdges
    && (forall e <- s.backEdges :: e in s0.backEdges || e.file !in s0.state)
  }

  lemma OpenStartsVisit(g: Graph, s: Search, file: File)
    requires Valid(g, s) && file !in s.state && file in Universe(g)
    requires s.stack != [] ==> Edge(g, s.stack[|s.stack| - 1], file)
    ensures InVisit(g, s, Opened(s, file), file, 0)
  {
    OpenKeepsValid(g, s, file);
  }

  lemma MetContinues(g: Graph, s0: Search, s: Search, file: File, n: nat)
    requires InVisit(g, s0, s, file, n) && n < |Deps(g, file)| && Deps(g, file)[n] in s.stack
    ensures InVisit(g, s0, Met(g, s, file, n), file, n + 1)
  {
    hide Valid, Scanned, Edge;
    InVisitFacts(g, s0, s, file, n);
    MetKeepsValid(g, s, file, n);
  }

  /** A visit to a dependency leaves what was scanned before it as it was, and settles the dependency. */
  lemma VisitKeepsScanned(g: Graph, s: Search, s': Search, file: File, n: nat)
    requires Grows(s, s') && n < |Deps(g, file)| && Scanned(g, s, file, n) && file in s.state
    requires Deps(g, file)[n] !in s.stack && Deps(g, file)[n] in s'.state
    ensures Scanned(g, s', file, n + 1)
  {
    forall m | n <= m ensures Occurrence(file, m) !in s'.backEdges {}
    forall m | 0 <= m <= n
      ensures Deps(g, file)[m] in s'.state
      ensures Occurrence(file, m) in s'.backEdges <==> Deps(g, file)[m] in s'.stack
    {
      assert Occurrence(file, m) in s'.backEdges <==> Occurrence(file, m) in s.backEdges;
    }
  }

  lemma VisitContinues(g: Graph, s0: Search, s: Search, s': Search, file: File, n: nat)
    requires InVisit(g, s0, s, file, n) && n < |Deps(g, file)| && Deps(g, file)[n] !in s.stack
    requires Valid(g, s') && Grows(s, s') && Deps(g, file)[n] in s'.state
    ensures InVisit(g, s0, s', file, n + 1)
  {
    hide Valid, Scanned, Universe;
    assert file in s.state;
    VisitKeepsScanned(g, s, s', file, n);
  }

  lemma InVisitFacts(g: Graph, s0: Search, s: Search, file: File, n: nat)
    requires InVisit(g, s0, s, file, n) && n < |Deps(g, file)|
    ensures var d := Deps(g, file)[n];
      && (d in s.stack <==> d in s.state && s.state[d] == Visiting)
      && d in Universe(g) && s.stack != [] && Edge(g, s.stack[|s.stack| - 1], d)
      && Valid(g, s) && Grows(s, s)
      && Universe(g) - s.state.Keys < Universe(g) - s0.state.Keys
  {
    assert s.stack[|s.stack| - 1] == file;
    assert file in Universe(g) - s0.state.Keys && s0.state.Keys <= s.state.Keys;
  }

  lemma CloseEndsVisit(g: Graph, s0: Search, s: Search, file: File)
    requires InVisit(g, s0, s, file, |Deps(g, file)|)
    ensures s.stack != [] && Valid(g, Closed(s, file)) && Grows(s0, Closed(s, file))
  {
    assert s.stack[|s.stack| - 1] == file;
    CloseKeepsValid(g, s, file);
    assert Closed(s, file).stack == s0.stack;
  }

  class CycleFinder {
    const graph: Graph
    var state: map<File, Mark>
    var stack: seq<File>
    var cycles: seq<seq<File>>
    ghost var finished: seq<File>
    ghost var backEdges: seq<Occurrence>

    ghost function Now(): Search
      reads this
    {
      Search(state, stack, cycles, finished, backEdges)
    }

    constructor (graph: Graph)
      ensures this.graph == graph && Valid(graph, Now()) && Now() == Search(map[], [], [], [], [])
    {
      this.graph := graph;
      state, stack, cycles := map[], [], [];
      finished, backEdges := [], [];
    }

    method Visit(file: File)
      requires Valid(graph, Now()) && file !in state && file in Universe(graph)
      requires stack != [] ==> Edge(graph, stack[|stack| - 1], file)
      modifies this
      ensures Valid(graph, Now()) && Grows(old(Now()), Now())
      ensures file in state
      decreases Universe(graph) - state.Keys
    {
      hide Valid, InVisit, Grows, Universe, Edge;
      ghost var s0 := Now();
      OpenStartsVisit(graph, s0, file);
      state := state[file := Visiting];
      stack := stack + [file];
      var deps := Deps(graph, file);
      var i := 0;
      while i < |deps|
        invariant 0 <= i <= |deps|
        invariant InVisit(graph, s0, Now(), file, i)
      {
        var dependency := deps[i];
        InVisitFacts(graph, s0, Now(), file, i);
        if dependency in state && state[dependency] == Visiting {
          MetContinues(graph, s0, Now(), file, i);
          var start := IndexOf(stack, dependency);
          cycles := cycles + [stack[start..] + [dependency]];
          backEdges := backEdges + [Occurrence(file, i)];
        } else {
          ghost var before := Now();
          if dependency !in state {
            Visit(dependency);
          }
          VisitContinues(graph, s0, before, Now(), file, i);
        }
        i := i + 1;
      }
      CloseEndsVisit(graph, s0, Now(), file);
      stack := stack[..|stack| - 1];
      state := state[file := Visited];
      finished := finished + [file];
    }
  }

  /** The statements whose target does not finish before their own file. */
  ghost predicate BackEdge(g: Graph, order: seq<File>, e: Occurrence) {
    && InGraph(g, e) && e.file in order
    && Target(g, e) !in order[..IndexOf(order, e.file)]
  }

  method FindImportCycles(sourceFiles: seq<File>, graph: Graph)
    returns (cycles: seq<seq<File>>, ghost order: seq<File>, ghost closing: seq<Occurrence>)
    requires forall f :: f in sourceFiles <==> f in graph
    ensures cycles == [] <==> Acyclic(graph)
    ensures cycles == [] ==> Topological(graph, order)
    ensures Distinct(order) && forall f :: f in order <==> f in Universe(graph)
    ensures |cycles| == |closing| && Distinct(closing)
    ensures forall k :: 0 <= k < |cycles| ==> ReportOf(graph, cycles[k], closing[k])
    ensures forall e :: e in closing <==> BackEdge(graph, order, e)
  {
    var finder := new CycleFinder(graph);
    var n := 0;
    while n < |sourceFiles|
      invariant 0 <= n <= |sourceFiles|
      invariant fresh(finder) && finder.graph == graph
      invariant Valid(graph, finder.Now()) && finder.stack == []
      invariant forall k :: 0 <= k < n ==> sourceFiles[k] in finder.state
    {
      if sourceFiles[n] !in finder.state {
        finder.Visit(sourceFiles[n]);
      }
      n := n + 1;
    }
    cycles, order, closing := finder.cycles, finder.finished, finder.backEdges;
    CompleteSearch(graph, finder.Now());
  }

  /** What a search that has visited every importing file and emptied its stack has found. */
  lemma CompleteSearch(g: Graph, s: Search)
    requires Valid(g, s) && s.stack == [] && forall f <- g :: f in s.state
    ensures s.cycles == [] <==> Acyclic(g)
    ensures s.cycles == [] ==> Topological(g, s.finished)
    ensures forall f :: f in s.finished <==> f in Universe(g)
    ensures forall e :: e in s.backEdges <==> BackEdge(g, s.finished, e)
  {
    forall f ensures f in s.finished <==> f in Universe(g) {
      assert f in s.state ==> s.state[f] == Visited;
      if f in Universe(g) && f !in g {
        var importer, n :| importer in g && 0 <= n < |g[importer]| && g[importer][n] == f;
        assert importer in s.finished;
        var j :| 0 <= j < |s.finished| && s.finished[j] == importer;
        assert Deps(g, s.finished[j])[n] in s.state;
      }
    }
    forall e ensures e in s.backEdges <==> BackEdge(g, s.finished, e) {
      if InGraph(g, e) {
        assert e.file in s.finished;
        var j := IndexOf(s.finished, e.file);
        assert Deps(g, s.finished[j])[e.at] == Target(g, e);
      }
    }
    if s.cycles == [] {
      assert s.backEdges == [];
      TopologicalMeansAcyclic(g, s.finished);
    } else {
      assert ReportOf(g, s.cycles[0], s.backEdges[0]);
      assert ClosedWalk(g, s.cycles[0]);
    }
  }
}
