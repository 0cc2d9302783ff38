/** From the import and export statements of the sources to the import graph. */
module SourceImports {
  import opened Options
  import opened ImportGraph
  import opened ImportCycles
  import opened Sequences

  datatype Kind = Import | Export | Other

  /** A top-level statement; `specifier` is `None` unless the statement names a module by a string literal. */
  datatype Statement = Statement(kind: Kind, specifier: Option<string>, typeOnly: bool)

  type Sources = map<File, seq<Statement>>

  /** An import or export that is still there at run time. */
  predicate IsRuntime(s: Statement) {
    !s.kind.Other? && s.specifier.Some? && !s.typeOnly
  }

  function InDirectory(base: string, name: string): string {
    if base == "/" then "/" + name else base + "/" + name
  }

  function Candidates(base: string): seq<string> {
    [base, base + ".ts", base + ".tsx", InDirectory(base, "index.ts"), InDirectory(base, "index.tsx")]
  }

  function FirstKnown(sources: Sources, candidates: seq<string>): Option<File> {
    if candidates == [] then None
    else if candidates[0] in sources then Some(candidates[0])
    else FirstKnown(sources, candidates[1..])
  }

  /** `path` stands for resolving a specifier against the directory of its importer. */
  function Resolve(sources: Sources, path: (File, string) -> string, importer: File, specifier: string): Option<File> {
    FirstKnown(sources, Candidates(path(importer, specifier)))
  }

  /** The file that the statement makes `importer` depend on. */
  function Imported(sources: Sources, path: (File, string) -> string, importer: File, s: Statement): Option<File> {
    if IsRuntime(s) then Resolve(sources, path, importer, s.specifier.value) else None
  }

  function Dependencies(sources: Sources, path: (File, string) -> string, importer: File, statements: seq<Statement>): seq<File> {
    if statements == [] then []
    else
      var (before, last) := (statements[..|statements| - 1], statements[|statements| - 1]);
      var file := Imported(sources, path, importer, last);
      Dependencies(sources, path, importer, before) + if file.Some? then [file.value] else []
  }

  function GraphOf(sources: Sources, path: (File, string) -> string): Graph {
    map file | file in sources :: Dependencies(sources, path, file, sources[file])
  }

  method BuildImportGraph(sourceFiles: seq<File>, sources: Sources, path: (File, string) -> string)
    returns (importGraph: Graph)
    requires forall f :: f in sourceFiles <==> f in sources
    ensures importGraph == GraphOf(sources, path)
  {
    importGraph := map[];
    for i := 0 to |sourceFiles|
      invariant importGraph == map f | f in sourceFiles[..i] :: GraphOf(sources, path)[f]
    {
      var file := sourceFiles[i];
      var statements := sources[file];
      var dependencies: seq<File> := [];
      for j := 0 to |statements|
        invariant dependencies == Dependencies(sources, path, file, statements[..j])
      {
        assert statements[..j + 1][..j] == statements[..j];
        var s := statements[j];
        if s.kind.Other? || s.specifier.None? || s.typeOnly {
          continue;
        }
        var resolved := Resolve(sources, path, file, s.specifier.value);
        if resolved.Some? {
          dependencies := dependencies + [resolved.value];
        }
      }
      assert statements[..|statements|] == statements;
      importGraph := importGraph[file := dependencies];
      assert sourceFiles[..i + 1] == sourceFiles[..i] + [file];
    }
    assert sourceFiles[..|sourceFiles|] == sourceFiles;
  }

  // What the graph means for the sources.

  /** The first source among the path itself, the path with an extension, and the index file in the directory. */
  ghost predicate IsFileAt(sources: Sources, path: string, file: File) {
    var folder := if path == "/" then "/" else path + "/";
    && file in sources
    && (|| file == path
        || (file == path + ".ts" && path !in sources)
        || (file == path + ".tsx" && path !in sources && path + ".ts" !in sources)
        || (file == folder + "index.ts" && path !in sources && path + ".ts" !in sources && path + ".tsx" !in sources)
        || (file == folder + "index.tsx" && path !in sources && path + ".ts" !in sources && path + ".tsx" !in sources
            && folder + "index.ts" !in sources))
  }

  /** An import or export that is more than a type's, of a module named by a string literal. */
  ghost predicate Names(sources: Sources, path: (File, string) -> string, importer: File, s: Statement, file: File) {
    && (s.kind == Import || s.kind == Export) && s.specifier.Some? && s.typeOnly == false
    && IsFileAt(sources, path(importer, s.specifier.value), file)
  }

  ghost predicate Imports(sources: Sources, path: (File, string) -> string, a: File, b: File) {
    a in sources && exists s <- sources[a] :: Names(sources, path, a, s, b)
  }

  /** A chain of files, each importing the next, that ends where it starts. */
  ghost predicate ImportLoop(sources: Sources, path: (File, string) -> string, p: seq<File>) {
    && |p| >= 2 && p[0] == p[|p| - 1]
    && forall i :: 0 < i < |p| ==> Imports(sources, path, p[i - 1], p[i])
  }

  lemma FirstOrNext(sources: Sources, first: string, rest: seq<string>)
    ensures FirstKnown(sources, [first] + rest) == if first in sources then Some(first) else FirstKnown(sources, rest)
  {
    assert ([first] + rest)[1..] == rest;
  }

  lemma FiveCandidates(sources: Sources, a: string, b: string, c: string, d: string, e: string)
    ensures FirstKnown(sources, [a, b, c, d, e]) ==
      if a in sources then Some(a) else if b in sources then Some(b) else if c in sources then Some(c)
      else if d in sources then Some(d) else if e in sources then Some(e) else None
  {
    hide FirstKnown;
    FirstOrNext(sources, a, [b, c, d, e]);
    FirstOrNext(sources, b, [c, d, e]);
    FirstOrNext(sources, c, [d, e]);
    FirstOrNext(sources, d, [e]);
    FirstOrNext(sources, e, []);
    assert [a, b, c, d, e] == [a] + [b, c, d, e] && [b, c, d, e] == [b] + [c, d, e];
    assert [c, d, e] == [c] + [d, e] && [d, e] == [d] + [e] && [e] == [e] + [];
    NoneKnown(sources);
  }

  lemma NoneKnown(sources: Sources)
    ensures FirstKnown(sources, []) == None
  {
  }

  lemma ImportedIsNamed(sources: Sources, path: (File, string) -> string, importer: File, s: Statement, file: File)
    ensures Imported(sources, path, importer, s) == Some(file) <==> Names(sources, path, importer, s, file)
  {
    if s.specifier.Some? {
      var c := Candidates(path(importer, s.specifier.value));
      hide FirstKnown;
      FiveCandidates(sources, c[0], c[1], c[2], c[3], c[4]);
      assert c == [c[0], c[1], c[2], c[3], c[4]];
    }
  }

  /** The files stand in the order of the statements that name them, one for each statement. */
  lemma {:induction false} DependenciesInOrder(sources: Sources, path: (File, string) -> string, importer: File,
                                               before: seq<Statement>, after: seq<Statement>)
    ensures Dependencies(sources, path, importer, before + after) ==
      Dependencies(sources, path, importer, before) + Dependencies(sources, path, importer, after)
  {
    hide Imported;
    if after == [] {
      assert before + after == before;
    } else {
      var all := before + after;
      assert all[..|all| - 1] == before + after[..|after| - 1] && all[|all| - 1] == after[|after| - 1];
      DependenciesInOrder(sources, path, importer, before, after[..|after| - 1]);
    }
  }

  lemma OneDependency(sources: Sources, path: (File, string) -> string, importer: File, s: Statement)
    ensures var files := Dependencies(sources, path, importer, [s]);
      |files| <= 1 && (forall b :: files == [b] <==> Names(sources, path, importer, s, b))
  {
    hide Imported, Names;
    assert [s][..0] == [];
    assert Dependencies(sources, path, importer, []) == [];
    var file := Imported(sources, path, importer, s);
    assert Dependencies(sources, path, importer, [s]) == if file.Some? then [file.value] else [];
    forall b ensures Imported(sources, path, importer, s) == Some(b) <==> Names(sources, path, importer, s, b) {
      ImportedIsNamed(sources, path, importer, s, b);
    }
  }

  lemma {:induction false} DependenciesAreExact(sources: Sources, path: (File, string) -> string, importer: File,
                                                statements: seq<Statement>, b: File)
    ensures b in Dependencies(sources, path, importer, statements) <==>
      exists s <- statements :: Imported(sources, path, importer, s) == Some(b)
  {
    hide Imported;
    if statements != [] {
      var (before, last) := (statements[..|statements| - 1], statements[|statements| - 1]);
      DependenciesAreExact(sources, path, importer, before, b);
      assert statements == before + [last];
      assert forall s :: s in statements <==> s in before || s == last;
    }
  }

  /** The edges are exactly the run-time imports, and none leaves the sources. */
  lemma EdgesAreImports(sources: Sources, path: (File, string) -> string, a: File, b: File)
    ensures Edge(GraphOf(sources, path), a, b) <==> Imports(sources, path, a, b)
    ensures Edge(GraphOf(sources, path), a, b) ==> b in sources
  {
    hide Imported, Dependencies, IsFileAt;
    if a in sources {
      DependenciesAreExact(sources, path, a, sources[a], b);
      forall s <- sources[a]
        ensures Imported(sources, path, a, s) == Some(b) <==> Names(sources, path, a, s, b)
      {
        ImportedIsNamed(sources, path, a, s, b);
      }
      if Imports(sources, path, a, b) {
        var s :| s in sources[a] && Names(sources, path, a, s, b);
        FileIsKnown(sources, path(a, s.specifier.value), b);
      }
    }
  }

  lemma FileIsKnown(sources: Sources, path: string, file: File)
    requires IsFileAt(sources, path, file)
    ensures file in sources
  {
  }

  /** No report exactly when no chain of run-time imports in the sources comes back to its start. */
  method ReportImportCycles(sourceFiles: seq<File>, sources: Sources, path: (File, string) -> string)
    returns (cycles: seq<seq<File>>)
    requires forall f :: f in sourceFiles <==> f in sources
    ensures cycles == [] <==> forall p :: !ImportLoop(sources, path, p)
    ensures forall cycle <- cycles :: ImportLoop(sources, path, cycle) && Distinct(cycle[1..])
  {
    var importGraph := BuildImportGraph(sourceFiles, sources, path);
    ghost var order, closing;
    cycles, order, closing := FindImportCycles(sourceFiles, importGraph);
    forall p ensures ClosedWalk(importGraph, p) <==> ImportLoop(sources, path, p) {
      LoopsAreClosedWalks(sources, path, p);
    }
    forall cycle <- cycles ensures ClosedWalk(importGraph, cycle) && Distinct(cycle[1..]) {
      var k :| 0 <= k < |cycles| && cycles[k] == cycle;
      assert ReportOf(importGraph, cycle, closing[k]);
      SimpleTail(importGraph, cycle);
    }
  }

  lemma LoopsAreClosedWalks(sources: Sources, path: (File, string) -> string, p: seq<File>)
    ensures ClosedWalk(GraphOf(sources, path), p) <==> ImportLoop(sources, path, p)
  {
    hide GraphOf, Edge, Imports;
    forall i | 0 < i < |p| ensures Edge(GraphOf(sources, path), p[i - 1], p[i]) <==> Imports(sources, path, p[i - 1], p[i]) {
      EdgesAreImports(sources, path, p[i - 1], p[i]);
    }
  }

  lemma SimpleTail(g: Graph, cycle: seq<File>)
    requires SimpleCycle(g, cycle)
    ensures Distinct(cycle[1..])
  {
    forall i, j | 1 <= i < j < |cycle| ensures cycle[i] != cycle[j] {
      assert j == |cycle| - 1 ==> cycle[j] == cycle[0];
      assert cycle[..|cycle| - 1][i] == cycle[i];
    }
  }
}
