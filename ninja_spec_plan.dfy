/** What `WriteSpec` writes for one target after its actions, rules and
    copies: the compile edges of its sources, the link or archive edge, and
    the `Target` record it hands back, as values. */
module NinjaSpecPlan {
  import opened Wrappers
  import opened GypPaths
  import opened NinjaTarget
  import opened NinjaToolchain
  import opened NinjaSpec
  import opened NinjaPaths
  import opened NinjaPlan

  // ---------------------------------------------------------------------
  // WriteSources

  /** The tool class that compiles a source with the given extension. */
  function CompilerRole(ext: string): (r: Option<Role>)
    ensures ext == ".c" <==> r == Some(CCompiler)
    ensures ext == ".cc" || ext == ".cpp" || ext == ".cxx" <==> r == Some(CxxCompiler)
    ensures ext == ".mm" <==> r == Some(ObjectiveCxxCompiler)
    ensures ext == ".S" || ext == ".s" <==> r == Some(AssemblerWithCPreprocessor)
    ensures r.Some? ==> r.value in {CCompiler, CxxCompiler, ObjectiveCxxCompiler, AssemblerWithCPreprocessor}
  {
    if ext == ".c" then Some(CCompiler)
    else if ext == ".cc" || ext == ".cpp" || ext == ".cxx" then Some(CxxCompiler)
    else if ext == ".mm" then Some(ObjectiveCxxCompiler)
    else if ext == ".S" || ext == ".s" then Some(AssemblerWithCPreprocessor)
    else None
  }

  /** A source that gets a compile edge: its extension names a tool class,
      the toolchain has a tool of that class, and the tool's rule name is
      not empty. */
  predicate Compiles(e: PathEnv, tools: seq<Tool>, source: string)
  {
    var role := CompilerRole(Splitext(source).1);
    role.Some? && FindFirstInstanceOf(role.value, tools).Some? &&
    GetNinjaRuleName(FindFirstInstanceOf(role.value, tools).value, e.toolset) != ""
  }

  /** The assertion message of a source whose tool class has no tool. */
  function CompilerMissing(role: Role, source: string, toolset: string): string
  {
    var what := match role
      case CCompiler => "C compiler"
      case CxxCompiler => "C++ compiler"
      case ObjectiveCxxCompiler => "Objective-C++ compiler"
      case _ => "assembler";
    "Toolchain must provide " + what + " in order to build " + source + " for " + toolset + " platform."
  }

  /** The rule a source is compiled with, `""` when its extension names no
      tool class or its tool's rule name is empty; a class without a tool
      fails the assertion. */
  function CompileRuleName(e: PathEnv, tools: seq<Tool>, source: string): (r: Result<string, PyError>)
    ensures CompilerRole(Splitext(source).1).None? ==> r == Ok("")
    ensures r.Err? <==> CompilerRole(Splitext(source).1).Some? && FindFirstInstanceOf(CompilerRole(Splitext(source).1).value, tools).None?
    ensures r.Ok? && r.value != "" <==> Compiles(e, tools, source)
  {
    var role := CompilerRole(Splitext(source).1);
    if role.None? then Ok("")
    else if FindFirstInstanceOf(role.value, tools).None? then
      Err(AssertionError(CompilerMissing(role.value, source, e.toolset)))
    else Ok(GetNinjaRuleName(FindFirstInstanceOf(role.value, tools).value, e.toolset))
  }

  /** The edge of a source compiled with `ruleName`: from its Ninja path to
      its unique output with `.o` appended, waiting on `predepends`. */
  function CompileEdge(e: PathEnv, ruleName: string, predepends: Option<string>, source: string)
    : (r: Result<Emitted, PyError>)
    ensures r.Ok? <==> GypPathToNinja(e, source).Ok? && GypPathToUniqueOutput(e, source, true).Ok?
    ensures r.Ok? ==> r.value.rules == [] && r.value.extraSources == [] && |r.value.edges| == 1 &&
                      r.value.edges[0].rule == ruleName && r.value.edges[0].inputs == [GypPathToNinja(e, source).value] &&
                      r.value.outputs == r.value.edges[0].outputs
  {
    var input :- GypPathToNinja(e, source);
    var unique :- GypPathToUniqueOutput(e, source, true);
    var output := unique + ".o";
    Ok(Emitted([], [Edge([output], ruleName, [input], [], AsList(predepends), [])], [output], []))
  }

  /** One source of `WriteSources`: a compiled source gets one edge from its
      Ninja path to its unique output with `.o` appended, waiting on
      `predepends`; a source whose class has no tool fails the assertion. */
  function CompileStep(e: PathEnv, tools: seq<Tool>, predepends: Option<string>, source: string)
    : (r: Result<Emitted, PyError>)
    ensures r.Ok? ==> r.value.rules == [] && |r.value.edges| == (if Compiles(e, tools, source) then 1 else 0)
  {
    var ruleName :- CompileRuleName(e, tools, source);
    if ruleName == "" then Ok(Nothing) else CompileEdge(e, ruleName, predepends, source)
  }

  /** The compile edges of `sources`, in order. */
  function CompilePlan(e: PathEnv, tools: seq<Tool>, predepends: Option<string>, sources: seq<string>)
    : (r: Result<Emitted, PyError>)
    ensures r.Ok? ==> r.value.rules == [] && |r.value.edges| == |CompiledSources(e, tools, sources)|
    decreases |sources|
  {
    if sources == [] then Ok(Nothing)
    else
      var first :- CompileStep(e, tools, predepends, sources[0]);
      Glue(first, CompilePlan(e, tools, predepends, sources[1..]))
  }

  lemma CompilePlanUnfold(e: PathEnv, tools: seq<Tool>, predepends: Option<string>, sources: seq<string>)
    requires sources != []
    ensures var s := CompileStep(e, tools, predepends, sources[0]);
            CompilePlan(e, tools, predepends, sources) ==
              if s.Err? then Err(s.error) else Glue(s.value, CompilePlan(e, tools, predepends, sources[1..]))
  {
  }

  /** The sources that get a compile edge, in order. */
  function CompiledSources(e: PathEnv, tools: seq<Tool>, sources: seq<string>): (r: seq<string>)
    ensures |r| <= |sources|
    ensures forall i :: 0 <= i < |r| ==> r[i] in sources && Compiles(e, tools, r[i])
    decreases |sources|
  {
    if sources == [] then []
    else (if Compiles(e, tools, sources[0]) then [sources[0]] else []) + CompiledSources(e, tools, sources[1..])
  }

  /** The edge a compiled source gets: its compiler's rule, the source as
      the only input, and the one output `<unique output>.o`. */
  predicate SourceCompiled(e: PathEnv, tools: seq<Tool>, source: string, edge: Edge)
  {
    CompiledShape(e, tools, source) == Some((edge.rule, edge.inputs, edge.outputs, edge.implicit))
  }

  /** The rule, inputs, outputs and implicit dependencies of the edge a
      source gets, when it compiles and its paths convert. */
  function CompiledShape(e: PathEnv, tools: seq<Tool>, source: string)
    : Option<(string, seq<string>, seq<string>, seq<string>)>
  {
    var input := GypPathToNinja(e, source);
    var unique := GypPathToUniqueOutput(e, source, true);
    if Compiles(e, tools, source) && input.Ok? && unique.Ok? then
      Some((GetNinjaRuleName(FindFirstInstanceOf(CompilerRole(Splitext(source).1).value, tools).value, e.toolset),
            [input.value], [unique.value + ".o"], []))
    else None
  }

  /** Dispatch on the extension: `.c`, `.cc`/`.cpp`/`.cxx`, `.mm` and
      `.S`/`.s` need their compiler and fail the assertion without it; any
      other extension writes nothing. */
  lemma CompileStepDispatch(e: PathEnv, tools: seq<Tool>, predepends: Option<string>, source: string)
    ensures CompilerRole(Splitext(source).1).None? ==> CompileStep(e, tools, predepends, source) == Ok(Nothing)
    ensures CompilerRole(Splitext(source).1).Some? && FindFirstInstanceOf(CompilerRole(Splitext(source).1).value, tools).None? ==>
              CompileStep(e, tools, predepends, source).Err? && CompileStep(e, tools, predepends, source).error.AssertionError?
    ensures CompilerRole(Splitext(source).1).Some? && !Compiles(e, tools, source) ==>
              CompileStep(e, tools, predepends, source).Err? || CompileStep(e, tools, predepends, source) == Ok(Nothing)
  {
  }

  /** The rule name is there and not empty exactly for a compiled source,
      and the step fails exactly when the source's class has no tool. */
  lemma CompileRuleNameCompiles(e: PathEnv, tools: seq<Tool>, source: string)
    ensures var r := CompileRuleName(e, tools, source);
            (r.Ok? && r.value != "" <==> Compiles(e, tools, source)) &&
            (r.Err? <==> CompilerRole(Splitext(source).1).Some? && FindFirstInstanceOf(CompilerRole(Splitext(source).1).value, tools).None?) &&
            (Compiles(e, tools, source) ==>
               r.value == GetNinjaRuleName(FindFirstInstanceOf(CompilerRole(Splitext(source).1).value, tools).value, e.toolset))
  {
  }

  /** The one edge of a compiled source. */
  lemma CompileEdgeShape(e: PathEnv, ruleName: string, predepends: Option<string>, source: string)
    requires CompileEdge(e, ruleName, predepends, source).Ok?
    ensures var m := CompileEdge(e, ruleName, predepends, source).value;
            GypPathToNinja(e, source).Ok? && GypPathToUniqueOutput(e, source, true).Ok? &&
            m.rules == [] && m.extraSources == [] && |m.edges| == 1 &&
            m.edges[0] == Edge([GypPathToUniqueOutput(e, source, true).value + ".o"], ruleName,
                               [GypPathToNinja(e, source).value], [], AsList(predepends), []) &&
            m.outputs == m.edges[0].outputs
  {
  }

  /** The edge of a compiled source is the one `SourceCompiled` describes. */
  lemma CompiledEdgeDescribed(e: PathEnv, tools: seq<Tool>, predepends: Option<string>, source: string)
    requires Compiles(e, tools, source)
    requires CompileStep(e, tools, predepends, source).Ok?
    ensures var m := CompileStep(e, tools, predepends, source).value;
            |m.edges| == 1 && SourceCompiled(e, tools, source, m.edges[0]) &&
            m.edges[0].orderOnly == AsList(predepends) && m.outputs == m.edges[0].outputs &&
            m.rules == [] && m.extraSources == []
  {
    var r := CompileRuleName(e, tools, source);
    CompileRuleNameCompiles(e, tools, source);
    CompileEdgeShape(e, r.value, predepends, source);
  }

  /** A compiled source gets exactly one edge, waiting on `predepends`; a
      source that does not compile gets none. */
  lemma CompileStepShape(e: PathEnv, tools: seq<Tool>, predepends: Option<string>, source: string)
    requires CompileStep(e, tools, predepends, source).Ok?
    ensures var m := CompileStep(e, tools, predepends, source).value;
            Coherent(m, AsList(predepends)) && m.rules == [] && m.extraSources == [] &&
            (Compiles(e, tools, source) ==> |m.edges| == 1 && SourceCompiled(e, tools, source, m.edges[0])) &&
            (!Compiles(e, tools, source) ==> m.edges == [])
  {
    var m := CompileStep(e, tools, predepends, source).value;
    if Compiles(e, tools, source) {
      CompiledEdgeDescribed(e, tools, predepends, source);
      CoherentSingle(m, AsList(predepends));
    } else {
      CompileStepSkipped(e, tools, predepends, source);
    }
  }

  /** A source that does not compile, and does not fail, writes nothing. */
  lemma CompileStepSkipped(e: PathEnv, tools: seq<Tool>, predepends: Option<string>, source: string)
    requires !Compiles(e, tools, source)
    requires CompileStep(e, tools, predepends, source).Ok?
    ensures CompileStep(e, tools, predepends, source).value == Nothing
    ensures Coherent(Nothing, AsList(predepends))
  {
    CompileRuleNameCompiles(e, tools, source);
  }

  /** Every compile edge waits on `predepends`, the outputs returned are
      the outputs of the edges, and no rule or extra source is written. */
  lemma {:induction false} CompilePlanCoherent(e: PathEnv, tools: seq<Tool>, predepends: Option<string>, sources: seq<string>)
    requires CompilePlan(e, tools, predepends, sources).Ok?
    ensures var m := CompilePlan(e, tools, predepends, sources).value;
            Coherent(m, AsList(predepends)) && m.rules == [] && m.extraSources == []
    decreases |sources|
  {
    if sources == [] {
      assert CompilePlan(e, tools, predepends, sources).value == Nothing;
    } else {
      var first := CompileStep(e, tools, predepends, sources[0]).value;
      CompileStepShape(e, tools, predepends, sources[0]);
      var tailPlan := CompilePlan(e, tools, predepends, sources[1..]);
      assert CompilePlan(e, tools, predepends, sources) == Glue(first, tailPlan);
      CompilePlanCoherent(e, tools, predepends, sources[1..]);
      CoherentNoRules(first, tailPlan.value, AsList(predepends));
    }
  }

  /** Two plans that wait on `pre` and write no rule or extra source, one
      after the other. */
  lemma CoherentNoRules(first: Emitted, rest: Emitted, pre: seq<string>)
    requires Coherent(first, pre) && first.rules == [] && first.extraSources == []
    requires Coherent(rest, pre) && rest.rules == [] && rest.extraSources == []
    ensures var m := Then(first, rest); Coherent(m, pre) && m.rules == [] && m.extraSources == []
  {
    CoherentThen(first, rest, pre);
  }

  /** Each edge is the compile edge of the source at the same position. */
  predicate EdgesOfSources(e: PathEnv, tools: seq<Tool>, sources: seq<string>, edges: seq<Edge>)
  {
    Pairwise(CompiledBy(e, tools), sources, edges)
  }

  /** `SourceCompiled` for the given target paths and tools, as a relation. */
  function CompiledBy(e: PathEnv, tools: seq<Tool>): (string, Edge) -> bool
  {
    (source: string, edge: Edge) => SourceCompiled(e, tools, source, edge)
  }

  /** Sources and edges, as many of each, whose elements at each position
      are in the relation `rel`. */
  predicate Pairwise(rel: (string, Edge) -> bool, xs: seq<string>, ys: seq<Edge>)
    decreases |xs|
  {
    |xs| == |ys| && (xs != [] ==> rel(xs[0], ys[0]) && Pairwise(rel, xs[1..], ys[1..]))
  }

  lemma {:induction false} PairwiseAt(rel: (string, Edge) -> bool, xs: seq<string>, ys: seq<Edge>)
    requires Pairwise(rel, xs, ys)
    ensures |xs| == |ys| && forall k :: 0 <= k < |xs| ==> rel(xs[k], ys[k])
    decreases |xs|
  {
    if xs != [] {
      PairwiseAt(rel, xs[1..], ys[1..]);
      forall k | 0 < k < |xs| ensures rel(xs[k], ys[k]) {
        assert xs[k] == xs[1..][k - 1] && ys[k] == ys[1..][k - 1];
      }
    }
  }

  lemma EdgesOfSourcesAt(e: PathEnv, tools: seq<Tool>, sources: seq<string>, edges: seq<Edge>)
    requires EdgesOfSources(e, tools, sources, edges)
    ensures |edges| == |sources| && forall k :: 0 <= k < |sources| ==> SourceCompiled(e, tools, sources[k], edges[k])
  {
    PairwiseAt(CompiledBy(e, tools), sources, edges);
    forall k | 0 <= k < |sources| ensures SourceCompiled(e, tools, sources[k], edges[k]) {
      assert CompiledBy(e, tools)(sources[k], edges[k]);
    }
  }

  lemma EdgesOfSourcesCons(e: PathEnv, tools: seq<Tool>, all: seq<string>, allEdges: seq<Edge>,
                           source: string, sources: seq<string>, edge: Edge, edges: seq<Edge>)
    requires all == [source] + sources && allEdges == [edge] + edges
    requires SourceCompiled(e, tools, source, edge) && EdgesOfSources(e, tools, sources, edges)
    ensures EdgesOfSources(e, tools, all, allEdges)
  {
    assert all[1..] == sources && allEdges[1..] == edges;
  }

  /** `WriteSources` writes one edge per compiled source, in the order of the
      sources: the edge of that source with its compiler's rule. */
  lemma {:induction false} CompilePlanEdges(e: PathEnv, tools: seq<Tool>, predepends: Option<string>, sources: seq<string>)
    requires CompilePlan(e, tools, predepends, sources).Ok?
    ensures EdgesOfSources(e, tools, CompiledSources(e, tools, sources), CompilePlan(e, tools, predepends, sources).value.edges)
    decreases |sources|
  {
    if sources == [] {
      assert CompilePlan(e, tools, predepends, sources).value == Nothing;
    } else {
      var first := CompileStep(e, tools, predepends, sources[0]).value;
      var tailPlan := CompilePlan(e, tools, predepends, sources[1..]);
      assert CompilePlan(e, tools, predepends, sources) == Glue(first, tailPlan);
      CompilePlanEdges(e, tools, predepends, sources[1..]);
      var rest := tailPlan.value;
      if Compiles(e, tools, sources[0]) {
        CompiledEdgeDescribed(e, tools, predepends, sources[0]);
        CompiledCons(e, tools, sources, first, rest);
      } else {
        CompileStepSkipped(e, tools, predepends, sources[0]);
        SkippedCons(e, tools, sources, first, rest);
      }
    }
  }

  /** A compiled first source puts its edge in front of the rest's. */
  lemma CompiledCons(e: PathEnv, tools: seq<Tool>, sources: seq<string>, first: Emitted, rest: Emitted)
    requires sources != [] && Compiles(e, tools, sources[0])
    requires |first.edges| == 1 && SourceCompiled(e, tools, sources[0], first.edges[0])
    requires EdgesOfSources(e, tools, CompiledSources(e, tools, sources[1..]), rest.edges)
    ensures EdgesOfSources(e, tools, CompiledSources(e, tools, sources), Then(first, rest).edges)
  {
    var tailCompiled := CompiledSources(e, tools, sources[1..]);
    assert CompiledSources(e, tools, sources) == [sources[0]] + tailCompiled;
    SingletonConcat(first.edges, rest.edges);
    EdgesOfSourcesCons(e, tools, CompiledSources(e, tools, sources), Then(first, rest).edges,
                       sources[0], tailCompiled, first.edges[0], rest.edges);
  }

  lemma SingletonConcat<T>(a: seq<T>, b: seq<T>)
    requires |a| == 1
    ensures a + b == [a[0]] + b
  {
    assert a == [a[0]];
  }

  /** A skipped first source adds nothing. */
  lemma SkippedCons(e: PathEnv, tools: seq<Tool>, sources: seq<string>, first: Emitted, rest: Emitted)
    requires sources != [] && !Compiles(e, tools, sources[0]) && first == Nothing
    requires EdgesOfSources(e, tools, CompiledSources(e, tools, sources[1..]), rest.edges)
    ensures EdgesOfSources(e, tools, CompiledSources(e, tools, sources), Then(first, rest).edges)
  {
    EmptyConcat([], CompiledSources(e, tools, sources[1..]));
    EmptyConcat(first.edges, rest.edges);
    assert CompiledSources(e, tools, sources) == CompiledSources(e, tools, sources[1..]);
    EdgesOfSourcesSame(e, tools, CompiledSources(e, tools, sources), Then(first, rest).edges,
                       CompiledSources(e, tools, sources[1..]), rest.edges);
  }

  lemma EmptyConcat<T>(a: seq<T>, b: seq<T>)
    requires a == []
    ensures a + b == b
  {
  }

  lemma EdgesOfSourcesSame(e: PathEnv, tools: seq<Tool>, sources: seq<string>, edges: seq<Edge>,
                           sources': seq<string>, edges': seq<Edge>)
    requires sources == sources' && edges == edges' && EdgesOfSources(e, tools, sources', edges')
    ensures EdgesOfSources(e, tools, sources, edges)
  {
  }

  /** `config.get('include_dirs', [])`. */
  function IncludeDirs(config: Config): (r: seq<string>)
    ensures "include_dirs" !in config ==> r == []
    ensures "include_dirs" in config ==> r == config["include_dirs"]
  {
    if "include_dirs" in config then config["include_dirs"] else []
  }

  /** `WriteSources(config_name, config, sources, predepends, ...)`: the
      include directories must all be gyp paths, and then each source is
      compiled. */
  function SourcesPlan(e: PathEnv, tools: seq<Tool>, config: Config, predepends: Option<string>, sources: seq<string>)
    : (r: Result<Emitted, PyError>)
    ensures GypPathsToNinja(e, IncludeDirs(config)).Err? ==> r.Err?
    ensures GypPathsToNinja(e, IncludeDirs(config)).Ok? ==> r == CompilePlan(e, tools, predepends, sources)
  {
    var includeDirs :- GypPathsToNinja(e, IncludeDirs(config));
    CompilePlan(e, tools, predepends, sources)
  }

  /** The sources that are already object files. */
  function ObjectFiles(sources: seq<string>): (r: seq<string>)
    ensures forall f :: f in r <==> f in sources && EndsWith(f, ".o")
    decreases |sources|
  {
    if sources == [] then []
    else
      assert forall f :: f in sources <==> f == sources[0] || f in sources[1..];
      (if EndsWith(sources[0], ".o") then [sources[0]] else []) + ObjectFiles(sources[1..])
  }

  // ---------------------------------------------------------------------
  // Dependencies

  /** A target record the generator can hand to its dependents: it has a
      final output, and a library has its binary. */
  predicate Ready(t: Target)
  {
    Truthy(t.FinalOutput()) && (t.Linkable() ==> Truthy(t.binary))
  }

  predicate ReadyOutputs(outs: map<string, Target>)
  {
    forall q :: q in outs ==> Ready(outs[q])
  }

  /** `filter(None, [target.PreActionInput() for dep ...])`: what the
      dependencies that were written have their dependents' actions wait for. */
  function PreActionInputs(outs: map<string, Target>, deps: seq<string>): (r: seq<string>)
    ensures forall i :: 0 <= i < |r| ==> r[i] != ""
    ensures forall x :: x in r <==> exists d :: d in deps && d in outs && outs[d].PreActionInput() == Some(x) && x != ""
    decreases |deps|
  {
    if deps == [] then []
    else
      assert forall d :: d in deps <==> d == deps[0] || d in deps[1..];
      (if deps[0] in outs && Truthy(outs[deps[0]].PreActionInput()) then [outs[deps[0]].PreActionInput().value] else [])
      + PreActionInputs(outs, deps[1..])
  }

  /** `filter(None, [target.PreCompileInput() for dep ...])`. */
  function PreCompileInputs(outs: map<string, Target>, deps: seq<string>): (r: seq<string>)
    ensures forall i :: 0 <= i < |r| ==> r[i] != ""
    ensures forall x :: x in r <==> exists d :: d in deps && d in outs && outs[d].PreCompileInput() == Some(x) && x != ""
    decreases |deps|
  {
    if deps == [] then []
    else
      assert forall d :: d in deps <==> d == deps[0] || d in deps[1..];
      (if deps[0] in outs && Truthy(outs[deps[0]].PreCompileInput()) then [outs[deps[0]].PreCompileInput().value] else [])
      + PreCompileInputs(outs, deps[1..])
  }

  /** Dependency `d` was written and is a library with binary `x`. */
  predicate LinksAgainst(outs: map<string, Target>, d: string, x: string)
  {
    d in outs && outs[d].Linkable() && outs[d].binary == Some(x)
  }

  /** Dependency `d` was written and its final output `x` is not the binary
      that is linked. */
  predicate OrdersAfter(outs: map<string, Target>, d: string, x: string)
  {
    d in outs && (!outs[d].Linkable() || outs[d].FinalOutput() != outs[d].binary) && outs[d].FinalOutput() == Some(x)
  }

  /** The binaries of the library dependencies, in dependency order, before
      de-duplication. */
  function LinkInputsOf(outs: map<string, Target>, deps: seq<string>): (r: seq<string>)
    requires ReadyOutputs(outs)
    ensures forall x :: x in r <==> exists d :: d in deps && LinksAgainst(outs, d, x)
    decreases |deps|
  {
    if deps == [] then []
    else
      assert forall d :: d in deps <==> d == deps[0] || d in deps[1..];
      var d := deps[0];
      var head := if d in outs && outs[d].Linkable() then [outs[d].binary.value] else [];
      assert forall x :: x in head <==> LinksAgainst(outs, d, x) by {
        if d in outs { assert Ready(outs[d]); }
      }
      head + LinkInputsOf(outs, deps[1..])
  }

  /** The final outputs a link waits for without linking them, in first
      insertion order, before de-duplication. */
  function OrderOnlyOf(outs: map<string, Target>, deps: seq<string>): (r: seq<string>)
    requires ReadyOutputs(outs)
    ensures forall x :: x in r <==> exists d :: d in deps && OrdersAfter(outs, d, x)
    decreases |deps|
  {
    if deps == [] then []
    else
      assert forall d :: d in deps <==> d == deps[0] || d in deps[1..];
      var d := deps[0];
      var head := if d in outs && (!outs[d].Linkable() || outs[d].FinalOutput() != outs[d].binary) then [outs[d].FinalOutput().value] else [];
      assert forall x :: x in head <==> OrdersAfter(outs, d, x) by {
        if d in outs { assert Ready(outs[d]); }
      }
      head + OrderOnlyOf(outs, deps[1..])
  }

  /** What one more dependency adds to the link line. */
  lemma {:induction false} LinkInputsOfSnoc(outs: map<string, Target>, deps: seq<string>, d: string)
    requires ReadyOutputs(outs)
    ensures LinkInputsOf(outs, deps + [d]) ==
            LinkInputsOf(outs, deps) + (if d in outs && outs[d].Linkable() then [outs[d].binary.value] else [])
    decreases |deps|
  {
    if deps == [] {
      assert LinkInputsOf(outs, [d]) == (if d in outs && outs[d].Linkable() then [outs[d].binary.value] else []) + LinkInputsOf(outs, []);
    } else {
      assert (deps + [d])[0] == deps[0] && (deps + [d])[1..] == deps[1..] + [d];
      LinkInputsOfSnoc(outs, deps[1..], d);
      ConcatAssoc(if deps[0] in outs && outs[deps[0]].Linkable() then [outs[deps[0]].binary.value] else [],
                  LinkInputsOf(outs, deps[1..]),
                  if d in outs && outs[d].Linkable() then [outs[d].binary.value] else []);
    }
  }

  /** What one more dependency adds to the order-only inputs. */
  lemma {:induction false} OrderOnlyOfSnoc(outs: map<string, Target>, deps: seq<string>, d: string)
    requires ReadyOutputs(outs)
    ensures OrderOnlyOf(outs, deps + [d]) ==
            OrderOnlyOf(outs, deps) +
            (if d in outs && (!outs[d].Linkable() || outs[d].FinalOutput() != outs[d].binary) then [outs[d].FinalOutput().value] else [])
    decreases |deps|
  {
    if deps == [] {
      assert OrderOnlyOf(outs, [d]) ==
             (if d in outs && (!outs[d].Linkable() || outs[d].FinalOutput() != outs[d].binary) then [outs[d].FinalOutput().value] else [])
             + OrderOnlyOf(outs, []);
    } else {
      var d0 := deps[0];
      assert (deps + [d])[0] == d0 && (deps + [d])[1..] == deps[1..] + [d];
      OrderOnlyOfSnoc(outs, deps[1..], d);
      ConcatAssoc(if d0 in outs && (!outs[d0].Linkable() || outs[d0].FinalOutput() != outs[d0].binary) then [outs[d0].FinalOutput().value] else [],
                  OrderOnlyOf(outs, deps[1..]),
                  if d in outs && (!outs[d].Linkable() || outs[d].FinalOutput() != outs[d].binary) then [outs[d].FinalOutput().value] else []);
    }
  }

  /** `PreActionInputs` grows by the dependency appended. */
  lemma {:induction false} PreActionInputsSnoc(outs: map<string, Target>, deps: seq<string>, d: string)
    ensures PreActionInputs(outs, deps + [d]) ==
            PreActionInputs(outs, deps) + (if d in outs && Truthy(outs[d].PreActionInput()) then [outs[d].PreActionInput().value] else [])
    decreases |deps|
  {
    var tail := if d in outs && Truthy(outs[d].PreActionInput()) then [outs[d].PreActionInput().value] else [];
    if deps == [] {
      assert PreActionInputs(outs, [d]) == tail + PreActionInputs(outs, []);
    } else {
      var d0 := deps[0];
      assert (deps + [d])[0] == d0 && (deps + [d])[1..] == deps[1..] + [d];
      PreActionInputsSnoc(outs, deps[1..], d);
      ConcatAssoc(if d0 in outs && Truthy(outs[d0].PreActionInput()) then [outs[d0].PreActionInput().value] else [],
                  PreActionInputs(outs, deps[1..]), tail);
    }
  }

  /** `PreCompileInputs` grows by the dependency appended. */
  lemma {:induction false} PreCompileInputsSnoc(outs: map<string, Target>, deps: seq<string>, d: string)
    ensures PreCompileInputs(outs, deps + [d]) ==
            PreCompileInputs(outs, deps) + (if d in outs && Truthy(outs[d].PreCompileInput()) then [outs[d].PreCompileInput().value] else [])
    decreases |deps|
  {
    var tail := if d in outs && Truthy(outs[d].PreCompileInput()) then [outs[d].PreCompileInput().value] else [];
    if deps == [] {
      assert PreCompileInputs(outs, [d]) == tail + PreCompileInputs(outs, []);
    } else {
      var d0 := deps[0];
      assert (deps + [d])[0] == d0 && (deps + [d])[1..] == deps[1..] + [d];
      PreCompileInputsSnoc(outs, deps[1..], d);
      ConcatAssoc(if d0 in outs && Truthy(outs[d0].PreCompileInput()) then [outs[d0].PreCompileInput().value] else [],
                  PreCompileInputs(outs, deps[1..]), tail);
    }
  }

  /** Every written dependency is waited for by the link: a library through
      its binary on the link line, and anything else, or a library whose
      final output is not its binary, through its final output as an
      order-only input. Dependencies that were not written contribute
      nothing. */
  lemma DependencyPartition(outs: map<string, Target>, deps: seq<string>, d: string)
    requires ReadyOutputs(outs) && d in deps
    ensures d !in outs ==> forall x :: !LinksAgainst(outs, d, x) && !OrdersAfter(outs, d, x)
    ensures d in outs && outs[d].Linkable() ==> outs[d].binary.value in Dedup(LinkInputsOf(outs, deps))
    ensures d in outs && (!outs[d].Linkable() || outs[d].FinalOutput() != outs[d].binary) ==>
              outs[d].FinalOutput().value in Dedup(OrderOnlyOf(outs, deps))
    ensures d in outs && !(outs[d].FinalOutput().value in Dedup(OrderOnlyOf(outs, deps))) ==>
              outs[d].Linkable() && outs[d].FinalOutput() == outs[d].binary
  {
    if d in outs && outs[d].Linkable() {
      assert LinksAgainst(outs, d, outs[d].binary.value);
    }
    if d in outs && (!outs[d].Linkable() || outs[d].FinalOutput() != outs[d].binary) {
      assert OrdersAfter(outs, d, outs[d].FinalOutput().value);
    }
  }

  // ---------------------------------------------------------------------
  // WriteLink and WriteTarget

  /** The linker `WriteLink` looks up: the executable linker for an
      executable, the shared library linker for a shared library; a missing
      one fails the assertion and any other target type is not supported. */
  function LinkerFor(ttype: TargetType, tools: seq<Tool>): (r: Result<Tool, PyError>)
    ensures ttype != Executable && ttype != SharedLibrary ==> r.Err? && r.error.GenericError?
    ensures ttype == Executable ==> (r.Ok? <==> FindFirstInstanceOf(ExecutableLinker, tools).Some?)
    ensures ttype == SharedLibrary ==> (r.Ok? <==> FindFirstInstanceOf(SharedLibraryLinker, tools).Some?)
    ensures r.Ok? ==> (if ttype == Executable then ExecutableLinker else SharedLibraryLinker) in r.value.roles
  {
    if ttype == Executable then
      var t := FindFirstInstanceOf(ExecutableLinker, tools);
      if t.None? then Err(AssertionError("Toolchain must provide executable linker")) else Ok(t.value)
    else if ttype == SharedLibrary then
      var t := FindFirstInstanceOf(SharedLibraryLinker, tools);
      if t.None? then Err(AssertionError("Toolchain must provide shared library linker")) else Ok(t.value)
    else Err(GenericError("Target type is not supported"))
  }

  /** The extra bindings of a link edge: a shared library is told its
      `soname`, the last component of its output, and its `dll` path, and,
      unless its linker's flags contain `/NOENTRY`, its import library. */
  function LinkBindings(e: PathEnv, spec: Spec, vars: ProductVars, linker: Tool): (r: Result<seq<(string, string)>, PyError>)
    ensures spec.ttype != SharedLibrary ==> r == Ok([])
    ensures spec.ttype == SharedLibrary ==> (r.Ok? <==> ComputeOutput(e, spec, vars).Ok?)
    ensures spec.ttype == SharedLibrary && r.Ok? ==>
              |r.value| == 2 + |ImplibBinding(ComputeOutput(e, spec, vars).value, linker)| &&
              r.value[0].0 == "soname" && r.value[1] == ("dll", ComputeOutput(e, spec, vars).value)
  {
    if spec.ttype == SharedLibrary then
      var output :- ComputeOutput(e, spec, vars);
      Ok([("soname", PathSplit(output).1), ("dll", output)] + ImplibBinding(output, linker))
    else Ok([])
  }

  /** `implibflag`, present when the linker's flags lack `/NOENTRY`. */
  function ImplibBinding(output: string, linker: Tool): (r: seq<(string, string)>)
    ensures |r| == (if linker.noEntry then 0 else 1)
    ensures r != [] ==> r[0].0 == "implibflag" && r[0].1 == "/IMPLIB:" + output + ".lib"
  {
    if linker.noEntry then [] else [("implibflag", "/IMPLIB:" + output + ".lib")]
  }

  /** `TailDependencies` of the configuration with the specials expanded. */
  function TailDeps(e: PathEnv, config: Config): (r: seq<string>)
    ensures |r| == |GetConfigFlags(config, e.toolset, "TailDependencies")|
    ensures forall i :: 0 <= i < |r| ==> r[i] == ExpandSpecial(e, GetConfigFlags(config, e.toolset, "TailDependencies")[i], "")
  {
    ExpandSpecialAll(e, GetConfigFlags(config, e.toolset, "TailDependencies"), "")
  }

  /** `WriteLink(spec, config_name, config, link_deps)`: one edge from the
      given link dependencies, the de-duplicated binaries of the library
      dependencies and the tail dependencies, to the target's output, waiting
      on the other dependencies' final outputs. */
  function LinkPlan(e: PathEnv, tools: seq<Tool>, spec: Spec, config: Config, vars: ProductVars,
                    outs: map<string, Target>, linkDeps: seq<string>): (r: Result<Edge, PyError>)
    requires ReadyOutputs(outs)
    ensures r.Ok? ==> |r.value.outputs| == 1
  {
    var linker :- LinkerFor(spec.ttype, tools);
    var bindings :- LinkBindings(e, spec, vars, linker);
    var output :- ComputeOutput(e, spec, vars);
    var inputs := linkDeps + Dedup(LinkInputsOf(outs, spec.dependencies)) + TailDeps(e, config);
    Ok(Edge([output], GetNinjaRuleName(linker, e.toolset), inputs, [], Dedup(OrderOnlyOf(outs, spec.dependencies)), bindings))
  }

  /** The link edge goes to the target's output with the linker's rule; its
      inputs are the given link dependencies, then each library dependency's
      binary once, in dependency order, then the tail dependencies; it waits,
      without duplicates, on exactly the final outputs that are not linked. */
  lemma LinkPlanEdge(e: PathEnv, tools: seq<Tool>, spec: Spec, config: Config, vars: ProductVars,
                     outs: map<string, Target>, linkDeps: seq<string>)
    requires ReadyOutputs(outs)
    ensures spec.ttype != Executable && spec.ttype != SharedLibrary ==>
              LinkPlan(e, tools, spec, config, vars, outs, linkDeps).Err?
    ensures LinkPlan(e, tools, spec, config, vars, outs, linkDeps).Ok? ==>
              var edge := LinkPlan(e, tools, spec, config, vars, outs, linkDeps).value;
              var libs := edge.inputs[|linkDeps|..|edge.inputs| - |TailDeps(e, config)|];
              ComputeOutput(e, spec, vars).Ok? && edge.outputs == [ComputeOutput(e, spec, vars).value] &&
              edge.rule == GetNinjaRuleName(LinkerFor(spec.ttype, tools).value, e.toolset) &&
              |linkDeps| + |TailDeps(e, config)| <= |edge.inputs| &&
              edge.inputs[..|linkDeps|] == linkDeps &&
              edge.inputs[|edge.inputs| - |TailDeps(e, config)|..] == TailDeps(e, config) &&
              NoDups(libs) && (forall x :: x in libs <==> exists d :: d in spec.dependencies && LinksAgainst(outs, d, x)) &&
              NoDups(edge.orderOnly) &&
              (forall x :: x in edge.orderOnly <==> exists d :: d in spec.dependencies && OrdersAfter(outs, d, x)) &&
              (spec.ttype == SharedLibrary ==>
                 edge.variables == [("soname", PathSplit(edge.outputs[0]).1), ("dll", edge.outputs[0])] +
                                   ImplibBinding(edge.outputs[0], LinkerFor(spec.ttype, tools).value)) &&
              (spec.ttype == Executable ==> edge.variables == [])
  {
    if LinkPlan(e, tools, spec, config, vars, outs, linkDeps).Ok? {
      var edge := LinkPlan(e, tools, spec, config, vars, outs, linkDeps).value;
      var libs := Dedup(LinkInputsOf(outs, spec.dependencies));
      var tail := TailDeps(e, config);
      LinkPlanUnfold(e, tools, spec, config, vars, outs, linkDeps);
      ThreeParts(linkDeps, libs, tail);
    }
  }

  /** A link edge that was written, field by field. */
  lemma LinkPlanUnfold(e: PathEnv, tools: seq<Tool>, spec: Spec, config: Config, vars: ProductVars,
                       outs: map<string, Target>, linkDeps: seq<string>)
    requires ReadyOutputs(outs)
    requires LinkPlan(e, tools, spec, config, vars, outs, linkDeps).Ok?
    ensures LinkerFor(spec.ttype, tools).Ok? && LinkBindings(e, spec, vars, LinkerFor(spec.ttype, tools).value).Ok?
    ensures ComputeOutput(e, spec, vars).Ok?
    ensures var edge := LinkPlan(e, tools, spec, config, vars, outs, linkDeps).value;
            edge.outputs == [ComputeOutput(e, spec, vars).value] &&
            edge.rule == GetNinjaRuleName(LinkerFor(spec.ttype, tools).value, e.toolset) &&
            edge.inputs == linkDeps + Dedup(LinkInputsOf(outs, spec.dependencies)) + TailDeps(e, config) &&
            edge.orderOnly == Dedup(OrderOnlyOf(outs, spec.dependencies)) &&
            edge.variables == LinkBindings(e, spec, vars, LinkerFor(spec.ttype, tools).value).value
  {
  }

  /** The middle of three concatenated lists, recovered by its bounds. */
  lemma ThreeParts(a: seq<string>, b: seq<string>, c: seq<string>)
    ensures var s := a + b + c;
            s[..|a|] == a && s[|a|..|s| - |c|] == b && s[|s| - |c|..] == c
  {
  }

  /** The archiver of a static library: the thin archiver when the library
      is not standalone and the toolchain has one, else the static linker. */
  function StaticLinkerFor(standalone: bool, tools: seq<Tool>): (r: Option<Tool>)
    ensures r.Some? ==> StaticThinLinker in r.value.roles || StaticLinker in r.value.roles
    ensures r.Some? && StaticLinker !in r.value.roles ==> !standalone
    ensures r.None? <==> FindFirstInstanceOf(StaticLinker, tools).None? &&
                         (standalone || FindFirstInstanceOf(StaticThinLinker, tools).None?)
    ensures standalone ==> r == FindFirstInstanceOf(StaticLinker, tools)
    ensures !standalone && FindFirstInstanceOf(StaticThinLinker, tools).Some? ==>
              r == FindFirstInstanceOf(StaticThinLinker, tools)
    ensures !standalone && FindFirstInstanceOf(StaticThinLinker, tools).None? ==>
              r == FindFirstInstanceOf(StaticLinker, tools)
  {
    var thin := FindFirstInstanceOf(StaticThinLinker, tools);
    if !standalone && thin.Some? then thin else FindFirstInstanceOf(StaticLinker, tools)
  }

  /** What `WriteTarget` produces: the target's binary and the edges written
      for it. */
  datatype Built = Built(binary: Option<string>, edges: seq<Edge>)

  /** The archive edge of a static library: from the link dependencies to
      the computed output, with the archiver's rule, waiting on
      `compile_deps`. */
  function ArchivePlan(e: PathEnv, tools: seq<Tool>, spec: Spec, vars: ProductVars,
                       linkDeps: seq<string>, compileDeps: Option<string>): (r: Result<Built, PyError>)
    ensures StaticLinkerFor(spec.standaloneStaticLibrary, tools).None? ==> r.Err?
    ensures r.Ok? ==> ComputeOutput(e, spec, vars).Ok? && r.value.binary == Some(ComputeOutput(e, spec, vars).value) &&
                      |r.value.edges| == 1 && r.value.edges[0].outputs == [r.value.binary.value] &&
                      r.value.edges[0].inputs == linkDeps && r.value.edges[0].orderOnly == AsList(compileDeps)
  {
    var output :- ComputeOutput(e, spec, vars);
    var linker := StaticLinkerFor(spec.standaloneStaticLibrary, tools);
    if linker.None? then Err(AssertionError("Toolchain must provide static linker"))
    else Ok(Built(Some(output), [Edge([output], GetNinjaRuleName(linker.value, e.toolset), linkDeps, [], AsList(compileDeps), [])]))
  }

  /** `WriteTarget(spec, config_name, config, link_deps, compile_deps)`. A
      `none` target's binary is the stamp standing for its prerequisites; a
      static library is archived from the link dependencies after
      `compile_deps`; anything else is linked. */
  function TargetStep(e: PathEnv, tools: seq<Tool>, spec: Spec, config: Config, vars: ProductVars,
                      outs: map<string, Target>, linkDeps: seq<string>, compileDeps: Option<string>)
    : (r: Result<Built, PyError>)
    requires ReadyOutputs(outs)
    ensures spec.ttype == NoneType ==> r == Ok(Built(compileDeps, []))
    ensures r.Ok? && spec.ttype != NoneType ==> |r.value.edges| == 1 && |r.value.edges[0].outputs| == 1 && r.value.binary == Some(r.value.edges[0].outputs[0])
  {
    if spec.ttype == NoneType then Ok(Built(compileDeps, []))
    else if spec.ttype == StaticLibrary then ArchivePlan(e, tools, spec, vars, linkDeps, compileDeps)
    else
      var edge :- LinkPlan(e, tools, spec, config, vars, outs, linkDeps);
      Ok(Built(Some(edge.outputs[0]), [edge]))
  }

  /** A `none` target writes nothing and its binary is `compile_deps`; any
      other target writes exactly one edge, whose only output is the binary,
      the target's computed output. A static library's edge reads the link
      dependencies and waits on `compile_deps`. */
  lemma TargetStepCases(e: PathEnv, tools: seq<Tool>, spec: Spec, config: Config, vars: ProductVars,
                        outs: map<string, Target>, linkDeps: seq<string>, compileDeps: Option<string>)
    requires ReadyOutputs(outs)
    ensures spec.ttype == NoneType ==> TargetStep(e, tools, spec, config, vars, outs, linkDeps, compileDeps) == Ok(Built(compileDeps, []))
    ensures spec.ttype != NoneType && TargetStep(e, tools, spec, config, vars, outs, linkDeps, compileDeps).Ok? ==>
              var b := TargetStep(e, tools, spec, config, vars, outs, linkDeps, compileDeps).value;
              ComputeOutput(e, spec, vars).Ok? && b.binary == Some(ComputeOutput(e, spec, vars).value) &&
              |b.edges| == 1 && b.edges[0].outputs == [b.binary.value]
    ensures spec.ttype == StaticLibrary && TargetStep(e, tools, spec, config, vars, outs, linkDeps, compileDeps).Ok? ==>
              var b := TargetStep(e, tools, spec, config, vars, outs, linkDeps, compileDeps).value;
              b.edges[0].inputs == linkDeps && b.edges[0].orderOnly == AsList(compileDeps) &&
              b.edges[0].rule == GetNinjaRuleName(StaticLinkerFor(spec.standaloneStaticLibrary, tools).value, e.toolset)
    ensures spec.ttype == StaticLibrary && StaticLinkerFor(spec.standaloneStaticLibrary, tools).None? ==>
              TargetStep(e, tools, spec, config, vars, outs, linkDeps, compileDeps).Err?
  {
    if spec.ttype != NoneType && spec.ttype != StaticLibrary {
      LinkPlanEdge(e, tools, spec, config, vars, outs, linkDeps);
    }
  }

  // ---------------------------------------------------------------------
  // WriteSpec

  /** What a writer knows besides its paths: the two toolchains, the digest
      of its qualified target name that rule names carry, the md5 digest it
      names rule outputs with, the product variables, and the targets
      written before it. */
  datatype WriterCtx = WriterCtx(
    targetTools: seq<Tool>,
    hostTools: seq<Tool>,
    hash: string,
    digest: string -> string,
    vars: ProductVars,
    outs: map<string, Target>)

  /** The toolchain of a toolset: the target one for `target`, else the
      host one. */
  function ToolsFor(ctx: WriterCtx, toolset: string): seq<Tool>
  {
    if toolset == "target" then ctx.targetTools else ctx.hostTools
  }

  /** The writer's path fields once `WriteSpec` has set the configuration,
      the target name and the toolset. */
  function SpecEnv(base: PathEnv, configName: string, spec: Spec): (e: PathEnv)
    ensures e.baseDir == base.baseDir && e.buildDir == base.buildDir
    ensures e.buildToBase == base.buildToBase && e.baseToBuild == base.baseToBuild
    ensures e.caseSensitive == base.caseSensitive
    ensures e.configName == configName && e.name == spec.targetName && e.toolset == spec.toolset
  {
    base.(configName := configName, name := spec.targetName, toolset := spec.toolset)
  }

  /** The first part of `WriteSpec`: the dependencies' prerequisites
      collapsed into one path for actions and one for compiles, then the
      actions, rules and copies. */
  datatype Front = Front(actionsDepends: Option<string>, compileDepends: Option<string>, dependEdges: seq<Edge>, arc: Stamped)

  /** The two collapsed prerequisites and the stamp edges they needed. */
  datatype Depends = Depends(actions: Option<string>, compiles: Option<string>, edges: seq<Edge>)

  function DependsPlan(e: PathEnv, hostTools: seq<Tool>, outs: map<string, Target>, deps: seq<string>)
    : (r: Result<Depends, PyError>)
    ensures r.Ok? ==> (r.value.actions.Some? <==> PreActionInputs(outs, deps) != []) &&
                      (r.value.compiles.Some? <==> PreCompileInputs(outs, deps) != []) && |r.value.edges| <= 2
  {
    var ad :- Collapse(e, hostTools, "actions_depends", PreActionInputs(outs, deps));
    var cd :- Collapse(e, hostTools, "compile_depends", PreCompileInputs(outs, deps));
    Ok(Depends(ad.0, cd.0, ad.1 + cd.1))
  }

  function FrontPlan(e: PathEnv, ctx: WriterCtx, spec: Spec): (r: Result<Front, PyError>)
    ensures r.Ok? ==> (r.value.actionsDepends.Some? <==> PreActionInputs(ctx.outs, spec.dependencies) != []) &&
                      (r.value.compileDepends.Some? <==> PreCompileInputs(ctx.outs, spec.dependencies) != []) &&
                      |r.value.dependEdges| <= 2 && |r.value.arc.stampEdges| <= 1
  {
    var d :- DependsPlan(e, ctx.hostTools, ctx.outs, spec.dependencies);
    var arc :- ActionsRulesCopiesPlan(e, ctx.hostTools, ctx.hash, ctx.digest, d.actions, spec);
    Ok(Front(d.actions, d.compiles, d.edges, arc))
  }

  /** The compile part of `WriteSpec`: written only when there are sources;
      the link dependencies are the compiled objects, then the sources that
      are object files already. */
  datatype CompileOut = CompileOut(linkDeps: seq<string>, edges: seq<Edge>)

  function CompilePhase(e: PathEnv, tools: seq<Tool>, config: Config, predepends: Option<string>, sources: seq<string>)
    : (r: Result<CompileOut, PyError>)
    ensures sources == [] ==> r == Ok(CompileOut([], []))
    ensures sources != [] && GypPathsToNinja(e, IncludeDirs(config)).Err? ==> r.Err?
    ensures r.Ok? ==> |r.value.edges| == |CompiledSources(e, tools, sources)|
  {
    if sources == [] then Ok(CompileOut([], []))
    else
      var m :- SourcesPlan(e, tools, config, predepends, sources);
      var objs :- GypPathsToNinja(e, ObjectFiles(sources));
      Ok(CompileOut(m.outputs + objs, m.edges))
  }

  /** Everything `WriteSpec` writes for a target, and what it returns. */
  datatype SpecOut = SpecOut(target: Option<Target>, rules: seq<RuleDecl>, edges: seq<Edge>)

  /** `WriteSpec(spec, config_name, generator_flags)`. A configuration the
      target does not have raises `KeyError`. The target is returned only
      when it has an output. */
  function SpecPlan(base: PathEnv, ctx: WriterCtx, configName: string, spec: Spec): (r: Result<SpecOut, PyError>)
    requires ReadyOutputs(ctx.outs)
    ensures configName !in spec.configurations ==> r == Err(KeyError(configName))
    ensures r.Ok? && r.value.target.Some? ==> r.value.target.value.ttype == spec.ttype && Truthy(r.value.target.value.binary)
  {
    if configName !in spec.configurations then Err(KeyError(configName))
    else SpecBody(SpecEnv(base, configName, spec), ctx, spec.configurations[configName], spec)
  }

  /** `WriteSpec` once the configuration is found: the prerequisites and
      the actions, rules and copies, then the compiles, then the link step
      when there is anything to link or to wait for. */
  function SpecBody(e: PathEnv, ctx: WriterCtx, config: Config, spec: Spec): (r: Result<SpecOut, PyError>)
    requires ReadyOutputs(ctx.outs)
    ensures r.Ok? && r.value.target.Some? ==> r.value.target.value.ttype == spec.ttype && Truthy(r.value.target.value.binary)
  {
    var front :- FrontPlan(e, ctx, spec);
    var t := NewTarget(spec.ttype).(preactionStamp := front.actionsDepends, precompileStamp := front.compileDepends,
                                    actionsStamp := front.arc.stamp);
    var b :- BuildPhase(e, ToolsFor(ctx, spec.toolset), spec, config, ctx.vars, ctx.outs, t, front.arc.steps.extraSources);
    Ok(SpecOut(b.0, front.arc.steps.rules, front.dependEdges + front.arc.steps.edges + front.arc.stampEdges + b.1))
  }

  /** The second part of `WriteSpec`: the compiles, waiting on the stamp
      of the actions, rules and copies or else on `compile_depends`, then
      the link step when there are objects to link or anything to wait for
      (the stamp, or else `actions_depends`). `t` is the target record as
      the first part left it. The record is returned, with its binary, only
      when the link step has an output, together with the edges written. */
  function BuildPhase(e: PathEnv, tools: seq<Tool>, spec: Spec, config: Config, vars: ProductVars,
                      outs: map<string, Target>, t: Target, extraSources: seq<string>)
    : (r: Result<(Option<Target>, seq<Edge>), PyError>)
    requires ReadyOutputs(outs)
    ensures r.Ok? && r.value.0.Some? ==> r.value.0.value == t.(binary := r.value.0.value.binary) && Truthy(r.value.0.value.binary)
  {
    var c :- CompilePhase(e, tools, config, Or(t.actionsStamp, t.precompileStamp), spec.sources + extraSources);
    if c.linkDeps != [] || Truthy(t.actionsStamp) || Truthy(t.preactionStamp) then
      var b :- TargetStep(e, tools, spec, config, vars, outs, c.linkDeps, Or(t.actionsStamp, t.preactionStamp));
      Ok((if Truthy(b.binary) then Some(t.(binary := b.binary)) else None, c.edges + b.edges))
    else Ok((None, c.edges))
  }

  /** A configuration the target lacks is a `KeyError`. */
  lemma SpecPlanMissingConfig(base: PathEnv, ctx: WriterCtx, configName: string, spec: Spec)
    requires ReadyOutputs(ctx.outs) && configName !in spec.configurations
    ensures SpecPlan(base, ctx, configName, spec) == Err(KeyError(configName))
  {
  }

  /** The record `WriteSpec` returns is ready for the targets that depend on
      it: its final output is its binary (there are no bundles), so the
      source's closing assertion holds; it is of the spec's type and carries
      the stamps of its prerequisites and of its actions, rules and copies. */
  lemma SpecPlanReady(base: PathEnv, ctx: WriterCtx, configName: string, spec: Spec)
    requires ReadyOutputs(ctx.outs)
    requires SpecPlan(base, ctx, configName, spec).Ok? && SpecPlan(base, ctx, configName, spec).value.target.Some?
    ensures var t := SpecPlan(base, ctx, configName, spec).value.target.value;
            var e := SpecEnv(base, configName, spec);
            var front := FrontPlan(e, ctx, spec);
            Ready(t) && t.ttype == spec.ttype && t.FinalOutput() == t.binary &&
            front.Ok? && t.preactionStamp == front.value.actionsDepends &&
            t.precompileStamp == front.value.compileDepends && t.actionsStamp == front.value.arc.stamp
  {
  }

  /** A target with nothing to do, a settings-only `none` target whose
      dependencies leave nothing to wait for, writes nothing and returns
      None. */
  lemma SpecPlanNothing(base: PathEnv, ctx: WriterCtx, configName: string, spec: Spec)
    requires ReadyOutputs(ctx.outs) && configName in spec.configurations
    requires PreActionInputs(ctx.outs, spec.dependencies) == [] && PreCompileInputs(ctx.outs, spec.dependencies) == []
    requires spec.actions == [] && spec.rules == [] && spec.copies == [] && spec.sources == []
    ensures SpecPlan(base, ctx, configName, spec) == Ok(SpecOut(None, [], []))
  {
    var e := SpecEnv(base, configName, spec);
    assert ActionsRulesCopiesPlan(e, ctx.hostTools, ctx.hash, ctx.digest, None, spec) == Ok(Stamped(None, Nothing, []));
  }

  /** The compile part of a target with sources, field by field. */
  lemma CompilePhaseUnfold(e: PathEnv, tools: seq<Tool>, config: Config, predepends: Option<string>, sources: seq<string>)
    requires sources != [] && CompilePhase(e, tools, config, predepends, sources).Ok?
    ensures CompilePlan(e, tools, predepends, sources).Ok? && GypPathsToNinja(e, ObjectFiles(sources)).Ok?
    ensures CompilePhase(e, tools, config, predepends, sources) ==
            Ok(CompileOut(CompilePlan(e, tools, predepends, sources).value.outputs + GypPathsToNinja(e, ObjectFiles(sources)).value,
                          CompilePlan(e, tools, predepends, sources).value.edges))
  {
  }

  /** The compiles of a target wait on `predepends` (its actions, rules and
      copies when it has some, and otherwise what its dependencies' compiles
      wait for); the compile edges are exactly the edges of the compiled
      sources, and the link dependencies are their outputs followed by the
      sources that are object files already. */
  lemma CompilePhaseEdges(e: PathEnv, tools: seq<Tool>, config: Config, predepends: Option<string>, sources: seq<string>)
    requires CompilePhase(e, tools, config, predepends, sources).Ok?
    ensures var c := CompilePhase(e, tools, config, predepends, sources).value;
            var compiled := CompiledSources(e, tools, sources);
            AllOrderOnly(c.edges, AsList(predepends)) && |c.edges| == |compiled| &&
            (forall k :: 0 <= k < |compiled| ==> SourceCompiled(e, tools, compiled[k], c.edges[k])) &&
            |c.edges| <= |c.linkDeps| && c.linkDeps[..|c.edges|] == OutputsOf(c.edges) &&
            GypPathsToNinja(e, ObjectFiles(sources)) == Ok(c.linkDeps[|c.edges|..])
  {
    if sources != [] {
      CompilePhaseUnfold(e, tools, config, predepends, sources);
      var m := CompilePlan(e, tools, predepends, sources).value;
      CompilePlanCoherent(e, tools, predepends, sources);
      CompilePlanEdges(e, tools, predepends, sources);
      EdgesOfSourcesAt(e, tools, CompiledSources(e, tools, sources), m.edges);
      var compiled := CompiledSources(e, tools, sources);
      forall i | 0 <= i < |m.edges| ensures |m.edges[i].outputs| == 1 {
        assert SourceCompiled(e, tools, compiled[i], m.edges[i]);
      }
      OutputsOneEach(m.edges);
      var objs := GypPathsToNinja(e, ObjectFiles(sources)).value;
      assert (m.outputs + objs)[..|m.edges|] == m.outputs;
      assert (m.outputs + objs)[|m.edges|..] == objs;
    } else {
      assert CompiledSources(e, tools, sources) == [];
      assert ObjectFiles(sources) == [];
    }
  }
}
