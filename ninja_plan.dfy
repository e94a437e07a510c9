/** What the per-target writer emits, as values: Ninja `build` edges and
    `rule` statements, and for each writing step a function from the step's
    inputs to what it writes and returns. The writer's methods are proved to
    append exactly these. */
module NinjaPlan {
  import opened Wrappers
  import opened GypPaths
  import opened NinjaTarget
  import opened NinjaToolchain
  import opened NinjaSpec
  import opened NinjaPaths

  /** A Ninja `build` statement: `outputs: rule inputs | implicit || orderOnly`
      with its variable bindings. */
  datatype Edge = Edge(
    outputs: seq<string>,
    rule: string,
    inputs: seq<string>,
    implicit: seq<string>,
    orderOnly: seq<string>,
    variables: seq<(string, string)>)

  /** A Ninja `rule` statement written for a gyp action or rule: its name and
      the arguments of its command. */
  datatype RuleDecl = RuleDecl(name: string, args: seq<string>)

  /** What a sequence of writing steps produced: rule statements, edges, the
      paths it returns, and the extra sources it adds for compilation. */
  datatype Emitted = Emitted(
    rules: seq<RuleDecl>,
    edges: seq<Edge>,
    outputs: seq<string>,
    extraSources: seq<string>)

  const Nothing := Emitted([], [], [], [])

  /** One step's output followed by the next one's. */
  function Then(a: Emitted, b: Emitted): Emitted
  {
    Emitted(a.rules + b.rules, a.edges + b.edges, a.outputs + b.outputs, a.extraSources + b.extraSources)
  }

  /** What has been written so far, followed by a rest that may fail. */
  function Glue(a: Emitted, rest: Result<Emitted, PyError>): Result<Emitted, PyError>
  {
    if rest.Err? then Err(rest.error) else Ok(Then(a, rest.value))
  }

  /** What follows a prefix. */
  lemma DropPrefix<T>(a: seq<T>, b: seq<T>)
    ensures (a + b)[|a|..] == b
  {
  }

  /** Nothing written before a rest leaves the rest as it is. */
  lemma GlueNothing(rest: Result<Emitted, PyError>)
    ensures Glue(Nothing, rest) == rest
  {
    if rest.Ok? {
      ThenNothing(rest.value);
    }
  }

  /** Writing `a`, then `b`, then a rest is writing `a` and `b` together,
      then the rest. */
  lemma GlueAssoc(a: Emitted, b: Emitted, rest: Result<Emitted, PyError>)
    ensures Glue(a, Glue(b, rest)) == Glue(Then(a, b), rest)
  {
    if rest.Ok? {
      assert Then(a, Then(b, rest.value)) == Then(Then(a, b), rest.value);
    }
  }

  lemma ThenNothing(a: Emitted)
    ensures Then(a, Nothing) == a && Then(Nothing, a) == a
  {
  }

  /** `ninja_syntax`'s reading of an order-only argument: None is no path,
      a string is one. */
  function AsList(p: Option<string>): seq<string>
  {
    if p.Some? then [p.value] else []
  }

  /** The outputs of a list of edges, in order. */
  function OutputsOf(edges: seq<Edge>): seq<string>
    decreases |edges|
  {
    if edges == [] then [] else edges[0].outputs + OutputsOf(edges[1..])
  }

  lemma {:induction false} OutputsOfConcat(a: seq<Edge>, b: seq<Edge>)
    ensures OutputsOf(a + b) == OutputsOf(a) + OutputsOf(b)
    decreases |a|
  {
    if a != [] {
      assert (a + b)[0] == a[0];
      assert (a + b)[1..] == a[1..] + b;
      OutputsOfConcat(a[1..], b);
    } else {
      assert a + b == b;
    }
  }

  /** Edges with one output each have as many outputs as edges. */
  lemma {:induction false} OutputsOneEach(edges: seq<Edge>)
    requires forall i :: 0 <= i < |edges| ==> |edges[i].outputs| == 1
    ensures |OutputsOf(edges)| == |edges|
    decreases |edges|
  {
    if edges != [] {
      OutputsOneEach(edges[1..]);
    }
  }

  /** Every edge waits on the given order-only paths. */
  predicate AllOrderOnly(edges: seq<Edge>, pre: seq<string>)
  {
    forall i :: 0 <= i < |edges| ==> edges[i].orderOnly == pre
  }

  /** The returned paths are exactly the outputs of the edges written, and
      every edge waits on `pre`. */
  predicate Coherent(m: Emitted, pre: seq<string>)
  {
    m.outputs == OutputsOf(m.edges) && AllOrderOnly(m.edges, pre)
  }

  lemma CoherentSingle(m: Emitted, pre: seq<string>)
    requires |m.edges| == 1 && m.outputs == m.edges[0].outputs && m.edges[0].orderOnly == pre
    ensures Coherent(m, pre)
  {
    assert m.edges[1..] == [];
    assert OutputsOf(m.edges) == m.edges[0].outputs + [];
  }

  lemma CoherentThen(a: Emitted, b: Emitted, pre: seq<string>)
    requires Coherent(a, pre) && Coherent(b, pre)
    ensures Coherent(Then(a, b), pre)
  {
    OutputsOfConcat(a.edges, b.edges);
  }

  /** After a step that wrote one rule and one edge, the rest's rules and
      edges follow at the next index. */
  lemma ThenShift(first: Emitted, rest: Emitted)
    requires |first.rules| <= 1 && |first.edges| == 1
    ensures var m := Then(first, rest);
            |m.rules| == |first.rules| + |rest.rules| && |m.edges| == 1 + |rest.edges| &&
            (|first.rules| == 1 ==> m.rules[0] == first.rules[0]) && m.edges[0] == first.edges[0] &&
            (forall i :: |first.rules| <= i < |m.rules| ==> m.rules[i] == rest.rules[i - |first.rules|]) &&
            (forall i :: 1 <= i < |m.edges| ==> m.edges[i] == rest.edges[i - 1])
  {
  }

  // ---------------------------------------------------------------------
  // Order-preserving de-duplication

  predicate NoDups(xs: seq<string>)
  {
    forall i, j :: 0 <= i < j < |xs| ==> xs[i] != xs[j]
  }

  /** `[x for x in xs if x not in seen and not seen.add(x)]`: the first
      occurrence of every element, in order. */
  function Dedup(xs: seq<string>): (r: seq<string>)
    ensures NoDups(r)
    ensures forall x :: x in r <==> x in xs
    decreases |xs|
  {
    if xs == [] then []
    else
      var init := Dedup(xs[..|xs| - 1]);
      var x := xs[|xs| - 1];
      assert forall y :: y in xs <==> y in xs[..|xs| - 1] || y == x by {
        assert xs == xs[..|xs| - 1] + [x];
      }
      if x in xs[..|xs| - 1] then init else init + [x]
  }
  /** De-duplicating one more element keeps it only when it is new. */
  lemma DedupSnoc(xs: seq<string>, x: string)
    ensures Dedup(xs + [x]) == if x in xs then Dedup(xs) else Dedup(xs) + [x]
  {
    assert (xs + [x])[..|xs + [x]| - 1] == xs;
  }


  /** De-duplicating more elements only adds at the end: what came first
      stays first, in the same order. */
  lemma {:induction false} DedupPrefix(xs: seq<string>, ys: seq<string>)
    ensures Dedup(xs) <= Dedup(xs + ys)
    decreases |ys|
  {
    if ys == [] {
      assert xs + ys == xs;
    } else {
      var zs := xs + ys[..|ys| - 1];
      DedupPrefix(xs, ys[..|ys| - 1]);
      assert (xs + ys)[..|xs + ys| - 1] == zs;
    }
  }

  /** A list without repeated elements is its own de-duplication. */
  lemma {:induction false} DedupOfDistinct(xs: seq<string>)
    requires NoDups(xs)
    ensures Dedup(xs) == xs
    decreases |xs|
  {
    if xs != [] {
      var init := xs[..|xs| - 1];
      assert NoDups(init);
      DedupOfDistinct(init);
      assert xs[|xs| - 1] !in init;
      assert init + [xs[|xs| - 1]] == xs;
    }
  }

  // ---------------------------------------------------------------------
  // Paths of a list

  /** `[self.GypPathToNinja(p) for p in paths]`: fails at the first path that
      fails. */
  function GypPathsToNinja(e: PathEnv, paths: seq<string>): (r: Result<seq<string>, PyError>)
    ensures r.Ok? <==> forall i :: 0 <= i < |paths| ==> GypPathToNinja(e, paths[i]).Ok?
    ensures r.Ok? ==> |r.value| == |paths| &&
                      forall i :: 0 <= i < |paths| ==> r.value[i] == GypPathToNinja(e, paths[i]).value
    decreases |paths|
  {
    if paths == [] then Ok([])
    else
      var head :- GypPathToNinja(e, paths[0]);
      var tail :- GypPathsToNinja(e, paths[1..]);
      Ok([head] + tail)
  }

  /** `map(self.ExpandSpecial, paths)` with the given product directory. */
  function ExpandSpecialAll(e: PathEnv, paths: seq<string>, productDir: string): (r: seq<string>)
    ensures |r| == |paths|
    ensures forall i :: 0 <= i < |paths| ==> r[i] == ExpandSpecial(e, paths[i], productDir)
  {
    seq(|paths|, i requires 0 <= i < |paths| => ExpandSpecial(e, paths[i], productDir))
  }

  // ---------------------------------------------------------------------
  // WriteCollapsedDependencies

  /** `WriteCollapsedDependencies(name, targets)`: one path standing for all
      of `targets`, with the edges written to make it. Every target must be a
      non-empty path; none stands for no target, one for itself, and two or
      more get a `stamp` edge from the host toolchain's stamp tool. */
  function Collapse(e: PathEnv, hostTools: seq<Tool>, name: string, targets: seq<string>)
    : (r: Result<(Option<string>, seq<Edge>), PyError>)
    ensures |targets| >= 2 && FindFirstInstanceOf(Stamp, hostTools).None? ==> r.Err?
    ensures r.Ok? ==> (r.value.0.Some? <==> targets != []) && |r.value.1| == (if |targets| >= 2 then 1 else 0)
  {
    if exists i :: 0 <= i < |targets| && targets[i] == "" then Err(AssertionError("falsy target"))
    else if |targets| == 0 then Ok((None, []))
    else if |targets| == 1 then Ok((Some(targets[0]), []))
    else if FindFirstInstanceOf(Stamp, hostTools).None? then Err(AssertionError("Host toolchain must provide stamp tool."))
    else
      var stamp :- GypPathToUniqueOutput(e, name + ".stamp", true);
      Ok((Some(stamp), [Edge([stamp], "stamp", targets, [], [], [])]))
  }

  /** The three cases of collapsing: no target gives no path and no edge,
      one target is returned as it is, and more targets get exactly one
      `stamp` edge whose inputs are the whole list and whose output is the
      target's unique output for `<name>.stamp`. */
  lemma CollapseCases(e: PathEnv, hostTools: seq<Tool>, name: string, targets: seq<string>)
    requires forall i :: 0 <= i < |targets| ==> targets[i] != ""
    ensures |targets| == 0 ==> Collapse(e, hostTools, name, targets) == Ok((None, []))
    ensures |targets| == 1 ==> Collapse(e, hostTools, name, targets) == Ok((Some(targets[0]), []))
    ensures |targets| >= 2 && FindFirstInstanceOf(Stamp, hostTools).Some? &&
            GypPathToUniqueOutput(e, name + ".stamp", true).Ok? ==>
              var stamp := GypPathToUniqueOutput(e, name + ".stamp", true).value;
              Collapse(e, hostTools, name, targets) == Ok((Some(stamp), [Edge([stamp], "stamp", targets, [], [], [])]))
    ensures |targets| >= 2 && FindFirstInstanceOf(Stamp, hostTools).None? ==>
              Collapse(e, hostTools, name, targets) == Err(AssertionError("Host toolchain must provide stamp tool."))
    ensures |targets| >= 2 && FindFirstInstanceOf(Stamp, hostTools).Some? &&
            GypPathToUniqueOutput(e, name + ".stamp", true).Err? ==>
              Collapse(e, hostTools, name, targets) == Err(GypPathToUniqueOutput(e, name + ".stamp", true).error)
  {
  }

  /** An empty path among the targets fails the assertion. */
  lemma CollapseRefusesEmpty(e: PathEnv, hostTools: seq<Tool>, name: string, targets: seq<string>)
    requires exists i :: 0 <= i < |targets| && targets[i] == ""
    ensures Collapse(e, hostTools, name, targets) == Err(AssertionError("falsy target"))
  {
  }

  /** The collapsed path stands for building every target: it is present
      exactly when some target is, and each target is either that path or
      an input of the one edge that makes it. An empty path among the
      targets is refused. */
  lemma CollapseRepresentsAll(e: PathEnv, hostTools: seq<Tool>, name: string, targets: seq<string>)
    ensures (exists i :: 0 <= i < |targets| && targets[i] == "") ==> Collapse(e, hostTools, name, targets).Err?
    ensures Collapse(e, hostTools, name, targets).Ok? ==>
              var (p, edges) := Collapse(e, hostTools, name, targets).value;
              (p.Some? <==> |targets| > 0) &&
              (p.Some? ==> p.value != "") &&
              |edges| <= 1 &&
              forall t :: t in targets ==>
                p == Some(t) || (|edges| == 1 && edges[0].outputs == [p.value] && t in edges[0].inputs)
  {
    if Collapse(e, hostTools, name, targets).Ok? && |targets| >= 2 {
      var stamp := GypPathToUniqueOutput(e, name + ".stamp", true).value;
      UniqueOutputNonEmpty(e, name + ".stamp");
    }
  }

  /** A unique output is never the empty path. */
  lemma UniqueOutputNonEmpty(e: PathEnv, path: string)
    requires GypPathToUniqueOutput(e, path, true).Ok?
    ensures GypPathToUniqueOutput(e, path, true).value != ""
  {
  }

  // ---------------------------------------------------------------------
  // WriteNewNinjaRule and WriteActions

  /** The name of the rule written for an action or a rule step: the step's
      gyp name and the digest of the qualified target, behind the target's
      name, made of word characters. */
  function StepRuleName(e: PathEnv, stepName: string, hash: string): (r: string)
    ensures AllWordChars(r)
  {
    NinjaRuleName(e.name, e.toolset, stepName + "_" + hash)
  }

  /** The command's arguments with `$!PRODUCT_DIR` taken relative to the base
      directory, where the command runs. */
  function RuleArgs(e: PathEnv, args: seq<string>): seq<string>
  {
    ExpandSpecialAll(e, args, e.baseToBuild)
  }

  /** One action: a rule for its command and one edge from its inputs to its
      outputs, both as Ninja paths, after the target's action dependencies.
      Outputs processed as sources are handed on as gyp paths. */
  function ActionStep(e: PathEnv, hash: string, prebuild: Option<string>, a: Action): (r: Result<Emitted, PyError>)
    ensures r.Ok? <==> GypPathsToNinja(e, a.inputs).Ok? && GypPathsToNinja(e, a.outputs).Ok?
    ensures r.Ok? ==> |r.value.rules| == 1 && |r.value.edges| == 1 && r.value.edges[0].rule == r.value.rules[0].name
  {
    var rule := StepRuleName(e, a.actionName, hash);
    var inputs :- GypPathsToNinja(e, a.inputs);
    var outputs :- GypPathsToNinja(e, a.outputs);
    Ok(Emitted([RuleDecl(rule, RuleArgs(e, a.command))],
               [Edge(outputs, rule, inputs, [], AsList(prebuild), [])],
               outputs,
               if a.processOutputsAsSources then a.outputs else []))
  }

  /** `WriteActions(actions, extra_sources, prebuild)`. */
  function ActionsPlan(e: PathEnv, hash: string, prebuild: Option<string>, actions: seq<Action>): (r: Result<Emitted, PyError>)
    ensures r.Ok? ==> |r.value.rules| == |actions| && |r.value.edges| == |actions|
    decreases |actions|
  {
    if actions == [] then Ok(Nothing)
    else
      var first :- ActionStep(e, hash, prebuild, actions[0]);
      Glue(first, ActionsPlan(e, hash, prebuild, actions[1..]))
  }

  /** One step of `ActionsPlan`: the first action, then the rest. */
  lemma ActionsPlanUnfold(e: PathEnv, hash: string, prebuild: Option<string>, actions: seq<Action>)
    requires actions != []
    ensures var s := ActionStep(e, hash, prebuild, actions[0]);
            ActionsPlan(e, hash, prebuild, actions) ==
              if s.Err? then Err(s.error) else Glue(s.value, ActionsPlan(e, hash, prebuild, actions[1..]))
  {
  }

  /** The loop over the actions, one step on: with `acc` written for the
      actions before `i`, action `i` either fails the whole plan or joins
      `acc`. */
  lemma ActionsAdvance(e: PathEnv, hash: string, prebuild: Option<string>, actions: seq<Action>, i: nat, acc: Emitted)
    requires i < |actions|
    requires ActionsPlan(e, hash, prebuild, actions) == Glue(acc, ActionsPlan(e, hash, prebuild, actions[i..]))
    ensures var s := ActionStep(e, hash, prebuild, actions[i]);
            var plan := ActionsPlan(e, hash, prebuild, actions);
            (s.Err? ==> plan == Err(s.error)) &&
            (s.Ok? ==> plan == Glue(Then(acc, s.value), ActionsPlan(e, hash, prebuild, actions[i + 1..])))
  {
    ActionsPlanUnfold(e, hash, prebuild, actions[i..]);
    Slices(actions, i);
    var s := ActionStep(e, hash, prebuild, actions[i]);
    if s.Ok? {
      GlueAssoc(acc, s.value, ActionsPlan(e, hash, prebuild, actions[i + 1..]));
    }
  }

  /** The outcomes of one action: the first failing path conversion, or the
      rule and the edge. */
  lemma ActionStepCases(e: PathEnv, hash: string, prebuild: Option<string>, a: Action)
    ensures var ins := GypPathsToNinja(e, a.inputs);
            var outs := GypPathsToNinja(e, a.outputs);
            var rule := StepRuleName(e, a.actionName, hash);
            ActionStep(e, hash, prebuild, a) ==
              if ins.Err? then Err(ins.error)
              else if outs.Err? then Err(outs.error)
              else Ok(Emitted([RuleDecl(rule, RuleArgs(e, a.command))],
                              [Edge(outs.value, rule, ins.value, [], AsList(prebuild), [])],
                              outs.value,
                              if a.processOutputsAsSources then a.outputs else []))
  {
  }

  /** What one action writes: a rule named after the action and the target,
      and an edge with that rule from the action's inputs to its outputs, as
      Ninja paths. */
  predicate ActionWritten(e: PathEnv, hash: string, a: Action, rule: RuleDecl, edge: Edge)
  {
    rule.name == StepRuleName(e, a.actionName, hash) &&
    edge.rule == rule.name &&
    GypPathsToNinja(e, a.inputs) == Ok(edge.inputs) &&
    GypPathsToNinja(e, a.outputs) == Ok(edge.outputs)
  }

  /** One action's rule and edge. */
  lemma ActionStepShape(e: PathEnv, hash: string, prebuild: Option<string>, a: Action)
    requires ActionStep(e, hash, prebuild, a).Ok?
    ensures var m := ActionStep(e, hash, prebuild, a).value;
            Coherent(m, AsList(prebuild)) && |m.rules| == 1 && |m.edges| == 1 &&
            ActionWritten(e, hash, a, m.rules[0], m.edges[0])
  {
    var m := ActionStep(e, hash, prebuild, a).value;
    CoherentSingle(m, AsList(prebuild));
  }

  /** Each action gets one rule and one edge that uses it: the edge goes from
      the action's inputs to its outputs, as Ninja paths, and waits on
      `prebuild`; the paths returned are the outputs of all the edges. */
  lemma {:induction false} ActionsPlanEdges(e: PathEnv, hash: string, prebuild: Option<string>, actions: seq<Action>)
    requires ActionsPlan(e, hash, prebuild, actions).Ok?
    ensures var m := ActionsPlan(e, hash, prebuild, actions).value;
            Coherent(m, AsList(prebuild)) &&
            |m.rules| == |actions| && |m.edges| == |actions| &&
            forall i :: 0 <= i < |actions| ==> ActionWritten(e, hash, actions[i], m.rules[i], m.edges[i])
    decreases |actions|
  {
    if actions == [] {
      assert ActionsPlan(e, hash, prebuild, actions).value == Nothing;
    } else {
      var first := ActionStep(e, hash, prebuild, actions[0]).value;
      ActionStepShape(e, hash, prebuild, actions[0]);
      var tailPlan := ActionsPlan(e, hash, prebuild, actions[1..]);
      assert ActionsPlan(e, hash, prebuild, actions) == Glue(first, tailPlan);
      ActionsPlanEdges(e, hash, prebuild, actions[1..]);
      ActionsCons(e, hash, AsList(prebuild), actions, first, tailPlan.value);
    }
  }

  /** The inductive step of `ActionsPlanEdges`: the first action's rule and
      edge in front of the rest's. */
  lemma ActionsCons(e: PathEnv, hash: string, pre: seq<string>, actions: seq<Action>, first: Emitted, rest: Emitted)
    requires actions != []
    requires Coherent(first, pre) && |first.rules| == 1 && |first.edges| == 1
    requires ActionWritten(e, hash, actions[0], first.rules[0], first.edges[0])
    requires Coherent(rest, pre) && |rest.rules| == |actions| - 1 && |rest.edges| == |actions| - 1
    requires forall i :: 0 <= i < |actions| - 1 ==> ActionWritten(e, hash, actions[1..][i], rest.rules[i], rest.edges[i])
    ensures var m := Then(first, rest);
            Coherent(m, pre) && |m.rules| == |actions| && |m.edges| == |actions| &&
            forall i :: 0 <= i < |actions| ==> ActionWritten(e, hash, actions[i], m.rules[i], m.edges[i])
  {
    var m := Then(first, rest);
    CoherentThen(first, rest, pre);
    ThenShift(first, rest);
    forall i | 0 <= i < |actions|
      ensures ActionWritten(e, hash, actions[i], m.rules[i], m.edges[i])
    {
      if i > 0 {
        assert actions[i] == actions[1..][i - 1];
      }
    }
  }

  // ---------------------------------------------------------------------
  // WriteRules

  /** `${var}` for one of the per-source variables occurs in some argument. */
  predicate Mentions(args: seq<string>, v: string)
  {
    exists i :: 0 <= i < |args| && Contains(args[i], "${" + v + "}")
  }

  /** The per-source bindings of a rule edge: `source` always, each of
      `root`, `dirname`, `ext` and `name` when the command mentions it. */
  function RuleBindings(e: PathEnv, args: seq<string>, source: string, root: string, dirname: string,
                        ext: string, basename: string): (r: seq<(string, string)>)
    ensures |r| >= 1 && r[0] == ("source", ExpandSpecial(e, source, e.baseToBuild))
  {
    [("source", ExpandSpecial(e, source, e.baseToBuild))]
    + Binding(args, "root", root) + Binding(args, "dirname", dirname)
    + Binding(args, "ext", ext) + Binding(args, "name", basename)
  }

  /** The binding of one per-source variable, present when the command
      mentions it. */
  function Binding(args: seq<string>, key: string, value: string): (r: seq<(string, string)>)
    ensures forall k, v :: (k, v) in r <==> k == key && v == value && Mentions(args, key)
  {
    if Mentions(args, key) then [(key, value)] else []
  }

  /** Each per-source variable is bound, to its value, exactly when the
      command mentions it. */
  lemma RuleBindingsMentions(e: PathEnv, args: seq<string>, source: string, root: string, dirname: string,
                             ext: string, basename: string)
    ensures var r := RuleBindings(e, args, source, root, dirname, ext, basename);
            && (Mentions(args, "root") <==> ("root", root) in r)
            && (Mentions(args, "dirname") <==> ("dirname", dirname) in r)
            && (Mentions(args, "ext") <==> ("ext", ext) in r)
            && (Mentions(args, "name") <==> ("name", basename) in r)
  {
    var a := [("source", ExpandSpecial(e, source, e.baseToBuild))];
    var b, c, d, f := Binding(args, "root", root), Binding(args, "dirname", dirname),
                      Binding(args, "ext", ext), Binding(args, "name", basename);
    var r := RuleBindings(e, args, source, root, dirname, ext, basename);
    assert r == a + b + c + d + f;
    assert forall x :: x in r <==> x in a || x in b || x in c || x in d || x in f;
  }

  /** A list of rule patterns with the per-source variables replaced. */
  function ExpandRuleVariablesAll(paths: seq<string>, root: string, dirname: string, source: string,
                                  ext: string, name: string): (r: seq<string>)
    ensures |r| == |paths|
    ensures forall i :: 0 <= i < |paths| ==> r[i] == ExpandRuleVariables(paths[i], root, dirname, source, ext, name)
  {
    seq(|paths|, i requires 0 <= i < |paths| => ExpandRuleVariables(paths[i], root, dirname, source, ext, name))
  }

  /** One source of a rule: an edge from the source to the rule's outputs for
      it, with the rule's inputs as implicit dependencies, waiting on
      `prebuild`, and the last binding `unique_name` the digest of the first
      output. A rule without outputs fails on that first output. */
  function RuleSourceStep(e: PathEnv, r: RuleStep, ruleName: string, args: seq<string>,
                          digest: string -> string, prebuild: Option<string>, source: string)
    : (res: Result<Emitted, PyError>)
    ensures r.outputs == [] ==> res.Err?
    ensures res.Ok? ==> res.value.rules == [] && |res.value.edges| == 1 && res.value.edges[0].rule == ruleName
  {
    var (dirname, basename) := PathSplit(source);
    var (root, ext) := Splitext(basename);
    var outs := ExpandRuleVariablesAll(r.outputs, root, dirname, source, ext, basename);
    var ins := ExpandRuleVariablesAll(r.inputs, root, dirname, source, ext, basename);
    var bindings := RuleBindings(e, args, source, root, dirname, ext, basename);
    var inputs :- GypPathsToNinja(e, ins);
    var outputs :- GypPathsToNinja(e, outs);
    if outputs == [] then Err(IndexError("list index out of range"))
    else
      var src :- GypPathToNinja(e, source);
      Ok(Emitted([],
                 [Edge(outputs, ruleName, [src], inputs, AsList(prebuild), bindings + [("unique_name", digest(outputs[0]))])],
                 outputs,
                 if r.processOutputsAsSources then outs else []))
  }

  function RuleSourcesPlan(e: PathEnv, r: RuleStep, ruleName: string, args: seq<string>,
                           digest: string -> string, prebuild: Option<string>, sources: seq<string>)
    : (res: Result<Emitted, PyError>)
    ensures sources != [] && r.outputs == [] ==> res.Err?
    ensures res.Ok? ==> res.value.rules == [] && |res.value.edges| == |sources|
    decreases |sources|
  {
    if sources == [] then Ok(Nothing)
    else
      var first :- RuleSourceStep(e, r, ruleName, args, digest, prebuild, sources[0]);
      Glue(first, RuleSourcesPlan(e, r, ruleName, args, digest, prebuild, sources[1..]))
  }

  /** One rule: skipped when it has neither a command nor sources, a
      `KeyError` when it has sources but no command, and otherwise one rule
      statement followed by one edge per source. */
  function RuleStepPlan(e: PathEnv, hash: string, digest: string -> string, prebuild: Option<string>, r: RuleStep)
    : (res: Result<Emitted, PyError>)
    ensures r.command.None? ==> (res.Ok? <==> r.ruleSources == [])
    ensures res.Ok? ==> |res.value.rules| == (if r.command.Some? then 1 else 0) && |res.value.edges| == |r.ruleSources|
  {
    if r.command.None? && r.ruleSources == [] then Ok(Nothing)
    else if r.command.None? then Err(KeyError("action"))
    else
      var name := StepRuleName(e, r.ruleName, hash);
      var args := RuleArgs(e, r.command.value);
      Glue(Emitted([RuleDecl(name, args)], [], [], []), RuleSourcesPlan(e, r, name, args, digest, prebuild, r.ruleSources))
  }

  /** `WriteRules(rules, extra_sources, prebuild)`. */
  function RulesPlan(e: PathEnv, hash: string, digest: string -> string, prebuild: Option<string>, rules: seq<RuleStep>)
    : (res: Result<Emitted, PyError>)
    ensures res.Ok? ==> |res.value.rules| <= |rules|
    ensures res.Ok? ==> forall i :: 0 <= i < |rules| ==> rules[i].command.Some? || rules[i].ruleSources == []
    decreases |rules|
  {
    if rules == [] then Ok(Nothing)
    else
      var first :- RuleStepPlan(e, hash, digest, prebuild, rules[0]);
      var rest := RulesPlan(e, hash, digest, prebuild, rules[1..]);
      if rest.Ok? then CommandsCons(rules); Glue(first, rest) else Glue(first, rest)
  }

  /** A rule with sources has a command when the first rule and each of
      the rest do. */
  lemma CommandsCons(rules: seq<RuleStep>)
    requires rules != [] && (rules[0].command.Some? || rules[0].ruleSources == [])
    requires forall i :: 0 <= i < |rules| - 1 ==> rules[1..][i].command.Some? || rules[1..][i].ruleSources == []
    ensures forall i :: 0 <= i < |rules| ==> rules[i].command.Some? || rules[i].ruleSources == []
  {
    forall i | 0 < i < |rules| ensures rules[i].command.Some? || rules[i].ruleSources == [] {
      assert rules[i] == rules[1..][i - 1];
    }
  }

  /** One step of `RuleSourcesPlan`: the first source, then the rest. */
  lemma RuleSourcesPlanUnfold(e: PathEnv, r: RuleStep, ruleName: string, args: seq<string>,
                              digest: string -> string, prebuild: Option<string>, sources: seq<string>)
    requires sources != []
    ensures var s := RuleSourceStep(e, r, ruleName, args, digest, prebuild, sources[0]);
            RuleSourcesPlan(e, r, ruleName, args, digest, prebuild, sources) ==
              if s.Err? then Err(s.error) else Glue(s.value, RuleSourcesPlan(e, r, ruleName, args, digest, prebuild, sources[1..]))
  {
  }

  /** The loop over the sources, one step on: with `acc` written for the
      sources before `i`, source `i` either fails the whole plan or joins
      `acc`. */
  lemma RuleSourcesAdvance(e: PathEnv, r: RuleStep, ruleName: string, args: seq<string>, digest: string -> string,
                           prebuild: Option<string>, sources: seq<string>, i: nat, acc: Emitted)
    requires i < |sources|
    requires RuleSourcesPlan(e, r, ruleName, args, digest, prebuild, sources) ==
             Glue(acc, RuleSourcesPlan(e, r, ruleName, args, digest, prebuild, sources[i..]))
    ensures var s := RuleSourceStep(e, r, ruleName, args, digest, prebuild, sources[i]);
            var plan := RuleSourcesPlan(e, r, ruleName, args, digest, prebuild, sources);
            (s.Err? ==> plan == Err(s.error)) &&
            (s.Ok? ==> plan == Glue(Then(acc, s.value), RuleSourcesPlan(e, r, ruleName, args, digest, prebuild, sources[i + 1..])))
  {
    RuleSourcesPlanUnfold(e, r, ruleName, args, digest, prebuild, sources[i..]);
    Slices(sources, i);
    var s := RuleSourceStep(e, r, ruleName, args, digest, prebuild, sources[i]);
    if s.Ok? {
      GlueAssoc(acc, s.value, RuleSourcesPlan(e, r, ruleName, args, digest, prebuild, sources[i + 1..]));
    }
  }

  lemma Slices<T>(s: seq<T>, k: nat)
    requires k < |s|
    ensures s[..k] + [s[k]] == s[..k + 1]
    ensures s[k..][0] == s[k] && s[k..][1..] == s[k + 1..]
  {
  }

  /** One step of `RulesPlan`: the first rule, then the rest. */
  lemma RulesPlanUnfold(e: PathEnv, hash: string, digest: string -> string, prebuild: Option<string>, rules: seq<RuleStep>)
    requires rules != []
    ensures var s := RuleStepPlan(e, hash, digest, prebuild, rules[0]);
            RulesPlan(e, hash, digest, prebuild, rules) ==
              if s.Err? then Err(s.error) else Glue(s.value, RulesPlan(e, hash, digest, prebuild, rules[1..]))
  {
  }

  /** What one source of a rule writes: an edge with the rule whose only
      explicit input is the source as a Ninja path, with at least one output,
      binding `source` first and `unique_name` (the digest of its first
      output) last. */
  predicate RuleSourceWritten(e: PathEnv, ruleName: string, digest: string -> string, source: string, edge: Edge)
  {
    edge.rule == ruleName && |edge.inputs| == 1 && GypPathToNinja(e, source) == Ok(edge.inputs[0]) &&
    edge.outputs != [] && |edge.variables| >= 2 &&
    edge.variables[0] == ("source", ExpandSpecial(e, source, e.baseToBuild)) &&
    edge.variables[|edge.variables| - 1] == ("unique_name", digest(edge.outputs[0]))
  }

  lemma RuleSourceStepShape(e: PathEnv, r: RuleStep, ruleName: string, args: seq<string>,
                            digest: string -> string, prebuild: Option<string>, source: string)
    requires RuleSourceStep(e, r, ruleName, args, digest, prebuild, source).Ok?
    ensures var m := RuleSourceStep(e, r, ruleName, args, digest, prebuild, source).value;
            Coherent(m, AsList(prebuild)) && m.rules == [] && |m.edges| == 1 &&
            RuleSourceWritten(e, ruleName, digest, source, m.edges[0])
  {
    var m := RuleSourceStep(e, r, ruleName, args, digest, prebuild, source).value;
    CoherentSingle(m, AsList(prebuild));
  }

  /** Every source of the rule gets exactly one edge, in order, each waiting
      on `prebuild`; the paths returned are the outputs of all the edges. */
  lemma {:induction false} RuleSourcesPlanEdges(e: PathEnv, r: RuleStep, ruleName: string, args: seq<string>,
                                                digest: string -> string, prebuild: Option<string>, sources: seq<string>)
    requires RuleSourcesPlan(e, r, ruleName, args, digest, prebuild, sources).Ok?
    ensures var m := RuleSourcesPlan(e, r, ruleName, args, digest, prebuild, sources).value;
            Coherent(m, AsList(prebuild)) && m.rules == [] && |m.edges| == |sources| &&
            forall i :: 0 <= i < |sources| ==> RuleSourceWritten(e, ruleName, digest, sources[i], m.edges[i])
    decreases |sources|
  {
    if sources == [] {
      assert RuleSourcesPlan(e, r, ruleName, args, digest, prebuild, sources).value == Nothing;
    } else {
      var first := RuleSourceStep(e, r, ruleName, args, digest, prebuild, sources[0]).value;
      RuleSourceStepShape(e, r, ruleName, args, digest, prebuild, sources[0]);
      var tailPlan := RuleSourcesPlan(e, r, ruleName, args, digest, prebuild, sources[1..]);
      assert RuleSourcesPlan(e, r, ruleName, args, digest, prebuild, sources) == Glue(first, tailPlan);
      RuleSourcesPlanEdges(e, r, ruleName, args, digest, prebuild, sources[1..]);
      RuleSourcesCons(e, ruleName, digest, AsList(prebuild), sources, first, tailPlan.value);
    }
  }

  /** The inductive step of `RuleSourcesPlanEdges`: the first source's edge
      in front of the rest's. */
  lemma RuleSourcesCons(e: PathEnv, ruleName: string, digest: string -> string, pre: seq<string>,
                        sources: seq<string>, first: Emitted, rest: Emitted)
    requires sources != []
    requires Coherent(first, pre) && first.rules == [] && |first.edges| == 1
    requires RuleSourceWritten(e, ruleName, digest, sources[0], first.edges[0])
    requires Coherent(rest, pre) && rest.rules == [] && |rest.edges| == |sources| - 1
    requires forall i :: 0 <= i < |sources| - 1 ==> RuleSourceWritten(e, ruleName, digest, sources[1..][i], rest.edges[i])
    ensures var m := Then(first, rest);
            Coherent(m, pre) && m.rules == [] && |m.edges| == |sources| &&
            forall i :: 0 <= i < |sources| ==> RuleSourceWritten(e, ruleName, digest, sources[i], m.edges[i])
  {
    var m := Then(first, rest);
    CoherentThen(first, rest, pre);
    ThenShift(first, rest);
    forall i | 0 <= i < |sources|
      ensures RuleSourceWritten(e, ruleName, digest, sources[i], m.edges[i])
    {
      if i > 0 {
        assert sources[i] == sources[1..][i - 1];
      }
    }
  }

  /** A rule with neither a command nor sources writes nothing; one with
      sources but no command raises `KeyError`. */
  lemma RuleStepPlanCases(e: PathEnv, hash: string, digest: string -> string, prebuild: Option<string>, r: RuleStep)
    ensures r.command.None? && r.ruleSources == [] ==> RuleStepPlan(e, hash, digest, prebuild, r) == Ok(Nothing)
    ensures r.command.None? && r.ruleSources != [] ==> RuleStepPlan(e, hash, digest, prebuild, r) == Err(KeyError("action"))
  {
  }

  /** A rule step with a command: its rule statement, then its sources. */
  lemma RuleStepPlanUnfold(e: PathEnv, hash: string, digest: string -> string, prebuild: Option<string>, r: RuleStep)
    requires r.command.Some?
    ensures RuleStepPlan(e, hash, digest, prebuild, r) == Glue(Emitted([RuleDecl(StepRuleName(e, r.ruleName, hash), RuleArgs(e, r.command.value))], [], [], []), RuleSourcesPlan(e, r, StepRuleName(e, r.ruleName, hash), RuleArgs(e, r.command.value), digest, prebuild, r.ruleSources))
  {
  }

  /** A rule with a command writes its rule statement first, named from the
      step and the target, and then one edge per source with that rule. */
  lemma RuleStepPlanWrites(e: PathEnv, hash: string, digest: string -> string, prebuild: Option<string>, r: RuleStep)
    requires r.command.Some? && RuleStepPlan(e, hash, digest, prebuild, r).Ok?
    ensures var m := RuleStepPlan(e, hash, digest, prebuild, r).value;
            |m.rules| == 1 && m.rules[0] == RuleDecl(StepRuleName(e, r.ruleName, hash), RuleArgs(e, r.command.value)) &&
            |m.edges| == |r.ruleSources| && forall i :: 0 <= i < |m.edges| ==> m.edges[i].rule == m.rules[0].name
  {
    var name := StepRuleName(e, r.ruleName, hash);
    var args := RuleArgs(e, r.command.value);
    RuleStepPlanUnfold(e, hash, digest, prebuild, r);
    var tailPlan := RuleSourcesPlan(e, r, name, args, digest, prebuild, r.ruleSources);
    RuleSourcesPlanEdges(e, r, name, args, digest, prebuild, r.ruleSources);
    forall i | 0 <= i < |tailPlan.value.edges| ensures tailPlan.value.edges[i].rule == name {
      assert RuleSourceWritten(e, name, digest, r.ruleSources[i], tailPlan.value.edges[i]);
    }
  }

  // ---------------------------------------------------------------------
  // WriteCopies

  /** One file of a copy step: an edge with the host toolchain's `copy` rule
      from the file to `<destination>/<basename>`, both as Ninja paths,
      waiting on `prebuild`. */
  function CopyFileStep(e: PathEnv, hostTools: seq<Tool>, destination: string, prebuild: Option<string>, file: string)
    : (r: Result<Emitted, PyError>)
    ensures FindFirstInstanceOf(Copy, hostTools).None? ==> r.Err?
    ensures r.Ok? ==> r.value.rules == [] && r.value.extraSources == [] && |r.value.edges| == 1 && r.value.edges[0].rule == "copy"
  {
    var path := Normpath(file);
    var src :- GypPathToNinja(e, path);
    if FindFirstInstanceOf(Copy, hostTools).None? then Err(AssertionError("Host toolchain must provide copy tool."))
    else
      var dst :- GypPathToNinja(e, Join(destination, PathSplit(path).1));
      var out := Normpath(dst);
      Ok(Emitted([], [Edge([out], "copy", [src], [], AsList(prebuild), [])], [out], []))
  }

  function CopyFilesPlan(e: PathEnv, hostTools: seq<Tool>, destination: string, prebuild: Option<string>, files: seq<string>)
    : (r: Result<Emitted, PyError>)
    ensures files != [] && FindFirstInstanceOf(Copy, hostTools).None? ==> r.Err?
    ensures r.Ok? ==> r.value.rules == [] && r.value.extraSources == [] && |r.value.edges| == |files|
    decreases |files|
  {
    if files == [] then Ok(Nothing)
    else
      var first :- CopyFileStep(e, hostTools, destination, prebuild, files[0]);
      Glue(first, CopyFilesPlan(e, hostTools, destination, prebuild, files[1..]))
  }

  /** `WriteCopies(copies, prebuild)`. */
  function CopiesPlan(e: PathEnv, hostTools: seq<Tool>, prebuild: Option<string>, copies: seq<CopyStep>)
    : (r: Result<Emitted, PyError>)
    ensures r.Ok? ==> r.value.rules == [] && r.value.extraSources == []
    decreases |copies|
  {
    if copies == [] then Ok(Nothing)
    else
      var first :- CopyFilesPlan(e, hostTools, copies[0].destination, prebuild, copies[0].files);
      Glue(first, CopiesPlan(e, hostTools, prebuild, copies[1..]))
  }

  /** One step of `CopyFilesPlan`: the first file, then the rest. */
  lemma CopyFilesPlanUnfold(e: PathEnv, hostTools: seq<Tool>, destination: string, prebuild: Option<string>, files: seq<string>)
    requires files != []
    ensures var s := CopyFileStep(e, hostTools, destination, prebuild, files[0]);
            CopyFilesPlan(e, hostTools, destination, prebuild, files) ==
              if s.Err? then Err(s.error) else Glue(s.value, CopyFilesPlan(e, hostTools, destination, prebuild, files[1..]))
  {
  }

  /** The loop over the files of a copy, one step on: with `acc` written for
      the files before `i`, file `i` either fails the whole plan or joins
      `acc`. */
  lemma CopyFilesAdvance(e: PathEnv, hostTools: seq<Tool>, destination: string, prebuild: Option<string>,
                         files: seq<string>, i: nat, acc: Emitted)
    requires i < |files|
    requires CopyFilesPlan(e, hostTools, destination, prebuild, files) ==
             Glue(acc, CopyFilesPlan(e, hostTools, destination, prebuild, files[i..]))
    ensures var s := CopyFileStep(e, hostTools, destination, prebuild, files[i]);
            var plan := CopyFilesPlan(e, hostTools, destination, prebuild, files);
            (s.Err? ==> plan == Err(s.error)) &&
            (s.Ok? ==> plan == Glue(Then(acc, s.value), CopyFilesPlan(e, hostTools, destination, prebuild, files[i + 1..])))
  {
    CopyFilesPlanUnfold(e, hostTools, destination, prebuild, files[i..]);
    Slices(files, i);
    var s := CopyFileStep(e, hostTools, destination, prebuild, files[i]);
    if s.Ok? {
      GlueAssoc(acc, s.value, CopyFilesPlan(e, hostTools, destination, prebuild, files[i + 1..]));
    }
  }

  /** One step of `CopiesPlan`: the first copy, then the rest. */
  lemma CopiesPlanUnfold(e: PathEnv, hostTools: seq<Tool>, prebuild: Option<string>, copies: seq<CopyStep>)
    requires copies != []
    ensures var s := CopyFilesPlan(e, hostTools, copies[0].destination, prebuild, copies[0].files);
            CopiesPlan(e, hostTools, prebuild, copies) ==
              if s.Err? then Err(s.error) else Glue(s.value, CopiesPlan(e, hostTools, prebuild, copies[1..]))
  {
  }

  /** What one copied file writes: a `copy` edge from the file, as a Ninja
      path, to one output. */
  predicate CopyWritten(e: PathEnv, file: string, edge: Edge)
  {
    edge.rule == "copy" && |edge.outputs| == 1 && |edge.inputs| == 1 &&
    GypPathToNinja(e, Normpath(file)) == Ok(edge.inputs[0])
  }

  lemma CopyFileStepShape(e: PathEnv, hostTools: seq<Tool>, destination: string, prebuild: Option<string>, file: string)
    ensures FindFirstInstanceOf(Copy, hostTools).None? ==> CopyFileStep(e, hostTools, destination, prebuild, file).Err?
    ensures CopyFileStep(e, hostTools, destination, prebuild, file).Ok? ==>
              var m := CopyFileStep(e, hostTools, destination, prebuild, file).value;
              Coherent(m, AsList(prebuild)) && m.rules == [] && |m.edges| == 1 && CopyWritten(e, file, m.edges[0])
  {
    var r := CopyFileStep(e, hostTools, destination, prebuild, file);
    if r.Ok? {
      CoherentSingle(r.value, AsList(prebuild));
    }
  }

  /** Every copied file gets one `copy` edge, in order, each waiting on
      `prebuild`, and the copy tool must exist once there is a file. */
  lemma {:induction false} CopyFilesPlanEdges(e: PathEnv, hostTools: seq<Tool>, destination: string,
                                              prebuild: Option<string>, files: seq<string>)
    ensures files != [] && FindFirstInstanceOf(Copy, hostTools).None? ==>
              CopyFilesPlan(e, hostTools, destination, prebuild, files).Err?
    ensures CopyFilesPlan(e, hostTools, destination, prebuild, files).Ok? ==>
              var m := CopyFilesPlan(e, hostTools, destination, prebuild, files).value;
              Coherent(m, AsList(prebuild)) && m.rules == [] && |m.edges| == |files| &&
              forall i :: 0 <= i < |files| ==> CopyWritten(e, files[i], m.edges[i])
    decreases |files|
  {
    if files == [] {
      assert CopyFilesPlan(e, hostTools, destination, prebuild, files).value == Nothing;
    } else {
      CopyFileStepShape(e, hostTools, destination, prebuild, files[0]);
      if CopyFilesPlan(e, hostTools, destination, prebuild, files).Ok? {
        var first := CopyFileStep(e, hostTools, destination, prebuild, files[0]).value;
        var tailPlan := CopyFilesPlan(e, hostTools, destination, prebuild, files[1..]);
        assert CopyFilesPlan(e, hostTools, destination, prebuild, files) == Glue(first, tailPlan);
        CopyFilesPlanEdges(e, hostTools, destination, prebuild, files[1..]);
        CopyFilesCons(e, AsList(prebuild), files, first, tailPlan.value);
      }
    }
  }

  /** The inductive step of `CopyFilesPlanEdges`: the first file's edge in
      front of the rest's. */
  lemma CopyFilesCons(e: PathEnv, pre: seq<string>, files: seq<string>, first: Emitted, rest: Emitted)
    requires files != []
    requires Coherent(first, pre) && first.rules == [] && |first.edges| == 1 && CopyWritten(e, files[0], first.edges[0])
    requires Coherent(rest, pre) && rest.rules == [] && |rest.edges| == |files| - 1
    requires forall i :: 0 <= i < |files| - 1 ==> CopyWritten(e, files[1..][i], rest.edges[i])
    ensures var m := Then(first, rest);
            Coherent(m, pre) && m.rules == [] && |m.edges| == |files| &&
            forall i :: 0 <= i < |files| ==> CopyWritten(e, files[i], m.edges[i])
  {
    var m := Then(first, rest);
    CoherentThen(first, rest, pre);
    ThenShift(first, rest);
    forall i | 0 <= i < |files|
      ensures CopyWritten(e, files[i], m.edges[i])
    {
      if i > 0 {
        assert files[i] == files[1..][i - 1];
      }
    }
  }

  // ---------------------------------------------------------------------
  // WriteActionsRulesCopies

  /** Every rule step's edges wait on `prebuild`, and the paths a rule step
      returns are the outputs of its edges. */
  lemma RuleStepPlanCoherent(e: PathEnv, hash: string, digest: string -> string, prebuild: Option<string>, r: RuleStep)
    requires RuleStepPlan(e, hash, digest, prebuild, r).Ok?
    ensures Coherent(RuleStepPlan(e, hash, digest, prebuild, r).value, AsList(prebuild))
  {
    if r.command.Some? {
      var name := StepRuleName(e, r.ruleName, hash);
      var args := RuleArgs(e, r.command.value);
      RuleStepPlanUnfold(e, hash, digest, prebuild, r);
      RuleSourcesPlanEdges(e, r, name, args, digest, prebuild, r.ruleSources);
      CoherentThen(Emitted([RuleDecl(name, args)], [], [], []), RuleSourcesPlan(e, r, name, args, digest, prebuild, r.ruleSources).value, AsList(prebuild));
    } else {
      assert RuleStepPlan(e, hash, digest, prebuild, r).value == Nothing;
    }
  }

  lemma {:induction false} RulesPlanCoherent(e: PathEnv, hash: string, digest: string -> string, prebuild: Option<string>, rules: seq<RuleStep>)
    requires RulesPlan(e, hash, digest, prebuild, rules).Ok?
    ensures Coherent(RulesPlan(e, hash, digest, prebuild, rules).value, AsList(prebuild))
    decreases |rules|
  {
    if rules == [] {
      assert RulesPlan(e, hash, digest, prebuild, rules).value == Nothing;
    } else {
      var first := RuleStepPlan(e, hash, digest, prebuild, rules[0]).value;
      RuleStepPlanCoherent(e, hash, digest, prebuild, rules[0]);
      var tailPlan := RulesPlan(e, hash, digest, prebuild, rules[1..]);
      assert RulesPlan(e, hash, digest, prebuild, rules) == Glue(first, tailPlan);
      RulesPlanCoherent(e, hash, digest, prebuild, rules[1..]);
      CoherentThen(first, tailPlan.value, AsList(prebuild));
    }
  }

  lemma {:induction false} CopiesPlanCoherent(e: PathEnv, hostTools: seq<Tool>, prebuild: Option<string>, copies: seq<CopyStep>)
    requires CopiesPlan(e, hostTools, prebuild, copies).Ok?
    ensures Coherent(CopiesPlan(e, hostTools, prebuild, copies).value, AsList(prebuild))
    decreases |copies|
  {
    if copies == [] {
      assert CopiesPlan(e, hostTools, prebuild, copies).value == Nothing;
    } else {
      var first := CopyFilesPlan(e, hostTools, copies[0].destination, prebuild, copies[0].files).value;
      CopyFilesPlanEdges(e, hostTools, copies[0].destination, prebuild, copies[0].files);
      var tailPlan := CopiesPlan(e, hostTools, prebuild, copies[1..]);
      assert CopiesPlan(e, hostTools, prebuild, copies) == Glue(first, tailPlan);
      CopiesPlanCoherent(e, hostTools, prebuild, copies[1..]);
      CoherentThen(first, tailPlan.value, AsList(prebuild));
    }
  }

  /** The actions, rules and copies of a target, and the one path that
      stands for all their outputs with the edge that makes it. */
  datatype Stamped = Stamped(stamp: Option<string>, steps: Emitted, stampEdges: seq<Edge>)

  /** `WriteActionsRulesCopies(spec, extra_sources, prebuild, ...)`: the
      actions, then the rules, then the copies, each waiting on `prebuild`,
      and their outputs collapsed under `actions_rules_copies`. */
  function ActionsRulesCopiesPlan(e: PathEnv, hostTools: seq<Tool>, hash: string, digest: string -> string,
                                  prebuild: Option<string>, spec: Spec): (r: Result<Stamped, PyError>)
    ensures r.Ok? ==> StepsPlan(e, hostTools, hash, digest, prebuild, spec) == Ok(r.value.steps)
    ensures r.Ok? ==> (r.value.stamp.Some? <==> r.value.steps.outputs != []) && |r.value.stampEdges| <= 1
  {
    var steps :- StepsPlan(e, hostTools, hash, digest, prebuild, spec);
    var c :- Collapse(e, hostTools, "actions_rules_copies", steps.outputs);
    Ok(Stamped(c.0, steps, c.1))
  }

  /** The actions, then the rules, then the copies of a target, each
      waiting on `prebuild`; the first failure ends the plan. */
  function StepsPlan(e: PathEnv, hostTools: seq<Tool>, hash: string, digest: string -> string,
                     prebuild: Option<string>, spec: Spec): (r: Result<Emitted, PyError>)
    ensures r.Ok? <==> ActionsPlan(e, hash, prebuild, spec.actions).Ok? && RulesPlan(e, hash, digest, prebuild, spec.rules).Ok? &&
                       CopiesPlan(e, hostTools, prebuild, spec.copies).Ok?
    ensures r.Ok? ==> |r.value.rules| >= |spec.actions| && |r.value.edges| >= |spec.actions|
  {
    var acts :- ActionsPlan(e, hash, prebuild, spec.actions);
    var rls :- RulesPlan(e, hash, digest, prebuild, spec.rules);
    var cps :- CopiesPlan(e, hostTools, prebuild, spec.copies);
    Ok(Then(Then(acts, rls), cps))
  }

  /** Every edge of the actions, rules and copies waits on `prebuild`; the
      stamp is present exactly when one of them has an output, and it stands
      for each of those outputs. */
  lemma ActionsRulesCopiesStamp(e: PathEnv, hostTools: seq<Tool>, hash: string, digest: string -> string,
                                prebuild: Option<string>, spec: Spec)
    requires ActionsRulesCopiesPlan(e, hostTools, hash, digest, prebuild, spec).Ok?
    ensures var s := ActionsRulesCopiesPlan(e, hostTools, hash, digest, prebuild, spec).value;
            Coherent(s.steps, AsList(prebuild)) &&
            (s.stamp.Some? <==> |OutputsOf(s.steps.edges)| > 0) &&
            (s.stamp.Some? ==> s.stamp.value != "") &&
            |s.stampEdges| <= 1 &&
            forall o :: o in OutputsOf(s.steps.edges) ==>
              s.stamp == Some(o) || (|s.stampEdges| == 1 && s.stampEdges[0].outputs == [s.stamp.value] && o in s.stampEdges[0].inputs)
  {
    var acts := ActionsPlan(e, hash, prebuild, spec.actions).value;
    var rls := RulesPlan(e, hash, digest, prebuild, spec.rules).value;
    var cps := CopiesPlan(e, hostTools, prebuild, spec.copies).value;
    ActionsPlanEdges(e, hash, prebuild, spec.actions);
    RulesPlanCoherent(e, hash, digest, prebuild, spec.rules);
    CopiesPlanCoherent(e, hostTools, prebuild, spec.copies);
    CoherentThen(acts, rls, AsList(prebuild));
    CoherentThen(Then(acts, rls), cps, AsList(prebuild));
    var steps := Then(Then(acts, rls), cps);
    CollapseRepresentsAll(e, hostTools, "actions_rules_copies", steps.outputs);
  }
}
