/** The per-target writer of the Ninja generator. A `NinjaWriter` is made for
    one qualified target and appends Ninja `rule` statements and `build` edges
    as it goes; each `Write*` method is proved to append exactly what the
    matching plan function of `NinjaPlan` or `NinjaSpecPlan` describes, and to
    return what that plan returns. When a method fails, the state it leaves
    is not specified: the generator stops at the first error. */
module NinjaWriterClass {
  import opened Wrappers
  import opened GypPaths
  import opened NinjaTarget
  import opened NinjaToolchain
  import opened NinjaSpec
  import opened NinjaPaths
  import opened NinjaPlan
  import opened NinjaSpecPlan

  class NinjaWriter {
    const qualifiedTarget: string
    /** The targets written before this one, as the generator held them when
        it made this writer. */
    const targetOutputs: map<string, Target>
    const baseDir: string
    const buildDir: string
    const buildToBase: string
    const baseToBuild: string
    const caseSensitive: bool
    const targetTools: seq<Tool>
    const hostTools: seq<Tool>
    /** `hashlib.md5(s).hexdigest()`. */
    const digest: string -> string
    const vars: ProductVars

    var configName: string
    var name: string
    var toolset: string
    var isStandaloneStaticLibrary: bool
    var target: Target
    /** The `rule` statements written so far. */
    var ruleStatements: seq<RuleDecl>
    /** The `build` edges written so far. */
    var buildEdges: seq<Edge>

    /** The fields the path functions read. */
    function Env(): PathEnv
      reads this`configName, this`name, this`toolset
    {
      PathEnv(baseDir, buildDir, buildToBase, baseToBuild, caseSensitive, configName, name, toolset)
    }

    /** The digest of the qualified target that rule names carry. */
    function Hash(): string
    {
      digest(qualifiedTarget)
    }

    function Ctx(): WriterCtx
    {
      WriterCtx(targetTools, hostTools, Hash(), digest, vars, targetOutputs)
    }

    /** The toolchain of the target's toolset. */
    function Tools(): seq<Tool>
      reads this`toolset
    {
      ToolsFor(Ctx(), toolset)
    }

    /** `NinjaWriter(qualified_target, target_outputs, base_dir, build_dir,
        ...)`: the paths between the build and base directories are computed
        once; both directories must be free of "..". */
    constructor (qualifiedTarget: string, targetOutputs: map<string, Target>, baseDir: string, buildDir: string,
                 caseSensitive: bool, targetTools: seq<Tool>, hostTools: seq<Tool>, digest: string -> string,
                 vars: ProductVars)
      requires DirsBetween(baseDir, buildDir).Ok?
      ensures this.qualifiedTarget == qualifiedTarget && this.targetOutputs == targetOutputs
      ensures this.baseDir == baseDir && this.buildDir == buildDir && this.caseSensitive == caseSensitive
      ensures this.targetTools == targetTools && this.hostTools == hostTools
      ensures this.digest == digest && this.vars == vars
      ensures Env() == WriterEnv(baseDir, buildDir, caseSensitive).value
      ensures ruleStatements == [] && buildEdges == []
    {
      this.qualifiedTarget := qualifiedTarget;
      this.targetOutputs := targetOutputs;
      this.baseDir := baseDir;
      this.buildDir := buildDir;
      var dirs := DirsBetween(baseDir, buildDir).value;
      this.buildToBase := dirs.0;
      this.baseToBuild := dirs.1;
      this.caseSensitive := caseSensitive;
      this.targetTools := targetTools;
      this.hostTools := hostTools;
      this.digest := digest;
      this.vars := vars;
      configName := "";
      name := "";
      toolset := "";
      isStandaloneStaticLibrary := false;
      target := NewTarget(NoneType);
      ruleStatements := [];
      buildEdges := [];
    }

    /** `WriteCollapsedDependencies(name, targets)`. */
    method WriteCollapsedDependencies(stampName: string, targets: seq<string>) returns (r: Result<Option<string>, PyError>)
      modifies this`buildEdges
      ensures unchanged(this`configName, this`name, this`toolset)
      ensures var c := Collapse(Env(), hostTools, stampName, targets);
              if c.Ok? then r == Ok(c.value.0) && buildEdges == old(buildEdges) + c.value.1
              else r == Err(c.error) && buildEdges == old(buildEdges)
    {
      if exists i :: 0 <= i < |targets| && targets[i] == "" {
        CollapseRefusesEmpty(Env(), hostTools, stampName, targets);
        return Err(AssertionError("falsy target"));
      }
      CollapseCases(Env(), hostTools, stampName, targets);
      if |targets| == 0 {
        return Ok(None);
      }
      if |targets| == 1 {
        return Ok(Some(targets[0]));
      }
      if FindFirstInstanceOf(Stamp, hostTools).None? {
        return Err(AssertionError("Host toolchain must provide stamp tool."));
      }
      r := WriteStamp(stampName, targets);
    }

    /** The `stamp` edge that collapses two or more targets into one path. */
    method WriteStamp(stampName: string, targets: seq<string>) returns (r: Result<Option<string>, PyError>)
      requires |targets| >= 2 && forall i :: 0 <= i < |targets| ==> targets[i] != ""
      requires FindFirstInstanceOf(Stamp, hostTools).Some?
      modifies this`buildEdges
      ensures unchanged(this`configName, this`name, this`toolset)
      ensures var c := Collapse(Env(), hostTools, stampName, targets);
              if c.Ok? then r == Ok(c.value.0) && buildEdges == old(buildEdges) + c.value.1
              else r == Err(c.error) && buildEdges == old(buildEdges)
    {
      CollapseCases(Env(), hostTools, stampName, targets);
      var stamp := GypPathToUniqueOutput(Env(), stampName + ".stamp", true);
      if stamp.Err? {
        return Err(stamp.error);
      }
      buildEdges := buildEdges + [Edge([stamp.value], "stamp", targets, [], [], [])];
      r := Ok(Some(stamp.value));
    }

    /** One action of `WriteActions` (the body of its loop): its rule and
        its edge; `more` is what it adds to `extra_sources`. */
    method WriteAction(a: Action, prebuild: Option<string>) returns (res: Result<seq<string>, PyError>, more: seq<string>)
      modifies this`ruleStatements, this`buildEdges
      ensures unchanged(this`configName, this`name, this`toolset)
      ensures var step := ActionStep(Env(), Hash(), prebuild, a);
              if step.Ok? then res == Ok(step.value.outputs) &&
                               ruleStatements == old(ruleStatements) + step.value.rules &&
                               buildEdges == old(buildEdges) + step.value.edges &&
                               more == step.value.extraSources
              else res == Err(step.error)
    {
      var e := Env();
      ActionStepCases(e, Hash(), prebuild, a);
      var ruleName := StepRuleName(e, a.actionName, Hash());
      ruleStatements := ruleStatements + [RuleDecl(ruleName, RuleArgs(e, a.command))];
      var inputs := GypPathsToNinja(e, a.inputs);
      if inputs.Err? {
        return Err(inputs.error), [];
      }
      more := if a.processOutputsAsSources then a.outputs else [];
      var outputs := GypPathsToNinja(e, a.outputs);
      if outputs.Err? {
        return Err(outputs.error), more;
      }
      buildEdges := buildEdges + [Edge(outputs.value, ruleName, inputs.value, [], AsList(prebuild), [])];
      res := Ok(outputs.value);
    }

    /** `WriteActions(actions, extra_sources, prebuild, ...)`: a rule and an
        edge per action; the outputs of actions that process their outputs
        as sources are added to `extra_sources`. */
    method WriteActions(actions: seq<Action>, extraSources: seq<string>, prebuild: Option<string>)
      returns (res: Result<seq<string>, PyError>, extra: seq<string>)
      modifies this`ruleStatements, this`buildEdges
      ensures unchanged(this`configName, this`name, this`toolset)
      ensures var plan := ActionsPlan(Env(), Hash(), prebuild, actions);
              if plan.Ok? then res == Ok(plan.value.outputs) &&
                               ruleStatements == old(ruleStatements) + plan.value.rules &&
                               buildEdges == old(buildEdges) + plan.value.edges &&
                               extra == extraSources + plan.value.extraSources
              else res == Err(plan.error)
    {
      var e := Env();
      ghost var acc := Nothing;
      var outputs: seq<string> := [];
      extra := extraSources;
      assert actions[0..] == actions;
      GlueNothing(ActionsPlan(e, Hash(), prebuild, actions));
      for i := 0 to |actions|
        invariant unchanged(this`configName, this`name, this`toolset)
        invariant ActionsPlan(e, Hash(), prebuild, actions) == Glue(acc, ActionsPlan(e, Hash(), prebuild, actions[i..]))
        invariant ruleStatements == old(ruleStatements) + acc.rules && buildEdges == old(buildEdges) + acc.edges
        invariant outputs == acc.outputs && extra == extraSources + acc.extraSources
      {
        ActionsAdvance(e, Hash(), prebuild, actions, i, acc);
        var actionOutputs, more := WriteAction(actions[i], prebuild);
        if actionOutputs.Err? {
          return Err(actionOutputs.error), extra;
        }
        ghost var step := ActionStep(e, Hash(), prebuild, actions[i]).value;
        ConcatAssoc(old(ruleStatements), acc.rules, step.rules);
        ConcatAssoc(old(buildEdges), acc.edges, step.edges);
        ConcatAssoc(extraSources, acc.extraSources, step.extraSources);
        extra := extra + more;
        outputs := outputs + actionOutputs.value;
        acc := Then(acc, step);
      }
      assert actions[|actions|..] == [];
      ThenNothing(acc);
      res := Ok(outputs);
    }

    /** The edge of one rule source (the body of the inner loop of
        `WriteRules`); `more` is what the source adds to `extra_sources`. */
    method WriteRuleEdge(r: RuleStep, ruleName: string, args: seq<string>, prebuild: Option<string>, source: string)
      returns (res: Result<seq<string>, PyError>, more: seq<string>)
      modifies this`buildEdges
      ensures unchanged(this`configName, this`name, this`toolset)
      ensures var step := RuleSourceStep(Env(), r, ruleName, args, digest, prebuild, source);
              if step.Ok? then res == Ok(step.value.outputs) &&
                               buildEdges == old(buildEdges) + step.value.edges &&
                               more == step.value.extraSources
              else res == Err(step.error)
    {
      var e := Env();
      var (dirname, basename) := PathSplit(source);
      var (root, ext) := Splitext(basename);
      var outs := ExpandRuleVariablesAll(r.outputs, root, dirname, source, ext, basename);
      var ins := ExpandRuleVariablesAll(r.inputs, root, dirname, source, ext, basename);
      more := if r.processOutputsAsSources then outs else [];
      var bindings := RuleBindings(e, args, source, root, dirname, ext, basename);
      var inputs := GypPathsToNinja(e, ins);
      if inputs.Err? {
        return Err(inputs.error), more;
      }
      var converted := GypPathsToNinja(e, outs);
      if converted.Err? {
        return Err(converted.error), more;
      }
      if converted.value == [] {
        return Err(IndexError("list index out of range")), more;
      }
      var src := GypPathToNinja(e, source);
      if src.Err? {
        return Err(src.error), more;
      }
      buildEdges := buildEdges + [Edge(converted.value, ruleName, [src.value], inputs.value, AsList(prebuild),
                                       bindings + [("unique_name", digest(converted.value[0]))])];
      res := Ok(converted.value);
    }

    /** The edges of one rule, one per rule source (the inner loop of
        `WriteRules`): the outputs of a rule that processes its outputs as
        sources are added to `extra_sources` as gyp paths. */
    method WriteRuleEdges(r: RuleStep, ruleName: string, args: seq<string>, prebuild: Option<string>, extraIn: seq<string>)
      returns (res: Result<seq<string>, PyError>, extra: seq<string>)
      modifies this`buildEdges
      ensures unchanged(this`configName, this`name, this`toolset)
      ensures var plan := RuleSourcesPlan(Env(), r, ruleName, args, digest, prebuild, r.ruleSources);
              if plan.Ok? then res == Ok(plan.value.outputs) &&
                               buildEdges == old(buildEdges) + plan.value.edges &&
                               extra == extraIn + plan.value.extraSources
              else res == Err(plan.error)
    {
      var e := Env();
      var sources := r.ruleSources;
      ghost var acc := Nothing;
      var outputs: seq<string> := [];
      extra := extraIn;
      assert sources[0..] == sources;
      GlueNothing(RuleSourcesPlan(e, r, ruleName, args, digest, prebuild, sources));
      for i := 0 to |sources|
        invariant unchanged(this`configName, this`name, this`toolset)
        invariant RuleSourcesPlan(e, r, ruleName, args, digest, prebuild, sources) ==
                  Glue(acc, RuleSourcesPlan(e, r, ruleName, args, digest, prebuild, sources[i..]))
        invariant buildEdges == old(buildEdges) + acc.edges
        invariant outputs == acc.outputs && extra == extraIn + acc.extraSources
      {
        RuleSourcesAdvance(e, r, ruleName, args, digest, prebuild, sources, i, acc);
        var edgeOutputs, more := WriteRuleEdge(r, ruleName, args, prebuild, sources[i]);
        if edgeOutputs.Err? {
          return Err(edgeOutputs.error), extra;
        }
        ghost var step := RuleSourceStep(e, r, ruleName, args, digest, prebuild, sources[i]).value;
        ConcatAssoc(extraIn, acc.extraSources, more);
        ConcatAssoc(old(buildEdges), acc.edges, step.edges);
        extra := extra + more;
        outputs := outputs + edgeOutputs.value;
        acc := Then(acc, step);
      }
      assert sources[|sources|..] == [];
      ThenNothing(acc);
      res := Ok(outputs);
    }

    /** One rule of `WriteRules` (the body of its outer loop): skipped when
        it has neither a command nor sources, `KeyError` when it has sources
        but no command, and otherwise its rule statement and its edges. */
    method WriteRule(rule: RuleStep, prebuild: Option<string>, extraIn: seq<string>)
      returns (res: Result<seq<string>, PyError>, extra: seq<string>)
      modifies this`ruleStatements, this`buildEdges
      ensures unchanged(this`configName, this`name, this`toolset)
      ensures var step := RuleStepPlan(Env(), Hash(), digest, prebuild, rule);
              if step.Ok? then res == Ok(step.value.outputs) &&
                               ruleStatements == old(ruleStatements) + step.value.rules &&
                               buildEdges == old(buildEdges) + step.value.edges &&
                               extra == extraIn + step.value.extraSources
              else res == Err(step.error)
    {
      RuleStepPlanCases(Env(), Hash(), digest, prebuild, rule);
      if rule.command.None? && rule.ruleSources == [] {
        assert extraIn + Nothing.extraSources == extraIn;
        return Ok([]), extraIn;
      }
      if rule.command.None? {
        return Err(KeyError("action")), extraIn;
      }
      res, extra := WriteRuleCommand(rule, prebuild, extraIn);
    }

    /** A rule with a command: its rule statement, then the edges of its
        sources. */
    method WriteRuleCommand(rule: RuleStep, prebuild: Option<string>, extraIn: seq<string>)
      returns (res: Result<seq<string>, PyError>, extra: seq<string>)
      requires rule.command.Some?
      modifies this`ruleStatements, this`buildEdges
      ensures unchanged(this`configName, this`name, this`toolset)
      ensures var step := RuleStepPlan(Env(), Hash(), digest, prebuild, rule);
              if step.Ok? then res == Ok(step.value.outputs) &&
                               ruleStatements == old(ruleStatements) + step.value.rules &&
                               buildEdges == old(buildEdges) + step.value.edges &&
                               extra == extraIn + step.value.extraSources
              else res == Err(step.error)
    {
      var e := Env();
      var ruleName := StepRuleName(e, rule.ruleName, Hash());
      var args := RuleArgs(e, rule.command.value);
      RuleStepPlanUnfold(e, Hash(), digest, prebuild, rule);
      ghost var edgesPlan := RuleSourcesPlan(e, rule, ruleName, args, digest, prebuild, rule.ruleSources);
      ruleStatements := ruleStatements + [RuleDecl(ruleName, args)];
      res, extra := WriteRuleEdges(rule, ruleName, args, prebuild, extraIn);
      if res.Ok? {
        RuleSourcesPlanEdges(e, rule, ruleName, args, digest, prebuild, rule.ruleSources);
        var m := edgesPlan.value;
        assert [] + m.edges == m.edges && [] + m.outputs == m.outputs && [] + m.extraSources == m.extraSources;
        assert Then(Emitted([RuleDecl(ruleName, args)], [], [], []), m) ==
               Emitted([RuleDecl(ruleName, args)], m.edges, m.outputs, m.extraSources);
      }
    }

    /** `WriteRules(rules, extra_sources, prebuild, ...)`: the rules in order;
        the outputs of all their edges are returned. */
    method WriteRules(rules: seq<RuleStep>, extraSources: seq<string>, prebuild: Option<string>)
      returns (res: Result<seq<string>, PyError>, extra: seq<string>)
      modifies this`ruleStatements, this`buildEdges
      ensures unchanged(this`configName, this`name, this`toolset)
      ensures var plan := RulesPlan(Env(), Hash(), digest, prebuild, rules);
              if plan.Ok? then res == Ok(plan.value.outputs) &&
                               ruleStatements == old(ruleStatements) + plan.value.rules &&
                               buildEdges == old(buildEdges) + plan.value.edges &&
                               extra == extraSources + plan.value.extraSources
              else res == Err(plan.error)
    {
      var e := Env();
      ghost var acc := Nothing;
      var outputs: seq<string> := [];
      extra := extraSources;
      assert rules[0..] == rules;
      GlueNothing(RulesPlan(e, Hash(), digest, prebuild, rules));
      for i := 0 to |rules|
        invariant unchanged(this`configName, this`name, this`toolset)
        invariant RulesPlan(e, Hash(), digest, prebuild, rules) == Glue(acc, RulesPlan(e, Hash(), digest, prebuild, rules[i..]))
        invariant ruleStatements == old(ruleStatements) + acc.rules && buildEdges == old(buildEdges) + acc.edges
        invariant outputs == acc.outputs && extra == extraSources + acc.extraSources
      {
        ghost var rest := RulesPlan(e, Hash(), digest, prebuild, rules[i + 1..]);
        assert RulesPlan(e, Hash(), digest, prebuild, rules[i..]) ==
               (var s := RuleStepPlan(e, Hash(), digest, prebuild, rules[i]);
                if s.Err? then Err(s.error) else Glue(s.value, rest)) by {
          RulesPlanUnfold(e, Hash(), digest, prebuild, rules[i..]);
          assert rules[i..][0] == rules[i] && rules[i..][1..] == rules[i + 1..];
        }
        var ruleOutputs, ruleExtra := WriteRule(rules[i], prebuild, extra);
        if ruleOutputs.Err? {
          return Err(ruleOutputs.error), ruleExtra;
        }
        ghost var step := RuleStepPlan(e, Hash(), digest, prebuild, rules[i]).value;
        ConcatAssoc(old(ruleStatements), acc.rules, step.rules);
        ConcatAssoc(old(buildEdges), acc.edges, step.edges);
        ConcatAssoc(extraSources, acc.extraSources, step.extraSources);
        extra := ruleExtra;
        outputs := outputs + ruleOutputs.value;
        GlueAssoc(acc, step, rest);
        acc := Then(acc, step);
      }
      assert rules[|rules|..] == [];
      ThenNothing(acc);
      res := Ok(outputs);
    }

    /** One file of a copy (the body of the inner loop of `WriteCopies`,
        with `WriteCopy`): a `copy` edge from the file to the destination
        directory. */
    method WriteCopy(destination: string, file: string, prebuild: Option<string>) returns (res: Result<seq<string>, PyError>)
      modifies this`buildEdges
      ensures unchanged(this`configName, this`name, this`toolset)
      ensures var step := CopyFileStep(Env(), hostTools, destination, prebuild, file);
              if step.Ok? then res == Ok(step.value.outputs) && buildEdges == old(buildEdges) + step.value.edges &&
                               step.value.rules == [] && step.value.extraSources == []
              else res == Err(step.error)
    {
      var e := Env();
      var path := Normpath(file);
      var basename := PathSplit(path).1;
      var src := GypPathToNinja(e, path);
      if src.Err? {
        return Err(src.error);
      }
      if FindFirstInstanceOf(Copy, hostTools).None? {
        return Err(AssertionError("Host toolchain must provide copy tool."));
      }
      var dst := GypPathToNinja(e, Join(destination, basename));
      if dst.Err? {
        return Err(dst.error);
      }
      var out := Normpath(dst.value);
      buildEdges := buildEdges + [Edge([out], "copy", [src.value], [], AsList(prebuild), [])];
      res := Ok([out]);
    }

    /** The files of one copy, in order. */
    method WriteCopyFiles(destination: string, files: seq<string>, prebuild: Option<string>) returns (res: Result<seq<string>, PyError>)
      modifies this`buildEdges
      ensures unchanged(this`configName, this`name, this`toolset)
      ensures var plan := CopyFilesPlan(Env(), hostTools, destination, prebuild, files);
              if plan.Ok? then res == Ok(plan.value.outputs) && buildEdges == old(buildEdges) + plan.value.edges &&
                               plan.value.rules == [] && plan.value.extraSources == []
              else res == Err(plan.error)
    {
      var e := Env();
      ghost var acc := Nothing;
      var outputs: seq<string> := [];
      assert files[0..] == files;
      GlueNothing(CopyFilesPlan(e, hostTools, destination, prebuild, files));
      for i := 0 to |files|
        invariant unchanged(this`configName, this`name, this`toolset)
        invariant CopyFilesPlan(e, hostTools, destination, prebuild, files) ==
                  Glue(acc, CopyFilesPlan(e, hostTools, destination, prebuild, files[i..]))
        invariant buildEdges == old(buildEdges) + acc.edges && outputs == acc.outputs
        invariant acc.rules == [] && acc.extraSources == []
      {
        CopyFilesAdvance(e, hostTools, destination, prebuild, files, i, acc);
        var fileOutputs := WriteCopy(destination, files[i], prebuild);
        if fileOutputs.Err? {
          return Err(fileOutputs.error);
        }
        ghost var step := CopyFileStep(e, hostTools, destination, prebuild, files[i]).value;
        ConcatAssoc(old(buildEdges), acc.edges, step.edges);
        outputs := outputs + fileOutputs.value;
        acc := Then(acc, step);
      }
      assert files[|files|..] == [];
      ThenNothing(acc);
      res := Ok(outputs);
    }

    /** `WriteCopies(copies, prebuild, ...)`: a `copy` edge per file of each
        copy; the copied paths are returned. */
    method WriteCopies(copies: seq<CopyStep>, prebuild: Option<string>) returns (res: Result<seq<string>, PyError>)
      modifies this`buildEdges
      ensures unchanged(this`configName, this`name, this`toolset)
      ensures var plan := CopiesPlan(Env(), hostTools, prebuild, copies);
              if plan.Ok? then res == Ok(plan.value.outputs) && buildEdges == old(buildEdges) + plan.value.edges &&
                               plan.value.rules == [] && plan.value.extraSources == []
              else res == Err(plan.error)
    {
      var e := Env();
      ghost var acc := Nothing;
      var outputs: seq<string> := [];
      assert copies[0..] == copies;
      GlueNothing(CopiesPlan(e, hostTools, prebuild, copies));
      for i := 0 to |copies|
        invariant unchanged(this`configName, this`name, this`toolset)
        invariant CopiesPlan(e, hostTools, prebuild, copies) == Glue(acc, CopiesPlan(e, hostTools, prebuild, copies[i..]))
        invariant buildEdges == old(buildEdges) + acc.edges && outputs == acc.outputs
        invariant acc.rules == [] && acc.extraSources == []
      {
        ghost var rest := CopiesPlan(e, hostTools, prebuild, copies[i + 1..]);
        assert CopiesPlan(e, hostTools, prebuild, copies[i..]) ==
               (var s := CopyFilesPlan(e, hostTools, copies[i].destination, prebuild, copies[i].files);
                if s.Err? then Err(s.error) else Glue(s.value, rest)) by {
          CopiesPlanUnfold(e, hostTools, prebuild, copies[i..]);
          assert copies[i..][0] == copies[i] && copies[i..][1..] == copies[i + 1..];
        }
        var copyOutputs := WriteCopyFiles(copies[i].destination, copies[i].files, prebuild);
        if copyOutputs.Err? {
          return Err(copyOutputs.error);
        }
        ghost var step := CopyFilesPlan(e, hostTools, copies[i].destination, prebuild, copies[i].files).value;
        ConcatAssoc(old(buildEdges), acc.edges, step.edges);
        outputs := outputs + copyOutputs.value;
        GlueAssoc(acc, step, rest);
        acc := Then(acc, step);
      }
      assert copies[|copies|..] == [];
      ThenNothing(acc);
      res := Ok(outputs);
    }

    /** `WriteActionsRulesCopies(spec, extra_sources, prebuild, ...)`: the
        actions, then the rules, then the copies, and one path standing for
        all their outputs. */
    method WriteActionsRulesCopies(spec: Spec, extraSources: seq<string>, prebuild: Option<string>)
      returns (res: Result<Option<string>, PyError>, extra: seq<string>)
      modifies this`ruleStatements, this`buildEdges
      ensures unchanged(this`configName, this`name, this`toolset)
      ensures var plan := ActionsRulesCopiesPlan(Env(), hostTools, Hash(), digest, prebuild, spec);
              if plan.Ok? then res == Ok(plan.value.stamp) &&
                               ruleStatements == old(ruleStatements) + plan.value.steps.rules &&
                               buildEdges == old(buildEdges) + plan.value.steps.edges + plan.value.stampEdges &&
                               extra == extraSources + plan.value.steps.extraSources
              else res == Err(plan.error)
    {
      var outputs;
      outputs, extra := WriteSteps(spec, extraSources, prebuild);
      if outputs.Err? {
        return Err(outputs.error), extra;
      }
      res := WriteCollapsedDependencies("actions_rules_copies", outputs.value);
    }

    /** The actions, the rules and the copies of `WriteActionsRulesCopies`,
        before their outputs are collapsed. */
    method WriteSteps(spec: Spec, extraSources: seq<string>, prebuild: Option<string>)
      returns (res: Result<seq<string>, PyError>, extra: seq<string>)
      modifies this`ruleStatements, this`buildEdges
      ensures unchanged(this`configName, this`name, this`toolset)
      ensures var plan := StepsPlan(Env(), hostTools, Hash(), digest, prebuild, spec);
              if plan.Ok? then res == Ok(plan.value.outputs) &&
                               ruleStatements == old(ruleStatements) + plan.value.rules &&
                               buildEdges == old(buildEdges) + plan.value.edges &&
                               extra == extraSources + plan.value.extraSources
              else res == Err(plan.error)
    {
      ghost var e := Env();
      ghost var before := buildEdges;
      var actionOutputs, rulesOutputs, copyOutputs;
      actionOutputs, extra := WriteActions(spec.actions, extraSources, prebuild);
      if actionOutputs.Err? {
        return Err(actionOutputs.error), extra;
      }
      rulesOutputs, extra := WriteRules(spec.rules, extra, prebuild);
      if rulesOutputs.Err? {
        return Err(rulesOutputs.error), extra;
      }
      copyOutputs := WriteCopies(spec.copies, prebuild);
      if copyOutputs.Err? {
        return Err(copyOutputs.error), extra;
      }
      ghost var acts := ActionsPlan(e, Hash(), prebuild, spec.actions).value;
      ghost var rls := RulesPlan(e, Hash(), digest, prebuild, spec.rules).value;
      ghost var cps := CopiesPlan(e, hostTools, prebuild, spec.copies).value;
      ConcatAssoc(old(ruleStatements), acts.rules, rls.rules);
      ConcatAssoc(old(ruleStatements), acts.rules + rls.rules, cps.rules);
      ConcatAssoc(before, acts.edges, rls.edges);
      ConcatAssoc(before, acts.edges + rls.edges, cps.edges);
      ConcatAssoc(extraSources, acts.extraSources, rls.extraSources);
      ConcatAssoc(acts.extraSources + rls.extraSources, cps.extraSources, []);
      res := Ok(actionOutputs.value + rulesOutputs.value + copyOutputs.value);
    }

    /** The dependency loop of `WriteLink`: the binaries of the library
        dependencies, in order, and the set of final outputs to wait for,
        kept in first-insertion order. Dependencies that were not written
        are skipped. */
    method CollectLinkDeps(deps: seq<string>) returns (extraLinkDeps: seq<string>, orderOnlyDeps: seq<string>)
      requires ReadyOutputs(targetOutputs)
      ensures extraLinkDeps == LinkInputsOf(targetOutputs, deps)
      ensures orderOnlyDeps == Dedup(OrderOnlyOf(targetOutputs, deps))
    {
      extraLinkDeps := [];
      orderOnlyDeps := [];
      for i := 0 to |deps|
        invariant extraLinkDeps == LinkInputsOf(targetOutputs, deps[..i])
        invariant orderOnlyDeps == Dedup(OrderOnlyOf(targetOutputs, deps[..i]))
      {
        var dep := deps[i];
        assert deps[..i + 1] == deps[..i] + [dep];
        LinkInputsOfSnoc(targetOutputs, deps[..i], dep);
        OrderOnlyOfSnoc(targetOutputs, deps[..i], dep);
        if dep !in targetOutputs {
          assert OrderOnlyOf(targetOutputs, deps[..i] + [dep]) == OrderOnlyOf(targetOutputs, deps[..i]);
          continue;
        }
        var target := targetOutputs[dep];
        assert Ready(target);
        var linkable := target.Linkable();
        if linkable {
          extraLinkDeps := extraLinkDeps + [target.binary.value];
        }
        var finalOutput := target.FinalOutput();
        if !linkable || finalOutput != target.binary {
          DedupSnoc(OrderOnlyOf(targetOutputs, deps[..i]), finalOutput.value);
          if finalOutput.value !in orderOnlyDeps {
            orderOnlyDeps := orderOnlyDeps + [finalOutput.value];
          }
        } else {
          assert OrderOnlyOf(targetOutputs, deps[..i] + [dep]) == OrderOnlyOf(targetOutputs, deps[..i]);
        }
      }
      assert deps[..|deps|] == deps;
    }

    /** One source of the loop of `WriteSources`: its compiler's rule, and
        the edge when there is a rule. */
    method WriteCompile(source: string, predepends: Option<string>) returns (res: Result<seq<string>, PyError>)
      modifies this`buildEdges
      ensures unchanged(this`configName, this`name, this`toolset)
      ensures var step := CompileStep(Env(), Tools(), predepends, source);
              if step.Ok? then res == Ok(step.value.outputs) && buildEdges == old(buildEdges) + step.value.edges
              else res == Err(step.error)
    {
      var ruleName := CompileRuleName(Env(), Tools(), source);
      if ruleName.Err? {
        return Err(ruleName.error);
      }
      if ruleName.value == "" {
        assert buildEdges == old(buildEdges) + Nothing.edges;
        return Ok([]);
      }
      var edge := CompileEdge(Env(), ruleName.value, predepends, source);
      if edge.Err? {
        return Err(edge.error);
      }
      buildEdges := buildEdges + edge.value.edges;
      res := Ok(edge.value.outputs);
    }

    /** `WriteSources(config_name, config, sources, predepends, ...)`: the
        include directories are converted first, then every source with a
        compiler gets its edge; the outputs are returned in order. */
    method WriteSources(config: Config, sources: seq<string>, predepends: Option<string>)
      returns (res: Result<seq<string>, PyError>)
      modifies this`buildEdges
      ensures unchanged(this`configName, this`name, this`toolset)
      ensures var plan := SourcesPlan(Env(), Tools(), config, predepends, sources);
              if plan.Ok? then res == Ok(plan.value.outputs) && buildEdges == old(buildEdges) + plan.value.edges
              else res == Err(plan.error)
    {
      var e := Env();
      var includeDirs := GypPathsToNinja(e, IncludeDirs(config));
      if includeDirs.Err? {
        return Err(includeDirs.error);
      }
      ghost var acc := Nothing;
      var outputs: seq<string> := [];
      assert sources[0..] == sources;
      GlueNothing(CompilePlan(e, Tools(), predepends, sources));
      for i := 0 to |sources|
        invariant unchanged(this`configName, this`name, this`toolset)
        invariant CompilePlan(e, Tools(), predepends, sources) == Glue(acc, CompilePlan(e, Tools(), predepends, sources[i..]))
        invariant buildEdges == old(buildEdges) + acc.edges
        invariant outputs == acc.outputs
      {
        ghost var rest := CompilePlan(e, Tools(), predepends, sources[i + 1..]);
        assert CompilePlan(e, Tools(), predepends, sources[i..]) ==
               (var s := CompileStep(e, Tools(), predepends, sources[i]);
                if s.Err? then Err(s.error) else Glue(s.value, rest)) by {
          CompilePlanUnfold(e, Tools(), predepends, sources[i..]);
          assert sources[i..][0] == sources[i] && sources[i..][1..] == sources[i + 1..];
        }
        var sourceOutputs := WriteCompile(sources[i], predepends);
        if sourceOutputs.Err? {
          return Err(sourceOutputs.error);
        }
        ghost var step := CompileStep(e, Tools(), predepends, sources[i]).value;
        ConcatAssoc(old(buildEdges), acc.edges, step.edges);
        outputs := outputs + sourceOutputs.value;
        GlueAssoc(acc, step, rest);
        acc := Then(acc, step);
      }
      assert sources[|sources|..] == [];
      ThenNothing(acc);
      res := Ok(outputs);
    }

    /** The first part of `WriteLink`: the linker's rule for an executable
        or a shared library, and the bindings a shared library is given. */
    method LinkRule(spec: Spec) returns (r: Result<(string, seq<(string, string)>), PyError>)
      ensures var linker := LinkerFor(spec.ttype, Tools());
              if linker.Err? then r == Err(linker.error)
              else
                var bindings := LinkBindings(Env(), spec, vars, linker.value);
                if bindings.Err? then r == Err(bindings.error)
                else r == Ok((GetNinjaRuleName(linker.value, toolset), bindings.value))
    {
      var tools := Tools();
      var ruleName: string;
      var bindings: seq<(string, string)> := [];
      if spec.ttype == Executable {
        var linker := FindFirstInstanceOf(ExecutableLinker, tools);
        if linker.None? {
          return Err(AssertionError("Toolchain must provide executable linker"));
        }
        ruleName := GetNinjaRuleName(linker.value, toolset);
      } else if spec.ttype == SharedLibrary {
        var linker := FindFirstInstanceOf(SharedLibraryLinker, tools);
        if linker.None? {
          return Err(AssertionError("Toolchain must provide shared library linker"));
        }
        ruleName := GetNinjaRuleName(linker.value, toolset);
        var output := ComputeOutput(Env(), spec, vars);
        if output.Err? {
          return Err(output.error);
        }
        bindings := [("soname", PathSplit(output.value).1), ("dll", output.value)] + ImplibBinding(output.value, linker.value);
      } else {
        return Err(GenericError("Target type is not supported"));
      }
      r := Ok((ruleName, bindings));
    }

    /** `WriteLink(spec, config_name, config, link_deps)`: the link edge of
        an executable or a shared library; the binary it sets is returned. */
    method WriteLink(spec: Spec, config: Config, linkDeps: seq<string>) returns (res: Result<string, PyError>)
      requires ReadyOutputs(targetOutputs)
      modifies this`target, this`buildEdges
      ensures unchanged(this`configName, this`name, this`toolset)
      ensures var plan := LinkPlan(Env(), Tools(), spec, config, vars, targetOutputs, linkDeps);
              if plan.Ok? then res == Ok(plan.value.outputs[0]) &&
                               target == old(target).(binary := Some(plan.value.outputs[0])) &&
                               buildEdges == old(buildEdges) + [plan.value]
              else res == Err(plan.error)
    {
      var e := Env();
      var rule := LinkRule(spec);
      if rule.Err? {
        return Err(rule.error);
      }
      var (ruleName, bindings) := rule.value;
      var extraLinkDeps, orderOnlyDeps := CollectLinkDeps(spec.dependencies);
      extraLinkDeps := Uniquer(extraLinkDeps);
      var inputs := linkDeps + extraLinkDeps;
      var tailDeps := GetConfigFlags(config, e.toolset, "TailDependencies");
      if tailDeps != [] {
        inputs := inputs + ExpandSpecialAll(e, tailDeps, "");
      } else {
        assert inputs == inputs + TailDeps(e, config);
      }
      var output := ComputeOutput(e, spec, vars);
      if output.Err? {
        return Err(output.error);
      }
      target := target.(binary := Some(output.value));
      buildEdges := buildEdges + [Edge([output.value], ruleName, inputs, [], orderOnlyDeps, bindings)];
      res := Ok(output.value);
    }

    /** The static-library branch of `WriteTarget`: the binary is set to
        the computed output before the archiver is looked up. */
    method WriteArchive(spec: Spec, linkDeps: seq<string>, compileDeps: Option<string>)
      returns (res: Result<Option<string>, PyError>)
      requires isStandaloneStaticLibrary == spec.standaloneStaticLibrary
      modifies this`target, this`buildEdges
      ensures unchanged(this`configName, this`name, this`toolset)
      ensures var step := ArchivePlan(Env(), Tools(), spec, vars, linkDeps, compileDeps);
              if step.Ok? then res == Ok(step.value.binary) &&
                               target == old(target).(binary := step.value.binary) &&
                               buildEdges == old(buildEdges) + step.value.edges
              else res == Err(step.error)
    {
      var e := Env();
      var output := ComputeOutput(e, spec, vars);
      if output.Err? {
        return Err(output.error);
      }
      target := target.(binary := Some(output.value));
      var tools := Tools();
      var staticLinker := FindFirstInstanceOf(StaticLinker, tools);
      if !isStandaloneStaticLibrary {
        var thin := FindFirstInstanceOf(StaticThinLinker, tools);
        if thin.Some? {
          staticLinker := thin;
        }
      }
      if staticLinker.None? {
        return Err(AssertionError("Toolchain must provide static linker"));
      }
      var ruleName := GetNinjaRuleName(staticLinker.value, e.toolset);
      buildEdges := buildEdges + [Edge([output.value], ruleName, linkDeps, [], AsList(compileDeps), [])];
      res := Ok(Some(output.value));
    }

    /** `WriteTarget(spec, config_name, config, link_deps, compile_deps)`:
        sets and returns the target's binary. */
    method WriteTarget(spec: Spec, config: Config, linkDeps: seq<string>, compileDeps: Option<string>)
      returns (res: Result<Option<string>, PyError>)
      requires ReadyOutputs(targetOutputs)
      requires isStandaloneStaticLibrary == spec.standaloneStaticLibrary
      modifies this`target, this`buildEdges
      ensures unchanged(this`configName, this`name, this`toolset)
      ensures var step := TargetStep(Env(), Tools(), spec, config, vars, targetOutputs, linkDeps, compileDeps);
              if step.Ok? then res == Ok(step.value.binary) &&
                               target == old(target).(binary := step.value.binary) &&
                               buildEdges == old(buildEdges) + step.value.edges
              else res == Err(step.error)
    {
      var e := Env();
      if spec.ttype == NoneType {
        target := target.(binary := compileDeps);
        return Ok(compileDeps);
      } else if spec.ttype == StaticLibrary {
        res := WriteArchive(spec, linkDeps, compileDeps);
      } else {
        var binary := WriteLink(spec, config, linkDeps);
        if binary.Err? {
          return Err(binary.error);
        }
        return Ok(Some(binary.value));
      }
    }

    /** The dependency loop of `WriteSpec`: the pre-action and pre-compile
        inputs of the dependencies written before, in order, without the
        empty ones (`filter(None, ...)`, applied as they are collected). */
    method CollectPrerequisites(deps: seq<string>) returns (actionsDepends: seq<string>, compileDepends: seq<string>)
      ensures actionsDepends == PreActionInputs(targetOutputs, deps)
      ensures compileDepends == PreCompileInputs(targetOutputs, deps)
    {
      actionsDepends := [];
      compileDepends := [];
      for i := 0 to |deps|
        invariant actionsDepends == PreActionInputs(targetOutputs, deps[..i])
        invariant compileDepends == PreCompileInputs(targetOutputs, deps[..i])
      {
        var dep := deps[i];
        assert deps[..i + 1] == deps[..i] + [dep];
        PreActionInputsSnoc(targetOutputs, deps[..i], dep);
        PreCompileInputsSnoc(targetOutputs, deps[..i], dep);
        if dep in targetOutputs {
          var t := targetOutputs[dep];
          var a := t.PreActionInput();
          var c := t.PreCompileInput();
          if Truthy(a) {
            actionsDepends := actionsDepends + [a.value];
          }
          if Truthy(c) {
            compileDepends := compileDepends + [c.value];
          }
        }
      }
      assert deps[..|deps|] == deps;
    }

    /** The first part of `WriteSpec`: the prerequisites collapsed into
        `actions_depends` and `compile_depends`, then the actions, rules
        and copies. Returns those two paths and the stamp of the actions,
        rules and copies, and the sources they generate. */
    method WriteFront(spec: Spec)
      returns (res: Result<(Option<string>, Option<string>, Option<string>), PyError>, extra: seq<string>)
      modifies this`ruleStatements, this`buildEdges
      ensures unchanged(this`configName, this`name, this`toolset)
      ensures var f := FrontPlan(Env(), Ctx(), spec);
              if f.Ok? then res == Ok((f.value.actionsDepends, f.value.compileDepends, f.value.arc.stamp)) &&
                            ruleStatements == old(ruleStatements) + f.value.arc.steps.rules &&
                            buildEdges == old(buildEdges) + f.value.dependEdges + f.value.arc.steps.edges + f.value.arc.stampEdges &&
                            extra == f.value.arc.steps.extraSources
              else res == Err(f.error)
    {
      var d := WriteDepends(spec.dependencies);
      if d.Err? {
        return Err(d.error), [];
      }
      var stamp;
      stamp, extra := WriteActionsRulesCopies(spec, [], d.value.actions);
      if stamp.Err? {
        return Err(stamp.error), extra;
      }
      assert extra == [] + extra;
      res := Ok((d.value.actions, d.value.compiles, stamp.value));
    }

    /** The prerequisites of the dependencies, collapsed into one path for
        the actions and one for the compiles. */
    method WriteDepends(deps: seq<string>) returns (res: Result<Depends, PyError>)
      modifies this`buildEdges
      ensures unchanged(this`configName, this`name, this`toolset)
      ensures res == DependsPlan(Env(), hostTools, targetOutputs, deps)
      ensures res.Ok? ==> buildEdges == old(buildEdges) + res.value.edges
    {
      ghost var before := buildEdges;
      var n := |buildEdges|;
      var ads, cds := CollectPrerequisites(deps);
      var ad := WriteCollapsedDependencies("actions_depends", ads);
      if ad.Err? {
        return Err(ad.error);
      }
      var cd := WriteCollapsedDependencies("compile_depends", cds);
      if cd.Err? {
        return Err(cd.error);
      }
      ghost var e := Env();
      ConcatAssoc(before, Collapse(e, hostTools, "actions_depends", ads).value.1,
                  Collapse(e, hostTools, "compile_depends", cds).value.1);
      DropPrefix(before, Collapse(e, hostTools, "actions_depends", ads).value.1 +
                         Collapse(e, hostTools, "compile_depends", cds).value.1);
      res := Ok(Depends(ad.value, cd.value, buildEdges[n..]));
    }

    /** The compile part of `WriteSpec`: nothing without sources, else the
        compiled objects and then the sources that are objects already. */
    method WriteCompilePhase(config: Config, predepends: Option<string>, sources: seq<string>)
      returns (res: Result<seq<string>, PyError>)
      modifies this`buildEdges
      ensures unchanged(this`configName, this`name, this`toolset)
      ensures var c := CompilePhase(Env(), Tools(), config, predepends, sources);
              if c.Ok? then res == Ok(c.value.linkDeps) && buildEdges == old(buildEdges) + c.value.edges
              else res == Err(c.error)
    {
      if sources == [] {
        return Ok([]);
      }
      var objects := WriteSources(config, sources, predepends);
      if objects.Err? {
        return Err(objects.error);
      }
      var ready := GypPathsToNinja(Env(), ObjectFiles(sources));
      if ready.Err? {
        return Err(ready.error);
      }
      res := Ok(objects.value + ready.value);
    }

    /** `WriteSpec(spec, config_name, generator_flags)`: sets the
        configuration, the target name and the toolset, fails with
        `KeyError` for a configuration the target lacks, and otherwise
        writes what `SpecPlan` describes and returns its target. */
    method WriteSpec(spec: Spec, configName: string) returns (res: Result<Option<Target>, PyError>)
      requires ReadyOutputs(targetOutputs)
      modifies this`configName, this`name, this`toolset, this`isStandaloneStaticLibrary, this`target
      modifies this`ruleStatements, this`buildEdges
      ensures Env() == SpecEnv(old(Env()), configName, spec)
      ensures var plan := SpecPlan(old(Env()), Ctx(), configName, spec);
              if plan.Ok? then res == Ok(plan.value.target) &&
                               ruleStatements == old(ruleStatements) + plan.value.rules &&
                               buildEdges == old(buildEdges) + plan.value.edges &&
                               isStandaloneStaticLibrary == spec.standaloneStaticLibrary &&
                               (plan.value.target.Some? ==> target == plan.value.target.value)
              else res == Err(plan.error)
    {
      this.configName := configName;
      this.name := spec.targetName;
      this.toolset := spec.toolset;
      if configName !in spec.configurations {
        return Err(KeyError(configName));
      }
      var config := spec.configurations[configName];
      target := NewTarget(spec.ttype);
      isStandaloneStaticLibrary := spec.standaloneStaticLibrary;
      assert Env() == SpecEnv(old(Env()), configName, spec);
      assert SpecPlan(old(Env()), Ctx(), configName, spec) == SpecBody(Env(), Ctx(), config, spec);
      res := WriteSpecBody(spec, config);
    }

    /** `WriteSpec` once the configuration is found. */
    method WriteSpecBody(spec: Spec, config: Config) returns (res: Result<Option<Target>, PyError>)
      requires ReadyOutputs(targetOutputs)
      requires toolset == spec.toolset && isStandaloneStaticLibrary == spec.standaloneStaticLibrary
      requires target == NewTarget(spec.ttype)
      modifies this`target, this`ruleStatements, this`buildEdges
      ensures unchanged(this`configName, this`name, this`toolset)
      ensures var plan := SpecBody(Env(), Ctx(), config, spec);
              if plan.Ok? then res == Ok(plan.value.target) &&
                               ruleStatements == old(ruleStatements) + plan.value.rules &&
                               buildEdges == old(buildEdges) + plan.value.edges &&
                               (plan.value.target.Some? ==> target == plan.value.target.value)
              else res == Err(plan.error)
    {
      var front, extra := WriteFront(spec);
      if front.Err? {
        return Err(front.error);
      }
      ghost var f := FrontPlan(Env(), Ctx(), spec).value;
      ghost var written := f.dependEdges + f.arc.steps.edges + f.arc.stampEdges;
      ConcatAssoc(old(buildEdges), f.dependEdges, f.arc.steps.edges);
      ConcatAssoc(old(buildEdges), f.dependEdges + f.arc.steps.edges, f.arc.stampEdges);
      assert buildEdges == old(buildEdges) + written;
      var (actionsDepends, compileDepends, stamp) := front.value;
      target := target.(preactionStamp := actionsDepends, precompileStamp := compileDepends, actionsStamp := stamp);
      res := WriteBuildPhase(spec, config, extra);
      if res.Ok? {
        ghost var b := BuildPhase(Env(), Tools(), spec, config, vars, targetOutputs, old(target).(preactionStamp := actionsDepends, precompileStamp := compileDepends, actionsStamp := stamp), extra).value;
        ConcatAssoc(old(buildEdges), written, b.1);
      }
    }

    /** The compiles, then the link step when there is anything to link or
        to wait for. */
    method WriteBuildPhase(spec: Spec, config: Config, extraSources: seq<string>) returns (res: Result<Option<Target>, PyError>)
      requires ReadyOutputs(targetOutputs) && isStandaloneStaticLibrary == spec.standaloneStaticLibrary
      modifies this`target, this`buildEdges
      ensures unchanged(this`configName, this`name, this`toolset)
      ensures var b := BuildPhase(Env(), Tools(), spec, config, vars, targetOutputs, old(target), extraSources);
              if b.Ok? then res == Ok(b.value.0) && buildEdges == old(buildEdges) + b.value.1 &&
                            (b.value.0.Some? ==> target == b.value.0.value)
              else res == Err(b.error)
    {
      var stamp, actionsDepends := target.actionsStamp, target.preactionStamp;
      ghost var before := buildEdges;
      var linkDeps := WriteCompilePhase(config, Or(stamp, target.precompileStamp), spec.sources + extraSources);
      if linkDeps.Err? {
        return Err(linkDeps.error);
      }
      if linkDeps.value == [] && !Truthy(stamp) && !Truthy(actionsDepends) {
        return Ok(None);
      }
      ghost var compiled := buildEdges;
      var output := WriteTarget(spec, config, linkDeps.value, Or(stamp, actionsDepends));
      if output.Err? {
        return Err(output.error);
      }
      ConcatAssoc(before, compiled[|before|..], buildEdges[|compiled|..]);
      if !Truthy(output.value) {
        return Ok(None);
      }
      return Ok(Some(target));
    }
  }

  /** `[x for x in xs if x not in seen and not seen.add(x)]`. */
  method Uniquer(xs: seq<string>) returns (r: seq<string>)
    ensures r == Dedup(xs)
  {
    var seen: set<string> := {};
    r := [];
    for j := 0 to |xs|
      invariant r == Dedup(xs[..j])
      invariant forall x :: x in seen <==> x in xs[..j]
    {
      var x := xs[j];
      assert xs[..j + 1] == xs[..j] + [x];
      DedupSnoc(xs[..j], x);
      if x !in seen {
        r := r + [x];
        seen := seen + {x};
      }
    }
    assert xs[..|xs|] == xs;
  }
}
