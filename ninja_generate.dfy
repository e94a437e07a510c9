/** The per-configuration loop of the Ninja generator
    (`GenerateOutputForConfig`): one writer per target, in the order of the
    target list, each seeing the targets written before it; then the
    short-name and `all` phony edges and the default target of the master
    build file. */
module NinjaGenerate {
  import opened Wrappers
  import opened GypPaths
  import opened NinjaTarget
  import opened NinjaToolchain
  import opened NinjaSpec
  import opened NinjaPaths
  import opened NinjaPlan
  import opened NinjaSpecPlan
  import opened NinjaWriterClass

  /** One entry of the target list: the qualified name and what
      `ParseQualifiedTarget` makes of it (the .gyp file, already relative to
      the top-level directory, the short name and the toolset), the target
      dictionary, and the `make_global_settings` of its .gyp file. */
  datatype Entry = Entry(
    qualified: string,
    buildFile: string,
    name: string,
    toolset: string,
    spec: Spec,
    globalSettings: seq<string>)

  /** What the loop reads besides the target list: the build directory, the
      configuration, the targets of the build files named on the command
      line, the two toolchains, the md5 digest and the product variables. */
  datatype Params = Params(
    buildDir: string,
    configName: string,
    allTargets: set<string>,
    targetTools: seq<Tool>,
    hostTools: seq<Tool>,
    digest: string -> string,
    vars: ProductVars)

  /** The `.ninja` file of one target: its path and what its writer wrote. */
  datatype NinjaFile = NinjaFile(path: string, rules: seq<RuleDecl>, edges: seq<Edge>)

  /** The loop's collections: `target_outputs`, `target_short_names`,
      `all_outputs` and `default_project`; and, for each entry so far, the
      target `WriteSpec` returned and the file its writer filled (the
      master file has one `subninja` line per file). */
  datatype Generated = Generated(
    outputs: map<string, Target>,
    shortNames: map<string, seq<Target>>,
    allOutputs: set<string>,
    defaultProject: Option<string>,
    targets: seq<Option<Target>>,
    files: seq<NinjaFile>)

  const Initial := Generated(map[], map[], {}, None, [], [])

  /** `obj`, or `obj.<toolset>` for a toolset other than `target`: a
      single relative segment starting with `obj`. */
  function ObjDirOf(toolset: string): (r: string)
    ensures StartsWith(r, "obj") && Relative(r)
    ensures r == "obj" <==> toolset == "target"
  {
    var r := if toolset != "target" then "obj." + toolset else "obj";
    assert r[..3] == "obj" && r[0] == 'o';
    r
  }

  /** Two toolsets never share an object directory. */
  lemma ObjDirSeparatesToolsets(t1: string, t2: string)
    requires t1 != t2
    ensures ObjDirOf(t1) != ObjDirOf(t2)
  {
    if t1 != "target" && t2 != "target" {
      assert ObjDirOf(t1)[4..] == t1 && ObjDirOf(t2)[4..] == t2;
    }
  }

  /** The directory of the entry's .gyp file: its segments and those of the
      file name make up the path's segments. */
  function BasePath(e: Entry): (r: string)
    ensures Segs(e.buildFile) == Segs(r) + Segs(PathSplit(e.buildFile).1)
    ensures Relative(e.buildFile) ==> Relative(r)
  {
    PathSplitSegs(e.buildFile);
    PathSplit(e.buildFile).0
  }

  /** `os.path.join(obj, base_path, name + '.ninja')`: for a relative .gyp
      file and target name, the object directory, then the .gyp file's
      directory, then the `.ninja` file. */
  function NinjaFileName(e: Entry): (r: string)
    ensures Relative(e.buildFile) && Relative(e.name + ".ninja") ==>
              Relative(r) && Segs(r) == Segs(ObjDirOf(e.toolset)) + Segs(BasePath(e)) + Segs(e.name + ".ninja")
  {
    var o, b, n := ObjDirOf(e.toolset), BasePath(e), e.name + ".ninja";
    assert [o, b, n][..2] == [o, b] && [o, b][..1] == [o];
    assert JoinAll([o, b, n]) == Join(Join(o, b), n) by {
      assert JoinAll([o]) == o;
    }
    if Relative(e.buildFile) && Relative(n) then
      SegsJoin(o, b);
      SegsJoin(Join(o, b), n);
      JoinAll([o, b, n])
    else JoinAll([o, b, n])
  }

  /** The short name a target is built by: its name, with `.<toolset>` for a
      toolset other than `target`. */
  function ShortName(e: Entry): (r: string)
    ensures e.toolset == "target" ==> r == e.name
    ensures e.toolset != "target" ==> r == e.name + "." + e.toolset
  {
    if e.toolset != "target" then e.name + "." + e.toolset else e.name
  }

  /** The same name under two toolsets gives two short names. */
  lemma ShortNameSeparatesToolsets(e1: Entry, e2: Entry)
    requires e1.name == e2.name && e1.toolset != e2.toolset
    ensures ShortName(e1) != ShortName(e2)
  {
    if e1.toolset != "target" && e2.toolset != "target" {
      var n := |e1.name| + 1;
      assert ShortName(e1)[n..] == e1.toolset && ShortName(e2)[n..] == e2.toolset;
    } else if e1.toolset != "target" {
      assert |ShortName(e1)| > |ShortName(e2)|;
    } else {
      assert |ShortName(e2)| > |ShortName(e1)|;
    }
  }

  /** The `default_project` check: the first target asking to be the default
      project sets it, later ones must have the same name. */
  function DefaultProjectStep(current: Option<string>, e: Entry): (r: Result<Option<string>, PyError>)
    ensures !e.spec.defaultProject ==> r == Ok(current)
    ensures e.spec.defaultProject && (current.None? || current == Some(e.name)) ==> r == Ok(Some(e.name))
    ensures e.spec.defaultProject && current.Some? && current != Some(e.name) ==> r.Err?
  {
    if !e.spec.defaultProject then Ok(current)
    else if current.None? || current == Some(e.name) then Ok(Some(e.name))
    else Err(GenericError("More than one default_project specified.First in " + current.value + " and now in " + e.name))
  }

  /** The context a target's writer is made with. */
  function CtxFor(p: Params, g: Generated, e: Entry): WriterCtx
  {
    WriterCtx(p.targetTools, p.hostTools, p.digest(e.qualified), p.digest, p.vars, g.outputs)
  }

  /** One pass of the loop, with `settings` the `make_global_settings` of
      the first target's .gyp file. The settings check and the
      `default_project` check come first; then the writer is made for the
      target's directory (which must be free of "..") and `WriteSpec` runs
      against the targets written so far. */
  function GenerateStep(p: Params, settings: seq<string>, g: Generated, e: Entry): (r: Result<Generated, PyError>)
    requires ReadyOutputs(g.outputs)
    ensures r.Ok? ==> ReadyOutputs(r.value.outputs)
    ensures e.globalSettings != settings ==> r.Err?
  {
    if e.globalSettings != settings then
      Err(AssertionError("make_global_settings needs to be the same for all targets."))
    else
      var dp :- DefaultProjectStep(g.defaultProject, e);
      var base :- WriterEnv(BasePath(e), p.buildDir, true);
      var out :- SpecPlan(base, CtxFor(p, g, e), p.configName, e.spec);
      SpecPlanHasOutput(base, CtxFor(p, g, e), p.configName, e.spec);
      Ok(Apply(p, g, e, dp, out))
  }

  /** The target `WriteSpec` returns, if any, is ready for its dependents. */
  lemma SpecPlanHasOutput(base: PathEnv, ctx: WriterCtx, configName: string, spec: Spec)
    requires ReadyOutputs(ctx.outs) && SpecPlan(base, ctx, configName, spec).Ok?
    ensures var t := SpecPlan(base, ctx, configName, spec).value.target;
            t.Some? ==> Ready(t.value)
  {
    if SpecPlan(base, ctx, configName, spec).value.target.Some? {
      SpecPlanReady(base, ctx, configName, spec);
    }
  }

  /** The collections after one entry whose writer returned `out`, with
      `dp` the default project so far. A returned target is listed under
      its short name unless its final output has that name, recorded in
      `target_outputs`, and its final output added to `all_outputs` when it
      is one of the command line's targets. */
  function Apply(p: Params, g: Generated, e: Entry, dp: Option<string>, out: SpecOut): (r: Generated)
    requires out.target.Some? ==> Ready(out.target.value)
    ensures ReadyOutputs(g.outputs) ==> ReadyOutputs(r.outputs)
  {
    var t := out.target;
    Generated(
      if t.Some? then g.outputs[e.qualified := t.value] else g.outputs,
      if t.Some? && Some(e.name) != t.value.FinalOutput() then g.shortNames[ShortName(e) := Listed(g.shortNames, ShortName(e)) + [t.value]]
      else g.shortNames,
      if t.Some? && e.qualified in p.allTargets then g.allOutputs + {t.value.FinalOutput().value} else g.allOutputs,
      dp,
      g.targets + [t],
      g.files + [NinjaFile(NinjaFileName(e), out.rules, out.edges)])
  }

  /** `target_short_names.setdefault(name, [])`. */
  function Listed(shortNames: map<string, seq<Target>>, name: string): seq<Target>
  {
    if name in shortNames then shortNames[name] else []
  }

  /** The loop over the rest of the target list, from the collections `g`.
      It gets through only when every remaining entry has the reference
      settings. */
  function GenerateFrom(p: Params, settings: seq<string>, g: Generated, entries: seq<Entry>): (r: Result<Generated, PyError>)
    requires ReadyOutputs(g.outputs)
    ensures r.Ok? ==> ReadyOutputs(r.value.outputs)
    decreases |entries|
  {
    if entries == [] then Ok(g)
    else
      var g' :- GenerateStep(p, settings, g, entries[0]);
      GenerateFrom(p, settings, g', entries[1..])
  }

  /** The loop gets through only when every remaining entry has the
      reference settings. */
  lemma {:induction false} GenerateFromSettings(p: Params, settings: seq<string>, g: Generated, entries: seq<Entry>)
    requires ReadyOutputs(g.outputs) && GenerateFrom(p, settings, g, entries).Ok?
    ensures forall i :: 0 <= i < |entries| ==> entries[i].globalSettings == settings
    decreases |entries|
  {
    if entries != [] {
      var step := GenerateStep(p, settings, g, entries[0]);
      assert step.Ok?;
      assert entries[0].globalSettings == settings;
      GenerateFromSettings(p, settings, step.value, entries[1..]);
      forall i | 0 <= i < |entries| ensures entries[i].globalSettings == settings {
        if i > 0 {
          assert entries[i] == entries[1..][i - 1];
        }
      }
    }
  }

  /** The message of Python's `IndexError` for `target_list[0]` on an empty
      list. */
  const EmptyListIndex := "list index out of range"

  /** `GenerateOutputForConfig`, up to the phony edges. The first target's
      .gyp file gives the `make_global_settings` the others must share; an
      empty target list has no first target. */
  function GeneratePlan(p: Params, entries: seq<Entry>): (r: Result<Generated, PyError>)
    ensures entries == [] ==> r == Err(IndexError(EmptyListIndex))
    ensures r.Ok? ==> entries != [] && forall i :: 0 <= i < |entries| ==> entries[i].globalSettings == entries[0].globalSettings
  {
    if entries == [] then Err(IndexError(EmptyListIndex))
    else
      var r := GenerateFrom(p, entries[0].globalSettings, Initial, entries);
      if r.Ok? then GenerateFromSettings(p, entries[0].globalSettings, Initial, entries); r else r
  }

  // ---------------------------------------------------------------------
  // The master file's closing statements

  /** The phony edge of each short name, to the final outputs of the targets
      listed under it, in the order they were written: one edge per short
      name, with one input per target listed. */
  function ShortNameEdges(g: Generated): (r: map<string, seq<Option<string>>>)
    ensures forall k :: k in r <==> k in g.shortNames
    ensures forall k :: k in r ==>
              (|r[k]| == |g.shortNames[k]| && forall i :: 0 <= i < |r[k]| ==> r[k][i] == g.shortNames[k][i].FinalOutput())
  {
    map k | k in g.shortNames :: FinalOutputs(g.shortNames[k])
  }

  /** The final output of each target, in order. */
  function FinalOutputs(ts: seq<Target>): (r: seq<Option<string>>)
    ensures |r| == |ts| && forall i :: 0 <= i < |ts| ==> r[i] == ts[i].FinalOutput()
  {
    seq(|ts|, i requires 0 <= i < |ts| => ts[i].FinalOutput())
  }

  /** The `all` phony edge, present when some command-line target has an
      output, and the default target: the default project if there is one,
      else `all`. */
  function AllEdge(g: Generated): (r: Option<set<string>>)
    ensures r.Some? <==> g.allOutputs != {}
    ensures r.Some? ==> r.value == g.allOutputs
  {
    if g.allOutputs != {} then Some(g.allOutputs) else None
  }

  function DefaultTarget(g: Generated): (r: Option<string>)
    ensures r.Some? <==> g.allOutputs != {}
    ensures r.Some? ==> r.value == if g.defaultProject.Some? then g.defaultProject.value else "all"
  {
    if g.allOutputs == {} then None
    else if g.defaultProject.Some? then g.defaultProject
    else Some("all")
  }

  // ---------------------------------------------------------------------
  // What the loop keeps

  /** The records of the targets written so far, one per entry in `done`,
      and the collections built from them. */
  ghost predicate Consistent(p: Params, done: seq<Entry>, g: Generated)
  {
    && |g.targets| == |done| && |g.files| == |done|
    && (forall i :: 0 <= i < |done| ==> g.files[i].path == NinjaFileName(done[i]))
    && OutputsOf(done, g)
    && AllOutputsOf(p, done, g)
    && DefaultOf(done, g)
    && ShortNamesOf(done, g)
  }

  /** Entry `i` is listed under its short name: it returned a target whose
      final output is not the target's own name. */
  predicate ListedAt(done: seq<Entry>, targets: seq<Option<Target>>, i: nat, k: string)
    requires |targets| == |done| && i < |done|
  {
    targets[i].Some? && ShortName(done[i]) == k && Some(done[i].name) != targets[i].value.FinalOutput()
  }

  /** The targets the entries in `done` list under short name `k`, in the
      order they were written. */
  function ShortListed(done: seq<Entry>, targets: seq<Option<Target>>, k: string): seq<Target>
    requires |targets| == |done|
  {
    if done == [] then []
    else
      var n := |done| - 1;
      ShortListed(done[..n], targets[..n], k) + (if ListedAt(done, targets, n, k) then [targets[n].value] else [])
  }

  /** `target_short_names` maps exactly the short names some entry is
      listed under, each to the targets listed under it in write order. */
  ghost predicate ShortNamesOf(done: seq<Entry>, g: Generated)
    requires |g.targets| == |done|
  {
    && (forall k :: k in g.shortNames <==> ShortListed(done, g.targets, k) != [])
    && (forall k :: Listed(g.shortNames, k) == ShortListed(done, g.targets, k))
  }

  /** A target is listed under `k` exactly when some entry listed under `k`
      returned it. */
  lemma {:induction false} ShortListedMembers(done: seq<Entry>, targets: seq<Option<Target>>, k: string)
    requires |targets| == |done|
    ensures forall t :: t in ShortListed(done, targets, k) <==>
              exists i :: 0 <= i < |done| && ListedAt(done, targets, i, k) && targets[i] == Some(t)
    ensures ShortListed(done, targets, k) != [] <==> exists i :: 0 <= i < |done| && ListedAt(done, targets, i, k)
  {
    if done != [] {
      var n := |done| - 1;
      ShortListedMembers(done[..n], targets[..n], k);
      forall i | 0 <= i < n
        ensures ListedAt(done[..n], targets[..n], i, k) == ListedAt(done, targets, i, k)
        ensures targets[..n][i] == targets[i]
      {
      }
    }
  }

  /** `target_outputs` holds exactly the qualified names of the entries that
      returned a target. */
  ghost predicate OutputsOf(done: seq<Entry>, g: Generated)
    requires |g.targets| == |done|
  {
    forall q :: q in g.outputs <==> exists i :: 0 <= i < |done| && done[i].qualified == q && g.targets[i].Some?
  }

  /** `all_outputs` holds exactly the final outputs of the targets returned
      for the command line's targets. */
  ghost predicate AllOutputsOf(p: Params, done: seq<Entry>, g: Generated)
    requires |g.targets| == |done|
  {
    forall o :: o in g.allOutputs <==>
      exists i :: 0 <= i < |done| && g.targets[i].Some? && done[i].qualified in p.allTargets &&
                  g.targets[i].value.FinalOutput() == Some(o)
  }

  /** The default project is set exactly when some entry asks for it, and
      then every entry that asks has its name. */
  ghost predicate DefaultOf(done: seq<Entry>, g: Generated)
  {
    && (g.defaultProject.None? <==> forall i :: 0 <= i < |done| ==> !done[i].spec.defaultProject)
    && (g.defaultProject.Some? ==> forall i :: 0 <= i < |done| && done[i].spec.defaultProject ==> done[i].name == g.defaultProject.value)
  }

  lemma InitialConsistent(p: Params)
    ensures Consistent(p, [], Initial)
  {
    forall k ensures ShortListed([], [], k) == [] {}
  }

  /** Applying an entry keeps `ShortNamesOf`: a target listed under its
      short name is appended to that name's list. */
  lemma ShortNamesKept(p: Params, done: seq<Entry>, g: Generated, e: Entry, dp: Option<string>, out: SpecOut)
    requires |g.targets| == |done| && ShortNamesOf(done, g)
    requires out.target.Some? ==> Ready(out.target.value)
    ensures var r := Apply(p, g, e, dp, out);
            |r.targets| == |done + [e]| && ShortNamesOf(done + [e], r)
  {
    var r := Apply(p, g, e, dp, out);
    var d := done + [e];
    assert d[..|done|] == done && r.targets[..|done|] == g.targets;
    forall k
      ensures ShortListed(d, r.targets, k) ==
                ShortListed(done, g.targets, k) + (if ListedAt(d, r.targets, |done|, k) then [out.target.value] else [])
    {
    }
  }

  /** The default-project check keeps `DefaultOf`. */
  lemma DefaultKept(done: seq<Entry>, g: Generated, e: Entry, r: Generated)
    requires DefaultOf(done, g) && DefaultProjectStep(g.defaultProject, e) == Ok(r.defaultProject)
    ensures DefaultOf(done + [e], r)
  {
    var d := done + [e];
    assert forall i :: 0 <= i < |done| ==> d[i] == done[i];
    assert d[|done|] == e;
  }

  /** Applying an entry keeps `OutputsOf` and `AllOutputsOf`. */
  lemma OutputsKept(p: Params, done: seq<Entry>, g: Generated, e: Entry, dp: Option<string>, out: SpecOut)
    requires |g.targets| == |done| && OutputsOf(done, g) && AllOutputsOf(p, done, g)
    requires out.target.Some? ==> Ready(out.target.value)
    ensures var r := Apply(p, g, e, dp, out);
            |r.targets| == |done + [e]| && OutputsOf(done + [e], r) && AllOutputsOf(p, done + [e], r)
  {
    var r := Apply(p, g, e, dp, out);
    var d := done + [e];
    assert forall i :: 0 <= i < |done| ==> d[i] == done[i] && r.targets[i] == g.targets[i];
    assert d[|done|] == e && r.targets[|done|] == out.target;
    AllOutputsKept(p, done, g, e, dp, out);
  }

  /** Applying an entry keeps `AllOutputsOf`. */
  lemma AllOutputsKept(p: Params, done: seq<Entry>, g: Generated, e: Entry, dp: Option<string>, out: SpecOut)
    requires |g.targets| == |done| && AllOutputsOf(p, done, g)
    requires out.target.Some? ==> Ready(out.target.value)
    ensures var r := Apply(p, g, e, dp, out);
            |r.targets| == |done + [e]| && AllOutputsOf(p, done + [e], r)
  {
    var r := Apply(p, g, e, dp, out);
    var d := done + [e];
    assert forall i :: 0 <= i < |done| ==> d[i] == done[i] && r.targets[i] == g.targets[i];
    assert d[|done|] == e && r.targets[|done|] == out.target;
  }

  /** Applying an entry adds its file after the others. */
  lemma FilesKept(p: Params, done: seq<Entry>, g: Generated, e: Entry, dp: Option<string>, out: SpecOut)
    requires |g.files| == |done| && forall i :: 0 <= i < |done| ==> g.files[i].path == NinjaFileName(done[i])
    requires out.target.Some? ==> Ready(out.target.value)
    ensures var d, r := done + [e], Apply(p, g, e, dp, out);
            |r.files| == |d| && forall i :: 0 <= i < |d| ==> r.files[i].path == NinjaFileName(d[i])
  {
    var d, r := done + [e], Apply(p, g, e, dp, out);
    assert forall i :: 0 <= i < |done| ==> d[i] == done[i] && r.files[i] == g.files[i];
    assert d[|done|] == e;
  }

  /** Applying one entry keeps `Consistent`. */
  lemma ApplyConsistent(p: Params, done: seq<Entry>, g: Generated, e: Entry, dp: Option<string>, out: SpecOut)
    requires Consistent(p, done, g) && DefaultProjectStep(g.defaultProject, e) == Ok(dp)
    requires out.target.Some? ==> Ready(out.target.value)
    ensures Consistent(p, done + [e], Apply(p, g, e, dp, out))
  {
    DefaultKept(done, g, e, Apply(p, g, e, dp, out));
    OutputsKept(p, done, g, e, dp, out);
    ShortNamesKept(p, done, g, e, dp, out);
    FilesKept(p, done, g, e, dp, out);
  }

  /** A pass that succeeds applies what `WriteSpec` returned. */
  lemma StepIsApply(p: Params, settings: seq<string>, g: Generated, e: Entry) returns (dp: Option<string>, out: SpecOut)
    requires ReadyOutputs(g.outputs) && GenerateStep(p, settings, g, e).Ok?
    ensures DefaultProjectStep(g.defaultProject, e) == Ok(dp)
    ensures out.target.Some? ==> Ready(out.target.value)
    ensures GenerateStep(p, settings, g, e) == Ok(Apply(p, g, e, dp, out))
  {
    dp := DefaultProjectStep(g.defaultProject, e).value;
    var base := WriterEnv(BasePath(e), p.buildDir, true).value;
    out := SpecPlan(base, CtxFor(p, g, e), p.configName, e.spec).value;
    SpecPlanHasOutput(base, CtxFor(p, g, e), p.configName, e.spec);
  }

  /** One pass of the loop keeps `Consistent`. */
  lemma StepConsistent(p: Params, settings: seq<string>, done: seq<Entry>, g: Generated, e: Entry)
    requires ReadyOutputs(g.outputs) && Consistent(p, done, g) && GenerateStep(p, settings, g, e).Ok?
    ensures Consistent(p, done + [e], GenerateStep(p, settings, g, e).value)
  {
    var dp, out := StepIsApply(p, settings, g, e);
    ApplyConsistent(p, done, g, e, dp, out);
  }


  /** The rest of the loop keeps `Consistent`. */
  lemma {:induction false} GenerateFromConsistent(p: Params, settings: seq<string>, all: seq<Entry>, k: nat, g: Generated)
    requires k <= |all| && ReadyOutputs(g.outputs) && Consistent(p, all[..k], g) && GenerateFrom(p, settings, g, all[k..]).Ok?
    ensures Consistent(p, all, GenerateFrom(p, settings, g, all[k..]).value)
    decreases |all| - k
  {
    if k == |all| {
      assert all[..k] == all && all[k..] == [];
    } else {
      var e := all[k];
      var g' := GenerateStep(p, settings, g, e).value;
      Slices(all, k);
      StepConsistent(p, settings, all[..k], g, e);
      GenerateFromConsistent(p, settings, all, k + 1, g');
    }
  }

  /** What the whole loop promises: one file per entry at the path its
      toolset and .gyp directory give; `target_outputs` names exactly the
      entries that returned a target; `all_outputs` is exactly the final
      outputs of the command line's targets; and at most one name is the
      default project, set exactly when some target asks for it. */
  lemma GeneratePlanConsistent(p: Params, entries: seq<Entry>)
    requires GeneratePlan(p, entries).Ok?
    ensures Consistent(p, entries, GeneratePlan(p, entries).value)
  {
    InitialConsistent(p);
    assert entries[..0] == [] && entries[0..] == entries;
    GenerateFromConsistent(p, entries[0].globalSettings, entries, 0, Initial);
  }

  /** The short-name phony edges of the whole loop: there is an edge named
      `k` exactly when some entry listed under `k` returned a target, and its
      inputs are the final outputs of those targets, in write order. */
  lemma GeneratePlanShortNames(p: Params, entries: seq<Entry>, k: string)
    requires GeneratePlan(p, entries).Ok?
    ensures var g := GeneratePlan(p, entries).value;
            |g.targets| == |entries| &&
            (k in ShortNameEdges(g) <==> exists i :: 0 <= i < |entries| && ListedAt(entries, g.targets, i, k)) &&
            (k in ShortNameEdges(g) ==> ShortNameEdges(g)[k] == FinalOutputs(ShortListed(entries, g.targets, k)))
  {
    var g := GeneratePlan(p, entries).value;
    GeneratePlanConsistent(p, entries);
    ShortListedMembers(entries, g.targets, k);
  }

  /** Two targets that ask to be the default project under different names
      stop the loop with an error. */
  lemma TwoDefaultProjectsFail(p: Params, entries: seq<Entry>, i: nat, j: nat)
    requires i < |entries| && j < |entries|
    requires entries[i].spec.defaultProject && entries[j].spec.defaultProject && entries[i].name != entries[j].name
    ensures GeneratePlan(p, entries).Err?
  {
    if GeneratePlan(p, entries).Ok? {
      GeneratePlanDefault(p, entries);
    }
  }

  /** After the loop the default project is the agreed name of the targets
      asking for it. */
  lemma GeneratePlanDefault(p: Params, entries: seq<Entry>)
    requires GeneratePlan(p, entries).Ok?
    ensures DefaultOf(entries, GeneratePlan(p, entries).value)
  {
    GeneratePlanConsistent(p, entries);
  }

  // ---------------------------------------------------------------------
  // The loop

  /** `GenerateOutputForConfig`'s loop over the target list: each target's
      writer is made with the targets written before it and writes its
      file; the collections are updated from what `WriteSpec` returns. */
  method GenerateOutputForConfig(p: Params, entries: seq<Entry>) returns (res: Result<Generated, PyError>)
    ensures res == GeneratePlan(p, entries)
  {
    if |entries| == 0 {
      return Err(IndexError(EmptyListIndex));
    }
    var settings := entries[0].globalSettings;
    var g := Initial;
    for i := 0 to |entries|
      invariant ReadyOutputs(g.outputs)
      invariant GeneratePlan(p, entries) == GenerateFrom(p, settings, g, entries[i..])
    {
      var e := entries[i];
      assert entries[i..][0] == e && entries[i..][1..] == entries[i + 1..];
      var next := GenerateTarget(p, settings, g, e);
      if next.Err? {
        return Err(next.error);
      }
      g := next.value;
    }
    assert entries[|entries|..] == [];
    return Ok(g);
  }

  /** One pass of the loop. */
  method GenerateTarget(p: Params, settings: seq<string>, g: Generated, e: Entry) returns (res: Result<Generated, PyError>)
    requires ReadyOutputs(g.outputs)
    ensures res == GenerateStep(p, settings, g, e)
  {
    if e.globalSettings != settings {
      return Err(AssertionError("make_global_settings needs to be the same for all targets."));
    }
    var defaultProject := CheckDefaultProject(g.defaultProject, e);
    if defaultProject.Err? {
      return Err(defaultProject.error);
    }
    if WriterEnv(BasePath(e), p.buildDir, true).Err? {
      return Err(WriterEnv(BasePath(e), p.buildDir, true).error);
    }
    var out := RunWriter(p, g, e);
    if out.Err? {
      return Err(out.error);
    }
    SpecPlanHasOutput(WriterEnv(BasePath(e), p.buildDir, true).value, CtxFor(p, g, e), p.configName, e.spec);
    var r := RecordTarget(p, g, e, defaultProject.value, out.value);
    GenerateStepOk(p, settings, g, e, defaultProject.value, out.value);
    return Ok(r);
  }

  /** A pass whose checks and writer all succeed records the writer's
      output. */
  lemma GenerateStepOk(p: Params, settings: seq<string>, g: Generated, e: Entry, dp: Option<string>, out: SpecOut)
    requires ReadyOutputs(g.outputs) && e.globalSettings == settings
    requires DefaultProjectStep(g.defaultProject, e) == Ok(dp)
    requires WriterEnv(BasePath(e), p.buildDir, true).Ok?
    requires SpecPlan(WriterEnv(BasePath(e), p.buildDir, true).value, CtxFor(p, g, e), p.configName, e.spec) == Ok(out)
    requires out.target.Some? ==> Ready(out.target.value)
    ensures GenerateStep(p, settings, g, e) == Ok(Apply(p, g, e, dp, out))
  {
  }

  /** The `default_project` check of one entry. */
  method CheckDefaultProject(current: Option<string>, e: Entry) returns (res: Result<Option<string>, PyError>)
    ensures res == DefaultProjectStep(current, e)
  {
    var defaultProject := current;
    if e.spec.defaultProject {
      if defaultProject.None? || defaultProject == Some(e.name) {
        defaultProject := Some(e.name);
      } else {
        return Err(GenericError("More than one default_project specified.First in " + defaultProject.value +
                                " and now in " + e.name));
      }
    }
    return Ok(defaultProject);
  }

  /** Makes one target's writer and runs `WriteSpec`; the file's rules and
      edges are what the writer holds afterwards. */
  method RunWriter(p: Params, g: Generated, e: Entry) returns (res: Result<SpecOut, PyError>)
    requires ReadyOutputs(g.outputs) && DirsBetween(BasePath(e), p.buildDir).Ok?
    ensures res == SpecPlan(WriterEnv(BasePath(e), p.buildDir, true).value, CtxFor(p, g, e), p.configName, e.spec)
  {
    var writer := new NinjaWriter(e.qualified, g.outputs, BasePath(e), p.buildDir, true,
                                  p.targetTools, p.hostTools, p.digest, p.vars);
    ghost var plan := SpecPlan(writer.Env(), writer.Ctx(), p.configName, e.spec);
    var target := writer.WriteSpec(e.spec, p.configName);
    if plan.Ok? {
      assert writer.ruleStatements == plan.value.rules && writer.buildEdges == plan.value.edges;
    }
    res := if target.Err? then Err(target.error) else Ok(SpecOut(target.value, writer.ruleStatements, writer.buildEdges));
  }

  /** Records what one target's writer returned in the collections. */
  method RecordTarget(p: Params, g: Generated, e: Entry, dp: Option<string>, out: SpecOut) returns (r: Generated)
    requires out.target.Some? ==> Ready(out.target.value)
    ensures r == Apply(p, g, e, dp, out)
  {
    var outputFile := JoinAll([ObjDirOf(e.toolset), PathSplit(e.buildFile).0, e.name + ".ninja"]);
    r := g.(defaultProject := dp, targets := g.targets + [out.target],
            files := g.files + [NinjaFile(outputFile, out.rules, out.edges)]);
    if out.target.None? {
      return;
    }
    var t := out.target.value;
    var shortNames := r.shortNames;
    if Some(e.name) != t.FinalOutput() {
      var outName := e.name;
      if e.toolset != "target" {
        outName := outName + "." + e.toolset;
      }
      shortNames := shortNames[outName := Listed(shortNames, outName) + [t]];
    }
    var allOutputs := r.allOutputs;
    if e.qualified in p.allTargets {
      allOutputs := allOutputs + {t.FinalOutput().value};
    }
    r := r.(outputs := r.outputs[e.qualified := t], shortNames := shortNames, allOutputs := allOutputs);
  }
}
