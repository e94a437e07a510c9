/** The two path namespaces of the Ninja generator. Gyp paths are relative to
    the directory of the .gyp file (the base directory); Ninja paths are
    relative to the build directory, where Ninja runs. The functions here read
    the writer's fields but only compute strings, so they take those fields
    as a `PathEnv` value. */
module NinjaPaths {
  import opened Wrappers
  import opened GypPaths
  import opened NinjaTarget
  import opened NinjaSpec

  const ProductDirVar := "$!PRODUCT_DIR"
  const IntermediateDirVar := "$!INTERMEDIATE_DIR"
  const ConfigurationNameVar := "$|CONFIGURATION_NAME"

  /** The writer fields the path functions read. */
  datatype PathEnv = PathEnv(
    baseDir: string,
    buildDir: string,
    buildToBase: string,
    baseToBuild: string,
    caseSensitive: bool,
    configName: string,
    name: string,
    toolset: string)

  /** A directory the generator can invert: empty, or a relative path into
      sub-directories with no "..". */
  predicate Invertible(d: string)
  {
    d == "" || (Clean(d) && !Contains(d, ".."))
  }

  /** The two paths the writer's constructor computes: from the build
      directory to the base directory and back. Either fails the assertion of
      `InvertRelativePath` when its directory contains "..". */
  function DirsBetween(baseDir: string, buildDir: string): (r: Result<(string, string), PyError>)
    ensures r.Ok? <==> InvertRelativePath(buildDir).Ok? && InvertRelativePath(baseDir).Ok?
    ensures r.Ok? ==> r.value.0 == Join(InvertRelativePath(buildDir).value, baseDir)
    ensures r.Ok? ==> r.value.1 == Join(InvertRelativePath(baseDir).value, buildDir)
  {
    var up :- InvertRelativePath(buildDir);
    var down :- InvertRelativePath(baseDir);
    Ok((Join(up, baseDir), Join(down, buildDir)))
  }

  /** A `PathEnv` whose relative paths are the ones the constructor computes. */
  predicate WellFormed(e: PathEnv)
  {
    DirsBetween(e.baseDir, e.buildDir) == Ok((e.buildToBase, e.baseToBuild))
  }

  /** The paths of a writer just made for a target in `baseDir`: its
      configuration, name and toolset are not set yet. */
  function WriterEnv(baseDir: string, buildDir: string, caseSensitive: bool): (r: Result<PathEnv, PyError>)
    ensures r.Ok? <==> DirsBetween(baseDir, buildDir).Ok?
    ensures r.Ok? ==> WellFormed(r.value) && r.value.baseDir == baseDir && r.value.buildDir == buildDir &&
                      r.value.caseSensitive == caseSensitive
  {
    var dirs :- DirsBetween(baseDir, buildDir);
    Ok(PathEnv(baseDir, buildDir, dirs.0, dirs.1, caseSensitive, "", "", ""))
  }

  lemma AllPlainConcat(a: seq<string>, b: seq<string>)
    requires AllPlain(a) && AllPlain(b)
    ensures AllPlain(a + b)
  {
    assert forall i :: 0 <= i < |a + b| ==> (a + b)[i] == if i < |a| then a[i] else b[i - |a|];
  }

  /** The inverse of an invertible directory is one ".." per segment. */
  lemma InvertSegs(d: string)
    requires Invertible(d)
    ensures InvertRelativePath(d).Ok?
    ensures Segs(InvertRelativePath(d).value) == Repeat("..", |Segs(d)|)
    ensures Relative(InvertRelativePath(d).value) && Relative(d) && AllPlain(Segs(d))
  {
    if d == "" {
      SegsEmpty();
    } else {
      CleanSegs(d);
      var inv := InvertRelativePath(d).value;
      NonEmptyAll(Repeat("..", |Split(d, '/')|));
      FirstAndLastPart(inv);
    }
  }

  /** From an invertible directory, its inverse followed by `x` leads to
      `x`. */
  lemma DownAndAcross(d: string, x: string)
    requires Invertible(d) && Invertible(x)
    ensures Normpath(Join(d, Join(InvertRelativePath(d).value, x))) == Render(Segs(x))
  {
    InvertSegs(d);
    InvertSegs(x);
    var up := InvertRelativePath(d).value;
    var y := Join(up, x);
    SegsJoin(up, x);
    JoinRelative(up, x);
    SegsJoin(d, y);
    JoinRelative(d, y);
    assert Segs(Join(d, y)) == Segs(d) + Repeat("..", |Segs(d)|) + Segs(x);
    NormpathCancel(Join(d, y), Segs(d), Segs(x));
  }

  /** From the build directory, `buildToBase` leads to the base directory,
      and from the base directory `baseToBuild` leads to the build
      directory. */
  lemma DirsBetweenRoundTrip(e: PathEnv)
    requires WellFormed(e) && Invertible(e.baseDir) && Invertible(e.buildDir)
    ensures Normpath(Join(e.buildDir, e.buildToBase)) == Render(Segs(e.baseDir))
    ensures Normpath(Join(e.baseDir, e.baseToBuild)) == Render(Segs(e.buildDir))
  {
    DownAndAcross(e.buildDir, e.baseDir);
    DownAndAcross(e.baseDir, e.buildDir);
  }

  // ---------------------------------------------------------------------
  // GypPathCaseCorrection

  /** `GypPathCaseCorrection(path)`: file names are lower-cased on a file
      system that ignores case, so that Ninja sees one spelling per file. */
  function CaseCorrection(e: PathEnv, path: string): (r: string)
    ensures |r| == |path|
    ensures e.caseSensitive ==> r == path
    ensures !e.caseSensitive ==> r == Lower(path) && forall i :: 0 <= i < |r| ==> !('A' <= r[i] <= 'Z')
  {
    if e.caseSensitive then path else Lower(path)
  }

  /** Correcting twice is correcting once; and on a case-insensitive file
      system two spellings of one name give the same path. */
  lemma CaseCorrectionIdempotent(e: PathEnv, a: string, b: string)
    ensures CaseCorrection(e, CaseCorrection(e, a)) == CaseCorrection(e, a)
    ensures !e.caseSensitive && Lower(a) == Lower(b) ==> CaseCorrection(e, a) == CaseCorrection(e, b)
  {
  }

  // ---------------------------------------------------------------------
  // ExpandSpecial

  /** `obj` for the target toolset, `obj.<toolset>` for the others. */
  function ObjDir(toolset: string): (r: string)
    ensures r == "obj" || r == "obj." + toolset
    ensures toolset == "target" <==> r == "obj"
  {
    if toolset == "target" then "obj" else "obj." + toolset
  }

  /** `GypPathToUniqueOutput` of a path whose specials are already expanded:
      `obj[.<toolset>]/<base_dir>/<dir>/[<name>.]<basename>`, normalised and
      case-corrected. */
  function UniqueOutputOfExpanded(e: PathEnv, path: string, qualified: bool): string
  {
    var (dir, basename) := PathSplit(path);
    var leaf := if qualified then e.name + "." + basename else basename;
    CaseCorrection(e, Normpath(Join(Join(Join(ObjDir(e.toolset), e.baseDir), dir), leaf)))
  }

  /** The `$!INTERMEDIATE_DIR` of the target: its unique output for `gen`. */
  function IntermediateDir(e: PathEnv): string
  {
    UniqueOutputOfExpanded(e, "gen", true)
  }

  /** The `$!PRODUCT_DIR` step of `ExpandSpecial`. */
  function ExpandProductDir(path: string, productDir: string): string
  {
    if !Contains(path, ProductDirVar) then path
    else if productDir != "" then Replace(path, ProductDirVar, productDir)
    else Replace(Replace(Replace(path, ProductDirVar + "/", ""), ProductDirVar + "\\", ""), ProductDirVar, ".")
  }

  /** `ExpandSpecial(path, product_dir)`: `$!PRODUCT_DIR` becomes the product
      directory (dropped with its separator when that is the current
      directory, the empty string standing for None), `$!INTERMEDIATE_DIR`
      the target's intermediate directory under it, and
      `$|CONFIGURATION_NAME` the configuration. */
  function ExpandSpecial(e: PathEnv, path: string, productDir: string): (r: string)
    ensures '$' !in path ==> r == path
  {
    var p1 := ExpandProductDir(path, productDir);
    var p2 := if Contains(p1, IntermediateDirVar) then Replace(p1, IntermediateDirVar, Join(productDir, IntermediateDir(e))) else p1;
    var r := Replace(p2, ConfigurationNameVar, e.configName);
    if '$' !in path then
      NotContainsFirstChar(path, ProductDirVar);
      NotContainsFirstChar(path, IntermediateDirVar);
      NotContainsFirstChar(path, ConfigurationNameVar);
      r
    else r
  }

  /** A path below `$!PRODUCT_DIR` becomes a path below the build directory
      when the product directory is the current one, and a path below the
      given product directory otherwise. */
  lemma ExpandSpecialProductDir(e: PathEnv, rest: string, productDir: string)
    requires '$' !in rest && '$' !in productDir
    ensures productDir == "" ==> ExpandSpecial(e, ProductDirVar + "/" + rest, productDir) == rest
    ensures productDir != "" ==> ExpandSpecial(e, ProductDirVar + "/" + rest, productDir) == productDir + "/" + rest
  {
    var path := ProductDirVar + "/" + rest;
    assert StartsWith(path, ProductDirVar);
    var p1 := ExpandProductDir(path, productDir);
    if productDir == "" {
      assert path == (ProductDirVar + "/") + rest;
      ReplaceAtFront(ProductDirVar + "/", rest, "");
      ReplaceMissing(rest, ProductDirVar + "/", "");
      assert Replace(path, ProductDirVar + "/", "") == rest;
      ReplaceMissing(rest, ProductDirVar + "\\", "");
      ReplaceMissing(rest, ProductDirVar, ".");
      assert p1 == rest;
    } else {
      assert path == ProductDirVar + ("/" + rest);
      ReplaceAtFront(ProductDirVar, "/" + rest, productDir);
      ReplaceMissing("/" + rest, ProductDirVar, productDir);
      assert p1 == productDir + ("/" + rest);
    }
    assert '$' !in p1;
    ReplaceMissing(p1, IntermediateDirVar, "");
    ReplaceMissing(p1, ConfigurationNameVar, e.configName);
  }

  /** A string whose only '$' is its first character, and which does not
      start with the pattern, holds no occurrence of a '$'-led pattern. */
  lemma LeadingDollarSkipped(s: string, pat: string, rep: string)
    requires |s| > 0 && s[0] == '$' && '$' !in s[1..]
    requires |pat| > 0 && pat[0] == '$' && !StartsWith(s, pat)
    ensures !Contains(s, pat) && Replace(s, pat, rep) == s
  {
    ReplaceMissing(s[1..], pat, rep);
    assert [s[0]] + s[1..] == s;
  }

  /** `$|CONFIGURATION_NAME` followed by '$'-free text is a '$'-led string
      that starts with neither directory variable. */
  lemma ConfigurationNameVarLeads(rest: string)
    requires '$' !in rest
    ensures var path := ConfigurationNameVar + rest;
            path[0] == '$' && '$' !in path[1..] &&
            !StartsWith(path, ProductDirVar) && !StartsWith(path, IntermediateDirVar)
  {
    var path := ConfigurationNameVar + rest;
    assert path[1..] == ConfigurationNameVar[1..] + rest;
    assert path[1] == '|';
  }

  /** A leading `$|CONFIGURATION_NAME` becomes the configuration name;
      neither directory variable is touched. */
  lemma ExpandSpecialConfigurationName(e: PathEnv, rest: string, productDir: string)
    requires '$' !in rest
    ensures ExpandSpecial(e, ConfigurationNameVar + rest, productDir) == e.configName + rest
  {
    var path := ConfigurationNameVar + rest;
    ConfigurationNameVarLeads(rest);
    LeadingDollarSkipped(path, ProductDirVar, productDir);
    LeadingDollarSkipped(path, IntermediateDirVar, "");
    ReplaceAtFront(ConfigurationNameVar, rest, e.configName);
    ReplaceMissing(rest, ConfigurationNameVar, e.configName);
  }

  /** `$!INTERMEDIATE_DIR` followed by '$'-free text is a '$'-led string
      that starts with it and not with `$!PRODUCT_DIR`. */
  lemma IntermediateDirVarLeads(rest: string)
    requires '$' !in rest
    ensures var path := IntermediateDirVar + rest;
            path[0] == '$' && '$' !in path[1..] && StartsWith(path, IntermediateDirVar) && !StartsWith(path, ProductDirVar)
  {
    var path := IntermediateDirVar + rest;
    assert path[1..] == IntermediateDirVar[1..] + rest;
    assert path[2] == 'I';
  }

  /** A leading `$!INTERMEDIATE_DIR` becomes the target's intermediate
      directory joined under the product directory, after which the
      configuration name is replaced; with no '$' left, that is the
      joined directory itself. */
  lemma ExpandSpecialIntermediateDir(e: PathEnv, rest: string, productDir: string)
    requires '$' !in rest
    ensures var dir := Join(productDir, IntermediateDir(e));
            ExpandSpecial(e, IntermediateDirVar + rest, productDir) == Replace(dir + rest, ConfigurationNameVar, e.configName) &&
            ('$' !in dir ==> ExpandSpecial(e, IntermediateDirVar + rest, productDir) == dir + rest)
  {
    var dir := Join(productDir, IntermediateDir(e));
    var path := IntermediateDirVar + rest;
    IntermediateDirVarLeads(rest);
    LeadingDollarSkipped(path, ProductDirVar, productDir);
    ReplaceAtFront(IntermediateDirVar, rest, dir);
    ReplaceMissing(rest, IntermediateDirVar, dir);
    if '$' !in dir {
      ReplaceMissing(dir + rest, ConfigurationNameVar, e.configName);
    }
  }

  // ---------------------------------------------------------------------
  // ExpandRuleVariables

  /** `ExpandRuleVariables(path, root, dirname, source, ext, name)`: the
      per-source variables of a gyp rule, replaced in this order. */
  function ExpandRuleVariables(path: string, root: string, dirname: string, source: string,
                               ext: string, name: string): (r: string)
    ensures '$' !in path ==> r == path
    ensures '$' !in path + root + dirname + source + ext + name ==> '$' !in r
  {
    var p1 := Replace(path, "${root}", root);
    var p2 := Replace(p1, "${dirname}", dirname);
    var p3 := Replace(p2, "${source}", source);
    var p4 := Replace(p3, "${ext}", ext);
    var r := Replace(p4, "${name}", name);
    if '$' !in path + root + dirname + source + ext + name then
      assert '$' !in path && '$' !in root && '$' !in dirname && '$' !in source && '$' !in ext && '$' !in name;
      ReplaceKeepsCharOut(path, "${root}", root, '$');
      ReplaceKeepsCharOut(p1, "${dirname}", dirname, '$');
      ReplaceKeepsCharOut(p2, "${source}", source, '$');
      ReplaceKeepsCharOut(p3, "${ext}", ext, '$');
      ReplaceKeepsCharOut(p4, "${name}", name, '$');
      NotContainsFirstChar(path, "${root}");
      NotContainsFirstChar(path, "${dirname}");
      NotContainsFirstChar(path, "${source}");
      NotContainsFirstChar(path, "${ext}");
      NotContainsFirstChar(path, "${name}");
      r
    else if '$' !in path then
      NotContainsFirstChar(path, "${root}");
      NotContainsFirstChar(path, "${dirname}");
      NotContainsFirstChar(path, "${source}");
      NotContainsFirstChar(path, "${ext}");
      NotContainsFirstChar(path, "${name}");
      r
    else r
  }

  /** An output pattern made of the source's root and a fixed suffix
      expands to that root with the suffix. */
  lemma ExpandRuleVariablesRoot(rest: string, root: string, dirname: string, source: string,
                                ext: string, name: string)
    requires '$' !in rest + root + dirname + source + ext + name
    ensures ExpandRuleVariables("${root}" + rest, root, dirname, source, ext, name) == root + rest
  {
    assert '$' !in rest && '$' !in root && '$' !in dirname && '$' !in source && '$' !in ext && '$' !in name;
    ReplaceAtFront("${root}", rest, root);
    NotContainsFirstChar(rest, "${root}");
    var p1 := root + rest;
    assert '$' !in p1;
    NotContainsFirstChar(p1, "${dirname}");
    NotContainsFirstChar(p1, "${source}");
    NotContainsFirstChar(p1, "${ext}");
    NotContainsFirstChar(p1, "${name}");
  }

  /** A leading `${dirname}` becomes the source's directory. */
  lemma ExpandRuleVariablesDirname(rest: string, root: string, dirname: string, source: string,
                                   ext: string, name: string)
    requires '$' !in rest + root + dirname + source + ext + name
    ensures ExpandRuleVariables("${dirname}" + rest, root, dirname, source, ext, name) == dirname + rest
  {
    assert '$' !in rest && '$' !in dirname && '$' !in source && '$' !in ext && '$' !in name;
    var path := "${dirname}" + rest;
    assert path[0] == '$' && path[1..] == "{dirname}" + rest && path[2] == 'd';
    LeadingDollarSkipped(path, "${root}", root);
    ReplaceAtFront("${dirname}", rest, dirname);
    ReplaceMissing(rest, "${dirname}", dirname);
    var p := dirname + rest;
    assert '$' !in p;
    ReplaceMissing(p, "${source}", source);
    ReplaceMissing(p, "${ext}", ext);
    ReplaceMissing(p, "${name}", name);
  }

  /** A leading `${source}` becomes the source path. */
  lemma ExpandRuleVariablesSource(rest: string, root: string, dirname: string, source: string,
                                  ext: string, name: string)
    requires '$' !in rest + root + dirname + source + ext + name
    ensures ExpandRuleVariables("${source}" + rest, root, dirname, source, ext, name) == source + rest
  {
    assert '$' !in rest && '$' !in source && '$' !in ext && '$' !in name;
    var path := "${source}" + rest;
    assert path[0] == '$' && path[1..] == "{source}" + rest && path[2] == 's';
    LeadingDollarSkipped(path, "${root}", root);
    LeadingDollarSkipped(path, "${dirname}", dirname);
    ReplaceAtFront("${source}", rest, source);
    ReplaceMissing(rest, "${source}", source);
    var p := source + rest;
    assert '$' !in p;
    ReplaceMissing(p, "${ext}", ext);
    ReplaceMissing(p, "${name}", name);
  }

  /** A leading `${ext}` becomes the source's extension. */
  lemma ExpandRuleVariablesExt(rest: string, root: string, dirname: string, source: string,
                               ext: string, name: string)
    requires '$' !in rest + root + dirname + source + ext + name
    ensures ExpandRuleVariables("${ext}" + rest, root, dirname, source, ext, name) == ext + rest
  {
    assert '$' !in rest && '$' !in ext && '$' !in name;
    var path := "${ext}" + rest;
    assert path[0] == '$' && path[1..] == "{ext}" + rest && path[2] == 'e';
    LeadingDollarSkipped(path, "${root}", root);
    LeadingDollarSkipped(path, "${dirname}", dirname);
    LeadingDollarSkipped(path, "${source}", source);
    ReplaceAtFront("${ext}", rest, ext);
    ReplaceMissing(rest, "${ext}", ext);
    var p := ext + rest;
    assert '$' !in p;
    ReplaceMissing(p, "${name}", name);
  }

  /** A leading `${name}` becomes the source's file name. */
  lemma ExpandRuleVariablesName(rest: string, root: string, dirname: string, source: string,
                                ext: string, name: string)
    requires '$' !in rest + root + dirname + source + ext + name
    ensures ExpandRuleVariables("${name}" + rest, root, dirname, source, ext, name) == name + rest
  {
    assert '$' !in rest;
    var path := "${name}" + rest;
    assert path[0] == '$' && path[1..] == "{name}" + rest && path[2] == 'n';
    LeadingDollarSkipped(path, "${root}", root);
    LeadingDollarSkipped(path, "${dirname}", dirname);
    LeadingDollarSkipped(path, "${source}", source);
    LeadingDollarSkipped(path, "${ext}", ext);
    ReplaceAtFront("${name}", rest, name);
    ReplaceMissing(rest, "${name}", name);
  }

  // ---------------------------------------------------------------------
  // GypPathToNinja

  /** A path `GypPathToNinja` leaves without the `build_to_base` prefix. */
  predicate IsAbsolute(path: string)
  {
    StartsWith(path, "C:") || StartsWith(path, "c:") || StartsWith(path, "/")
  }

  /** The path `GypPathToNinja` checks for a left-over `$`. */
  function AfterSpecials(e: PathEnv, path: string): string
  {
    if Contains(path, "$|") then ExpandSpecial(e, path, "") else path
  }

  /** `GypPathToNinja(path)`: a `$!` path is expanded and normalised as it
      is, without `build_to_base`; any other path must be free of `$` once
      its `$|` specials are expanded, and unless it is absolute it is put
      behind `build_to_base` and normalised. */
  function GypPathToNinja(e: PathEnv, path: string): (r: Result<string, PyError>)
    ensures StartsWith(path, "$!") ==> r == Ok(CaseCorrection(e, Normpath(ExpandSpecial(e, path, ""))))
    ensures !StartsWith(path, "$!") ==> (r.Err? <==> '$' in AfterSpecials(e, path))
    ensures !StartsWith(path, "$!") && r.Ok? && IsAbsolute(AfterSpecials(e, path)) ==> r.value == CaseCorrection(e, AfterSpecials(e, path))
    ensures !StartsWith(path, "$!") && r.Ok? && !IsAbsolute(AfterSpecials(e, path)) ==>
              r.value == CaseCorrection(e, Normpath(Join(e.buildToBase, AfterSpecials(e, path))))
  {
    if StartsWith(path, "$!") then
      Ok(CaseCorrection(e, Normpath(ExpandSpecial(e, path, ""))))
    else
      var p := AfterSpecials(e, path);
      if '$' in p then Err(AssertionError(p))
      else
        if IsAbsolute(p) then Ok(CaseCorrection(e, p))
        else Ok(CaseCorrection(e, Normpath(Join(e.buildToBase, p))))
  }

  /** A path below `$!PRODUCT_DIR` is a path below the build directory. */
  lemma GypPathToNinjaProductDir(e: PathEnv, rest: string)
    requires '$' !in rest
    ensures GypPathToNinja(e, ProductDirVar + "/" + rest) == Ok(CaseCorrection(e, Normpath(rest)))
  {
    assert StartsWith(ProductDirVar + "/" + rest, "$!");
    ExpandSpecialProductDir(e, rest, "");
  }

  /** An absolute path without specials is only case-corrected. */
  lemma GypPathToNinjaAbsolute(e: PathEnv, path: string)
    requires StartsWith(path, "/") && '$' !in path
    ensures GypPathToNinja(e, path) == Ok(CaseCorrection(e, path))
  {
    NotContainsFirstChar(path, "$|");
  }

  /** A `$` that is not a special fails the assertion. */
  lemma GypPathToNinjaStrayDollar(e: PathEnv, path: string)
    requires !StartsWith(path, "$!") && !Contains(path, "$|") && '$' in path
    ensures GypPathToNinja(e, path).Err?
  {
  }

  /** A relative path without `$` is put behind `build_to_base`. */
  lemma GypPathToNinjaRelative(e: PathEnv, p: string)
    requires '$' !in p && !IsAbsolute(p)
    ensures GypPathToNinja(e, p) == Ok(CaseCorrection(e, Normpath(Join(e.buildToBase, p))))
  {
    NotContainsFirstChar(p, "$|");
    assert !StartsWith(p, "$!") by { if |p| >= 2 { assert p[0] != '$'; } }
  }

  /** The segments of `build_to_base`: one ".." per segment of the build
      directory, then the base directory. */
  lemma BuildToBaseSegs(e: PathEnv)
    requires WellFormed(e) && Invertible(e.baseDir) && Invertible(e.buildDir)
    ensures Segs(e.buildToBase) == Repeat("..", |Segs(e.buildDir)|) + Segs(e.baseDir)
    ensures Relative(e.buildToBase)
  {
    InvertSegs(e.buildDir);
    InvertSegs(e.baseDir);
    var up := InvertRelativePath(e.buildDir).value;
    SegsJoin(up, e.baseDir);
    JoinRelative(up, e.baseDir);
  }

  /** `normpath` of a relative path put behind leading ".." and plain
      segments. */
  lemma NormpathBehind(b: string, n: nat, base: seq<string>, p: string)
    requires Relative(b) && Segs(b) == Repeat("..", n) + base && AllPlain(base)
    requires Relative(p) && AllPlain(Segs(p))
    ensures Normpath(Join(b, p)) == Render(Repeat("..", n) + (base + Segs(p)))
  {
    BehindSegs(b, n, base, p);
    AllPlainConcat(base, Segs(p));
    NormpathUpThenPlain(Join(b, p), n, base + Segs(p));
  }

  /** The segments of a relative path put behind leading ".." and plain
      segments. */
  lemma BehindSegs(b: string, n: nat, base: seq<string>, p: string)
    requires Relative(b) && Segs(b) == Repeat("..", n) + base
    requires Relative(p)
    ensures Relative(Join(b, p)) && Segs(Join(b, p)) == Repeat("..", n) + (base + Segs(p))
  {
    SegsJoin(b, p);
    JoinRelative(b, p);
    ConcatAssoc(Repeat("..", n), base, Segs(p));
  }

  /** Behind `build_to_base`, a relative path into sub-directories becomes
      one ".." per segment of the build directory, then the base directory,
      then the path. */
  lemma BehindBuildToBase(e: PathEnv, p: string)
    requires WellFormed(e) && Invertible(e.baseDir) && Invertible(e.buildDir)
    requires Clean(p)
    ensures AllPlain(Segs(e.baseDir) + Segs(p)) && Relative(p)
    ensures Normpath(Join(e.buildToBase, p)) == Render(Repeat("..", |Segs(e.buildDir)|) + (Segs(e.baseDir) + Segs(p)))
  {
    BuildToBaseSegs(e);
    InvertSegs(e.baseDir);
    CleanSegs(p);
    AllPlainConcat(Segs(e.baseDir), Segs(p));
    NormpathBehind(e.buildToBase, |Segs(e.buildDir)|, Segs(e.baseDir), p);
  }

  /** The Ninja path of a relative gyp path into sub-directories. */
  lemma GypPathToNinjaSegments(e: PathEnv, p: string)
    requires WellFormed(e) && Invertible(e.baseDir) && Invertible(e.buildDir) && e.caseSensitive
    requires Clean(p) && '$' !in p && !StartsWith(p, "C:") && !StartsWith(p, "c:")
    ensures AllPlain(Segs(e.baseDir) + Segs(p)) && Relative(p)
    ensures GypPathToNinja(e, p) == Ok(Render(Repeat("..", |Segs(e.buildDir)|) + (Segs(e.baseDir) + Segs(p))))
  {
    BehindBuildToBase(e, p);
    GypPathToNinjaRelative(e, p);
  }

  /** `normpath` of a relative path made of plain segments. */
  lemma NormpathPlain(path: string, ss: seq<string>)
    requires Relative(path) && AllPlain(ss) && Segs(path) == ss
    ensures Normpath(path) == Render(ss)
  {
    assert Repeat("..", 0) + ss == ss;
    NormpathUpThenPlain(path, 0, ss);
  }

  /** Read from the build directory, ".." once per segment of that
      directory and then plain segments name those plain segments. */
  lemma BuildSideNormpath(b: string, rest: seq<string>)
    requires Invertible(b) && AllPlain(rest) && |rest| >= 1
    ensures Normpath(Join(b, Render(Repeat("..", |Segs(b)|) + rest))) == Render(rest)
  {
    InvertSegs(b);
    var l := Repeat("..", |Segs(b)|) + rest;
    var r := Render(l);
    assert forall i :: 0 <= i < |l| ==> l[i] != "" && '/' !in l[i];
    SegsOfRender(l);
    SegsJoin(b, r);
    JoinRelative(b, r);
    assert Segs(Join(b, r)) == Segs(b) + Repeat("..", |Segs(b)|) + rest;
    NormpathCancel(Join(b, r), Segs(b), rest);
  }

  /** Read from the base directory, a clean path names the segments of the
      base directory followed by its own. */
  lemma BaseSideNormpath(base: string, p: string)
    requires Invertible(base) && Relative(p) && AllPlain(Segs(base) + Segs(p))
    ensures Normpath(Join(base, p)) == Render(Segs(base) + Segs(p))
  {
    InvertSegs(base);
    SegsJoin(base, p);
    JoinRelative(base, p);
    NormpathPlain(Join(base, p), Segs(base) + Segs(p));
  }

  /** The point of the translation: for a relative gyp path into
      sub-directories, the Ninja path, read from the build directory, names
      the same file as the gyp path read from the base directory. */
  lemma GypPathToNinjaSameFile(e: PathEnv, p: string)
    requires WellFormed(e) && Invertible(e.baseDir) && Invertible(e.buildDir) && e.caseSensitive
    requires Clean(p) && '$' !in p && !StartsWith(p, "C:") && !StartsWith(p, "c:")
    ensures GypPathToNinja(e, p).Ok?
    ensures Normpath(Join(e.buildDir, GypPathToNinja(e, p).value)) == Normpath(Join(e.baseDir, p))
  {
    GypPathToNinjaSegments(e, p);
    CleanSegs(p);
    var rest := Segs(e.baseDir) + Segs(p);
    assert |rest| >= 1;
    BuildSideNormpath(e.buildDir, rest);
    BaseSideNormpath(e.baseDir, p);
  }

  // ---------------------------------------------------------------------
  // GypPathToUniqueOutput

  /** `GypPathToUniqueOutput(path, qualified)`: expands the specials, fails
      the assertion when the result still starts with `$`, and otherwise
      places the path under the target's object directory. */
  function GypPathToUniqueOutput(e: PathEnv, path: string, qualified: bool): (r: Result<string, PyError>)
    ensures r.Err? <==> StartsWith(ExpandSpecial(e, path, ""), "$")
    ensures r.Ok? ==> r.value == UniqueOutputOfExpanded(e, ExpandSpecial(e, path, ""), qualified)
  {
    var p := ExpandSpecial(e, path, "");
    if StartsWith(p, "$") then Err(AssertionError(p)) else Ok(UniqueOutputOfExpanded(e, p, qualified))
  }

  /** `ExpandSpecial` computes the intermediate directory with the same
      function it is part of; the model's non-recursive shortcut gives what
      that call gives. */
  lemma IntermediateDirIsUniqueOutput(e: PathEnv)
    ensures GypPathToUniqueOutput(e, "gen", true) == Ok(IntermediateDir(e))
  {
    assert '$' !in "gen";
    assert ExpandSpecial(e, "gen", "") == "gen";
    assert "gen"[..1][0] == 'g';
  }

  /** The segments of the object-directory name of one toolset. */
  lemma ObjDirSegs(toolset: string)
    requires '/' !in toolset
    ensures Segs(ObjDir(toolset)) == [ObjDir(toolset)] && AllPlain([ObjDir(toolset)]) && Relative(ObjDir(toolset))
  {
    var o := ObjDir(toolset);
    assert o[0] == 'o';
    assert '/' !in o;
    SegsOfSlashFree(o);
  }

  /** The last component of a qualified output, `<name>.<basename>`. */
  lemma LeafPlain(name: string, basename: string, qualified: bool)
    requires '/' !in name && AllPlain([basename])
    ensures var leaf := if qualified then name + "." + basename else basename;
            AllPlain([leaf]) && Segs(leaf) == [leaf] && Relative(leaf)
  {
    var leaf := if qualified then name + "." + basename else basename;
    assert [basename][0] == basename;
    assert basename != "" && '/' !in basename && basename != ".";
    assert '/' !in leaf;
    assert leaf != "." && leaf != ".." by {
      if qualified {
        assert leaf[|name| + 1..] == basename;
        assert |leaf| == 2 ==> name == "" && leaf[1..] == basename;
      }
    }
    SegsOfSlashFree(leaf);
  }

  /** The segments of a relative gyp path into sub-directories, split into
      its directory and its last component. */
  lemma CleanPathSplit(p: string)
    requires Clean(p)
    ensures var (dir, basename) := PathSplit(p);
            Segs(p) == Segs(dir) + [basename] && AllPlain(Segs(dir)) && AllPlain([basename]) && Relative(dir)
  {
    CleanSegs(p);
    PathSplitSegs(p);
    PathSplitTailNonEmpty(p);
    var (dir, basename) := PathSplit(p);
    SegsOfSlashFree(basename);
    var s := Segs(p);
    assert s == Segs(dir) + [basename];
    assert forall i :: 0 <= i < |Segs(dir)| ==> Segs(dir)[i] == s[i];
    assert basename == s[|s| - 1];
  }

  /** `os.path.join` of four relative paths carries their segments. */
  lemma JoinFourSegs(a: string, b: string, c: string, d: string)
    requires Relative(a) && Relative(b) && Relative(c) && Relative(d)
    ensures Segs(Join(Join(Join(a, b), c), d)) == Segs(a) + Segs(b) + Segs(c) + Segs(d)
    ensures Relative(Join(Join(Join(a, b), c), d))
  {
    SegsJoin(a, b);
    JoinRelative(a, b);
    SegsJoin(Join(a, b), c);
    JoinRelative(Join(a, b), c);
    SegsJoin(Join(Join(a, b), c), d);
    JoinRelative(Join(Join(a, b), c), d);
  }

  /** `normpath` of four joined relative paths with plain segments. */
  lemma NormpathJoinFour(a: string, b: string, c: string, d: string)
    requires Relative(a) && Relative(b) && Relative(c) && Relative(d)
    requires AllPlain(Segs(a)) && AllPlain(Segs(b)) && AllPlain(Segs(c)) && AllPlain(Segs(d))
    ensures Normpath(Join(Join(Join(a, b), c), d)) == Render(Segs(a) + Segs(b) + Segs(c) + Segs(d))
  {
    JoinFourSegs(a, b, c, d);
    AllPlainConcat(Segs(a), Segs(b));
    AllPlainConcat(Segs(a) + Segs(b), Segs(c));
    AllPlainConcat(Segs(a) + Segs(b) + Segs(c), Segs(d));
    NormpathPlain(Join(Join(Join(a, b), c), d), Segs(a) + Segs(b) + Segs(c) + Segs(d));
  }

  /** The unique output of an expanded relative path into sub-directories. */
  lemma UniqueOutputOfExpandedSegs(e: PathEnv, p: string, qualified: bool)
    requires Invertible(e.baseDir) && e.caseSensitive
    requires '/' !in e.toolset && '/' !in e.name
    requires Clean(p)
    ensures var (dir, basename) := PathSplit(p);
            var leaf := if qualified then e.name + "." + basename else basename;
            UniqueOutputOfExpanded(e, p, qualified) ==
              Render([ObjDir(e.toolset)] + Segs(e.baseDir) + Segs(dir) + [leaf])
  {
    var (dir, basename) := PathSplit(p);
    var leaf := if qualified then e.name + "." + basename else basename;
    InvertSegs(e.baseDir);
    CleanPathSplit(p);
    ObjDirSegs(e.toolset);
    LeafPlain(e.name, basename, qualified);
    NormpathJoinFour(ObjDir(e.toolset), e.baseDir, dir, leaf);
  }

  /** A path without `$` is placed as it is. */
  lemma GypPathToUniqueOutputPlain(e: PathEnv, p: string, qualified: bool)
    requires '$' !in p
    ensures GypPathToUniqueOutput(e, p, qualified) == Ok(UniqueOutputOfExpanded(e, p, qualified))
  {
    assert ExpandSpecial(e, p, "") == p;
    assert !StartsWith(p, "$") by { if |p| > 0 { assert p[0] != '$'; } }
  }

  /** The naming scheme of `GypPathToUniqueOutput`: target `name` in
      `<base_dir>/x.gyp` referencing `<dir>/<basename>` gets
      `obj[.<toolset>]/<base_dir>/<dir>/[<name>.]<basename>`. */
  lemma UniqueOutputSegments(e: PathEnv, p: string, qualified: bool)
    requires Invertible(e.baseDir) && e.caseSensitive
    requires '/' !in e.toolset && '/' !in e.name
    requires Clean(p) && '$' !in p
    ensures var (dir, basename) := PathSplit(p);
            var leaf := if qualified then e.name + "." + basename else basename;
            GypPathToUniqueOutput(e, p, qualified) ==
              Ok(Render([ObjDir(e.toolset)] + Segs(e.baseDir) + Segs(dir) + [leaf]))
  {
    UniqueOutputOfExpandedSegs(e, p, qualified);
    GypPathToUniqueOutputPlain(e, p, qualified);
  }

  /** The segments of a unique output: the object directory, the segments
      of `base_dir` and of the path's directory, then the leaf. */
  lemma UniqueOutputSegsOf(e: PathEnv, p: string, qualified: bool)
    requires Invertible(e.baseDir) && e.caseSensitive
    requires '/' !in e.toolset && '/' !in e.name
    requires Clean(p) && '$' !in p
    ensures var (dir, basename) := PathSplit(p);
            var leaf := if qualified then e.name + "." + basename else basename;
            GypPathToUniqueOutput(e, p, qualified).Ok? &&
            Segs(GypPathToUniqueOutput(e, p, qualified).value) == [ObjDir(e.toolset)] + Segs(e.baseDir) + Segs(dir) + [leaf] &&
            Segs(p) == Segs(dir) + [basename]
  {
    UniqueOutputSegments(e, p, qualified);
    var (dir, basename) := PathSplit(p);
    var leaf := if qualified then e.name + "." + basename else basename;
    var pre := [ObjDir(e.toolset)] + Segs(e.baseDir);
    CleanPathSplit(p);
    ObjDirSegs(e.toolset);
    InvertSegs(e.baseDir);
    LeafPlain(e.name, basename, qualified);
    AllPlainConcat([ObjDir(e.toolset)], Segs(e.baseDir));
    AllPlainConcat(pre, Segs(dir));
    AllPlainConcat(pre + Segs(dir), [leaf]);
    SegsOfRender(pre + Segs(dir) + [leaf]);
  }

  /** A common prefix and a last element split off equal lists. */
  lemma PrefixLastCancel(pre: seq<string>, a: seq<string>, x: string, b: seq<string>, y: string)
    requires pre + a + [x] == pre + b + [y]
    ensures a == b && x == y
  {
    var s1 := pre + a + [x];
    var s2 := pre + b + [y];
    assert s1[..|s1| - 1] == pre + a && s2[..|s2| - 1] == pre + b;
    assert a == (pre + a)[|pre|..] && b == (pre + b)[|pre|..];
    assert x == s1[|s1| - 1] && y == s2[|s2| - 1];
  }

  /** The leaf names a basename once: equal leaves have equal basenames. */
  lemma LeafCancel(name: string, b1: string, b2: string, qualified: bool)
    requires (if qualified then name + "." + b1 else b1) == (if qualified then name + "." + b2 else b2)
    ensures b1 == b2
  {
    if qualified {
      assert b1 == (name + "." + b1)[|name| + 1..];
      assert b2 == (name + "." + b2)[|name| + 1..];
    }
  }

  /** A clean path is determined by its segments. */
  lemma CleanBySegs(p1: string, p2: string)
    requires Clean(p1) && Clean(p2) && Segs(p1) == Segs(p2)
    ensures p1 == p2
  {
    CleanSegs(p1);
    CleanSegs(p2);
    JoinSplit(p1, '/');
    JoinSplit(p2, '/');
  }

  /** Within one target, different gyp paths get different unique outputs. */
  lemma UniqueOutputInjective(e: PathEnv, p1: string, p2: string, qualified: bool)
    requires Invertible(e.baseDir) && e.caseSensitive
    requires '/' !in e.toolset && '/' !in e.name
    requires Clean(p1) && '$' !in p1 && Clean(p2) && '$' !in p2
    requires GypPathToUniqueOutput(e, p1, qualified) == GypPathToUniqueOutput(e, p2, qualified)
    ensures p1 == p2
  {
    UniqueOutputSegsOf(e, p1, qualified);
    UniqueOutputSegsOf(e, p2, qualified);
    var (d1, b1) := PathSplit(p1);
    var (d2, b2) := PathSplit(p2);
    var l1 := if qualified then e.name + "." + b1 else b1;
    var l2 := if qualified then e.name + "." + b2 else b2;
    PrefixLastCancel([ObjDir(e.toolset)] + Segs(e.baseDir), Segs(d1), l1, Segs(d2), l2);
    LeafCancel(e.name, b1, b2, qualified);
    CleanBySegs(p1, p2);
  }

  /** Two targets of one .gyp file whose names hold no dot get different
      qualified outputs for the same gyp path: the reason paths are
      qualified. */
  lemma UniqueOutputSeparatesTargets(e: PathEnv, name2: string, p: string)
    requires Invertible(e.baseDir) && e.caseSensitive
    requires '/' !in e.toolset && '/' !in e.name && '/' !in name2
    requires '.' !in e.name && '.' !in name2 && e.name != name2
    requires Clean(p) && '$' !in p
    ensures GypPathToUniqueOutput(e, p, true) != GypPathToUniqueOutput(e.(name := name2), p, true)
  {
    var e2 := e.(name := name2);
    UniqueOutputSegsOf(e, p, true);
    UniqueOutputSegsOf(e2, p, true);
    var (dir, b) := PathSplit(p);
    DottedNamesDiffer(e.name, name2, b);
    if GypPathToUniqueOutput(e, p, true) == GypPathToUniqueOutput(e2, p, true) {
      PrefixLastCancel([ObjDir(e.toolset)] + Segs(e.baseDir), Segs(dir), e.name + "." + b, Segs(dir), name2 + "." + b);
    }
  }

  /** Different dot-free names give different `<name>.<basename>` leaves. */
  lemma DottedNamesDiffer(n1: string, n2: string, b: string)
    requires '.' !in n1 && '.' !in n2 && n1 != n2
    ensures n1 + "." + b != n2 + "." + b
  {
    var l1 := n1 + "." + b;
    var l2 := n2 + "." + b;
    var k := if |n1| < |n2| then |n1| else |n2|;
    if |n1| == |n2| {
      var j :| 0 <= j < |n1| && n1[j] != n2[j];
      assert l1[j] == n1[j] && l2[j] == n2[j];
    } else if |n1| < |n2| {
      assert l1[k] == '.' && l2[k] == n2[k];
    } else {
      assert l2[k] == '.' && l1[k] == n1[k];
    }
  }

  // ---------------------------------------------------------------------
  // ComputeOutputFileName and ComputeOutput

  /** The prefix of the product file name: `product_prefix`, or the default
      of the target type. */
  function OutputPrefix(spec: Spec, vars: ProductVars): (r: string)
    ensures spec.productPrefix.Some? ==> r == spec.productPrefix.value
  {
    if spec.productPrefix.Some? then spec.productPrefix.value
    else match spec.ttype
      case LoadableModule => vars.sharedLibPrefix
      case SharedLibrary => vars.sharedLibPrefix
      case StaticLibrary => vars.staticLibPrefix
      case Executable => vars.executablePrefix
      case _ => ""
  }

  /** The extension: `.<product_extension>` when that is set, none on the
      host toolset, else the default of the target type. */
  function OutputExtension(toolset: string, spec: Spec, vars: ProductVars): (r: string)
    ensures Truthy(spec.productExtension) ==> r == "." + spec.productExtension.value
    ensures !Truthy(spec.productExtension) && toolset == "host" ==> r == ""
  {
    if Truthy(spec.productExtension) then "." + spec.productExtension.value
    else if toolset == "host" then ""
    else match spec.ttype
      case LoadableModule => vars.sharedLibSuffix
      case SharedLibrary => vars.sharedLibSuffix
      case StaticLibrary => vars.staticLibSuffix
      case Executable => vars.executableSuffix
      case _ => ""
  }

  /** The stem: `product_name`, else the target name with one leading `lib`
      dropped when the prefix is `lib`. */
  function OutputStem(spec: Spec, prefix: string): (r: string)
    ensures spec.productName.Some? ==> r == spec.productName.value
    ensures spec.productName.None? && prefix == "lib" ==> "lib" + r == spec.targetName || r == spec.targetName
    ensures spec.productName.None? && prefix != "lib" ==> r == spec.targetName
  {
    if spec.productName.Some? then spec.productName.value
    else if prefix == "lib" then StripPrefix(spec.targetName, "lib")
    else spec.targetName
  }

  predicate HasProductFile(t: TargetType)
  {
    t == StaticLibrary || t == LoadableModule || t == SharedLibrary || t == Executable
  }

  /** `ComputeOutputFileName(spec)`: prefix, stem and extension for the four
      kinds of products, `<stem>.stamp` for a `none` target, and an exception
      for any other type. */
  function ComputeOutputFileName(toolset: string, spec: Spec, vars: ProductVars): (r: Result<string, PyError>)
    ensures r.Err? <==> !HasProductFile(spec.ttype) && spec.ttype != NoneType
    ensures HasProductFile(spec.ttype) ==> r == Ok(OutputPrefix(spec, vars) + OutputStem(spec, OutputPrefix(spec, vars)) + OutputExtension(toolset, spec, vars))
    ensures spec.ttype == NoneType ==> r == Ok(OutputStem(spec, OutputPrefix(spec, vars)) + ".stamp")
  {
    var prefix := OutputPrefix(spec, vars);
    var extension := OutputExtension(toolset, spec, vars);
    var stem := OutputStem(spec, prefix);
    if HasProductFile(spec.ttype) then Ok(prefix + stem + extension)
    else if spec.ttype == NoneType then Ok(stem + ".stamp")
    else Err(GenericError("Unhandled output type"))
  }

  /** A library named `libfoo` is not written `liblibfoo`: with the default
      `lib` prefix the targets `libfoo` and `foo` get the same file name. */
  lemma ComputeOutputFileNameLibNotDoubled(toolset: string, spec: Spec, vars: ProductVars, stem: string)
    requires spec.ttype == StaticLibrary && vars.staticLibPrefix == "lib"
    requires spec.productPrefix.None? && spec.productName.None?
    requires !StartsWith(stem, "lib")
    ensures ComputeOutputFileName(toolset, spec.(targetName := "lib" + stem), vars) ==
            ComputeOutputFileName(toolset, spec.(targetName := stem), vars)
    ensures ComputeOutputFileName(toolset, spec.(targetName := stem), vars) ==
            Ok("lib" + stem + OutputExtension(toolset, spec, vars))
  {
    assert StartsWith("lib" + stem, "lib");
    assert ("lib" + stem)[3..] == stem;
  }

  /** Where the final output of a product goes, once its file name is known:
      under `product_dir` when set; at the top of the build directory for
      executables, loadable modules and standalone static libraries; under
      `lib[/<toolset>]` for shared libraries; and in the object directory
      otherwise. */
  function ComputeOutput(e: PathEnv, spec: Spec, vars: ProductVars): (r: Result<string, PyError>)
    ensures ComputeOutputFileName(e.toolset, spec, vars).Err? ==> r.Err?
    ensures ComputeOutputFileName(e.toolset, spec, vars).Ok? && spec.productDir.None? &&
            (spec.ttype == Executable || spec.ttype == LoadableModule || spec.standaloneStaticLibrary) ==>
              r == ComputeOutputFileName(e.toolset, spec, vars)
    ensures ComputeOutputFileName(e.toolset, spec, vars).Ok? && spec.productDir.Some? ==>
              r == Ok(ExpandSpecial(e, Join(spec.productDir.value, ComputeOutputFileName(e.toolset, spec, vars).value), ""))
    ensures ComputeOutputFileName(e.toolset, spec, vars).Ok? && spec.productDir.None? &&
            spec.ttype == StaticLibrary && !spec.standaloneStaticLibrary ==>
              r == GypPathToUniqueOutput(e, ComputeOutputFileName(e.toolset, spec, vars).value, false)
  {
    var filename :- ComputeOutputFileName(e.toolset, spec, vars);
    if spec.productDir.Some? then Ok(ExpandSpecial(e, Join(spec.productDir.value, filename), ""))
    else if spec.ttype == Executable || spec.ttype == LoadableModule || spec.standaloneStaticLibrary then Ok(filename)
    else if spec.ttype == SharedLibrary then
      Ok(Join(if e.toolset != "target" then Join("lib", e.toolset) else "lib", filename))
    else GypPathToUniqueOutput(e, filename, false)
  }

  /** A shared library of the target toolset goes to `lib/<file>`, one of
      another toolset to `lib/<toolset>/<file>`. */
  lemma ComputeOutputSharedLibrary(e: PathEnv, spec: Spec, vars: ProductVars)
    requires spec.ttype == SharedLibrary && spec.productDir.None? && !spec.standaloneStaticLibrary
    requires e.toolset != "" && '/' !in e.toolset
    ensures var f := ComputeOutputFileName(e.toolset, spec, vars).value;
            !StartsWith(f, "/") ==>
              ComputeOutput(e, spec, vars) == Ok(if e.toolset == "target" then "lib/" + f else "lib/" + e.toolset + "/" + f)
  {
    var f := ComputeOutputFileName(e.toolset, spec, vars).value;
    if !StartsWith(f, "/") {
      LibraryDirJoin(e.toolset, f);
    }
  }

  /** The shared library directory of a toolset, joined with a relative
      file name. */
  lemma LibraryDirJoin(toolset: string, f: string)
    requires toolset != "" && '/' !in toolset && !StartsWith(f, "/")
    ensures Join(if toolset != "target" then Join("lib", toolset) else "lib", f) ==
            if toolset == "target" then "lib/" + f else "lib/" + toolset + "/" + f
  {
    if toolset == "target" {
      assert Join("lib", f) == "lib/" + f;
    } else {
      var l := Join("lib", toolset);
      assert toolset[0] != '/';
      assert l == "lib/" + toolset;
      assert l[|l| - 1] == toolset[|toolset| - 1] != '/';
      assert Join(l, f) == l + "/" + f;
    }
  }


  /** A static library (not standalone) of a clean name lands in the
      object directory of its .gyp file: `obj[.<toolset>]/<base_dir>/<file>`. */
  lemma ComputeOutputStaticLibrary(e: PathEnv, spec: Spec, vars: ProductVars)
    requires spec.ttype == StaticLibrary && spec.productDir.None? && !spec.standaloneStaticLibrary
    requires Invertible(e.baseDir) && e.caseSensitive && '/' !in e.toolset && '/' !in e.name
    requires var f := ComputeOutputFileName(e.toolset, spec, vars).value; f != "" && AllPlain([f]) && '$' !in f
    ensures ComputeOutput(e, spec, vars) ==
              Ok(Render([ObjDir(e.toolset)] + Segs(e.baseDir) + [ComputeOutputFileName(e.toolset, spec, vars).value]))
  {
    var f := ComputeOutputFileName(e.toolset, spec, vars).value;
    StaticLibraryLeaf(e, f);
  }

  /** The unique output path of a bare, clean file name. */
  lemma StaticLibraryLeaf(e: PathEnv, f: string)
    requires Invertible(e.baseDir) && e.caseSensitive && '/' !in e.toolset && '/' !in e.name
    requires f != "" && AllPlain([f]) && '$' !in f
    ensures GypPathToUniqueOutput(e, f, false) == Ok(Render([ObjDir(e.toolset)] + Segs(e.baseDir) + [f]))
  {
    assert [f][0] == f;
    PlainLeaf(f);
    UniqueOutputSegments(e, f, false);
    SegsEmpty();
    var o := ObjDir(e.toolset);
    assert [o] + Segs(e.baseDir) + Segs("") + [f] == [o] + Segs(e.baseDir) + [f];
  }
}
