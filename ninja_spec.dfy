/** The parts of a gyp target dictionary that the Ninja generator reads, as
    they arrive after gyp's own loading and validation. A key that gyp leaves
    out is an empty list or None here; the two behave alike in every place
    the generator reads them. */
module NinjaSpec {
  import opened Wrappers
  import opened NinjaTarget
  import opened NinjaToolchain

  /** One entry of `actions`. */
  datatype Action = Action(
    actionName: string,
    command: seq<string>,
    inputs: seq<string>,
    outputs: seq<string>,
    processOutputsAsSources: bool)

  /** One entry of `rules`; `command` is None when the rule has no `action`. */
  datatype RuleStep = RuleStep(
    ruleName: string,
    command: Option<seq<string>>,
    ruleSources: seq<string>,
    inputs: seq<string>,
    outputs: seq<string>,
    processOutputsAsSources: bool)

  /** One entry of `copies`. */
  datatype CopyStep = CopyStep(destination: string, files: seq<string>)

  /** A target dictionary. */
  datatype Spec = Spec(
    targetName: string,
    ttype: TargetType,
    toolset: string,
    configurations: map<string, Config>,
    dependencies: seq<string>,
    actions: seq<Action>,
    rules: seq<RuleStep>,
    copies: seq<CopyStep>,
    sources: seq<string>,
    productName: Option<string>,
    productPrefix: Option<string>,
    productExtension: Option<string>,
    productDir: Option<string>,
    standaloneStaticLibrary: bool,
    defaultProject: bool)

  /** The prefixes and suffixes of product file names that the generator's
      variables give for each kind of product. */
  datatype ProductVars = ProductVars(
    executablePrefix: string,
    executableSuffix: string,
    staticLibPrefix: string,
    staticLibSuffix: string,
    sharedLibPrefix: string,
    sharedLibSuffix: string)

  /** The values for a POSIX flavour without a platform toolchain: the
      defaults of `generator_default_variables` plus `.so` from
      `CalculateVariables`. */
  const PosixProductVars := ProductVars("", "", "lib", ".a", "lib", ".so")
}
