/** The `Target` record of the Ninja generator: the paths one gyp target
    produces, and the accessors that tell dependents which of them to wait
    for. Paths are Python strings or None; Python's `or` picks the first
    operand that is truthy, so an empty string counts as absent. */
module NinjaTarget {
  import opened Wrappers

  /** The gyp `type` of a target; any other string is kept as `OtherType`. */
  datatype TargetType =
    | StaticLibrary
    | SharedLibrary
    | Executable
    | LoadableModule
    | NoneType
    | OtherType(name: string)

  /** A path that Python treats as true: present and non-empty. */
  predicate Truthy(p: Option<string>)
  {
    p.Some? && p.value != ""
  }

  /** Python's `a or b` on two optional paths. */
  function Or(a: Option<string>, b: Option<string>): (r: Option<string>)
    ensures Truthy(r) <==> Truthy(a) || Truthy(b)
    ensures Truthy(a) ==> r == a
    ensures !Truthy(a) ==> r == b
  {
    if Truthy(a) then a else b
  }

  /** The paths used within a single gyp target. The generator fills the
      fields while it writes the target's edges. */
  datatype Target = Target(
    ttype: TargetType,
    preactionStamp: Option<string>,
    precompileStamp: Option<string>,
    actionsStamp: Option<string>,
    binary: Option<string>,
    bundle: Option<string>,
    componentObjs: Option<seq<string>>,
    importLib: Option<string>)
  {
    /** A target can be linked against when it is a library: a static or
        a shared one, and no other type. */
    function Linkable(): (r: bool)
      ensures r <==> ttype in {StaticLibrary, SharedLibrary}
    {
      ttype == StaticLibrary || ttype == SharedLibrary
    }

    /** The last output of the target: the bundle, else the binary, else the
        stamp of its actions, rules and copies. */
    function FinalOutput(): (r: Option<string>)
      ensures Truthy(r) <==> Truthy(bundle) || Truthy(binary) || Truthy(actionsStamp)
      ensures Truthy(bundle) ==> r == bundle
      ensures !Truthy(bundle) && Truthy(binary) ==> r == binary
      ensures !Truthy(bundle) && !Truthy(binary) ==> r == actionsStamp
    {
      Or(bundle, Or(binary, actionsStamp))
    }

    /** What a dependent action waits for: the final output if there is one,
        else the stamp of this target's own action dependencies. */
    function PreActionInput(): (r: Option<string>)
      ensures Truthy(FinalOutput()) ==> r == FinalOutput()
      ensures !Truthy(FinalOutput()) ==> r == preactionStamp
    {
      Or(FinalOutput(), preactionStamp)
    }

    /** What a dependent compile waits for: the actions stamp if there is one,
        else the stamp of this target's own compile dependencies. */
    function PreCompileInput(): (r: Option<string>)
      ensures Truthy(actionsStamp) ==> r == actionsStamp
      ensures !Truthy(actionsStamp) ==> r == precompileStamp
    {
      Or(actionsStamp, precompileStamp)
    }
  }

  /** A fresh record: `Target(type)` with every path None. */
  function NewTarget(ttype: TargetType): (t: Target)
    ensures t.ttype == ttype && !Truthy(t.FinalOutput())
    ensures !Truthy(t.PreActionInput()) && !Truthy(t.PreCompileInput())
  {
    Target(ttype, None, None, None, None, None, None, None)
  }

  /** A dependent compile never waits on a link or bundle step: the path it
      gets is one of the two stamps, so it differs from the binary and the
      bundle unless a stamp has the very same name. */
  lemma PreCompileInputAvoidsLink(t: Target)
    ensures t.PreCompileInput() == t.actionsStamp || t.PreCompileInput() == t.precompileStamp
    ensures Truthy(t.PreCompileInput()) && t.PreCompileInput() == t.binary ==>
              t.binary == t.actionsStamp || t.binary == t.precompileStamp
  {
  }

  /** A target whose binary is present has a final output, and with no bundle
      it is exactly that binary: the path dependents link and order on. */
  lemma FinalOutputOfBinary(t: Target)
    requires Truthy(t.binary) && !Truthy(t.bundle)
    ensures t.FinalOutput() == t.binary && t.PreActionInput() == t.binary
  {
  }

  /** A target with a final output hands the same path to dependent actions:
      its own action dependencies then no longer matter. */
  lemma PreActionInputIgnoresStampOnceBuilt(t: Target, stamp: Option<string>)
    requires Truthy(t.FinalOutput())
    ensures t.(preactionStamp := stamp).PreActionInput() == t.PreActionInput()
  {
  }
}
