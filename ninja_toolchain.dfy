/** The Ninja generator's view of a toolchain: an ordered list of tools, each
    an instance of one or more abstract tool classes, looked up by the first
    instance of a class; and the small helpers that turn a tool and a toolset
    into a rule name and a configuration into flags. */
module NinjaToolchain {
  import opened Wrappers
  import opened GypPaths

  /** The abstract tool classes the generator asks a toolchain for. */
  datatype Role =
    | Shell
    | Stamp
    | Copy
    | CCompiler
    | CxxCompiler
    | ObjectiveCxxCompiler
    | AssemblerWithCPreprocessor
    | StaticLinker
    | StaticThinLinker
    | ExecutableLinker
    | SharedLibraryLinker

  /** A tool: the classes it is an instance of, the name of its Ninja rule,
      whether it is the same on every platform (stamp and copy are), and,
      for a linker, whether the flags its `GetFlags` gives contain
      `/NOENTRY`. */
  datatype Tool = Tool(roles: set<Role>, ruleName: string, platformAgnostic: bool, noEntry: bool)

  /** The index of the first tool of the given class, or `|tools|`. */
  function FirstIndexOf(role: Role, tools: seq<Tool>): (i: nat)
    ensures i <= |tools|
    ensures i < |tools| ==> role in tools[i].roles
    ensures forall j :: 0 <= j < i ==> role !in tools[j].roles
    decreases |tools|
  {
    if tools == [] then 0
    else if role in tools[0].roles then 0
    else 1 + FirstIndexOf(role, tools[1..])
  }

  /** `FindFirstInstanceOf(type, instances)`: the first tool that is an
      instance of the class, or None when there is none. */
  function FindFirstInstanceOf(role: Role, tools: seq<Tool>): (r: Option<Tool>)
    ensures r.None? <==> forall j :: 0 <= j < |tools| ==> role !in tools[j].roles
    ensures r.Some? ==> role in r.value.roles
    ensures r.Some? ==> exists i :: 0 <= i < |tools| && tools[i] == r.value &&
                          forall j :: 0 <= j < i ==> role !in tools[j].roles
  {
    var i := FirstIndexOf(role, tools);
    if i < |tools| then Some(tools[i]) else None
  }

  /** Putting a tool of the class in front of the list makes it the answer;
      putting one of another class there changes nothing. */
  lemma FindFirstInstanceOfCons(role: Role, t: Tool, tools: seq<Tool>)
    ensures role in t.roles ==> FindFirstInstanceOf(role, [t] + tools) == Some(t)
    ensures role !in t.roles ==> FindFirstInstanceOf(role, [t] + tools) == FindFirstInstanceOf(role, tools)
  {
    var ts := [t] + tools;
    FirstIndexOfCons(role, t, tools);
    ConsParts(t, tools);
  }

  lemma FirstIndexOfCons(role: Role, t: Tool, tools: seq<Tool>)
    ensures role in t.roles ==> FirstIndexOf(role, [t] + tools) == 0
    ensures role !in t.roles ==> FirstIndexOf(role, [t] + tools) == 1 + FirstIndexOf(role, tools)
  {
    ConsParts(t, tools);
  }

  lemma ConsParts<T>(x: T, xs: seq<T>)
    ensures ([x] + xs)[0] == x && ([x] + xs)[1..] == xs && |[x] + xs| == 1 + |xs|
    ensures forall i :: 0 <= i < |xs| ==> ([x] + xs)[1 + i] == xs[i]
  {
  }

  /** `GetNinjaRuleName(tool, toolset)`: platform-agnostic tools and tools of
      the target toolset keep the bare rule name; the rules of other toolsets
      carry the toolset as a suffix. */
  function GetNinjaRuleName(tool: Tool, toolset: string): (r: string)
    ensures tool.platformAgnostic || toolset == "target" ==> r == tool.ruleName
    ensures !tool.platformAgnostic && toolset != "target" ==> r == tool.ruleName + "_" + toolset
  {
    if tool.platformAgnostic || toolset == "target" then tool.ruleName
    else tool.ruleName + "_" + toolset
  }

  /** The rules a toolchain-specific tool gets for two different toolsets are
      different, so the target and host variants of a compiler never share a
      Ninja rule. */
  lemma GetNinjaRuleNameSeparatesToolsets(tool: Tool, t1: string, t2: string)
    requires !tool.platformAgnostic && t1 != t2
    ensures GetNinjaRuleName(tool, t1) != GetNinjaRuleName(tool, t2)
  {
    var a := GetNinjaRuleName(tool, t1);
    var b := GetNinjaRuleName(tool, t2);
    var n := |tool.ruleName|;
    if t1 != "target" && t2 != "target" {
      if |t1| == |t2| {
        assert exists k :: 0 <= k < |t1| && t1[k] != t2[k];
        var k :| 0 <= k < |t1| && t1[k] != t2[k];
        assert a[n + 1 + k] == t1[k];
        assert b[n + 1 + k] == t2[k];
      } else {
        assert |a| != |b|;
      }
    } else {
      assert |a| != |b|;
    }
  }

  // ---------------------------------------------------------------------
  // Configuration flags

  /** A configuration: the lists of flags it holds under each keyword. */
  type Config = map<string, seq<string>>

  /** The flag list `GetConfigFlags` reads before escaping: on the host
      toolset `<keyword>_host` when present, else `<keyword>`, else none. */
  function SelectedFlags(config: Config, toolset: string, keyword: string): (r: seq<string>)
    ensures toolset == "host" && keyword + "_host" in config ==> r == config[keyword + "_host"]
    ensures (toolset != "host" || keyword + "_host" !in config) && keyword in config ==> r == config[keyword]
    ensures (toolset != "host" || keyword + "_host" !in config) && keyword !in config ==> r == []
  {
    var flags := if keyword in config then config[keyword] else [];
    if toolset == "host" && keyword + "_host" in config then config[keyword + "_host"] else flags
  }

  /** Every `$` of `t` is one half of a `$$`, which Ninja reads as a
      literal dollar: `t` holds no lone `$` that would start a variable. */
  predicate DollarsPaired(t: string)
    decreases |t|
  {
    if t == [] then true
    else if t[0] != '$' then DollarsPaired(t[1..])
    else |t| >= 2 && t[1] == '$' && DollarsPaired(t[2..])
  }

  /** `flag.replace('$', '$$')`: protects a literal dollar from Ninja. The
      result has no lone `$`, and reading each `$$` back as `$` gives the
      flag again. */
  function EscapeDollars(s: string): (r: string)
    ensures DollarsPaired(r) && Replace(r, "$$", "$") == s
  {
    EscapeDollarsRoundTrip(s);
    Replace(s, "$", "$$")
  }

  /** Doubling every `$` leaves none alone, and Ninja reads `$$` back as one
      `$`, so escaping loses nothing. */
  lemma {:induction false} EscapeDollarsRoundTrip(s: string)
    ensures DollarsPaired(Replace(s, "$", "$$"))
    ensures Replace(Replace(s, "$", "$$"), "$$", "$") == s
    decreases |s|
  {
    if s != [] {
      var rest := Replace(s[1..], "$", "$$");
      EscapeDollarsRoundTrip(s[1..]);
      if s[0] == '$' {
        assert s[..1] == "$";
        assert Replace(s, "$", "$$") == "$$" + rest;
        assert ("$$" + rest)[..2] == "$$";
        assert ("$$" + rest)[2..] == rest;
        assert s == "$" + s[1..];
      } else {
        assert s[..1] != "$";
        assert Replace(s, "$", "$$") == [s[0]] + rest;
        assert ([s[0]] + rest)[1..] == rest;
        if |[s[0]] + rest| >= 2 {
          assert ([s[0]] + rest)[0] == s[0] != '$';
          assert ([s[0]] + rest)[..2] != "$$";
          assert ([s[0]] + rest)[1..] == rest;
        } else {
          assert rest == [];
          assert s[1..] == [];
        }
        assert s == [s[0]] + s[1..];
      }
    }
  }

  /** Reading a string with paired dollars back starts with its first
      character, and then goes on with the rest after that character or
      after its `$$`. */
  lemma UnescapeHead(t: string)
    requires DollarsPaired(t) && t != []
    ensures t[0] == '$' ==> |t| >= 2 && DollarsPaired(t[2..]) && Replace(t, "$$", "$") == "$" + Replace(t[2..], "$$", "$")
    ensures t[0] != '$' ==> DollarsPaired(t[1..]) && Replace(t, "$$", "$") == [t[0]] + Replace(t[1..], "$$", "$")
  {
    if t[0] == '$' {
      assert t[..2] == "$$";
    } else if |t| >= 2 {
      assert t[..2][0] == t[0];
    } else {
      assert t[1..] == [];
    }
  }

  /** On strings with paired dollars, reading `$$` back as `$` loses
      nothing: two such strings that read back alike are equal. So the
      contract of `EscapeDollars` fixes its result. */
  lemma {:induction false} EscapeDollarsUnique(a: string, b: string)
    requires DollarsPaired(a) && DollarsPaired(b) && Replace(a, "$$", "$") == Replace(b, "$$", "$")
    ensures a == b
    decreases |a|
  {
    if a == [] || b == [] {
      if a != [] { UnescapeHead(a); }
      if b != [] { UnescapeHead(b); }
    } else {
      UnescapeHead(a);
      UnescapeHead(b);
      assert Replace(a, "$$", "$")[0] == a[0] && Replace(b, "$$", "$")[0] == b[0];
      if a[0] == '$' {
        assert Replace(a[2..], "$$", "$") == Replace(a, "$$", "$")[1..];
        EscapeDollarsUnique(a[2..], b[2..]);
        assert a == a[..2] + a[2..] && b == b[..2] + b[2..];
      } else {
        assert Replace(a[1..], "$$", "$") == Replace(a, "$$", "$")[1..];
        EscapeDollarsUnique(a[1..], b[1..]);
        assert a == [a[0]] + a[1..] && b == [b[0]] + b[1..];
      }
    }
  }

  /** `GetConfigFlags(config, toolset, keyword)`: the selected flags with every
      `$` doubled, so no flag holds a lone `$`; unescaping gives back exactly
      the selected list. */
  function GetConfigFlags(config: Config, toolset: string, keyword: string): (r: seq<string>)
    ensures |r| == |SelectedFlags(config, toolset, keyword)|
    ensures forall i :: 0 <= i < |r| ==> r[i] == EscapeDollars(SelectedFlags(config, toolset, keyword)[i])
    ensures forall i :: 0 <= i < |r| ==> DollarsPaired(r[i])
    ensures forall i :: 0 <= i < |r| ==> Replace(r[i], "$$", "$") == SelectedFlags(config, toolset, keyword)[i]
  {
    var flags := SelectedFlags(config, toolset, keyword);
    seq(|flags|, i requires 0 <= i < |flags| => EscapeDollars(flags[i]))
  }

  /** A keyword the configuration does not hold gives no flags. */
  lemma GetConfigFlagsAbsent(config: Config, toolset: string, keyword: string)
    requires keyword !in config && keyword + "_host" !in config
    ensures GetConfigFlags(config, toolset, keyword) == []
  {
  }

  // ---------------------------------------------------------------------
  // Rule names

  /** The characters `[a-zA-Z0-9_]`. */
  predicate IsWordChar(c: char)
  {
    ('a' <= c <= 'z') || ('A' <= c <= 'Z') || ('0' <= c <= '9') || c == '_'
  }

  predicate AllWordChars(s: string)
  {
    forall i :: 0 <= i < |s| ==> IsWordChar(s[i])
  }

  /** `re.sub('[^a-zA-Z0-9_]', '_', s)`. */
  function Sanitize(s: string): (r: string)
    ensures |r| == |s| && AllWordChars(r)
    ensures forall i :: 0 <= i < |s| ==> (IsWordChar(s[i]) ==> r[i] == s[i]) && (!IsWordChar(s[i]) ==> r[i] == '_')
  {
    seq(|s|, i requires 0 <= i < |s| => if IsWordChar(s[i]) then s[i] else '_')
  }

  /** Sanitising twice is sanitising once, and a name that is already made of
      word characters is left alone. */
  lemma SanitizeIdempotent(s: string)
    ensures Sanitize(Sanitize(s)) == Sanitize(s)
    ensures AllWordChars(s) ==> Sanitize(s) == s
  {
  }

  lemma SanitizeConcat(a: string, b: string)
    ensures Sanitize(a + b) == Sanitize(a) + Sanitize(b)
  {
    assert forall i :: 0 <= i < |a + b| ==> (a + b)[i] == if i < |a| then a[i] else b[i - |a|];
  }

  /** The name `WriteNewNinjaRule` gives the rule of an action or a rule step
      `step` of target `name`: `<name>[.target].<step>` made of word
      characters, the dots becoming underscores. */
  function NinjaRuleName(name: string, toolset: string, step: string): (r: string)
    ensures AllWordChars(r)
    ensures |r| == |name| + (if toolset == "target" then 7 else 0) + 1 + |step|
    ensures AllWordChars(name) && AllWordChars(step) ==>
              r == name + (if toolset == "target" then "_target" else "") + "_" + step
  {
    var full := name + (if toolset == "target" then ".target" else "") + "." + step;
    SanitizeConcat(name + (if toolset == "target" then ".target" else "") + ".", step);
    SanitizeConcat(name + (if toolset == "target" then ".target" else ""), ".");
    SanitizeConcat(name, if toolset == "target" then ".target" else "");
    SanitizeIdempotent(name);
    SanitizeIdempotent(step);
    assert Sanitize(".") == "_";
    assert Sanitize(".target") == "_target";
    assert Sanitize("") == "";
    Sanitize(full)
  }
}
