/** How the build tools pick the default build configuration and platform
    from the environment: `BUILD_TYPE` and `BUILD_PLATFORM` first, each on
    its own, and `BUILD_CONFIGURATION` (`<platform>_<config>`) only for
    the parts they leave unset.

    The environment is a map from variable names to values, and the valid
    configurations and platforms are sets of names. A warning that would be
    logged is returned in `warnings` instead. */
module BuildDefaults {
  import opened Wrappers

  const ConfigKey := "BUILD_TYPE"
  const PlatformKey := "BUILD_PLATFORM"
  const ConfigurationKey := "BUILD_CONFIGURATION"

  /** A warning logged on the way. */
  datatype Warning =
    | InvalidValue(key: string, raw: string)   // the value is not a valid name
    | MissingUnderscore                        // `BUILD_CONFIGURATION` has no '_'

  /** The config name, the platform name, and the warnings logged. */
  datatype Defaults = Defaults(config: Option<string>, platform: Option<string>, warnings: seq<Warning>)

  /** `str.lower()` on ASCII letters. */
  function Lower(s: string): (r: string)
    ensures |r| == |s|
    ensures forall i :: 0 <= i < |s| ==> if 'A' <= s[i] <= 'Z' then r[i] == (s[i] as int + 32) as char else r[i] == s[i]
  {
    if s == [] then [] else
      var c := s[0];
      [if 'A' <= c <= 'Z' then (c as int + 32) as char else c] + Lower(s[1..])
  }

  predicate NoUpper(s: string)
  {
    forall i :: 0 <= i < |s| ==> !('A' <= s[i] <= 'Z')
  }

  /** Python truthiness of an optional name: `None` and `''` are false. */
  predicate IsSet(name: Option<string>)
  {
    name.Some? && name.value != ""
  }

  /** `_CheckConfig` / `_CheckPlatform`: whether `value` is valid, with the
      warning logged when it is not. */
  function Check(valid: set<string>, key: string, raw: string, value: string): (r: (bool, seq<Warning>))
    ensures r.0 <==> value in valid
    ensures r.1 == if r.0 then [] else [InvalidValue(key, raw)]
  {
    if value in valid then (true, []) else (false, [InvalidValue(key, raw)])
  }

  /** The name one variable gives on its own: its lower-cased value when it
      is present and valid. */
  function FromVariable(env: map<string, string>, key: string, valid: set<string>): (r: (Option<string>, seq<Warning>))
    ensures key !in env ==> r == (None, [])
    ensures key in env && Lower(env[key]) in valid ==> r == (Some(Lower(env[key])), [])
    ensures key in env && Lower(env[key]) !in valid ==> r == (None, [InvalidValue(key, env[key])])
  {
    if key !in env then (None, [])
    else
      var check := Check(valid, key, env[key], Lower(env[key]));
      (if check.0 then Some(Lower(env[key])) else None, check.1)
  }

  /** The index of the first '_' in `s`. */
  function FirstUnderscore(s: string): (i: Option<nat>)
    ensures i.Some? <==> '_' in s
    ensures i.Some? ==> i.value < |s| && s[i.value] == '_' && '_' !in s[..i.value]
  {
    if s == [] then None
    else if s[0] == '_' then Some(0)
    else
      var rest := FirstUnderscore(s[1..]);
      if rest.None? then None
      else
        assert s[..rest.value + 1] == [s[0]] + s[1..][..rest.value];
        Some(rest.value + 1)
  }

  /** `s.split('_', 1)` for an `s` with a '_': what precedes the first '_'
      and everything after it. */
  function SplitFirst(s: string): (r: (string, string))
    requires '_' in s
    ensures r.0 + "_" + r.1 == s && '_' !in r.0
  {
    var i := FirstUnderscore(s).value;
    assert s == s[..i] + "_" + s[i + 1..];
    (s[..i], s[i + 1..])
  }

  /** `GetDefaultConfigAndPlatform()`. */
  function GetDefaultConfigAndPlatform(env: map<string, string>, configs: set<string>, platforms: set<string>): (r: Defaults)
    ensures r.config.Some? ==> r.config.value in configs && NoUpper(r.config.value)
    ensures r.platform.Some? ==> r.platform.value in platforms && NoUpper(r.platform.value)
    ensures IsSet(FromVariable(env, ConfigKey, configs).0) ==> r.config == FromVariable(env, ConfigKey, configs).0
    ensures IsSet(FromVariable(env, PlatformKey, platforms).0) ==> r.platform == FromVariable(env, PlatformKey, platforms).0
  {
    var (config, w1) := FromVariable(env, ConfigKey, configs);
    var (platform, w2) := FromVariable(env, PlatformKey, platforms);
    LowerNoUpper(if ConfigKey in env then env[ConfigKey] else "");
    LowerNoUpper(if PlatformKey in env then env[PlatformKey] else "");
    if IsSet(config) && IsSet(platform) then Defaults(config, platform, w1 + w2)
    else if ConfigurationKey !in env then Defaults(config, platform, w1 + w2)
    else
      var filled := FromConfiguration(env[ConfigurationKey], Defaults(config, platform, w1 + w2), configs, platforms);
      filled
  }

  /** The rest of `GetDefaultConfigAndPlatform` once `BUILD_CONFIGURATION`
      is consulted: `soFar` holds what the two variables gave. */
  function FromConfiguration(raw: string, soFar: Defaults, configs: set<string>, platforms: set<string>): (r: Defaults)
    requires soFar.config.Some? ==> soFar.config.value in configs && NoUpper(soFar.config.value)
    requires soFar.platform.Some? ==> soFar.platform.value in platforms && NoUpper(soFar.platform.value)
    ensures r.config.Some? ==> r.config.value in configs && NoUpper(r.config.value)
    ensures r.platform.Some? ==> r.platform.value in platforms && NoUpper(r.platform.value)
    ensures IsSet(soFar.config) ==> r.config == soFar.config
    ensures IsSet(soFar.platform) ==> r.platform == soFar.platform
  {
    var configuration := Lower(raw);
    if '_' !in configuration then Defaults(soFar.config, soFar.platform, soFar.warnings + [MissingUnderscore])
    else
      var (platformPart, configPart) := SplitFirst(configuration);
      LowerNoUpper(raw);
      SplitNoUpper(configuration, platformPart, configPart);
      var (config, w3) :=
        if IsSet(soFar.config) then (soFar.config, [])
        else
          var check := Check(configs, ConfigurationKey, raw, configPart);
          (if check.0 then Some(configPart) else soFar.config, check.1);
      var (platform, w4) :=
        if IsSet(soFar.platform) then (soFar.platform, [])
        else
          var check := Check(platforms, ConfigurationKey, raw, platformPart);
          (if check.0 then Some(platformPart) else soFar.platform, check.1);
      Defaults(config, platform, soFar.warnings + w3 + w4)
  }

  lemma SplitNoUpper(s: string, a: string, b: string)
    requires NoUpper(s) && s == a + "_" + b
    ensures NoUpper(a) && NoUpper(b)
  {
    assert forall i :: 0 <= i < |a| ==> a[i] == s[i];
    assert forall i :: 0 <= i < |b| ==> b[i] == s[|a| + 1 + i];
  }

  lemma LowerNoUpper(s: string)
    ensures NoUpper(Lower(s))
  {
  }

  // -----------------------------------------------------------------------
  // Properties

  /** Both variables valid and non-empty: the pair comes from them, and
      `BUILD_CONFIGURATION` is not consulted. */
  lemma BothValidIgnoresConfiguration(env: map<string, string>, configs: set<string>, platforms: set<string>, value: string)
    requires IsSet(FromVariable(env, ConfigKey, configs).0) && IsSet(FromVariable(env, PlatformKey, platforms).0)
    ensures var r := GetDefaultConfigAndPlatform(env, configs, platforms);
            r.config == Some(Lower(env[ConfigKey])) && r.platform == Some(Lower(env[PlatformKey])) &&
            r == GetDefaultConfigAndPlatform(env[ConfigurationKey := value], configs, platforms) &&
            r == GetDefaultConfigAndPlatform(env - {ConfigurationKey}, configs, platforms)
  {
    var env1 := env[ConfigurationKey := value];
    var env2 := env - {ConfigurationKey};
    assert ConfigKey in env1 && env1[ConfigKey] == env[ConfigKey] && PlatformKey in env1 && env1[PlatformKey] == env[PlatformKey];
    assert ConfigKey in env2 && env2[ConfigKey] == env[ConfigKey] && PlatformKey in env2 && env2[PlatformKey] == env[PlatformKey];
  }

  /** Without `BUILD_CONFIGURATION`, or with one lacking '_', the pair is
      what the two variables give on their own; only the second case
      warns about it. */
  lemma NoUsableConfiguration(env: map<string, string>, configs: set<string>, platforms: set<string>)
    requires ConfigurationKey !in env || '_' !in Lower(env[ConfigurationKey])
    ensures var r := GetDefaultConfigAndPlatform(env, configs, platforms);
            r.config == FromVariable(env, ConfigKey, configs).0 &&
            r.platform == FromVariable(env, PlatformKey, platforms).0 &&
            (MissingUnderscore in r.warnings ==> ConfigurationKey in env)
  {
  }

  /** When `BUILD_CONFIGURATION` fills the config, the config is everything
      after the first '_' of its lower-cased value, '_'s included, and the
      platform, when filled, is everything before it. */
  lemma ConfigurationSplit(env: map<string, string>, configs: set<string>, platforms: set<string>)
    requires ConfigurationKey in env && '_' in Lower(env[ConfigurationKey])
    ensures var r := GetDefaultConfigAndPlatform(env, configs, platforms);
            var s := Lower(env[ConfigurationKey]);
            var i := FirstUnderscore(s).value;
            var config := FromVariable(env, ConfigKey, configs).0;
            var platform := FromVariable(env, PlatformKey, platforms).0;
            (!(IsSet(config) && IsSet(platform)) && !IsSet(config) && s[i + 1..] in configs ==>
              r.config == Some(s[i + 1..])) &&
            (!(IsSet(config) && IsSet(platform)) && !IsSet(config) && s[i + 1..] !in configs ==>
              r.config == config && InvalidValue(ConfigurationKey, env[ConfigurationKey]) in r.warnings) &&
            (!(IsSet(config) && IsSet(platform)) && !IsSet(platform) && s[..i] in platforms ==>
              r.platform == Some(s[..i])) &&
            (!(IsSet(config) && IsSet(platform)) && !IsSet(platform) && s[..i] !in platforms ==>
              r.platform == platform && InvalidValue(ConfigurationKey, env[ConfigurationKey]) in r.warnings)
  {
    var s := Lower(env[ConfigurationKey]);
    var i := FirstUnderscore(s).value;
    var parts := SplitFirst(s);
    assert s == s[..i] + "_" + s[i + 1..];
    SplitUnique(s, parts.0, parts.1, s[..i], s[i + 1..]);
  }

  /** Two splits of a string at a '_' that have no '_' in their first part
      are the same split. */
  lemma SplitUnique(s: string, a: string, b: string, c: string, d: string)
    requires a + "_" + b == s && c + "_" + d == s && '_' !in a && '_' !in c
    ensures a == c && b == d
  {
    UnderscoreAt(a, b, s);
    UnderscoreAt(c, d, s);
    assert |a| == |c|;
    assert a == s[..|a|] == c;
    assert b == s[|a| + 1..] == d;
  }

  /** The first '_' of `x + "_" + y` is at `|x|` when `x` has none. */
  lemma UnderscoreAt(x: string, y: string, s: string)
    requires x + "_" + y == s && '_' !in x
    ensures s[|x|] == '_' && forall i :: 0 <= i < |x| ==> s[i] != '_'
  {
    assert forall i :: 0 <= i < |x| ==> s[i] == x[i];
  }

  /** An invalid variable leaves its part unset unless
      `BUILD_CONFIGURATION` fills it, and is reported, never raised. */
  lemma InvalidVariableWarns(env: map<string, string>, configs: set<string>, platforms: set<string>)
    requires ConfigKey in env && Lower(env[ConfigKey]) !in configs
    ensures var r := GetDefaultConfigAndPlatform(env, configs, platforms);
            InvalidValue(ConfigKey, env[ConfigKey]) in r.warnings &&
            (ConfigurationKey !in env ==> r.config == None)
  {
  }
}
