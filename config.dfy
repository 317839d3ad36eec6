/** The pure helpers of src/ragstar/config.py: where a setting is looked up
    (environment, then the `settings` section, then the top level of the
    YAML file, then the default) and how the value found is turned into a
    string, an integer or a boolean. The environment and the two YAML
    mappings are given as maps; loading them is not modelled. */
module Config {
  import opened Text

  /** The YAML values a setting can hold: null, a boolean, an integer, a
      string or a list. */
  datatype Value = Null | Bool(b: bool) | Int(n: int) | Str(s: string) | List(items: seq<Value>)

  /** What reading a setting can raise. */
  datatype ConfigError =
    | ValueError(text: string)     // int() of a string that is not an integer
    | TypeError                    // int() of a list
    | Missing(key: string)         // a required setting that is unset or blank

  type Env = map<string, string>

  type Table = map<string, Value>

  // ---------------------------------------------------------------------
  // Decimal integers: str() and int() on them

  predicate IsDigit(c: char) { '0' <= c <= '9' }

  function DigitChar(d: nat): (c: char)
    requires d < 10
    ensures IsDigit(c)
  {
    ('0' as int + d) as char
  }

  function DigitValue(c: char): (d: nat)
    requires IsDigit(c)
    ensures d < 10 && DigitChar(d) == c
  {
    c as int - '0' as int
  }

  /** The decimal digits of n, without leading zeros. */
  function NatDigits(n: nat): (ds: string)
    ensures ds != [] && forall i :: 0 <= i < |ds| ==> IsDigit(ds[i])
    decreases n
  {
    if n < 10 then [DigitChar(n)] else NatDigits(n / 10) + [DigitChar(n % 10)]
  }

  /** The number a string of decimal digits denotes. */
  function DigitsValue(ds: string): (n: nat)
    requires forall i :: 0 <= i < |ds| ==> IsDigit(ds[i])
    decreases |ds|
  {
    if ds == [] then 0 else DigitsValue(ds[..|ds| - 1]) * 10 + DigitValue(ds[|ds| - 1])
  }

  lemma {:induction false} DigitsValueOfNatDigits(n: nat)
    ensures DigitsValue(NatDigits(n)) == n
    decreases n
  {
    if n >= 10 {
      var ds := NatDigits(n);
      DigitsValueOfNatDigits(n / 10);
      assert ds[..|ds| - 1] == NatDigits(n / 10);
    }
  }

  /** Python's str() of an int. */
  function IntToString(n: int): (s: string)
    ensures s != [] && !IsSpace(s[0]) && !IsSpace(s[|s| - 1])
  {
    if n < 0 then "-" + NatDigits(-n) else NatDigits(n)
  }

  /** The digits of int(): decimal digits with single underscores between
      them. */
  predicate ValidDigits(ds: string) {
    ds != [] && IsDigit(ds[0]) && IsDigit(ds[|ds| - 1]) &&
    (forall i :: 0 <= i < |ds| ==> IsDigit(ds[i]) || ds[i] == '_') &&
    (forall i :: 0 <= i < |ds| - 1 ==> ds[i] == '_' ==> ds[i + 1] != '_')
  }

  function DropUnderscores(ds: string): (r: string)
    ensures |r| <= |ds|
    ensures (forall i :: 0 <= i < |ds| ==> IsDigit(ds[i]) || ds[i] == '_') ==>
      forall i :: 0 <= i < |r| ==> IsDigit(r[i])
    ensures (forall i :: 0 <= i < |ds| ==> ds[i] != '_') ==> r == ds
    decreases |ds|
  {
    if ds == [] then []
    else if ds[|ds| - 1] == '_' then DropUnderscores(ds[..|ds| - 1])
    else DropUnderscores(ds[..|ds| - 1]) + [ds[|ds| - 1]]
  }

  /** The value int() gives for the stripped text t. */
  function ParseStripped(t: string): (r: Option<int>)
  {
    var negative := t != [] && t[0] == '-';
    var body := if t != [] && (t[0] == '-' || t[0] == '+') then t[1..] else t;
    if ValidDigits(body) then
      var magnitude: int := DigitsValue(DropUnderscores(body));
      Some(if negative then -magnitude else magnitude)
    else None
  }

  /** Python's int() of a string in base 10: surrounding whitespace, an
      optional sign, then the digits. */
  function ParseInt(text: string): (r: Result<int, ConfigError>)
    ensures StripSpace(text) == [] ==> r.Err?
    ensures r.Err? ==> r.error == ValueError(text)
  {
    match ParseStripped(StripSpace(text))
    case Some(n) => Ok(n)
    case None => Err(ValueError(text))
  }

  /** The digits str() writes are digits int() accepts, with no
      underscore to drop. */
  lemma NatDigitsValid(m: nat)
    ensures ValidDigits(NatDigits(m))
    ensures DropUnderscores(NatDigits(m)) == NatDigits(m)
  {
    var ds := NatDigits(m);
    assert forall i :: 0 <= i < |ds| ==> ds[i] != '_';
  }

  lemma ParseStrippedNat(m: nat, t: string)
    requires t == NatDigits(m)
    ensures ParseStripped(t) == Some(m)
  {
    assert IsDigit(t[0]);
    NatDigitsValid(m);
    DigitsValueOfNatDigits(m);
  }

  lemma ParseStrippedNegative(m: nat, t: string)
    requires t == "-" + NatDigits(m)
    ensures ParseStripped(t) == Some(-(m as int))
  {
    assert t[1..] == NatDigits(m);
    NatDigitsValid(m);
    DigitsValueOfNatDigits(m);
  }

  lemma IntToStringStripped(n: int)
    ensures StripSpace(IntToString(n)) == IntToString(n)
  {
    StripKeeps(IntToString(n), IsSpace);
  }

  lemma ParseStrippedIntToString(n: int)
    ensures ParseStripped(IntToString(n)) == Some(n)
  {
    if n < 0 {
      ParseStrippedNegative(-n, IntToString(n));
    } else {
      ParseStrippedNat(n, IntToString(n));
    }
  }

  /** int(str(n)) == n. */
  lemma {:induction false} ParseIntOfIntToString(n: int)
    ensures ParseInt(IntToString(n)) == Ok(n)
  {
    IntToStringStripped(n);
    ParseStrippedIntToString(n);
  }

  // ---------------------------------------------------------------------
  // str() of a value

  /** Python's str(): booleans and None by name, integers in decimal,
      strings as they are, lists as the repr of their items. */
  function PyStr(v: Value): (r: string)
    ensures v.Str? ==> r == v.s
    ensures r == [] <==> v == Str([])
    decreases v, 1
  {
    match v
    case Null => "None"
    case Bool(b) => if b then "True" else "False"
    case Int(n) => IntToString(n)
    case Str(s) => s
    case List(items) => "[" + Join(seq(|items|, i requires 0 <= i < |items| => Repr(items[i])), ", ") + "]"
  }

  /** Python's repr() of a list item: a string in single quotes, anything
      else as str() writes it. */
  function Repr(v: Value): (r: string)
    decreases v, 2
  {
    if v.Str? then "'" + v.s + "'" else PyStr(v)
  }

  // ---------------------------------------------------------------------
  // Lookups

  /** _get_config_value: the `settings` section first, then the top level,
      then the default. */
  function GetConfigValue(settings: Table, config: Table, key: string, default: Value): (v: Value)
    ensures v == default || (key in settings && v == settings[key]) || (key in config && v == config[key])
  {
    if key in settings then settings[key]
    else if key in config then config[key]
    else default
  }

  /** A key of the `settings` section hides the top-level key of the same
      name, whatever it holds, and the default. */
  lemma SettingsShadowTopLevel(settings: Table, config: Table, other: Table, key: string, d: Value, e: Value)
    requires key in settings
    ensures GetConfigValue(settings, config, key, d) == settings[key]
    ensures GetConfigValue(settings, config, key, d) == GetConfigValue(settings, other, key, e)
  {
  }

  /** The default is used only when neither mapping has the key. */
  lemma DefaultWhenAbsent(settings: Table, config: Table, key: string, d: Value)
    ensures GetConfigValue(settings, config, key, d) == d <==>
      (key in settings && settings[key] == d) ||
      (key !in settings && key in config && config[key] == d) ||
      (key !in settings && key !in config)
  {
  }

  /** _read_str. `default` None stands for the parameter's default. */
  function ReadStr(env: Env, settings: Table, config: Table, envName: string, key: string,
                   default: Option<string>): (r: Option<string>)
    ensures envName in env ==> r == Some(env[envName])
  {
    if envName in env then Some(env[envName])
    else
      var value := GetConfigValue(settings, config, key, if default.Some? then Str(default.value) else Null);
      if value.Null? then None
      else if value.Str? then Some(value.s)
      else Some(PyStr(value))
  }

  /** Without the environment variable the string read is str() of the
      value found, None exactly when that value is null. */
  lemma ReadStrOfValue(env: Env, settings: Table, config: Table, envName: string, key: string,
                       default: Option<string>)
    requires envName !in env
    ensures var v := GetConfigValue(settings, config, key, if default.Some? then Str(default.value) else Null);
      var r := ReadStr(env, settings, config, envName, key, default);
      (r.None? <==> v.Null?) && (r.Some? ==> r.value == PyStr(v))
  {
  }

  /** _read_required_str: an unset or blank setting raises. */
  function ReadRequiredStr(env: Env, settings: Table, config: Table, envName: string, key: string)
    : (r: Result<string, ConfigError>)
    ensures var v := ReadStr(env, settings, config, envName, key, None);
      (r.Err? <==> v.None? || StripSpace(v.value) == []) &&
      (r.Ok? ==> r.value == v.value) &&
      (r.Err? ==> r.error == Missing(key))
  {
    var value := ReadStr(env, settings, config, envName, key, None);
    if value.None? || StripSpace(value.value) == [] then Err(Missing(key)) else Ok(value.value)
  }

  /** Python's int() of a value. */
  function ToInt(v: Value): (r: Result<int, ConfigError>)
    ensures v.Int? ==> r == Ok(v.n)
    ensures v.Bool? ==> r == Ok(if v.b then 1 else 0)
    ensures v.Null? || v.List? ==> r == Err(TypeError)
    ensures v.Str? && r.Err? ==> r.error == ValueError(v.s)
  {
    match v
    case Null => Err(TypeError)
    case Bool(b) => Ok(if b then 1 else 0)
    case Int(n) => Ok(n)
    case Str(s) => ParseInt(s)
    case List(_) => Err(TypeError)
  }

  /** _read_int. */
  function ReadInt(env: Env, settings: Table, config: Table, envName: string, key: string, default: int)
    : (r: Result<int, ConfigError>)
    ensures envName in env ==> r == ParseInt(env[envName])
  {
    if envName in env then ParseInt(env[envName])
    else
      var value := GetConfigValue(settings, config, key, Int(default));
      if !value.Null? then ToInt(value) else Ok(default)
  }

  /** An integer read back from its own decimal text in the environment. */
  lemma ReadIntFromEnv(env: Env, settings: Table, config: Table, envName: string,
                       key: string, default: int, n: int)
    requires envName in env && env[envName] == IntToString(n)
    ensures ReadInt(env, settings, config, envName, key, default) == Ok(n)
  {
    ParseIntOfIntToString(n);
  }

  /** Without the environment variable, a YAML integer n, or the string
      str(n), reads as n. */
  lemma ReadIntFromConfig(env: Env, settings: Table, config: Table, envName: string,
                          key: string, default: int, n: int)
    requires envName !in env
    requires GetConfigValue(settings, config, key, Int(default)) == Int(n) ||
             GetConfigValue(settings, config, key, Int(default)) == Str(IntToString(n))
    ensures ReadInt(env, settings, config, envName, key, default) == Ok(n)
  {
    var v := GetConfigValue(settings, config, key, Int(default));
    if v.Str? {
      var text := v.s;
      assert ToInt(v) == ParseInt(text);
      ParseIntOfIntToString(n);
    }
  }

  /** Without the environment variable, a null value or a key found in
      neither mapping gives the default. */
  lemma ReadIntDefault(env: Env, settings: Table, config: Table, envName: string, key: string, default: int)
    requires envName !in env
    requires GetConfigValue(settings, config, key, Int(default)).Null? || (key !in settings && key !in config)
    ensures ReadInt(env, settings, config, envName, key, default) == Ok(default)
  {
  }

  /** The truthy strings of _read_bool. */
  predicate Truthy(s: string)
    ensures Truthy(s) ==> 1 <= |StripSpace(s)| <= 4
  {
    Lower(StripSpace(s)) in {"1", "true", "yes", "on"}
  }

  /** _read_bool. */
  function ReadBool(env: Env, settings: Table, config: Table, envName: string, key: string, default: bool)
    : (r: bool)
    ensures envName in env ==> (r <==> Truthy(env[envName]))
  {
    if envName in env then Truthy(env[envName])
    else
      var value := GetConfigValue(settings, config, key, Bool(default));
      if value.Bool? then value.b
      else if value.Null? then default
      else Truthy(PyStr(value))
  }

  /** Without the environment variable: a boolean passes through, null
      gives the default, and anything else is judged by its str(). */
  lemma ReadBoolOfValue(env: Env, settings: Table, config: Table, envName: string, key: string, default: bool)
    requires envName !in env
    ensures var v := GetConfigValue(settings, config, key, Bool(default));
      var r := ReadBool(env, settings, config, envName, key, default);
      (v.Bool? ==> r == v.b) && (v.Null? ==> r == default) &&
      (!v.Bool? && !v.Null? ==> (r <==> Truthy(PyStr(v))))
  {
  }

  /** _read_include_patterns. */
  function ReadIncludePatterns(env: Env, settings: Table, config: Table, envName: string, key: string,
                               default: string): (r: string)
    ensures envName in env ==> r == env[envName]
    ensures envName !in env && GetConfigValue(settings, config, key, Str(default)).Null? ==> r == default
    ensures envName !in env && key !in settings && key !in config ==> r == default
  {
    if envName in env then env[envName]
    else
      var value := GetConfigValue(settings, config, key, Str(default));
      if value.Null? then default
      else if value.List? then Join(seq(|value.items|, i requires 0 <= i < |value.items| => PyStr(value.items[i])), ",")
      else PyStr(value)
  }

  /** A list of patterns is joined with commas, each item as str() writes
      it. */
  lemma {:induction false} IncludePatternsOfList(env: Env, settings: Table, config: Table, envName: string,
                                                key: string, default: string, a: string, b: string)
    requires envName !in env
    requires GetConfigValue(settings, config, key, Str(default)) == List([Str(a), Str(b)])
    ensures ReadIncludePatterns(env, settings, config, envName, key, default) == a + "," + b
  {
    var items := [Str(a), Str(b)];
    var strs := seq(|items|, i requires 0 <= i < |items| => PyStr(items[i]));
    assert strs == [a, b];
    assert strs[1..] == [b];
    assert Join(strs, ",") == a + "," + Join([b], ",");
  }

  // ---------------------------------------------------------------------
  // The pull URL

  const GenerateSuffix := "/api/generate"

  const PullSuffix := "/api/pull"

  /** _derive_ollama_pull_url. */
  function DerivePullUrl(generateUrl: string): (r: string)
    ensures EndsWith(r, PullSuffix)
  {
    var trimmed := TrimEnd(generateUrl, IsSlash);
    var base := if EndsWith(trimmed, GenerateSuffix) then trimmed[..|trimmed| - |GenerateSuffix|] else trimmed;
    var r := base + PullSuffix;
    assert r[|r| - |PullSuffix|..] == PullSuffix;
    r
  }

  /** The generate endpoint of a server becomes its pull endpoint. */
  lemma {:induction false} PullUrlOfGenerateUrl(server: string)
    ensures DerivePullUrl(server + GenerateSuffix) == server + PullSuffix
  {
    var u := server + GenerateSuffix;
    assert u[|u| - 1] == 'e';
    assert TrimEnd(u, IsSlash) == u;
    assert u[|u| - |GenerateSuffix|..] == GenerateSuffix;
    assert u[..|u| - |GenerateSuffix|] == server;
  }

  /** Trailing slashes make no difference. */
  lemma {:induction false} PullUrlIgnoresTrailingSlash(url: string)
    ensures DerivePullUrl(url + "/") == DerivePullUrl(url)
  {
    TrimEndDropped(url, '/', IsSlash);
  }

  /** Any other URL keeps all but its trailing slashes and gains the pull
      path. */
  lemma {:induction false} PullUrlAppends(url: string)
    requires !EndsWith(TrimEnd(url, IsSlash), GenerateSuffix)
    ensures DerivePullUrl(url) == TrimEnd(url, IsSlash) + PullSuffix
  {
  }
}
