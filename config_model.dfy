/**
 * The pydantic side of `base/service_config.py`: the `Config` model
 * (lines 13-81), its `dict()` and `parse_obj`, the overlay run with
 * `model=Config`, and `update_config`, which assigns the free-form
 * `external_resources` and `rules` fields of the config object in place.
 */
module ConfigModel {
  import opened Results
  import opened Text
  import opened ConfigTree
  import opened ServiceConfig

  /** The declared fields of `ServiceConfig`, `LoggerConfig` and `AvailableEnvironmentVariables`. */
  const ServiceFields: set<string> :=
    {"name", "mode", "development_port", "description", "apidoc_dir", "readme",
     "allowed_hosts", "use_prometheus", "use_default_endpoints"}
  const LoggerFields: set<string> := {"path", "filename", "level", "rotation", "retention", "format"}
  const EnvironmentFields: set<string> := {"env_vars", "external_resources_env_vars", "rules_env_vars"}

  /** The declared fields of type `List[str]`: every field of `AvailableEnvironmentVariables`, two of `ServiceConfig`. */
  const ServiceListFields: set<string> := {"allowed_hosts", "use_default_endpoints"}

  /** The declared fields of type `str`: every field of `LoggerConfig`, five of `ServiceConfig`. */
  const ServiceStrFields: set<string> := {"name", "mode", "description", "apidoc_dir", "readme"}

  /** The typed sections of `Config`. */
  const TypedSectionNames: set<string> := {"service", "logger", "available_environment_variables"}

  /** The declared fields of a typed section. */
  function FieldsOf(section: string): set<string> {
    if section == "service" then ServiceFields
    else if section == "logger" then LoggerFields
    else if section == "available_environment_variables" then EnvironmentFields
    else {}
  }

  /** The `List[str]` fields of a typed section. */
  function ListFieldsOf(section: string): set<string> {
    if section == "service" then ServiceListFields
    else if section == "available_environment_variables" then EnvironmentFields
    else {}
  }

  /** The `str` fields of a typed section. */
  function StrFieldsOf(section: string): set<string> {
    if section == "service" then ServiceStrFields
    else if section == "logger" then LoggerFields
    else {}
  }

  /** Every `List[str]` field holds a list. */
  predicate ListsFit(m: map<string, Value>, lists: set<string>) {
    forall f :: f in lists ==> f in m && m[f].List?
  }

  /** The keys of `Config.dict()`. */
  const SectionNames: set<string> :=
    {"service", "logger", "available_environment_variables", "external_resources", "rules"}

  /** The content of a `Config`: three typed sections and two free-form ones. */
  datatype Sections = Sections(
    service: map<string, Value>,
    logger: map<string, Value>,
    availableEnvironmentVariables: map<string, Value>,
    externalResources: Value,
    rules: Value)

  /** `dict = None`: a free-form section is a mapping or absent. */
  predicate FreeForm(v: Value) {
    v.Null? || v.Dict?
  }

  /** What pydantic guarantees of a validated `Config`. */
  predicate WellFormed(s: Sections) {
    s.service.Keys == ServiceFields && s.logger.Keys == LoggerFields &&
    s.availableEnvironmentVariables.Keys == EnvironmentFields &&
    ListsFit(s.service, ServiceListFields) && ListsFit(s.availableEnvironmentVariables, EnvironmentFields) &&
    FreeForm(s.externalResources) && FreeForm(s.rules)
  }

  /** `config.dict()`. */
  function ToTree(s: Sections): (r: Value)
    ensures r.Dict? && r.entries.Keys == SectionNames
  {
    Dict(map[
      "service" := Dict(s.service),
      "logger" := Dict(s.logger),
      "available_environment_variables" := Dict(s.availableEnvironmentVariables),
      "external_resources" := s.externalResources,
      "rules" := s.rules])
  }

  /**
   * A typed section: present, a mapping, every declared field there and
   * every `List[str]` field a list; undeclared keys are dropped.
   */
  function TypedSection(t: map<string, Value>, key: string): (r: Result<map<string, Value>, ConfigError>)
    ensures r.Ok? <==> key in t && t[key].Dict? && FieldsOf(key) <= t[key].entries.Keys &&
                       ListsFit(t[key].entries, ListFieldsOf(key))
    ensures r.Ok? ==> r.value.Keys == FieldsOf(key) && forall f :: f in FieldsOf(key) ==> r.value[f] == t[key].entries[f]
    ensures r.Err? ==> r.error == ValidationError(key)
  {
    var fields := FieldsOf(key);
    if key in t && t[key].Dict? && fields <= t[key].entries.Keys && ListsFit(t[key].entries, ListFieldsOf(key)) then
      Ok(map f | f in fields :: t[key].entries[f])
    else Err(ValidationError(key))
  }

  /** A free-form section: absent means `None`; otherwise a mapping or `None`. */
  function FreeFormSection(t: map<string, Value>, key: string): (r: Result<Value, ConfigError>)
    ensures r.Ok? <==> key !in t || FreeForm(t[key])
    ensures r.Ok? ==> r.value == (if key in t then t[key] else Null)
    ensures r.Err? ==> r.error == ValidationError(key)
  {
    if key !in t then Ok(Null)
    else if FreeForm(t[key]) then Ok(t[key])
    else Err(ValidationError(key))
  }

  /**
   * `Config.parse_obj(tree)`, as a shape check: the first section, in
   * declaration order, that does not fit is reported.
   */
  function ParseObj(t: Value): (r: Result<Sections, ConfigError>)
    ensures r.Ok? ==> WellFormed(r.value)
  {
    if !t.Dict? then Err(ValidationError("__root__"))
    else
      var d := t.entries;
      match TypedSection(d, "service")
      case Err(e) => Err(e)
      case Ok(service) =>
        match TypedSection(d, "logger")
        case Err(e) => Err(e)
        case Ok(logger) =>
          match TypedSection(d, "available_environment_variables")
          case Err(e) => Err(e)
          case Ok(vars) =>
            match FreeFormSection(d, "external_resources")
            case Err(e) => Err(e)
            case Ok(er) =>
              match FreeFormSection(d, "rules")
              case Err(e) => Err(e)
              case Ok(rules) => Ok(Sections(service, logger, vars, er, rules))
  }

  /** What a successful validation returns, section by section. */
  lemma ParseObjAccepted(t: Value, s: Sections)
    requires ParseObj(t) == Ok(s)
    ensures t.Dict?
    ensures TypedSection(t.entries, "service") == Ok(s.service)
    ensures TypedSection(t.entries, "logger") == Ok(s.logger)
    ensures TypedSection(t.entries, "available_environment_variables") == Ok(s.availableEnvironmentVariables)
    ensures FreeFormSection(t.entries, "external_resources") == Ok(s.externalResources)
    ensures FreeFormSection(t.entries, "rules") == Ok(s.rules)
  {
  }

  /** A mapping whose every section validates validates to those sections. */
  lemma ParseObjAccepts(d: map<string, Value>, s: Sections)
    requires TypedSection(d, "service") == Ok(s.service)
    requires TypedSection(d, "logger") == Ok(s.logger)
    requires TypedSection(d, "available_environment_variables") == Ok(s.availableEnvironmentVariables)
    requires FreeFormSection(d, "external_resources") == Ok(s.externalResources)
    requires FreeFormSection(d, "rules") == Ok(s.rules)
    ensures ParseObj(Dict(d)) == Ok(s)
  {
  }

  /** A section holding exactly the declared fields validates to itself. */
  lemma TypedSectionExact(d: map<string, Value>, key: string, m: map<string, Value>)
    requires key in d && d[key] == Dict(m) && m.Keys == FieldsOf(key) && ListsFit(m, ListFieldsOf(key))
    ensures TypedSection(d, key) == Ok(m)
  {
    assert (map f | f in FieldsOf(key) :: d[key].entries[f]) == m;
  }

  /** Re-validating the `dict()` of a valid config gives it back. */
  lemma ParseObjToTree(s: Sections)
    requires WellFormed(s)
    ensures ParseObj(ToTree(s)) == Ok(s)
  {
    var d := ToTree(s).entries;
    TypedSectionExact(d, "service", s.service);
    TypedSectionExact(d, "logger", s.logger);
    TypedSectionExact(d, "available_environment_variables", s.availableEnvironmentVariables);
    ParseObjAccepts(d, s);
  }

  /** Validation keeps every declared field of the tree, so `dict()` of the result agrees with the tree there. */
  lemma ParseObjKeepsFields(t: Value, s: Sections, section: string, field: string)
    requires ParseObj(t) == Ok(s)
    requires section in TypedSectionNames && field in FieldsOf(section)
    ensures Lookup(ToTree(s), [section, field]) == Lookup(t, [section, field])
  {
    ParseObjAccepted(t, s);
    var kept := if section == "service" then s.service else if section == "logger" then s.logger
                else s.availableEnvironmentVariables;
    assert TypedSection(t.entries, section) == Ok(kept);
    assert ToTree(s).entries[section] == Dict(kept);
    assert [section, field][1..] == [field];
    LookupStep(ToTree(s).entries, [section, field]);
    LookupStep(t.entries, [section, field]);
  }

  // ---------------------------------------------------------------------------
  // The overlay with `model=Config`

  /** One iteration with a model: `config.dict()`, write, `Config.parse_obj`. */
  function TypedStep(servicename: string, suffix: string, s: Sections, env: map<string, string>): (r: Result<Sections, ConfigError>)
    ensures r.Ok? && WellFormed(s) ==> WellFormed(r.value)
  {
    if Applied(servicename, suffix, env) then
      match UseEnvironmentValue(ToTree(s), KeyPath(servicename, suffix), env[EnvVarName(servicename, suffix)])
      case Ok(t) => ParseObj(t)
      case Err(e) => Err(e)
    else Ok(s)
  }

  /** The overlay with a model, re-validating after every write. */
  function TypedOverlay(servicename: string, suffixes: seq<string>, s: Sections, env: map<string, string>): (r: Result<Sections, ConfigError>)
    ensures r.Ok? && WellFormed(s) ==> WellFormed(r.value)
    decreases |suffixes|
  {
    if |suffixes| == 0 then Ok(s)
    else
      match TypedOverlay(servicename, suffixes[..|suffixes| - 1], s, env)
      case Ok(c) => TypedStep(servicename, suffixes[|suffixes| - 1], c, env)
      case Err(e) => Err(e)
  }

  /** With no variable applied, the typed overlay changes nothing. */
  lemma {:induction false} TypedOverlayUnset(servicename: string, suffixes: seq<string>, s: Sections, env: map<string, string>)
    requires !AnyApplied(servicename, suffixes, env)
    ensures TypedOverlay(servicename, suffixes, s, env) == Ok(s)
    decreases |suffixes|
  {
    if |suffixes| > 0 {
      var init := suffixes[..|suffixes| - 1];
      assert !AnyApplied(servicename, init, env) by {
        forall i | 0 <= i < |init| ensures !Applied(servicename, init[i], env) {
          assert init[i] == suffixes[i];
        }
      }
      TypedOverlayUnset(servicename, init, s, env);
      assert !Applied(servicename, suffixes[|suffixes| - 1], env);
    }
  }

  /** The declared field paths `section.field` of the typed sections. */
  predicate DeclaredField(keys: seq<string>) {
    |keys| == 2 && keys[0] in TypedSectionNames && keys[1] in FieldsOf(keys[0])
  }

  /** The field paths `section.field` of the `str`-typed fields, which take a written string as it is. */
  predicate StrField(keys: seq<string>) {
    |keys| == 2 && keys[0] in TypedSectionNames && keys[1] in StrFieldsOf(keys[0])
  }

  /** The config with one declared field set to `v`. */
  function SetField(s: Sections, keys: seq<string>, v: Value): Sections
    requires DeclaredField(keys)
  {
    if keys[0] == "service" then s.(service := s.service[keys[1] := v])
    else if keys[0] == "logger" then s.(logger := s.logger[keys[1] := v])
    else s.(availableEnvironmentVariables := s.availableEnvironmentVariables[keys[1] := v])
  }

  /** A write two levels down into an existing mapping. */
  lemma UpdateInTwo(d: map<string, Value>, k1: string, k2: string, v: Value)
    requires k1 in d && d[k1].Dict?
    ensures UpdateIn(d, [k1, k2], v) == Ok(d[k1 := Dict(d[k1].entries[k2 := v])])
  {
    assert [k1, k2][1..] == [k2];
  }

  /** Setting a declared field is the two-level write into `dict()`. */
  lemma ToTreeSetField(s: Sections, keys: seq<string>, v: Value)
    requires DeclaredField(keys)
    ensures ToTree(SetField(s, keys, v)).entries ==
            ToTree(s).entries[keys[0] := Dict(ToTree(s).entries[keys[0]].entries[keys[1] := v])]
  {
    if keys[0] == "service" {
      ToTreeSetService(s, s.service[keys[1] := v]);
    } else if keys[0] == "logger" {
      ToTreeSetLogger(s, s.logger[keys[1] := v]);
    } else {
      ToTreeSetEnvironment(s, s.availableEnvironmentVariables[keys[1] := v]);
    }
  }

  lemma ToTreeSetService(s: Sections, m: map<string, Value>)
    ensures ToTree(s.(service := m)).entries == ToTree(s).entries["service" := Dict(m)]
  {
  }

  lemma ToTreeSetLogger(s: Sections, m: map<string, Value>)
    ensures ToTree(s.(logger := m)).entries == ToTree(s).entries["logger" := Dict(m)]
  {
  }

  lemma ToTreeSetEnvironment(s: Sections, m: map<string, Value>)
    ensures ToTree(s.(availableEnvironmentVariables := m)).entries ==
            ToTree(s).entries["available_environment_variables" := Dict(m)]
  {
  }

  /** A write to a `str` field survives re-validation, and its `dict()` is the updated tree. */
  lemma TypedFieldWrite(s: Sections, keys: seq<string>, content: string)
    requires WellFormed(s) && StrField(keys)
    ensures UseEnvironmentValue(ToTree(s), keys, content).Ok?
    ensures ParseObj(UseEnvironmentValue(ToTree(s), keys, content).value) == Ok(SetField(s, keys, Str(content)))
    ensures ToTree(SetField(s, keys, Str(content))) == UseEnvironmentValue(ToTree(s), keys, content).value
  {
    var s2 := SetField(s, keys, Str(content));
    var d := ToTree(s).entries;
    assert keys == [keys[0], keys[1]];
    UpdateInTwo(d, keys[0], keys[1], Str(content));
    ToTreeSetField(s, keys, Str(content));
    assert WellFormed(s2);
    ParseObjToTree(s2);
  }

  /** A string written to a `List[str]` field fails re-validation of its section. */
  lemma TypedListFieldRejected(s: Sections, section: string, field: string, content: string)
    requires WellFormed(s)
    requires section in TypedSectionNames && field in ListFieldsOf(section)
    ensures UseEnvironmentValue(ToTree(s), [section, field], content).Ok?
    ensures ParseObj(UseEnvironmentValue(ToTree(s), [section, field], content).value) == Err(ValidationError(section))
  {
    var d := ToTree(s).entries;
    UpdateInTwo(d, section, field, Str(content));
    var e := d[section := Dict(d[section].entries[field := Str(content)])];
    assert !ListsFit(e[section].entries, ListFieldsOf(section));
    if section == "available_environment_variables" {
      TypedSectionExact(e, "service", s.service);
      TypedSectionExact(e, "logger", s.logger);
    }
  }

  /** A write under a typed section to a key it does not declare is dropped by validation. */
  lemma TypedUndeclaredKeyDropped(s: Sections, section: string, key: string, content: string)
    requires WellFormed(s)
    requires section in TypedSectionNames && key !in FieldsOf(section)
    ensures UseEnvironmentValue(ToTree(s), [section, key], content).Ok?
    ensures ParseObj(UseEnvironmentValue(ToTree(s), [section, key], content).value) == Ok(s)
  {
    var d := ToTree(s).entries;
    UpdateInTwo(d, section, key, Str(content));
    if section == "service" {
      ExtraKeyInService(s, key, Str(content));
    } else if section == "logger" {
      ExtraKeyInLogger(s, key, Str(content));
    } else {
      ExtraKeyInAvailableEnvironmentVariables(s, key, Str(content));
    }
  }

  /** A section holding its declared fields plus one undeclared key validates to the declared part. */
  lemma TypedSectionExtra(d: map<string, Value>, section: string, m: map<string, Value>, key: string, v: Value)
    requires section in d && d[section] == Dict(m[key := v]) && m.Keys == FieldsOf(section) && key !in FieldsOf(section)
    requires ListsFit(m, ListFieldsOf(section))
    ensures TypedSection(d, section) == Ok(m)
  {
    RestrictDropsKey(m, key, v);
  }

  lemma ExtraKeyInService(s: Sections, key: string, v: Value)
    requires WellFormed(s) && key !in ServiceFields
    ensures ParseObj(Dict(ToTree(s).entries["service" := Dict(s.service[key := v])])) == Ok(s)
  {
    var e := ToTree(s).entries["service" := Dict(s.service[key := v])];
    TypedSectionExtra(e, "service", s.service, key, v);
    TypedSectionExact(e, "logger", s.logger);
    TypedSectionExact(e, "available_environment_variables", s.availableEnvironmentVariables);
    ParseObjAccepts(e, s);
  }

  lemma ExtraKeyInLogger(s: Sections, key: string, v: Value)
    requires WellFormed(s) && key !in LoggerFields
    ensures ParseObj(Dict(ToTree(s).entries["logger" := Dict(s.logger[key := v])])) == Ok(s)
  {
    var e := ToTree(s).entries["logger" := Dict(s.logger[key := v])];
    TypedSectionExact(e, "service", s.service);
    TypedSectionExtra(e, "logger", s.logger, key, v);
    TypedSectionExact(e, "available_environment_variables", s.availableEnvironmentVariables);
    ParseObjAccepts(e, s);
  }

  lemma ExtraKeyInAvailableEnvironmentVariables(s: Sections, key: string, v: Value)
    requires WellFormed(s) && key !in EnvironmentFields
    ensures ParseObj(Dict(ToTree(s).entries["available_environment_variables" := Dict(s.availableEnvironmentVariables[key := v])])) == Ok(s)
  {
    var e := ToTree(s).entries["available_environment_variables" := Dict(s.availableEnvironmentVariables[key := v])];
    TypedSectionExact(e, "service", s.service);
    TypedSectionExact(e, "logger", s.logger);
    TypedSectionExtra(e, "available_environment_variables", s.availableEnvironmentVariables, key, v);
    ParseObjAccepts(e, s);
  }

  /** Restricting a mapping with one extra key to the original keys gives the original. */
  lemma RestrictDropsKey(m: map<string, Value>, key: string, v: Value)
    requires key !in m
    ensures (map f | f in m.Keys :: m[key := v][f]) == m
  {
  }

  /** A write to a top-level key that `Config` does not declare is dropped by validation. */
  lemma TypedUnknownSectionDropped(s: Sections, key: string, content: string)
    requires WellFormed(s) && key !in SectionNames
    ensures UseEnvironmentValue(ToTree(s), [key], content) == Ok(Dict(ToTree(s).entries[key := Str(content)]))
    ensures ParseObj(UseEnvironmentValue(ToTree(s), [key], content).value) == Ok(s)
  {
    var e := ToTree(s).entries[key := Str(content)];
    TypedSectionExact(e, "service", s.service);
    TypedSectionExact(e, "logger", s.logger);
    TypedSectionExact(e, "available_environment_variables", s.availableEnvironmentVariables);
    ParseObjAccepts(e, s);
  }

  /** Overwriting a whole typed section with a string fails validation of that section. */
  lemma TypedSectionOverwriteRejected(s: Sections, section: string, content: string)
    requires WellFormed(s)
    requires section in TypedSectionNames
    ensures UseEnvironmentValue(ToTree(s), [section], content).Ok?
    ensures ParseObj(UseEnvironmentValue(ToTree(s), [section], content).value) == Err(ValidationError(section))
  {
  }

  /**
   * When every applied variable names a declared field, the typed overlay
   * never fails and its `dict()` is the untyped overlay of the config's
   * `dict()`.
   */
  lemma {:induction false} TypedOverlayOnFields(servicename: string, suffixes: seq<string>, s: Sections, env: map<string, string>)
    requires WellFormed(s)
    requires forall i :: 0 <= i < |suffixes| && Applied(servicename, suffixes[i], env) ==>
               StrField(KeyPath(servicename, suffixes[i]))
    ensures TypedOverlay(servicename, suffixes, s, env).Ok?
    ensures WellFormed(TypedOverlay(servicename, suffixes, s, env).value)
    ensures Overlay(servicename, suffixes, ToTree(s), env) == Ok(ToTree(TypedOverlay(servicename, suffixes, s, env).value))
    decreases |suffixes|
  {
    if |suffixes| > 0 {
      var n := |suffixes| - 1;
      var init := suffixes[..n];
      forall i | 0 <= i < |init| && Applied(servicename, init[i], env)
        ensures StrField(KeyPath(servicename, init[i]))
      {
        assert init[i] == suffixes[i];
      }
      TypedOverlayOnFields(servicename, init, s, env);
      var c := TypedOverlay(servicename, init, s, env).value;
      if Applied(servicename, suffixes[n], env) {
        TypedFieldWrite(c, KeyPath(servicename, suffixes[n]), env[EnvVarName(servicename, suffixes[n])]);
      }
    }
  }

  // ---------------------------------------------------------------------------
  // The config object and `update_config`

  /** A `Config` instance; `update_config` assigns its free-form fields in place. */
  class Config {
    var service: map<string, Value>
    var logger: map<string, Value>
    var availableEnvironmentVariables: map<string, Value>
    var externalResources: Value
    var rules: Value

    constructor (s: Sections)
      ensures Snapshot() == s
    {
      service := s.service;
      logger := s.logger;
      availableEnvironmentVariables := s.availableEnvironmentVariables;
      externalResources := s.externalResources;
      rules := s.rules;
    }

    /** The instance's content, as `config.dict()` sees it. */
    function Snapshot(): Sections
      reads this
    {
      Sections(service, logger, availableEnvironmentVariables, externalResources, rules)
    }
  }

  /**
   * `_update_config_with_environment_variables` with `model=Config`: each
   * applied variable yields a new, re-validated instance; with none applied
   * the caller's object is returned as it is.
   */
  method UpdateModelWithEnvironmentVariables(servicename: string, suffixes: seq<string>, config: Config, env: map<string, string>)
    returns (r: Result<Config, ConfigError>)
    ensures r.Ok? <==> TypedOverlay(servicename, suffixes, config.Snapshot(), env).Ok?
    ensures r.Ok? ==> r.value.Snapshot() == TypedOverlay(servicename, suffixes, config.Snapshot(), env).value
    ensures r.Err? ==> r.error == TypedOverlay(servicename, suffixes, config.Snapshot(), env).error
    ensures r.Ok? && !AnyApplied(servicename, suffixes, env) ==> r.value == config
    ensures r.Ok? && AnyApplied(servicename, suffixes, env) ==> fresh(r.value)
  {
    var current := config;
    for i := 0 to |suffixes|
      invariant TypedOverlay(servicename, suffixes[..i], config.Snapshot(), env) == Ok(current.Snapshot())
      invariant !AnyApplied(servicename, suffixes[..i], env) ==> current == config
      invariant AnyApplied(servicename, suffixes[..i], env) ==> fresh(current)
    {
      assert suffixes[..i + 1][..i] == suffixes[..i];
      TypedErrorSticks(servicename, suffixes, config.Snapshot(), env, i + 1);
      AnyAppliedExtend(servicename, suffixes, env, i);
      var name := servicename + "_" + suffixes[i];
      var keys := Split(Lower(ReplaceAll(name, servicename + "_", "")), "__");
      if name in env && env[name] != "" {
        var tree := UseEnvironmentValue(ToTree(current.Snapshot()), keys, env[name]);
        if tree.Err? {
          return Err(tree.error);
        }
        var parsed := ParseObj(tree.value);
        if parsed.Err? {
          return Err(parsed.error);
        }
        current := new Config(parsed.value);
      }
    }
    assert suffixes[..|suffixes|] == suffixes;
    r := Ok(current);
  }

  /** Once a prefix of the list fails, the whole typed overlay fails with the same error. */
  lemma {:induction false} TypedErrorSticks(servicename: string, suffixes: seq<string>, s: Sections, env: map<string, string>, n: nat)
    requires n <= |suffixes|
    ensures TypedOverlay(servicename, suffixes[..n], s, env).Err? ==>
              TypedOverlay(servicename, suffixes, s, env) == TypedOverlay(servicename, suffixes[..n], s, env)
    decreases |suffixes| - n
  {
    if n == |suffixes| {
      assert suffixes[..n] == suffixes;
    } else {
      var init := suffixes[..|suffixes| - 1];
      assert init[..n] == suffixes[..n];
      TypedErrorSticks(servicename, init, s, env, n);
    }
  }

  /** Whether some suffix among the first `i + 1` is applied. */
  lemma AnyAppliedExtend(servicename: string, suffixes: seq<string>, env: map<string, string>, i: nat)
    requires i < |suffixes|
    ensures AnyApplied(servicename, suffixes[..i + 1], env) <==>
            AnyApplied(servicename, suffixes[..i], env) || Applied(servicename, suffixes[i], env)
  {
    var a, b := suffixes[..i + 1], suffixes[..i];
    if AnyApplied(servicename, a, env) {
      var k :| 0 <= k < |a| && Applied(servicename, a[k], env);
      if k < i { assert b[k] == a[k]; }
    }
    if AnyApplied(servicename, b, env) {
      var k :| 0 <= k < |b| && Applied(servicename, b[k], env);
      assert a[k] == b[k];
    }
    if Applied(servicename, suffixes[i], env) {
      assert a[i] == suffixes[i];
    }
  }

  /**
   * `update_config` on values: the general overlay with the model, then the
   * overlays of `external_resources` and of `rules`, each on its own
   * sub-tree and without a model.  An empty list skips its overlay.
   */
  function UpdateSections(servicename: string, s: Sections, env: map<string, string>,
                          envVars: seq<string>, resourceVars: seq<string>, rulesVars: seq<string>): (r: Result<Sections, ConfigError>)
    ensures r.Ok? && WellFormed(s) ==> WellFormed(r.value)
  {
    match TypedOverlay(servicename, envVars, s, env)
    case Err(e) => Err(e)
    case Ok(g) =>
      match Overlay(servicename, resourceVars, g.externalResources, env)
      case Err(e) => Err(e)
      case Ok(er) =>
        match Overlay(servicename, rulesVars, g.rules, env)
        case Err(e) => Err(e)
        case Ok(rules) => Ok(g.(externalResources := er, rules := rules))
  }

  /**
   * What the caller's object holds afterwards when the general overlay
   * applies nothing (so that object itself is updated): each free-form field
   * is assigned only if its overlay succeeded, and nothing is assigned after
   * a failure.
   */
  function InPlaceResult(servicename: string, s: Sections, env: map<string, string>,
                         resourceVars: seq<string>, rulesVars: seq<string>): (r: Sections)
    ensures r.service == s.service && r.logger == s.logger && r.availableEnvironmentVariables == s.availableEnvironmentVariables
    ensures UpdateSections(servicename, s, env, [], resourceVars, rulesVars).Ok? ==>
              r == UpdateSections(servicename, s, env, [], resourceVars, rulesVars).value
  {
    match Overlay(servicename, resourceVars, s.externalResources, env)
    case Err(_) => s
    case Ok(er) =>
      match Overlay(servicename, rulesVars, s.rules, env)
      case Err(_) => s.(externalResources := er)
      case Ok(rules) => s.(externalResources := er, rules := rules)
  }

  /**
   * `update_config`.  When some general variable is applied, the result is a
   * new instance and the caller's object is untouched; otherwise the
   * caller's object is returned after its free-form fields were assigned.
   */
  method UpdateConfig(servicename: string, config: Config, env: map<string, string>,
                      envVars: seq<string>, resourceVars: seq<string>, rulesVars: seq<string>)
    returns (r: Result<Config, ConfigError>)
    modifies config
    ensures r.Ok? <==> UpdateSections(servicename, old(config.Snapshot()), env, envVars, resourceVars, rulesVars).Ok?
    ensures r.Ok? ==> r.value.Snapshot() == UpdateSections(servicename, old(config.Snapshot()), env, envVars, resourceVars, rulesVars).value
    ensures r.Err? ==> r.error == UpdateSections(servicename, old(config.Snapshot()), env, envVars, resourceVars, rulesVars).error
    ensures AnyApplied(servicename, envVars, env) ==> config.Snapshot() == old(config.Snapshot())
    ensures AnyApplied(servicename, envVars, env) && r.Ok? ==> fresh(r.value)
    ensures !AnyApplied(servicename, envVars, env) ==>
              config.Snapshot() == InPlaceResult(servicename, old(config.Snapshot()), env, resourceVars, rulesVars)
    ensures !AnyApplied(servicename, envVars, env) && r.Ok? ==> r.value == config
  {
    if !AnyApplied(servicename, envVars, env) {
      TypedOverlayUnset(servicename, envVars, config.Snapshot(), env);
    }
    var current := config;
    if |envVars| > 0 {
      var g := UpdateModelWithEnvironmentVariables(servicename, envVars, config, env);
      if g.Err? {
        return Err(g.error);
      }
      current := g.value;
    }
    if |resourceVars| > 0 {
      var er := UpdateConfigWithEnvironmentVariables(servicename, resourceVars, current.externalResources, env);
      if er.Err? {
        return Err(er.error);
      }
      current.externalResources := er.value;
    }
    if |rulesVars| > 0 {
      var rules := UpdateConfigWithEnvironmentVariables(servicename, rulesVars, current.rules, env);
      if rules.Err? {
        return Err(rules.error);
      }
      current.rules := rules.value;
    }
    r := Ok(current);
  }

  /**
   * The free-form overlays are rooted at their own sub-tree: a variable
   * listed for `external_resources` writes beneath `external_resources`,
   * and the typed sections are those of the general overlay.
   */
  lemma UpdateSectionsFreeFormRooted(servicename: string, s: Sections, env: map<string, string>,
                                     envVars: seq<string>, resourceVars: seq<string>, rulesVars: seq<string>, j: nat)
    requires UpdateSections(servicename, s, env, envVars, resourceVars, rulesVars).Ok?
    requires j < |resourceVars| && Applied(servicename, resourceVars[j], env)
    requires forall k :: j < k < |resourceVars| && Applied(servicename, resourceVars[k], env) ==>
               Disjoint(KeyPath(servicename, resourceVars[k]), KeyPath(servicename, resourceVars[j]))
    ensures var r := UpdateSections(servicename, s, env, envVars, resourceVars, rulesVars).value;
            var g := TypedOverlay(servicename, envVars, s, env).value;
            Lookup(r.externalResources, KeyPath(servicename, resourceVars[j])) == Some(Str(env[EnvVarName(servicename, resourceVars[j])])) &&
            r.service == g.service && r.logger == g.logger &&
            r.availableEnvironmentVariables == g.availableEnvironmentVariables
  {
    var g := TypedOverlay(servicename, envVars, s, env).value;
    OverlayLastWins(servicename, resourceVars, g.externalResources, env, j);
  }

  /** The same for `rules`: its variables are written rooted at that section, and the typed sections are those of the general overlay. */
  lemma UpdateSectionsRulesRooted(servicename: string, s: Sections, env: map<string, string>,
                                  envVars: seq<string>, resourceVars: seq<string>, rulesVars: seq<string>, j: nat)
    requires UpdateSections(servicename, s, env, envVars, resourceVars, rulesVars).Ok?
    requires j < |rulesVars| && Applied(servicename, rulesVars[j], env)
    requires forall k :: j < k < |rulesVars| && Applied(servicename, rulesVars[k], env) ==>
               Disjoint(KeyPath(servicename, rulesVars[k]), KeyPath(servicename, rulesVars[j]))
    ensures var r := UpdateSections(servicename, s, env, envVars, resourceVars, rulesVars).value;
            var g := TypedOverlay(servicename, envVars, s, env).value;
            Lookup(r.rules, KeyPath(servicename, rulesVars[j])) == Some(Str(env[EnvVarName(servicename, rulesVars[j])])) &&
            r.service == g.service && r.logger == g.logger &&
            r.availableEnvironmentVariables == g.availableEnvironmentVariables
  {
    var g := TypedOverlay(servicename, envVars, s, env).value;
    OverlayLastWins(servicename, rulesVars, g.rules, env, j);
  }

  /** With no variable applied anywhere, `update_config` changes nothing. */
  lemma UpdateSectionsUnset(servicename: string, s: Sections, env: map<string, string>,
                            envVars: seq<string>, resourceVars: seq<string>, rulesVars: seq<string>)
    requires !AnyApplied(servicename, envVars, env)
    requires !AnyApplied(servicename, resourceVars, env)
    requires !AnyApplied(servicename, rulesVars, env)
    ensures UpdateSections(servicename, s, env, envVars, resourceVars, rulesVars) == Ok(s)
  {
    TypedOverlayUnset(servicename, envVars, s, env);
    OverlayUnset(servicename, resourceVars, s.externalResources, env);
    OverlayUnset(servicename, rulesVars, s.rules, env);
  }

  /** A free-form section that is `None` has no `dict()`: an applied variable for it raises. */
  lemma UpdateSectionsNullResources(servicename: string, s: Sections, env: map<string, string>,
                                    envVars: seq<string>, resourceVars: seq<string>, rulesVars: seq<string>)
    requires TypedOverlay(servicename, envVars, s, env).Ok?
    requires TypedOverlay(servicename, envVars, s, env).value.externalResources == Null
    requires |resourceVars| > 0 && Applied(servicename, resourceVars[0], env)
    ensures UpdateSections(servicename, s, env, envVars, resourceVars, rulesVars) == Err(NoDictMethod)
  {
    var g := TypedOverlay(servicename, envVars, s, env).value;
    assert resourceVars[..1][..0] == [];
    assert Overlay(servicename, resourceVars[..1], Null, env) == Err(NoDictMethod);
    OverlayErrorSticks(servicename, resourceVars, Null, env, 1);
  }
}
