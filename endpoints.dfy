/**
 * `app/endpoints/__init__.py`: building the versioned copies of a service's
 * endpoints (`set_version_endpoints`) and appending the shared default
 * endpoints (`add_default_endpoints`), over the `Endpoint` dataclass of
 * `app/__init__.py`.
 */
module Endpoints {
  import opened Results
  import opened Text
  import opened Framework

  /** The `Endpoint` dataclass: `tags` and `version` default to `None`. */
  class Endpoint {
    var router: Router
    var route: string
    var tags: Option<seq<string>>
    var version: Option<string>

    constructor (router: Router, route: string, version: Option<string>)
      ensures this.router == router && this.route == route
      ensures this.tags == None && this.version == version
    {
      this.router := router;
      this.route := route;
      this.tags := None;
      this.version := version;
    }
  }

  /**
   * An entry of the list given to `set_version_endpoints`: an `Endpoint`, or
   * an endpoint module holding one as `ENDPOINT` and, maybe, a module-level
   * `version`.
   */
  datatype EndpointSource =
    | Definition(endpoint: Endpoint)
    | Module(endpoint: Endpoint, moduleVersion: Option<string>)

  datatype EndpointError =
    | MissingVersion                      // `latest` needs the definition's version, and it has none
    | MissingField(name: string)          // `str.format` met a field the arguments lack (KeyError)
    | UnknownDefaultEndpoint(name: string) // not a key of the default-endpoint table (KeyError)

  /** A route template, `prefix_template`, as literal text and `{name}` fields. */
  datatype Segment = Literal(text: string) | Field(name: string)

  /** Every field of the template has an argument. */
  predicate Fillable(template: seq<Segment>, args: map<string, string>) {
    forall i :: 0 <= i < |template| && template[i].Field? ==> template[i].name in args
  }

  /** `template.format(**args)`: the first field without an argument raises. */
  function Format(template: seq<Segment>, args: map<string, string>): Result<string, EndpointError>
    decreases |template|
  {
    if |template| == 0 then Ok("")
    else
      var head := match template[0]
        case Literal(text) => Ok(text)
        case Field(name) => if name in args then Ok(args[name]) else Err(MissingField(name));
      match head
      case Err(e) => Err(e)
      case Ok(h) =>
        match Format(template[1..], args)
        case Err(e) => Err(e)
        case Ok(rest) => Ok(h + rest)
  }

  /** Formatting succeeds exactly when every field has an argument. */
  lemma {:induction false} FormatSucceeds(template: seq<Segment>, args: map<string, string>)
    ensures Format(template, args).Ok? <==> Fillable(template, args)
    decreases |template|
  {
    if |template| > 0 {
      FormatSucceeds(template[1..], args);
      assert forall i :: 1 <= i < |template| ==> template[i] == template[1..][i - 1];
    }
  }

  /** A template that is one field formats to that field's argument. */
  lemma FormatField(name: string, args: map<string, string>)
    requires name in args
    ensures Format([Field(name)], args) == Ok(args[name])
  {
    assert [Field(name)][1..] == [];
    assert args[name] + "" == args[name];
  }

  /** Formatting a concatenation of templates concatenates the results. */
  lemma {:induction false} FormatConcat(a: seq<Segment>, b: seq<Segment>, args: map<string, string>)
    requires Fillable(a, args) && Fillable(b, args)
    ensures Format(a + b, args).Ok? && Format(a, args).Ok? && Format(b, args).Ok?
    ensures Format(a + b, args).value == Format(a, args).value + Format(b, args).value
    decreases |a|
  {
    if |a| == 0 {
      assert a + b == b;
      FormatSucceeds(b, args);
    } else {
      FillableTail(a, args);
      FormatConcat(a[1..], b, args);
      assert (a + b)[0] == a[0];
      assert (a + b)[1..] == a[1..] + b;
    }
  }

  /** Dropping the first segment keeps a template fillable. */
  lemma FillableTail(a: seq<Segment>, args: map<string, string>)
    requires |a| > 0 && Fillable(a, args)
    ensures Fillable(a[1..], args)
  {
    forall i | 0 <= i < |a[1..]| && a[1..][i].Field? ensures a[1..][i].name in args {
      assert a[1..][i] == a[i + 1];
    }
  }

  /** The version the definition itself carries: the `Endpoint`'s field, or the module's attribute. */
  function DefinitionVersion(source: EndpointSource): Option<string>
    reads source.endpoint
  {
    match source
    case Definition(e) => e.version
    case Module(_, v) => v
  }

  /** The arguments the template is formatted with: the caller's, with `route` and `version` set. */
  function TemplateArgs(kwargs: map<string, string>, route: string, version: string): map<string, string> {
    kwargs["route" := route]["version" := version]
  }

  /**
   * The route of the new endpoint, from the input's route and version: for
   * `latest`, every occurrence of the input's version in the route first
   * becomes `latest`.
   */
  function NewRoute(route: string, oldVersion: Option<string>, version: string,
                    template: seq<Segment>, kwargs: map<string, string>): Result<string, EndpointError>
  {
    var base :=
      if version == "latest" then
        if oldVersion.None? then Err(MissingVersion) else Ok(ReplaceAll(route, oldVersion.value, version))
      else Ok(route);
    match base
    case Err(e) => Err(e)
    case Ok(r) => Format(template, TemplateArgs(kwargs, r, version))
  }

  function SourceRoute(source: EndpointSource, version: string, template: seq<Segment>,
                       kwargs: map<string, string>): Result<string, EndpointError>
    reads source.endpoint
  {
    NewRoute(source.endpoint.route, DefinitionVersion(source), version, template, kwargs)
  }

  /** `e` is the versioned copy of `source`. */
  predicate Versioned(e: Endpoint, source: EndpointSource, version: string, template: seq<Segment>,
                      kwargs: map<string, string>)
    reads e, source.endpoint
  {
    e.router == source.endpoint.router &&
    e.version == Some(version) &&
    e.tags == Some([version]) &&
    SourceRoute(source, version, template, kwargs).Ok? &&
    e.route == SourceRoute(source, version, template, kwargs).value
  }

  /** The input at `k` is the first whose route cannot be built. */
  ghost predicate FailsFirstAt(sources: seq<EndpointSource>, k: nat, version: string, template: seq<Segment>,
                               kwargs: map<string, string>)
    requires k < |sources|
    reads set i | 0 <= i < |sources| :: sources[i].endpoint
  {
    SourceRoute(sources[k], version, template, kwargs).Err? &&
    forall i :: 0 <= i < k ==> SourceRoute(sources[i], version, template, kwargs).Ok?
  }

  /**
   * `set_version_endpoints`: one new endpoint per input, in order, with the
   * input's router, the given version, tags `[version]` and the rewritten
   * route.  The inputs and the caller's arguments are left as they are.
   */
  method SetVersionEndpoints(sources: seq<EndpointSource>, version: string, template: seq<Segment>,
                             kwargs: map<string, string>)
    returns (r: Result<seq<Endpoint>, EndpointError>)
    ensures r.Ok? <==> forall i :: 0 <= i < |sources| ==> SourceRoute(sources[i], version, template, kwargs).Ok?
    ensures r.Err? ==> exists k :: 0 <= k < |sources| && FailsFirstAt(sources, k, version, template, kwargs) &&
                                   r.error == SourceRoute(sources[k], version, template, kwargs).error
    ensures r.Ok? ==> |r.value| == |sources|
    ensures r.Ok? ==> forall i :: 0 <= i < |sources| ==>
              fresh(r.value[i]) && Versioned(r.value[i], sources[i], version, template, kwargs)
    ensures r.Ok? ==> forall i, j :: 0 <= i < j < |sources| ==> r.value[i] != r.value[j]
  {
    var args := kwargs;
    var result: seq<Endpoint> := [];
    for i := 0 to |sources|
      invariant |result| == i
      invariant forall j :: 0 <= j < i ==> fresh(result[j]) && Versioned(result[j], sources[j], version, template, kwargs)
      invariant forall j, l :: 0 <= j < l < i ==> result[j] != result[l]
      invariant SameExtraArgs(args, kwargs)
    {
      NewRouteIgnoresCallerRouteAndVersion(sources[i].endpoint.route, DefinitionVersion(sources[i]), version,
                                           template, args, kwargs);
      var next;
      next, args := VersionedEndpoint(sources[i], version, template, args);
      if next.Err? {
        assert FailsFirstAt(sources, i, version, template, kwargs);
        return Err(next.error);
      }
      result := result + [next.value];
    }
    r := Ok(result);
  }

  /** The caller's arguments other than `route` and `version`. */
  ghost predicate SameExtraArgs(a: map<string, string>, b: map<string, string>) {
    forall key :: key != "route" && key != "version" ==> (key in a <==> key in b) && (key in a ==> a[key] == b[key])
  }

  /** `route` and `version` always override whatever the caller passed under those names. */
  lemma SameExtraArgsFormat(a: map<string, string>, b: map<string, string>, template: seq<Segment>, version: string)
    requires SameExtraArgs(a, b)
    ensures forall route :: TemplateArgs(a, route, version) == TemplateArgs(b, route, version)
  {
  }

  /**
   * One iteration of `set_version_endpoints`: a new `Endpoint` copying the
   * definition, tagged with the version, its route rewritten; the argument
   * map is updated with `route` and `version` as `kwargs.update` does.
   */
  method VersionedEndpoint(source: EndpointSource, version: string, template: seq<Segment>, args: map<string, string>)
    returns (r: Result<Endpoint, EndpointError>, args': map<string, string>)
    ensures SameExtraArgs(args', args)
    ensures r.Err? <==> SourceRoute(source, version, template, args).Err?
    ensures r.Err? ==> r.error == SourceRoute(source, version, template, args).error
    ensures r.Ok? ==> fresh(r.value) && Versioned(r.value, source, version, template, args)
  {
    args' := args;
    var definition := source.endpoint;
    var endpoint := new Endpoint(definition.router, definition.route, definition.version);
    endpoint.tags := Some([version]);
    var route := endpoint.route;
    if version == "latest" {
      var previous := DefinitionVersion(source);
      if previous.None? {
        return Err(MissingVersion), args';
      }
      route := ReplaceAll(route, previous.value, version);
    }
    args' := TemplateArgs(args, route, version);
    endpoint.version := Some(version);
    var formatted := Format(template, args');
    if formatted.Err? {
      return Err(formatted.error), args';
    }
    endpoint.route := formatted.value;
    r := Ok(endpoint);
  }

  // ---------------------------------------------------------------------------
  // Routes

  /** With `'/api/{version}{route}'`-style templates, a non-`latest` version is put in front of the route. */
  lemma VersionedRoute(prefix: string, route: string, oldVersion: Option<string>, version: string, kwargs: map<string, string>)
    requires version != "latest"
    ensures NewRoute(route, oldVersion, version, [Literal(prefix), Field("version"), Field("route")], kwargs)
            == Ok(prefix + version + route)
  {
    var args := TemplateArgs(kwargs, route, version);
    assert args["route"] == route && args["version"] == version;
    var t := [Literal(prefix), Field("version"), Field("route")];
    assert t[1..][1..] == [Field("route")];
    FormatField("route", args);
    assert t[1..] == [Field("version")] + t[1..][1..];
    assert Format(t[1..], args) == Ok(version + route);
    assert Format(t, args) == Ok(prefix + (version + route));
    assert prefix + (version + route) == prefix + version + route;
  }

  /**
   * `latest` re-routes a versioned route: with the template `'{route}'`, the
   * version inside `prefix + version + route` becomes `latest`, provided the
   * version does not recur in the route and cannot start inside the prefix.
   */
  lemma LatestRoute(prefix: string, version: string, route: string, kwargs: map<string, string>)
    requires |version| > 0 && version[0] !in prefix && !Occurs(route, version)
    ensures NewRoute(prefix + version + route, Some(version), "latest", [Field("route")], kwargs)
            == Ok(prefix + "latest" + route)
  {
    FirstCharBlocks(prefix + version + route, version, |prefix|);
    ReplaceBetween(prefix, version, route, "latest");
    var args := TemplateArgs(kwargs, prefix + "latest" + route, "latest");
    assert args["route"] == prefix + "latest" + route;
    FormatField("route", args);
  }

  /** The two steps together: the `latest` copy of a versioned endpoint. */
  lemma LatestOfVersioned(prefix: string, version: string, route: string, kwargs: map<string, string>)
    requires |version| > 0 && version != "latest" && version[0] !in prefix && !Occurs(route, version)
    ensures var versioned := NewRoute(route, None, version, [Literal(prefix), Field("version"), Field("route")], kwargs);
            versioned.Ok? &&
            NewRoute(versioned.value, Some(version), "latest", [Field("route")], kwargs) == Ok(prefix + "latest" + route)
  {
    VersionedRoute(prefix, route, None, version, kwargs);
    LatestRoute(prefix, version, route, kwargs);
  }

  /**
   * `latest` replaces every occurrence of the old version, not just the one
   * the version prefix put there: a route that itself contains the version
   * text is rewritten too.
   */
  lemma LatestReplacesEveryOccurrence(prefix: string, version: string, middle: string, rest: string, kwargs: map<string, string>)
    requires |version| > 0 && version[0] !in prefix && version[0] !in middle && !Occurs(rest, version)
    ensures NewRoute(prefix + version + middle + version + rest, Some(version), "latest", [Field("route")], kwargs)
            == Ok(prefix + "latest" + middle + "latest" + rest)
  {
    var routed := prefix + "latest" + middle + "latest" + rest;
    ReplaceTwoOccurrences(prefix, version, middle, rest, "latest");
    var args := TemplateArgs(kwargs, routed, "latest");
    assert args["route"] == routed;
    FormatField("route", args);
  }

  lemma ReplaceTwoOccurrences(a: string, pat: string, b: string, c: string, rep: string)
    requires |pat| > 0 && pat[0] !in a && pat[0] !in b && !Occurs(c, pat)
    ensures ReplaceAll(a + pat + b + pat + c, pat, rep) == a + rep + b + rep + c
  {
    var tail := b + pat + c;
    assert a + pat + b + pat + c == a + pat + tail;
    ReplaceFirstOccurrence(a, pat, tail, rep);
    FirstCharBlocks(b + pat + c, pat, |b|);
    ReplaceBetween(b, pat, c, rep);
    assert a + rep + (b + rep + c) == a + rep + b + rep + c;
  }

  /** The occurrence right after a prefix the pattern cannot start in is replaced, and the rest processed. */
  lemma ReplaceFirstOccurrence(a: string, pat: string, tail: string, rep: string)
    requires |pat| > 0 && pat[0] !in a
    ensures ReplaceAll(a + pat + tail, pat, rep) == a + rep + ReplaceAll(tail, pat, rep)
  {
    var s := a + pat + tail;
    FirstCharBlocks(s, pat, |a|);
    ReplaceSkipsPrefix(s, pat, rep, |a|);
    assert s[..|a|] == a;
    assert s[|a|..] == pat + tail;
    ReplaceLeading(tail, pat, rep);
  }

  /** Whatever the caller passes as `route` or `version` is overridden. */
  lemma NewRouteIgnoresCallerRouteAndVersion(route: string, oldVersion: Option<string>, version: string,
                                             template: seq<Segment>, kwargs1: map<string, string>, kwargs2: map<string, string>)
    requires SameExtraArgs(kwargs1, kwargs2)
    ensures NewRoute(route, oldVersion, version, template, kwargs1) == NewRoute(route, oldVersion, version, template, kwargs2)
  {
    SameExtraArgsFormat(kwargs1, kwargs2, template, version);
  }

  // ---------------------------------------------------------------------------
  // Default endpoints

  const DefaultEndpointNames: set<string> := {"alive", "config"}

  /** The default endpoints for known names, in order: the shared `alive` and `config` objects. */
  function Defaults(names: seq<string>, alive: Endpoint, config: Endpoint): (r: seq<Endpoint>)
    requires forall i :: 0 <= i < |names| ==> names[i] in DefaultEndpointNames
    ensures |r| == |names|
    ensures forall i :: 0 <= i < |names| ==> r[i] == (if names[i] == "alive" then alive else config)
  {
    if |names| == 0 then []
    else [if names[0] == "alive" then alive else config] + Defaults(names[1..], alive, config)
  }

  /**
   * `add_default_endpoints` of the `Endpoint` variant: append, to the
   * caller's list, the shared endpoint for each name in order, setting its
   * `tags` to `['status']`; an unknown name raises, leaving the appends and
   * tag updates made so far.
   */
  method AddDefaultEndpoints(endpoints: ItemList<Endpoint>, useDefaultEndpoints: seq<string>, alive: Endpoint, config: Endpoint)
    returns (r: Result<ItemList<Endpoint>, EndpointError>)
    requires alive != config
    modifies endpoints, alive`tags, config`tags
    ensures var k := KnownPrefix(useDefaultEndpoints, DefaultEndpointNames);
            endpoints.items == old(endpoints.items) + Defaults(useDefaultEndpoints[..k], alive, config) &&
            (if k == |useDefaultEndpoints| then r == Ok(endpoints)
             else r == Err(UnknownDefaultEndpoint(useDefaultEndpoints[k]))) &&
            alive.tags == (if "alive" in useDefaultEndpoints[..k] then Some(["status"]) else old(alive.tags)) &&
            config.tags == (if "config" in useDefaultEndpoints[..k] then Some(["status"]) else old(config.tags))
  {
    var i := 0;
    while i < |useDefaultEndpoints| && useDefaultEndpoints[i] in DefaultEndpointNames
      invariant i <= |useDefaultEndpoints|
      invariant forall j :: 0 <= j < i ==> useDefaultEndpoints[j] in DefaultEndpointNames
      invariant endpoints.items == old(endpoints.items) + Defaults(useDefaultEndpoints[..i], alive, config)
      invariant alive.tags == (if "alive" in useDefaultEndpoints[..i] then Some(["status"]) else old(alive.tags))
      invariant config.tags == (if "config" in useDefaultEndpoints[..i] then Some(["status"]) else old(config.tags))
    {
      AddDefaultEndpoint(endpoints, useDefaultEndpoints[i], alive, config);
      DefaultsStep(useDefaultEndpoints, i, alive, config);
      i := i + 1;
    }
    if i < |useDefaultEndpoints| {
      KnownPrefixStops(useDefaultEndpoints, DefaultEndpointNames, i);
      return Err(UnknownDefaultEndpoint(useDefaultEndpoints[i]));
    }
    KnownPrefixAll(useDefaultEndpoints, DefaultEndpointNames);
    r := Ok(endpoints);
  }

  /** One iteration: tag the shared endpoint of a known name with `status` and append it. */
  method AddDefaultEndpoint(endpoints: ItemList<Endpoint>, name: string, alive: Endpoint, config: Endpoint)
    requires alive != config && name in DefaultEndpointNames
    modifies endpoints, alive`tags, config`tags
    ensures endpoints.items == old(endpoints.items) + [if name == "alive" then alive else config]
    ensures alive.tags == (if name == "alive" then Some(["status"]) else old(alive.tags))
    ensures config.tags == (if name == "config" then Some(["status"]) else old(config.tags))
  {
    var current := if name == "alive" then alive else config;
    current.tags := Some(["status"]);
    endpoints.Append(current);
  }

  /**
   * What the walk leaves behind is tagged: when the list holds what it held
   * before followed by the endpoints for `names`, and the shared endpoint of
   * each name walked carries `['status']` (as `AddDefaultEndpoints`
   * guarantees), every appended endpoint carries `['status']`.
   */
  lemma DefaultsTagged(items: seq<Endpoint>, before: seq<Endpoint>, names: seq<string>, alive: Endpoint, config: Endpoint)
    requires forall j :: 0 <= j < |names| ==> names[j] in DefaultEndpointNames
    requires items == before + Defaults(names, alive, config)
    requires "alive" in names ==> alive.tags == Some(["status"])
    requires "config" in names ==> config.tags == Some(["status"])
    ensures forall j :: |before| <= j < |items| ==> items[j].tags == Some(["status"])
  {
    forall j | |before| <= j < |items| ensures items[j].tags == Some(["status"]) {
      assert items[j] == Defaults(names, alive, config)[j - |before|];
      assert names[j - |before|] in names;
    }
  }

  /** Walking one name further appends that name's endpoint, and the names walked gain that name. */
  lemma DefaultsStep(names: seq<string>, i: nat, alive: Endpoint, config: Endpoint)
    requires i < |names| && forall j :: 0 <= j <= i ==> names[j] in DefaultEndpointNames
    ensures Defaults(names[..i + 1], alive, config) ==
            Defaults(names[..i], alive, config) + [if names[i] == "alive" then alive else config]
    ensures ("alive" in names[..i + 1]) == ("alive" in names[..i] || names[i] == "alive")
    ensures ("config" in names[..i + 1]) == ("config" in names[..i] || names[i] == "config")
  {
    assert names[..i + 1] == names[..i] + [names[i]];
    DefaultsSnoc(names[..i], names[i], alive, config);
  }

  /** Appending one more name appends its endpoint. */
  lemma DefaultsSnoc(names: seq<string>, name: string, alive: Endpoint, config: Endpoint)
    requires forall i :: 0 <= i < |names| ==> names[i] in DefaultEndpointNames
    requires name in DefaultEndpointNames
    ensures Defaults(names + [name], alive, config) == Defaults(names, alive, config) + [if name == "alive" then alive else config]
  {
  }

  /** Two calls in a row append what one call with the concatenated names appends. */
  lemma DefaultsConcat(a: seq<string>, b: seq<string>, alive: Endpoint, config: Endpoint)
    requires forall i :: 0 <= i < |a| ==> a[i] in DefaultEndpointNames
    requires forall i :: 0 <= i < |b| ==> b[i] in DefaultEndpointNames
    ensures Defaults(a + b, alive, config) == Defaults(a, alive, config) + Defaults(b, alive, config)
  {
  }
}
