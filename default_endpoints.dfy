/**
 * `default_endpoints/__init__.py`: the dictionary-based variant of
 * `add_default_endpoints`, which appends `{'router': ..., 'prefix': ...}`
 * entries for the names the service's configuration lists.
 */
module DefaultEndpoints {
  import opened Results
  import opened Framework

  /** One `{'router': ..., 'prefix': ...}` entry. */
  datatype RouteEntry = RouteEntry(router: Router, prefix: string)

  /** `PREFIX` of `default_endpoints/alive.py` and `default_endpoints/config.py`. */
  const AlivePrefix: string := "/api/alive"
  const ConfigPrefix: string := "/api/config"

  const DefaultNames: set<string> := {"alive", "config"}

  /** Indexing the default table with a name it does not hold (KeyError). */
  datatype LookupError = UnknownName(name: string)

  /** The entry of the default table for a known name. */
  function DefaultRoute(name: string, aliveRouter: Router, configRouter: Router): (e: RouteEntry)
    requires name in DefaultNames
    ensures e.prefix == "/api/" + name
    ensures e.router == (if name == "alive" then aliveRouter else configRouter)
  {
    if name == "alive" then RouteEntry(aliveRouter, AlivePrefix)
    else RouteEntry(configRouter, ConfigPrefix)
  }

  /** The entries for a list of known names, one per name, in order. */
  function DefaultRoutes(names: seq<string>, aliveRouter: Router, configRouter: Router): (r: seq<RouteEntry>)
    requires forall i :: 0 <= i < |names| ==> names[i] in DefaultNames
    ensures |r| == |names|
    ensures forall i :: 0 <= i < |names| ==> r[i] == DefaultRoute(names[i], aliveRouter, configRouter)
  {
    if |names| == 0 then []
    else [DefaultRoute(names[0], aliveRouter, configRouter)] + DefaultRoutes(names[1..], aliveRouter, configRouter)
  }

  /**
   * `add_default_endpoints`: append the entry of each listed name to the
   * caller's list, in place, and return that same list; an unknown name
   * raises after the entries before it were appended.
   */
  method AddDefaultEndpoints(endpoints: ItemList<RouteEntry>, useDefaultEndpoints: seq<string>,
                             aliveRouter: Router, configRouter: Router)
    returns (r: Result<ItemList<RouteEntry>, LookupError>)
    modifies endpoints
    ensures var k := KnownPrefix(useDefaultEndpoints, DefaultNames);
            endpoints.items == old(endpoints.items) + DefaultRoutes(useDefaultEndpoints[..k], aliveRouter, configRouter) &&
            if k == |useDefaultEndpoints| then r == Ok(endpoints) else r == Err(UnknownName(useDefaultEndpoints[k]))
  {
    for i := 0 to |useDefaultEndpoints|
      invariant forall j :: 0 <= j < i ==> useDefaultEndpoints[j] in DefaultNames
      invariant endpoints.items == old(endpoints.items) + DefaultRoutes(useDefaultEndpoints[..i], aliveRouter, configRouter)
    {
      var name := useDefaultEndpoints[i];
      if name !in DefaultNames {
        KnownPrefixStops(useDefaultEndpoints, DefaultNames, i);
        return Err(UnknownName(name));
      }
      endpoints.Append(DefaultRoute(name, aliveRouter, configRouter));
      DefaultRoutesStep(useDefaultEndpoints, i, aliveRouter, configRouter);
    }
    KnownPrefixAll(useDefaultEndpoints, DefaultNames);
    assert useDefaultEndpoints[..|useDefaultEndpoints|] == useDefaultEndpoints;
    r := Ok(endpoints);
  }

  /** The entries of concatenated name lists are the concatenated entries. */
  lemma {:induction false} DefaultRoutesConcat(a: seq<string>, b: seq<string>, aliveRouter: Router, configRouter: Router)
    requires forall i :: 0 <= i < |a| ==> a[i] in DefaultNames
    requires forall i :: 0 <= i < |b| ==> b[i] in DefaultNames
    ensures DefaultRoutes(a + b, aliveRouter, configRouter) == DefaultRoutes(a, aliveRouter, configRouter) + DefaultRoutes(b, aliveRouter, configRouter)
  {
    var l := DefaultRoutes(a + b, aliveRouter, configRouter);
    var rr := DefaultRoutes(a, aliveRouter, configRouter) + DefaultRoutes(b, aliveRouter, configRouter);
    assert |l| == |rr|;
    forall i | 0 <= i < |l| ensures l[i] == rr[i] {
      if i < |a| { assert (a + b)[i] == a[i]; } else { assert (a + b)[i] == b[i - |a|]; }
    }
  }

  /** Walking one name further appends that name's entry. */
  lemma DefaultRoutesStep(names: seq<string>, i: nat, aliveRouter: Router, configRouter: Router)
    requires i < |names| && forall j :: 0 <= j <= i ==> names[j] in DefaultNames
    ensures DefaultRoutes(names[..i + 1], aliveRouter, configRouter) ==
            DefaultRoutes(names[..i], aliveRouter, configRouter) + [DefaultRoute(names[i], aliveRouter, configRouter)]
  {
    assert names[..i + 1] == names[..i] + [names[i]];
    DefaultRoutesConcat(names[..i], [names[i]], aliveRouter, configRouter);
  }

  /** A name listed several times is appended once per occurrence. */
  lemma DefaultRoutesRepeat(name: string, n: nat, aliveRouter: Router, configRouter: Router)
    requires name in DefaultNames
    ensures var names := seq(n, _ => name);
            DefaultRoutes(names, aliveRouter, configRouter) == seq(n, _ => DefaultRoute(name, aliveRouter, configRouter))
  {
  }
}
