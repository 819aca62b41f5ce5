/**
 * The environment-variable overlay of `base/service_config.py`: for each
 * declared suffix `S`, the variable `SERVICENAME_S`, if set to a non-empty
 * string, overwrites one nested key of the configuration; `update_config`
 * runs the overlay on the whole configuration (re-validated after every
 * write), then on `external_resources` and on `rules`.
 *
 * The process environment is the parameter `env`.
 */
module ServiceConfig {
  import opened Results
  import opened Text
  import opened ConfigTree

  /** Why the overlay raised. */
  datatype ConfigError =
    | UpdateFailed(cause: TreeError)  // raised inside `update_in`
    | NoDictMethod                    // `config.dict()` on something that is neither a dict nor a model (e.g. None)
    | ValidationError(field: string)  // `Config.parse_obj` rejected the updated tree

  /** The prefix the caller passes as `servicename`: the service's name upper-cased. */
  function EnvironmentPrefix(serviceName: string): (prefix: string)
    ensures |prefix| == |serviceName|
    ensures forall i :: 0 <= i < |prefix| ==> !('a' <= prefix[i] <= 'z')
    ensures Lower(prefix) == Lower(serviceName)
  {
    var p := Upper(serviceName);
    assert forall i :: 0 <= i < |p| ==> LowerChar(p[i]) == LowerChar(serviceName[i]);
    p
  }

  /** The name of the variable that may override `suffix`. */
  function EnvVarName(servicename: string, suffix: string): string {
    servicename + "_" + suffix
  }

  /**
   * The key path a variable writes: its name with EVERY occurrence of
   * `servicename + "_"` removed (not just the leading one), lower-cased,
   * split on `"__"`.
   */
  function KeyPath(servicename: string, suffix: string): (keys: seq<string>)
    ensures |keys| >= 1
    ensures forall i :: 0 <= i < |keys| ==> !Occurs(keys[i], "__")
  {
    var name := Lower(ReplaceAll(EnvVarName(servicename, suffix), servicename + "_", ""));
    SplitPiecesAvoidSeparator(name, "__");
    Split(name, "__")
  }

  /** The variable for `suffix` is set and non-empty, so the overlay writes it. */
  predicate Applied(servicename: string, suffix: string, env: map<string, string>) {
    EnvVarName(servicename, suffix) in env && env[EnvVarName(servicename, suffix)] != ""
  }

  /** Some variable of the list is applied. */
  predicate AnyApplied(servicename: string, suffixes: seq<string>, env: map<string, string>) {
    exists i :: 0 <= i < |suffixes| && Applied(servicename, suffixes[i], env)
  }

  /**
   * `_use_environment_variable_for_variable` without a model: copy the
   * mapping, write `content` at `keys`.  A non-mapping (such as a `None`
   * section) has no `.dict()`.
   */
  function UseEnvironmentValue(config: Value, keys: seq<string>, content: string): (r: Result<Value, ConfigError>)
    ensures !config.Dict? ==> r == Err(NoDictMethod)
    ensures r.Ok? <==> config.Dict? && |keys| > 0 && PathOpen(config, keys)
    ensures r.Ok? ==> r.value.Dict? && Lookup(r.value, keys) == Some(Str(content))
  {
    if !config.Dict? then Err(NoDictMethod)
    else
      UpdateInSucceeds(config.entries, keys, Str(content));
      match UpdateIn(config.entries, keys, Str(content))
      case Ok(m) =>
        UpdateInBeneath(config.entries, keys, Str(content), m, keys);
        assert keys[|keys|..] == [];
        Ok(Dict(m))
      case Err(e) => Err(UpdateFailed(e))
  }

  /** One iteration of the overlay loop. */
  function Step(servicename: string, suffix: string, config: Value, env: map<string, string>): Result<Value, ConfigError> {
    if Applied(servicename, suffix, env) then
      UseEnvironmentValue(config, KeyPath(servicename, suffix), env[EnvVarName(servicename, suffix)])
    else Ok(config)
  }

  /** The overlay without a model: the suffixes applied in list order, stopping at the first error. */
  function Overlay(servicename: string, suffixes: seq<string>, config: Value, env: map<string, string>): (r: Result<Value, ConfigError>)
    ensures r.Ok? ==> if config.Dict? then r.value.Dict? else r.value == config
    decreases |suffixes|
  {
    if |suffixes| == 0 then Ok(config)
    else
      match Overlay(servicename, suffixes[..|suffixes| - 1], config, env)
      case Ok(c) => Step(servicename, suffixes[|suffixes| - 1], c, env)
      case Err(e) => Err(e)
  }

  /** `_update_config_with_environment_variables` with `model=None`, as the loop the source runs. */
  method UpdateConfigWithEnvironmentVariables(servicename: string, suffixes: seq<string>, config: Value, env: map<string, string>)
    returns (r: Result<Value, ConfigError>)
    ensures r == Overlay(servicename, suffixes, config, env)
  {
    var current := config;
    for i := 0 to |suffixes|
      invariant Overlay(servicename, suffixes[..i], config, env) == Ok(current)
    {
      assert suffixes[..i + 1][..i] == suffixes[..i];
      OverlayErrorSticks(servicename, suffixes, config, env, i + 1);
      var name := servicename + "_" + suffixes[i];
      var keys := Split(Lower(ReplaceAll(name, servicename + "_", "")), "__");
      if name in env && env[name] != "" {
        var next := UseEnvironmentValue(current, keys, env[name]);
        if next.Err? {
          return next;
        }
        current := next.value;
      }
    }
    assert suffixes[..|suffixes|] == suffixes;
    r := Ok(current);
  }

  /** Once a prefix of the list fails, the whole overlay fails with the same error. */
  lemma {:induction false} OverlayErrorSticks(servicename: string, suffixes: seq<string>, config: Value, env: map<string, string>, n: nat)
    requires n <= |suffixes|
    ensures Overlay(servicename, suffixes[..n], config, env).Err? ==>
              Overlay(servicename, suffixes, config, env) == Overlay(servicename, suffixes[..n], config, env)
    decreases |suffixes| - n
  {
    if n == |suffixes| {
      assert suffixes[..n] == suffixes;
    } else {
      var init := suffixes[..|suffixes| - 1];
      assert init[..n] == suffixes[..n];
      OverlayErrorSticks(servicename, init, config, env, n);
    }
  }

  // ---------------------------------------------------------------------------
  // Key paths

  /** The leading prefix is always removed, so the path depends on the suffix alone. */
  lemma KeyPathOfSuffix(servicename: string, suffix: string)
    ensures KeyPath(servicename, suffix) == Split(Lower(ReplaceAll(suffix, servicename + "_", "")), "__")
  {
    assert EnvVarName(servicename, suffix) == (servicename + "_") + suffix;
    ReplaceLeading(suffix, servicename + "_", "");
    assert "" + ReplaceAll(suffix, servicename + "_", "") == ReplaceAll(suffix, servicename + "_", "");
  }

  /**
   * When the prefix does not recur inside the suffix, the path is the
   * documented one: the lower-cased suffix split on `"__"`; joined back it
   * gives the lower-cased suffix, and no segment contains `"__"`.
   */
  lemma KeyPathConvention(servicename: string, suffix: string)
    requires !Occurs(suffix, servicename + "_")
    ensures KeyPath(servicename, suffix) == Split(Lower(suffix), "__")
    ensures Join(KeyPath(servicename, suffix), "__") == Lower(suffix)
    ensures forall j :: 0 <= j < |KeyPath(servicename, suffix)| ==> !Occurs(KeyPath(servicename, suffix)[j], "__")
  {
    KeyPathOfSuffix(servicename, suffix);
    ReplaceAbsent(suffix, servicename + "_", "");
    JoinSplit(Lower(suffix), "__");
    SplitPiecesAvoidSeparator(Lower(suffix), "__");
  }

  /** A suffix without underscores addresses one top-level key. */
  lemma KeyPathFlat(servicename: string, a: string)
    requires '_' !in a
    ensures KeyPath(servicename, a) == [Lower(a)]
  {
    OccursCarriesChars(a, servicename + "_", '_');
    KeyPathConvention(servicename, a);
    LowerKeepsUnderscores(a);
    OccursCarriesChars(Lower(a), "__", '_');
    SplitAbsent(Lower(a), "__");
  }

  /**
   * `A__B` addresses key `b` inside key `a`, provided the prefix does not
   * recur in the suffix.
   */
  lemma KeyPathNested(servicename: string, a: string, b: string)
    requires '_' !in a && '_' !in b
    requires !Occurs(a + "__" + b, servicename + "_")
    ensures KeyPath(servicename, a + "__" + b) == [Lower(a), Lower(b)]
  {
    var la, lb := Lower(a), Lower(b);
    KeyPathConvention(servicename, a + "__" + b);
    LowerConcat(a + "__", b);
    LowerConcat(a, "__");
    assert Lower("__") == "__";
    assert Lower(a + "__" + b) == la + "__" + lb;
    LowerKeepsUnderscores(a);
    LowerKeepsUnderscores(b);
    FirstCharBlocks(la + "__" + lb, "__", |la|);
    OccursCarriesChars(lb, "__", '_');
    SplitOnce(la, "__", lb);
  }

  /**
   * The prefix is removed wherever it recurs: the suffix `A__SVC_B` of a
   * service `SVC` writes `b` inside `a`, where the documented convention
   * (the lower-cased suffix split on `"__"`) would write `svc_b` inside `a`.
   */
  lemma KeyPathRemovesEveryPrefix(servicename: string, a: string, b: string)
    requires |servicename| > 0 && '_' !in servicename && '_' !in a && '_' !in b
    requires |a| < |servicename| || a[|a| - |servicename|..] != servicename
    ensures KeyPath(servicename, a + "__" + servicename + "_" + b) == [Lower(a), Lower(b)]
    ensures Split(Lower(a + "__" + servicename + "_" + b), "__") == [Lower(a), Lower(servicename + "_" + b)]
  {
    var x := a + "__" + servicename + "_" + b;
    KeyPathOfSuffix(servicename, x);
    EveryPrefixRemoved(servicename, a, b);
    LowerParts(a, b);
    LowerKeepsUnderscores(a);
    LowerKeepsUnderscores(b);
    OccursCarriesChars(Lower(b), "__", '_');
    SplitAtFirstSeparator(Lower(a), Lower(b));
    DocumentedPath(servicename, a, b);
  }

  /** Removing `svc_` from `a + "__" + svc_ + b`. */
  lemma EveryPrefixRemoved(servicename: string, a: string, b: string)
    requires |servicename| > 0 && '_' !in servicename && '_' !in a && '_' !in b
    requires |a| < |servicename| || a[|a| - |servicename|..] != servicename
    ensures ReplaceAll(a + "__" + servicename + "_" + b, servicename + "_", "") == a + "__" + b
  {
    var p := servicename + "_";
    var u, v := a + "__", p + b;
    assert a + "__" + servicename + "_" + b == u + v;
    NoPrefixBefore(servicename, a, b);
    ReplaceSkipsPrefix(u + v, p, "", |u|);
    ConcatSlices(u, v);
    TailPrefixRemoved(p, b);
  }

  /** The two halves of a concatenation, sliced back out of it. */
  lemma ConcatSlices(u: string, v: string)
    ensures (u + v)[..|u|] == u && (u + v)[|u|..] == v
  {
  }

  lemma TailPrefixRemoved(p: string, b: string)
    requires |p| > 0 && '_' in p && '_' !in b
    ensures ReplaceAll(p + b, p, "") == b
  {
    ReplaceLeading(b, p, "");
    OccursCarriesChars(b, p, '_');
    ReplaceAbsent(b, p, "");
  }

  lemma NoPrefixBefore(servicename: string, a: string, b: string)
    requires |servicename| > 0 && '_' !in servicename && '_' !in a
    requires |a| < |servicename| || a[|a| - |servicename|..] != servicename
    ensures NoMatchBefore((a + "__") + ((servicename + "_") + b), servicename + "_", |a| + 2)
  {
    var p := servicename + "_";
    var x := (a + "__") + (p + b);
    assert a + "__" + servicename + "_" + b == x;
    forall i | 0 <= i < |a| + 2 && i <= |x| ensures !StartsWith(x[i..], p) {
      PrefixBlockedInside(servicename, a, b, i);
    }
  }

  /** What the documented convention would give for the same suffix. */
  lemma DocumentedPath(servicename: string, a: string, b: string)
    requires '_' !in servicename && '_' !in a && '_' !in b
    ensures Split(Lower(a + "__" + servicename + "_" + b), "__") == [Lower(a), Lower(servicename + "_" + b)]
  {
    LowerPartsAfterPrefix(servicename, a, b);
    LowerPrefixedKeepsSeparator(servicename, b);
    LowerKeepsUnderscores(a);
    SplitAtFirstSeparator(Lower(a), Lower(servicename + "_" + b));
  }

  /** `s.lower()` of `a + "__" + svc + "_" + b`, cut at the separator. */
  lemma LowerPartsAfterPrefix(servicename: string, a: string, b: string)
    ensures Lower(a + "__" + servicename + "_" + b) == Lower(a) + "__" + Lower(servicename + "_" + b)
  {
    var c := servicename + "_" + b;
    assert a + "__" + servicename + "_" + b == a + "__" + c;
    LowerParts(a, c);
  }

  /** The lower-cased `svc + "_" + b` holds no `"__"` when neither part has an underscore. */
  lemma LowerPrefixedKeepsSeparator(servicename: string, b: string)
    requires '_' !in servicename && '_' !in b
    ensures !Occurs(Lower(servicename + "_" + b), "__")
  {
    LowerConcat(servicename + "_", b);
    LowerConcat(servicename, "_");
    assert Lower("_") == "_";
    LowerKeepsUnderscores(servicename);
    LowerKeepsUnderscores(b);
    NoDoubleUnderscore(Lower(servicename), Lower(b));
  }

  /** `svc_` cannot start before the end of `a + "__"` in `a + "__" + svc_ + b`. */
  lemma PrefixBlockedInside(servicename: string, a: string, b: string, i: nat)
    requires |servicename| > 0 && '_' !in servicename && '_' !in a
    requires |a| < |servicename| || a[|a| - |servicename|..] != servicename
    requires i < |a| + 2
    ensures !StartsWith((a + "__" + servicename + "_" + b)[i..], servicename + "_")
  {
    var p := servicename + "_";
    var x := a + "__" + p + b;
    assert a + "__" + servicename + "_" + b == x;
    var n := |servicename|;
    if i + |p| <= |x| {
      // a position where the text and the prefix differ
      var w := x[i..][..|p|];
      if i + n < |a| {
        assert w[n] == a[i + n] != p[n];
      } else if i + n == |a| {
        var tail := a[|a| - n..];
        assert |tail| == n && tail != servicename;
        var k :| 0 <= k < n && tail[k] != servicename[k];
        assert w[k] == tail[k] != p[k];
      } else if i + n == |a| + 1 {
        assert w[n - 1] == '_' != servicename[n - 1] == p[n - 1];
      } else {
        assert w[n] == servicename[i + n - |a| - 2] != p[n];
      }
    }
  }

  /** `s.lower()` of `a + "__" + b`. */
  lemma LowerParts(a: string, b: string)
    ensures Lower(a + "__" + b) == Lower(a) + "__" + Lower(b)
  {
    LowerConcat(a + "__", b);
    LowerConcat(a, "__");
    assert Lower("__") == "__";
  }

  /** A string with one `_`, sitting between underscore-free parts, holds no `"__"`. */
  lemma NoDoubleUnderscore(u: string, v: string)
    requires '_' !in u && '_' !in v
    ensures !Occurs(u + "_" + v, "__")
  {
    var x := u + "_" + v;
    forall i | 0 <= i <= |x| ensures !StartsWith(x[i..], "__") {
      if i + 2 <= |x| {
        assert x[i..][..2] == [x[i], x[i + 1]];
      }
    }
  }

  /** Splitting `a + "__" + b` on `"__"`, with `a` underscore-free and no `"__"` in `b`. */
  lemma SplitAtFirstSeparator(a: string, b: string)
    requires '_' !in a && !Occurs(b, "__")
    ensures Split(a + "__" + b, "__") == [a, b]
  {
    FirstCharBlocks(a + "__" + b, "__", |a|);
    SplitOnce(a, "__", b);
  }

  // ---------------------------------------------------------------------------
  // Properties of the overlay

  /** Variables that are unset or empty change nothing; in particular an empty list changes nothing. */
  lemma {:induction false} OverlayUnset(servicename: string, suffixes: seq<string>, config: Value, env: map<string, string>)
    requires !AnyApplied(servicename, suffixes, env)
    ensures Overlay(servicename, suffixes, config, env) == Ok(config)
    decreases |suffixes|
  {
    if |suffixes| > 0 {
      var init := suffixes[..|suffixes| - 1];
      assert !AnyApplied(servicename, init, env) by {
        forall i | 0 <= i < |init| ensures !Applied(servicename, init[i], env) {
          assert init[i] == suffixes[i];
        }
      }
      OverlayUnset(servicename, init, config, env);
      assert !Applied(servicename, suffixes[|suffixes| - 1], env);
    }
  }

  /** The suffixes are applied in list order: overlaying `a + b` is overlaying `a`, then `b` on the result. */
  lemma {:induction false} OverlayConcat(servicename: string, a: seq<string>, b: seq<string>, config: Value, env: map<string, string>)
    ensures Overlay(servicename, a + b, config, env) ==
            match Overlay(servicename, a, config, env)
            case Ok(c) => Overlay(servicename, b, c, env)
            case Err(e) => Err(e)
    decreases |b|
  {
    if |b| == 0 {
      assert a + b == a;
    } else {
      var b0 := b[..|b| - 1];
      assert (a + b)[..|a + b| - 1] == a + b0;
      assert (a + b)[|a + b| - 1] == b[|b| - 1];
      OverlayConcat(servicename, a, b0, config, env);
    }
  }

  /** The overlay reads the environment only at the names it builds from the listed suffixes. */
  lemma {:induction false} OverlayReadsOnlyListed(servicename: string, suffixes: seq<string>, config: Value, env1: map<string, string>, env2: map<string, string>)
    requires forall i :: 0 <= i < |suffixes| ==>
               (EnvVarName(servicename, suffixes[i]) in env1 <==> EnvVarName(servicename, suffixes[i]) in env2)
    requires forall i :: 0 <= i < |suffixes| && EnvVarName(servicename, suffixes[i]) in env1 ==>
               env1[EnvVarName(servicename, suffixes[i])] == env2[EnvVarName(servicename, suffixes[i])]
    ensures Overlay(servicename, suffixes, config, env1) == Overlay(servicename, suffixes, config, env2)
    decreases |suffixes|
  {
    if |suffixes| > 0 {
      var n := |suffixes| - 1;
      var init := suffixes[..n];
      forall i | 0 <= i < |init| ensures init[i] == suffixes[i] { }
      OverlayReadsOnlyListed(servicename, init, config, env1, env2);
      assert EnvVarName(servicename, suffixes[n]) in env1 ==>
               env1[EnvVarName(servicename, suffixes[n])] == env2[EnvVarName(servicename, suffixes[n])];
    }
  }

  /** A successful overlay leaves every prefix of the list successful. */
  lemma OverlayOkInit(servicename: string, suffixes: seq<string>, config: Value, env: map<string, string>)
    requires |suffixes| > 0
    requires Overlay(servicename, suffixes, config, env).Ok?
    ensures Overlay(servicename, suffixes[..|suffixes| - 1], config, env).Ok?
    ensures Step(servicename, suffixes[|suffixes| - 1], Overlay(servicename, suffixes[..|suffixes| - 1], config, env).value, env)
            == Overlay(servicename, suffixes, config, env)
  {
  }

  /** What a successful write of `v` at `keys` leaves at a path `q` it touches. */
  function Effect(keys: seq<string>, v: string, q: seq<string>): Shape {
    if IsPrefix(keys, q) then Obs(Str(v), q[|keys|..]) else Node
  }

  /** The result of the last applied suffix whose path touches `q`, if any. */
  function LastEffect(servicename: string, suffixes: seq<string>, env: map<string, string>, q: seq<string>): Option<Shape>
    decreases |suffixes|
  {
    if |suffixes| == 0 then None
    else
      var s := suffixes[|suffixes| - 1];
      if Applied(servicename, s, env) && !Disjoint(KeyPath(servicename, s), q) then
        Some(Effect(KeyPath(servicename, s), env[EnvVarName(servicename, s)], q))
      else LastEffect(servicename, suffixes[..|suffixes| - 1], env, q)
  }

  /**
   * After a successful overlay, what sits at any path is decided by the last
   * applied write touching that path, or, if none does, by the input.
   */
  lemma {:induction false} OverlayObserved(servicename: string, suffixes: seq<string>, config: Value, env: map<string, string>, t: Value, q: seq<string>)
    requires Overlay(servicename, suffixes, config, env) == Ok(t)
    ensures Obs(t, q) == match LastEffect(servicename, suffixes, env, q)
                         case Some(sh) => sh
                         case None => Obs(config, q)
    decreases |suffixes|
  {
    if |suffixes| > 0 {
      OverlayOkInit(servicename, suffixes, config, env);
      var s := suffixes[|suffixes| - 1];
      var init := suffixes[..|suffixes| - 1];
      var t0 := Overlay(servicename, init, config, env).value;
      OverlayObserved(servicename, init, config, env, t0, q);
      if Applied(servicename, s, env) {
        var keys := KeyPath(servicename, s);
        var m := UpdateIn(t0.entries, keys, Str(env[EnvVarName(servicename, s)])).value;
        assert t == Dict(m);
        if IsPrefix(keys, q) {
          UpdateInBeneath(t0.entries, keys, Str(env[EnvVarName(servicename, s)]), m, q);
        } else if IsPrefix(q, keys) {
          UpdateInAbove(t0.entries, keys, Str(env[EnvVarName(servicename, s)]), m, q);
        } else {
          UpdateInElsewhere(t0.entries, keys, Str(env[EnvVarName(servicename, s)]), m, q);
        }
      }
    }
  }

  /**
   * Re-running the overlay on its own output under the same environment
   * gives that output back whenever the second run does not raise: every
   * write is a constant taken from the environment.
   */
  lemma OverlayIdempotent(servicename: string, suffixes: seq<string>, config: Value, env: map<string, string>)
    requires Overlay(servicename, suffixes, config, env).Ok?
    ensures var once := Overlay(servicename, suffixes, config, env).value;
            Overlay(servicename, suffixes, once, env).Ok? ==> Overlay(servicename, suffixes, once, env) == Ok(once)
  {
    var once := Overlay(servicename, suffixes, config, env).value;
    if Overlay(servicename, suffixes, once, env).Ok? {
      var twice := Overlay(servicename, suffixes, once, env).value;
      forall q ensures Obs(twice, q) == Obs(once, q) {
        OverlayObserved(servicename, suffixes, config, env, once, q);
        OverlayObserved(servicename, suffixes, once, env, twice, q);
      }
      ObsExtensional(twice, once);
    }
  }

  /**
   * A later write wins: after a successful overlay, the path of an applied
   * suffix holds its variable's value unless a later applied suffix touches
   * that path.
   */
  lemma {:induction false} OverlayLastWins(servicename: string, suffixes: seq<string>, config: Value, env: map<string, string>, j: nat)
    requires j < |suffixes| && Applied(servicename, suffixes[j], env)
    requires Overlay(servicename, suffixes, config, env).Ok?
    requires forall k :: j < k < |suffixes| && Applied(servicename, suffixes[k], env) ==>
               Disjoint(KeyPath(servicename, suffixes[k]), KeyPath(servicename, suffixes[j]))
    ensures Lookup(Overlay(servicename, suffixes, config, env).value, KeyPath(servicename, suffixes[j]))
            == Some(Str(env[EnvVarName(servicename, suffixes[j])]))
    decreases |suffixes|
  {
    OverlayOkInit(servicename, suffixes, config, env);
    var n := |suffixes| - 1;
    var s := suffixes[n];
    var init := suffixes[..n];
    var t0 := Overlay(servicename, init, config, env).value;
    var q := KeyPath(servicename, suffixes[j]);
    var t := Overlay(servicename, suffixes, config, env).value;
    if j == n {
      var m := UpdateIn(t0.entries, q, Str(env[EnvVarName(servicename, s)])).value;
      assert t == Dict(m);
      UpdateInBeneath(t0.entries, q, Str(env[EnvVarName(servicename, s)]), m, q);
      assert q[|q|..] == [];
    } else {
      assert init[j] == suffixes[j];
      forall k | j < k < |init| && Applied(servicename, init[k], env)
        ensures Disjoint(KeyPath(servicename, init[k]), q)
      {
        assert init[k] == suffixes[k];
      }
      OverlayLastWins(servicename, init, config, env, j);
      if Applied(servicename, s, env) {
        var keys := KeyPath(servicename, s);
        var m := UpdateIn(t0.entries, keys, Str(env[EnvVarName(servicename, s)])).value;
        assert t == Dict(m);
        UpdateInElsewhere(t0.entries, keys, Str(env[EnvVarName(servicename, s)]), m, q);
      }
    }
  }

  /**
   * Idempotence is only conditional: where an earlier suffix writes beneath
   * a key that a later suffix overwrites with a string, the second run
   * meets a string where it needs a mapping and raises.
   */
  lemma OverlayNotIdempotent()
    ensures var env := map["S_A__B" := "1", "S_A" := "2"];
            var once := Overlay("S", ["A__B", "A"], Dict(map[]), env);
            once == Ok(Dict(map["a" := Str("2")])) &&
            Overlay("S", ["A__B", "A"], once.value, env) == Err(UpdateFailed(NotAMapping("a")))
  {
    var env := map["S_A__B" := "1", "S_A" := "2"];
    var suffixes := ["A__B", "A"];
    var nested := Dict(map["a" := Dict(map["b" := Str("1")])]);
    var once := Dict(map["a" := Str("2")]);
    ExampleSteps();
    assert suffixes[..1] == ["A__B"];
    assert suffixes[..1][..0] == [];
    assert Overlay("S", ["A__B"], Dict(map[]), env) == Ok(nested);
    assert Overlay("S", suffixes, Dict(map[]), env) == Ok(once);
    assert Overlay("S", ["A__B"], once, env) == Err(UpdateFailed(NotAMapping("a")));
  }

  /** The key paths of the example's two variables. */
  lemma ExampleKeyPaths()
    ensures KeyPath("S", "A__B") == ["a", "b"] && KeyPath("S", "A") == ["a"]
  {
    assert 'S' !in "A__B";
    assert "A" + "__" + "B" == "A__B" && "S" + "_" == "S_";
    OccursCarriesChars("A__B", "S_", 'S');
    KeyPathNested("S", "A", "B");
    KeyPathFlat("S", "A");
    assert Lower("A") == "a";
    assert Lower("B") == "b";
  }

  /** The three steps the example goes through. */
  lemma ExampleSteps()
    ensures var env := map["S_A__B" := "1", "S_A" := "2"];
            Step("S", "A__B", Dict(map[]), env) == Ok(Dict(map["a" := Dict(map["b" := Str("1")])])) &&
            Step("S", "A", Dict(map["a" := Dict(map["b" := Str("1")])]), env) == Ok(Dict(map["a" := Str("2")])) &&
            Step("S", "A__B", Dict(map["a" := Str("2")]), env) == Err(UpdateFailed(NotAMapping("a")))
  {
    ExampleKeyPaths();
    assert EnvVarName("S", "A__B") == "S_A__B";
    assert EnvVarName("S", "A") == "S_A";
    assert ["a", "b"][1..] == ["b"];
    assert UpdateIn(map[], ["a", "b"], Str("1")) == Ok(map["a" := Dict(map["b" := Str("1")])]);
    assert map["a" := Dict(map["b" := Str("1")])]["a" := Str("2")] == map["a" := Str("2")];
  }
}
