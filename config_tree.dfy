/**
 * The untyped nested configuration map (a parsed YAML document or the
 * `dict()` of a pydantic model) and the copy-on-write nested update the
 * overlay is built on: `_update_value_in_nested_dict_by_keylist`, a wrapper
 * around `toolz.dicttoolz.update_in` called with a function that ignores the
 * old value.
 *
 * Trees are values, so the input of an update is never changed; the deep copy
 * the source makes before updating is implicit.
 */
module ConfigTree {
  import opened Results

  /** A node of the configuration: a scalar, a list, or a string-keyed mapping. */
  datatype Value =
    | Null
    | Bool(b: bool)
    | Int(i: int)
    | Str(s: string)
    | List(items: seq<Value>)
    | Dict(entries: map<string, Value>)

  /** Why `update_in` raised. */
  datatype TreeError =
    | EmptyKeyPath            // `next(ks)` on an empty key list raises StopIteration
    | NotAMapping(key: string) // `dict.update` of a non-mapping intermediate value

  /** The value reached by following `path`, if every step finds its key in a mapping. */
  function Lookup(t: Value, path: seq<string>): (r: Option<Value>)
    ensures |path| > 0 && r.Some? ==> t.Dict? && path[0] in t.entries
    decreases |path|
  {
    if |path| == 0 then Some(t)
    else if t.Dict? && path[0] in t.entries then Lookup(t.entries[path[0]], path[1..])
    else None
  }

  predicate IsPrefix(p: seq<string>, q: seq<string>) {
    |p| <= |q| && q[..|p|] == p
  }

  /** Neither path sits inside the other: an update along one never touches the other. */
  predicate Disjoint(p: seq<string>, q: seq<string>) {
    !IsPrefix(p, q) && !IsPrefix(q, p)
  }

  /**
   * `update_in(d, keys, lambda x: v)`: every level along `keys` is copied, a
   * missing intermediate key becomes an empty mapping, and the last key is
   * bound to `v`.  An intermediate value that is not a mapping makes the copy
   * (`dict.update`) raise.
   */
  function UpdateIn(d: map<string, Value>, keys: seq<string>, v: Value): (r: Result<map<string, Value>, TreeError>)
    ensures r.Ok? ==> |keys| > 0 && r.value.Keys == d.Keys + {keys[0]}
    decreases |keys|
  {
    if |keys| == 0 then Err(EmptyKeyPath)
    else if |keys| == 1 then Ok(d[keys[0] := v])
    else
      var child := if keys[0] in d then d[keys[0]] else Dict(map[]);
      if !child.Dict? then Err(NotAMapping(keys[0]))
      else
        match UpdateIn(child.entries, keys[1..], v)
        case Ok(m) => Ok(d[keys[0] := Dict(m)])
        case Err(e) => Err(e)
  }

  /** Every proper, non-empty prefix of `keys` is absent or a mapping in `t`. */
  predicate PathOpen(t: Value, keys: seq<string>) {
    forall i :: 1 <= i < |keys| ==> Lookup(t, keys[..i]).None? || Lookup(t, keys[..i]).value.Dict?
  }

  /** `update_in` succeeds exactly when the key list is non-empty and no intermediate is a non-mapping. */
  lemma {:induction false} UpdateInSucceeds(d: map<string, Value>, keys: seq<string>, v: Value)
    ensures UpdateIn(d, keys, v).Ok? <==> |keys| > 0 && PathOpen(Dict(d), keys)
    decreases |keys|
  {
    if |keys| > 1 {
      var k := keys[0];
      var child := if k in d then d[k] else Dict(map[]);
      forall i | 1 <= i < |keys|
        ensures Lookup(Dict(d), keys[..i]) == (if k in d then Lookup(child, keys[1..][..i - 1]) else None)
      {
        assert keys[..i][1..] == keys[1..][..i - 1];
      }
      assert Lookup(Dict(d), keys[..1]) == (if k in d then Some(child) else None);
      if child.Dict? {
        UpdateInSucceeds(child.entries, keys[1..], v);
        if k !in d {
          forall i | 1 <= i < |keys| - 1 ensures Lookup(child, keys[1..][..i]).None? {
          }
        }
        assert PathOpen(Dict(d), keys) <==> PathOpen(child, keys[1..]) by {
          if PathOpen(child, keys[1..]) {
            forall i | 1 <= i < |keys|
              ensures Lookup(Dict(d), keys[..i]).None? || Lookup(Dict(d), keys[..i]).value.Dict?
            {
              if k in d && i > 1 {
                assert Lookup(child, keys[1..][..i - 1]).None? || Lookup(child, keys[1..][..i - 1]).value.Dict?;
              }
            }
          }
          if PathOpen(Dict(d), keys) {
            forall i | 1 <= i < |keys| - 1
              ensures Lookup(child, keys[1..][..i]).None? || Lookup(child, keys[1..][..i]).value.Dict?
            {
              assert Lookup(Dict(d), keys[..i + 1]).None? || Lookup(Dict(d), keys[..i + 1]).value.Dict?;
            }
          }
        }
      } else {
        assert k in d;
        assert !(Lookup(Dict(d), keys[..1]).None? || Lookup(Dict(d), keys[..1]).value.Dict?);
      }
    }
  }

  /** Paths with the same first key compare as their tails do. */
  lemma PrefixTail(p: seq<string>, q: seq<string>)
    requires |p| > 0 && |q| > 0 && p[0] == q[0]
    ensures IsPrefix(p, q) <==> IsPrefix(p[1..], q[1..])
  {
    if IsPrefix(p, q) { assert q[1..][..|p| - 1] == q[..|p|][1..]; }
    if IsPrefix(p[1..], q[1..]) { assert q[..|p|] == [q[0]] + q[1..][..|p| - 1]; }
  }

  /** One step down a mapping. */
  lemma LookupStep(t: map<string, Value>, q: seq<string>)
    requires |q| > 0
    ensures Lookup(Dict(t), q) == if q[0] in t then Lookup(t[q[0]], q[1..]) else None
  {
  }

  /** Beneath `keys`, a successful update holds what lies beneath in `v`; at `keys` itself, `v`. */
  lemma {:induction false} UpdateInBeneath(d: map<string, Value>, keys: seq<string>, v: Value, r: map<string, Value>, q: seq<string>)
    requires UpdateIn(d, keys, v) == Ok(r)
    requires IsPrefix(keys, q)
    ensures Lookup(Dict(r), q) == Lookup(v, q[|keys|..])
    decreases |keys|
  {
    var k := keys[0];
    LookupStep(r, q);
    if |keys| == 1 {
      assert q[1..] == q[|keys|..];
    } else {
      var child := if k in d then d[k] else Dict(map[]);
      var m :| UpdateIn(child.entries, keys[1..], v) == Ok(m);
      assert r == d[k := Dict(m)];
      PrefixTail(keys, q);
      UpdateInBeneath(child.entries, keys[1..], v, m, q[1..]);
      assert q[|keys|..] == q[1..][|keys| - 1..];
    }
  }

  /** Strictly above `keys`, a successful update leaves a mapping (created empty where it was missing). */
  lemma {:induction false} UpdateInAbove(d: map<string, Value>, keys: seq<string>, v: Value, r: map<string, Value>, q: seq<string>)
    requires UpdateIn(d, keys, v) == Ok(r)
    requires IsPrefix(q, keys) && |q| < |keys|
    ensures Lookup(Dict(r), q).Some? && Lookup(Dict(r), q).value.Dict?
    decreases |keys|
  {
    if |q| > 0 {
      var k := keys[0];
      var child := if k in d then d[k] else Dict(map[]);
      var m :| UpdateIn(child.entries, keys[1..], v) == Ok(m);
      assert r == d[k := Dict(m)];
      LookupStep(r, q);
      PrefixTail(q, keys);
      UpdateInAbove(child.entries, keys[1..], v, m, q[1..]);
    }
  }

  /** Off the updated path, a successful update changes nothing. */
  lemma {:induction false} UpdateInElsewhere(d: map<string, Value>, keys: seq<string>, v: Value, r: map<string, Value>, q: seq<string>)
    requires UpdateIn(d, keys, v) == Ok(r)
    requires Disjoint(keys, q)
    ensures Lookup(Dict(r), q) == Lookup(Dict(d), q)
    decreases |keys|
  {
    var k := keys[0];
    LookupStep(r, q);
    LookupStep(d, q);
    if |keys| > 1 && q[0] == k {
      var child := if k in d then d[k] else Dict(map[]);
      var m :| UpdateIn(child.entries, keys[1..], v) == Ok(m);
      assert r == d[k := Dict(m)];
      PrefixTail(keys, q);
      PrefixTail(q, keys);
      assert |q| > 1;
      UpdateInElsewhere(child.entries, keys[1..], v, m, q[1..]);
      LookupStep(child.entries, q[1..]);
    }
  }

  /** The shape of what sits at a path: nothing, a mapping (whose content is read deeper), or a leaf. */
  datatype Shape = Absent | Node | Leaf(v: Value)

  function Kind(o: Option<Value>): Shape {
    match o
    case None => Absent
    case Some(v) => if v.Dict? then Node else Leaf(v)
  }

  /** The shape of `t` at `q`. */
  function Obs(t: Value, q: seq<string>): Shape {
    Kind(Lookup(t, q))
  }

  /** Two trees with the same shape at every path are equal. */
  lemma {:induction false} ObsExtensional(a: Value, b: Value)
    requires forall q :: Obs(a, q) == Obs(b, q)
    ensures a == b
    decreases a
  {
    assert Obs(a, []) == Obs(b, []);
    if a.Dict? {
      var m1, m2 := a.entries, b.entries;
      assert b.Dict?;
      forall k ensures k in m1 <==> k in m2 {
        assert [k][1..] == [];
        assert Lookup(a, [k]).Some? <==> k in m1;
        assert Lookup(b, [k]).Some? <==> k in m2;
        assert Obs(a, [k]) == Obs(b, [k]);
      }
      forall k | k in m1 ensures m1[k] == m2[k] {
        forall q ensures Obs(m1[k], q) == Obs(m2[k], q) {
          assert Obs(a, [k] + q) == Obs(b, [k] + q);
          assert ([k] + q)[1..] == q;
        }
        ObsExtensional(m1[k], m2[k]);
      }
      assert m1 == m2;
    }
  }
}
