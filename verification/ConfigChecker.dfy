/**
 * Configuration paths with wildcards (packages/portal/src/plugins/config-checker.ts).
 */
module ConfigChecker {
  import opened Wrappers
  import opened Text

  /**
   * A configuration value: a falsy or a truthy one without keys, or an object or array with its own keys (for an array
   * the indices in decimal).
   */
  datatype Value = Falsy | Truthy | Node(isArray: bool, fields: map<string, Value>)

  /**
   * What `obj[key]` gives for a key that is not among `Object.keys(obj)`, as an inherited name or an array's length.
   */
  type Hidden = (Value, string) -> Value

  datatype Quantifier = Any | Every

  function Get(hidden: Hidden, v: Value, key: string): Value
    requires v.Node?
  {
    if key in v.fields then v.fields[key] else hidden(v, key)
  }

  /** The base case: an object counts by its keys, anything else by its truth. */
  predicate Leaf(v: Value) {
    match v
    case Falsy => false
    case Truthy => true
    case Node(isArray, fields) => isArray || fields != map[]
  }

  /** `recurse` */
  predicate Recurse(hidden: Hidden, q: Quantifier, v: Value, parts: seq<string>)
    decreases |parts|
  {
    if |parts| == 0 then Leaf(v)
    else if !v.Node? then false
    else if parts[0] == "*" then
      && v.fields != map[]
      && match q
         case Any => exists key :: key in v.fields && Recurse(hidden, q, v.fields[key], parts[1..])
         case Every => forall key :: key in v.fields ==> Recurse(hidden, q, v.fields[key], parts[1..])
    else Recurse(hidden, q, Get(hidden, v, parts[0]), parts[1..])
  }

  // ---------------------------------------------------------------- the reference: instantiations of the wildcards

  /** One step: a wildcard takes any existing key, a name only itself. */
  function Enter(hidden: Hidden, v: Value, part: string, key: string): Option<Value> {
    if !v.Node? then None
    else if part == "*" then if key in v.fields then Some(v.fields[key]) else None
    else if key == part then Some(if key in v.fields then v.fields[key] else hidden(v, key))
    else None
  }

  /** The value reached by keys for the first parts of a path. */
  function Reach(hidden: Hidden, v: Value, parts: seq<string>, keys: seq<string>): Option<Value>
    requires |keys| <= |parts|
    decreases |keys|
  {
    if |keys| == 0 then Some(v)
    else match Enter(hidden, v, parts[0], keys[0])
      case None => None
      case Some(next) => Reach(hidden, next, parts[1..], keys[1..])
  }

  /** Some instantiation of the whole path reaches a leaf that counts. */
  ghost predicate SomeLeaf(hidden: Hidden, v: Value, parts: seq<string>) {
    exists keys :: LeafAt(hidden, v, parts, keys)
  }

  ghost predicate LeafAt(hidden: Hidden, v: Value, parts: seq<string>, keys: seq<string>) {
    |keys| == |parts| && Reach(hidden, v, parts, keys).Some? && GoesOn(Reach(hidden, v, parts, keys).value, [])
  }

  /** A value reached on the way can be entered, by at least one key; at the end a truthy value, an array or an object
      with keys counts. */
  predicate GoesOn(v: Value, rest: seq<string>) {
    if |rest| == 0 then v.Truthy? || (v.Node? && (v.isArray || v.fields != map[]))
    else v.Node? && (rest[0] == "*" ==> v.fields != map[])
  }

  /** Whatever the first keys, the path goes on from what they reach. */
  ghost predicate EveryPath(hidden: Hidden, v: Value, parts: seq<string>) {
    forall keys :: PathGoesOn(hidden, v, parts, keys)
  }

  ghost predicate PathGoesOn(hidden: Hidden, v: Value, parts: seq<string>, keys: seq<string>) {
    |keys| <= |parts| && Reach(hidden, v, parts, keys).Some? ==>
      GoesOn(Reach(hidden, v, parts, keys).value, parts[|keys|..])
  }

  // ---------------------------------------------------------------- some

  lemma LeafFurther(hidden: Hidden, v: Value, parts: seq<string>, key: string, next: Value, keys: seq<string>)
    requires |parts| > 0 && Enter(hidden, v, parts[0], key) == Some(next) && LeafAt(hidden, next, parts[1..], keys)
    ensures LeafAt(hidden, v, parts, [key] + keys)
  {
    assert ([key] + keys)[1..] == keys;
  }

  lemma {:induction false} SomeFound(hidden: Hidden, v: Value, parts: seq<string>) returns (keys: seq<string>)
    requires Recurse(hidden, Any, v, parts)
    ensures LeafAt(hidden, v, parts, keys)
    decreases |parts|
  {
    if |parts| == 0 {
      keys := [];
    } else {
      var key := parts[0];
      if parts[0] == "*" {
        key :| key in v.fields && Recurse(hidden, Any, v.fields[key], parts[1..]);
      }
      var next := Enter(hidden, v, parts[0], key).value;
      var rest := SomeFound(hidden, next, parts[1..]);
      LeafFurther(hidden, v, parts, key, next, rest);
      keys := [key] + rest;
    }
  }

  lemma {:induction false} SomeHolds(hidden: Hidden, v: Value, parts: seq<string>, keys: seq<string>)
    requires LeafAt(hidden, v, parts, keys)
    ensures Recurse(hidden, Any, v, parts)
    decreases |parts|
  {
    if |parts| > 0 {
      var next := Enter(hidden, v, parts[0], keys[0]).value;
      SomeHolds(hidden, next, parts[1..], keys[1..]);
    }
  }

  /** With `or`: some instantiation of the wildcards by existing keys reaches a leaf that counts. */
  lemma OrExactly(hidden: Hidden, v: Value, parts: seq<string>)
    ensures Recurse(hidden, Any, v, parts) <==> SomeLeaf(hidden, v, parts)
  {
    if Recurse(hidden, Any, v, parts) {
      var keys := SomeFound(hidden, v, parts);
    }
    if SomeLeaf(hidden, v, parts) {
      var keys :| LeafAt(hidden, v, parts, keys);
      SomeHolds(hidden, v, parts, keys);
    }
  }

  // ---------------------------------------------------------------- every

  lemma {:induction false} EveryHolds(hidden: Hidden, v: Value, parts: seq<string>, keys: seq<string>)
    requires Recurse(hidden, Every, v, parts)
    ensures PathGoesOn(hidden, v, parts, keys)
    decreases |keys|
  {
    if 0 < |keys| <= |parts| && Enter(hidden, v, parts[0], keys[0]).Some? {
      EveryHolds(hidden, Enter(hidden, v, parts[0], keys[0]).value, parts[1..], keys[1..]);
      assert parts[1..][|keys[1..]|..] == parts[|keys|..];
    }
  }

  lemma EveryFurther(hidden: Hidden, v: Value, parts: seq<string>, key: string, next: Value)
    requires |parts| > 0 && EveryPath(hidden, v, parts) && Enter(hidden, v, parts[0], key) == Some(next)
    ensures EveryPath(hidden, next, parts[1..])
  {
    forall keys
      ensures PathGoesOn(hidden, next, parts[1..], keys)
    {
      assert PathGoesOn(hidden, v, parts, [key] + keys);
      assert ([key] + keys)[1..] == keys;
      if |keys| <= |parts[1..]| {
        assert parts[1..][|keys|..] == parts[|[key] + keys|..];
      }
    }
  }

  lemma {:induction false} EveryFound(hidden: Hidden, v: Value, parts: seq<string>)
    requires EveryPath(hidden, v, parts)
    ensures Recurse(hidden, Every, v, parts)
    decreases |parts|
  {
    assert PathGoesOn(hidden, v, parts, []) && parts[0..] == parts;
    if |parts| > 0 {
      if parts[0] == "*" {
        forall key | key in v.fields
          ensures Recurse(hidden, Every, v.fields[key], parts[1..])
        {
          EveryFurther(hidden, v, parts, key, v.fields[key]);
          EveryFound(hidden, v.fields[key], parts[1..]);
        }
      } else {
        EveryFurther(hidden, v, parts, parts[0], Get(hidden, v, parts[0]));
        EveryFound(hidden, Get(hidden, v, parts[0]), parts[1..]);
      }
    }
  }

  /**
   * With `and`: every choice of existing keys goes on to the end, with keys at each wildcard, and ends at a leaf that
   * counts.
   */
  lemma AndExactly(hidden: Hidden, v: Value, parts: seq<string>)
    ensures Recurse(hidden, Every, v, parts) <==> EveryPath(hidden, v, parts)
  {
    if Recurse(hidden, Every, v, parts) {
      forall keys
        ensures PathGoesOn(hidden, v, parts, keys)
      {
        EveryHolds(hidden, v, parts, keys);
      }
    }
    if EveryPath(hidden, v, parts) {
      EveryFound(hidden, v, parts);
    }
  }

  // ---------------------------------------------------------------- both

  lemma {:induction false} AndImpliesOr(hidden: Hidden, v: Value, parts: seq<string>)
    requires Recurse(hidden, Every, v, parts)
    ensures Recurse(hidden, Any, v, parts)
    decreases |parts|
  {
    if |parts| > 0 {
      if parts[0] == "*" {
        var key :| key in v.fields;
        AndImpliesOr(hidden, v.fields[key], parts[1..]);
      } else {
        AndImpliesOr(hidden, Get(hidden, v, parts[0]), parts[1..]);
      }
    }
  }

  /** Without a wildcard the two are the same. */
  lemma {:induction false} SameWithoutWildcard(hidden: Hidden, v: Value, parts: seq<string>)
    requires "*" !in parts
    ensures Recurse(hidden, Every, v, parts) <==> Recurse(hidden, Any, v, parts)
    decreases |parts|
  {
    if |parts| > 0 && v.Node? {
      SameWithoutWildcard(hidden, Get(hidden, v, parts[0]), parts[1..]);
    }
  }

  // ---------------------------------------------------------------- paths

  /** `checkConf` */
  function CheckConf(hidden: Hidden, conf: Value, path: string, q: Quantifier): bool {
    Recurse(hidden, q, conf, Split(path, '/'))
  }

  /** The path of the names joined by slashes means its instantiations. */
  lemma CheckedExactly(hidden: Hidden, conf: Value, parts: seq<string>)
    requires |parts| > 0 && forall i :: 0 <= i < |parts| ==> '/' !in parts[i]
    ensures CheckConf(hidden, conf, Join(parts, '/'), Any) <==> SomeLeaf(hidden, conf, parts)
    ensures CheckConf(hidden, conf, Join(parts, '/'), Every) <==> EveryPath(hidden, conf, parts)
    ensures EveryPath(hidden, conf, parts) ==> SomeLeaf(hidden, conf, parts)
  {
    SplitJoin(parts, '/');
    OrExactly(hidden, conf, parts);
    AndExactly(hidden, conf, parts);
    if Recurse(hidden, Every, conf, parts) {
      AndImpliesOr(hidden, conf, parts);
    }
  }
}
