/** `safeAccess(obj, path, defaultValue = null)` from utils/errorHandler.js:
    `path.split('.')` folded left to right, each step reading `current[key]`
    when `current` is a non-null object and falling back to `defaultValue`
    otherwise. The parameter default `= null` also replaces an explicit
    `undefined`. */
module ErrorHandler {
  import opened Json
  import opened Strings

  /** The value `defaultValue` holds inside the function: an omitted or `undefined` argument becomes `null`. */
  function DefaultOrNull(defaultValue: JsValue): (d: JsValue)
    ensures d != Undefined
    ensures defaultValue != Undefined ==> d == defaultValue
  {
    if defaultValue.Undefined? then Null else defaultValue
  }

  /** One step of the reduce callback: a non-null object yields its property, anything else the default. */
  function Step(current: JsValue, key: string, defaultValue: JsValue): (r: JsValue)
    ensures current.Obj? ==> r == Get(current.props, key)
    ensures current.Obj? && key !in current.props ==> r == Undefined
    ensures !current.Obj? ==> r == defaultValue
  {
    if IsObject(current) then Get(current.props, key) else defaultValue
  }

  /** `keys.reduce(step, current)`. Once it leaves the objects, a default that is itself no object
      is carried to the end. */
  function Walk(current: JsValue, keys: seq<string>, defaultValue: JsValue): (r: JsValue)
    ensures keys == [] ==> r == current
    ensures keys != [] && !current.Obj? && !defaultValue.Obj? ==> r == defaultValue
    decreases |keys|
  {
    if keys == [] then current else Walk(Step(current, keys[0], defaultValue), keys[1..], defaultValue)
  }

  /** `safeAccess(obj, path, defaultValue)`: a root that is no object yields the default (`null` for an
      omitted or `undefined` one), unless the default is an object the remaining keys read from. */
  function SafeAccess(obj: JsValue, path: string, defaultValue: JsValue): (r: JsValue)
    ensures !obj.Obj? && !defaultValue.Obj? ==> r == DefaultOrNull(defaultValue)
  {
    Walk(obj, Split(path, '.'), DefaultOrNull(defaultValue))
  }

  /** A non-null object is exactly an `Obj`: `null` is an object but falsy. */
  lemma IsObjectIsObj(v: JsValue)
    ensures IsObject(v) <==> v.Obj?
  {
  }

  /** Walking a concatenation of key lists walks the first, then the second. */
  lemma {:induction false} WalkAppend(v: JsValue, ks1: seq<string>, ks2: seq<string>, d: JsValue)
    ensures Walk(v, ks1 + ks2, d) == Walk(Walk(v, ks1, d), ks2, d)
    decreases |ks1|
  {
    if ks1 != [] {
      assert (ks1 + ks2)[0] == ks1[0];
      assert (ks1 + ks2)[1..] == ks1[1..] + ks2;
      WalkAppend(Step(v, ks1[0], d), ks1[1..], ks2, d);
    } else {
      assert ks1 + ks2 == ks2;
    }
  }

  /** A path without a dot reads one key: `obj[key]` from a non-null object, the default from anything else. */
  lemma {:induction false} SingleSegment(obj: JsValue, key: string, d: JsValue)
    requires '.' !in key
    ensures SafeAccess(obj, key, d) == if obj.Obj? then Get(obj.props, key) else DefaultOrNull(d)
  {
    SplitJoin([key], '.');
    assert Join([key], '.') == key;
    assert Split(key, '.') == [key];
    IsObjectIsObj(obj);
    assert Walk(obj, [key], DefaultOrNull(d)) == Walk(Step(obj, key, DefaultOrNull(d)), [], DefaultOrNull(d));
  }

  /** A key missing from an object yields `undefined`, whatever the default is. */
  lemma MissingKeyIsUndefined(props: map<string, JsValue>, key: string, d: JsValue)
    requires '.' !in key && key !in props
    ensures SafeAccess(Obj(props), key, d) == Undefined
  {
    SingleSegment(Obj(props), key, d);
  }

  /** `a.b` reads `a`, then reads `b` from what it found. */
  lemma DottedPath(obj: JsValue, a: string, b: string, d: JsValue)
    ensures SafeAccess(obj, a + "." + b, d) == SafeAccess(SafeAccess(obj, a, d), b, d)
  {
    assert a + "." + b == a + ['.'] + b;
    SplitAround(a, b, '.');
    WalkAppend(obj, Split(a, '.'), Split(b, '.'), DefaultOrNull(d));
  }

  /** A path made of dot-free segments reads one key per segment, left to right. */
  lemma SegmentsInOrder(obj: JsValue, segments: seq<string>, d: JsValue)
    requires |segments| >= 1
    requires forall i :: 0 <= i < |segments| ==> '.' !in segments[i]
    ensures SafeAccess(obj, Join(segments, '.'), d) == Walk(obj, segments, DefaultOrNull(d))
  {
    SplitJoin(segments, '.');
  }

  /** Once a step meets `null` or a non-object, the next step starts again from the default. */
  lemma NonObjectRestartsFromDefault(v: JsValue, keys: seq<string>, d: JsValue)
    requires !v.Obj? && |keys| >= 1
    ensures Walk(v, keys, DefaultOrNull(d)) == Walk(DefaultOrNull(d), keys[1..], DefaultOrNull(d))
  {
  }

  /** An explicit `undefined` default behaves as the omitted one, `null`; so `safeAccess({}, 'a.b', undefined)`
      is `null`: `a` reads `undefined`, and the step on `b` falls back to the default. */
  lemma UndefinedDefaultIsNull(obj: JsValue, path: string)
    ensures SafeAccess(obj, path, Undefined) == SafeAccess(obj, path, Null)
    ensures SafeAccess(Obj(map[]), "a.b", Undefined) == Null
  {
    DottedPath(Obj(map[]), "a", "b", Undefined);
    SingleSegment(Obj(map[]), "a", Undefined);
    SingleSegment(Undefined, "b", Undefined);
  }

  /** With the default `null` (given, omitted or `undefined`), once a prefix of the path reads a non-object,
      the whole path yields `null`, whatever keys follow. */
  lemma NullDefaultAbsorbs(obj: JsValue, a: string, b: string, d: JsValue)
    requires d.Null? || d.Undefined?
    requires !SafeAccess(obj, a, d).Obj?
    ensures SafeAccess(obj, a + "." + b, d) == Null
  {
    DottedPath(obj, a, b, d);
  }
}
