/**
 * Translate handles: `createTFunction` (src/utils/createTFunction.ts) and
 * the inline `tFunction`s of the server and legacy `getTranslations`. A
 * handle looks a dotted key up in its namespace and calls what it finds
 * only when that is a function without a `displayName`.
 */
module TFunction {
  import opened Wrappers
  import opened Values
  import opened ObjectPath
  import ParamRegex
  import WrapMessages
  import Text

  /**
   * A handle: the namespace it reads, the path it was made for, the class
   * it throws for a missing key, and the properties `Object.assign` copied
   * onto it.
   */
  datatype Handle = Handle(nsp: Value, path: string, notFound: ErrorClass, exposed: seq<Prop>)

  function NotFound(h: Handle, key: string): Error {
    Error(h.notFound, "Translation \"" + key + "\" not found in namespace \"" + h.path + "\"")
  }

  /**
   * Calling a parameterised function: `value.replace(paramRegex, ...)`.
   * `params` is `None` when the caller passed nothing; reading a parameter
   * off `undefined` is then a TypeError, raised as soon as there is a
   * placeholder to fill.
   */
  function CallParamFn(template: string, missing: ErrorClass, params: Option<map<string, string>>): (r: Result<Value>)
    ensures r.Ok? ==> r.value.Str?
    ensures params.None? ==> (r.Err? <==> ParamRegex.HasPlaceholder(template))
    ensures params.None? && r.Err? ==> r.error == PropertyOfNullish
  {
    match params
    case None => if ParamRegex.HasPlaceholder(template) then Err(PropertyOfNullish) else Ok(Str(template))
    case Some(p) =>
      var text :- ParamRegex.Substitute(template, p, missing);
      Ok(Str(text))
  }

  /** A template without placeholders comes back as it is, with or without parameters. */
  lemma CallWithoutPlaceholder(template: string, missing: ErrorClass, params: Option<map<string, string>>)
    requires !ParamRegex.HasPlaceholder(template)
    ensures CallParamFn(template, missing, params) == Ok(Str(template))
  {
    if params.Some? {
      ParamRegex.SubstituteNoPlaceholder(template, params.value, missing);
    }
  }

  /** `typeof v === "function" && !("displayName" in v)`. */
  predicate Callable(v: Value) {
    IsFunction(v) && !HasProp(v, "displayName")
  }

  /** `tFunction(key, params)`. */
  function Translate(h: Handle, key: string, params: Option<map<string, string>>): (r: Result<Value>)
    ensures Nullish(Dlv(h.nsp, key)) ==> r == Err(NotFound(h, key))
    ensures !Nullish(Dlv(h.nsp, key)) && !Callable(Dlv(h.nsp, key)) ==> r == Ok(Dlv(h.nsp, key))
    ensures Dlv(h.nsp, key).RefThunk? ==> r == Ok(Dlv(h.nsp, key))
    ensures r.Ok? && Callable(Dlv(h.nsp, key)) ==> r.value.Str?
  {
    var found := Dlv(h.nsp, key);
    if Nullish(found) then Err(NotFound(h, key))
    else if Callable(found) then CallParamFn(found.template, found.missing, params)
    else Ok(found)
  }

  /**
   * Through a handle over a wrapped namespace, a key naming a raw string
   * gives that string when it has no placeholder and its substitution
   * otherwise; keys naming nothing fail naming key and namespace.
   */
  lemma TranslateWrapped(raw: Value, h: Handle, key: string, params: map<string, string>, o: WrapMessages.WrapOptions)
    requires WrapMessages.Wrap(raw, o) == Ok(h.nsp)
    requires WrapMessages.PlainAlong(raw, Text.Split(key, '.'), o.refProp)
    ensures Nullish(Dlv(raw, key)) ==> Translate(h, key, Some(params)) == Err(NotFound(h, key))
    ensures Dlv(raw, key).Str? ==>
      var s := Dlv(raw, key).s;
      && (!ParamRegex.HasPlaceholder(s) ==> Translate(h, key, Some(params)) == Ok(Str(s)))
      && (ParamRegex.HasPlaceholder(s) ==>
            match ParamRegex.Substitute(s, params, o.missingParam)
            case Ok(text) => Translate(h, key, Some(params)) == Ok(Str(text))
            case Err(e) => Translate(h, key, Some(params)) == Err(e))
  {
    var found, wrapped := Dlv(raw, key), Dlv(h.nsp, key);
    WrapMessages.WrapDlv(raw, h.nsp, Text.Split(key, '.'), o);
    WrapMessages.WrapKeepsNullish(found, wrapped, o);
    if found.Str? {
      TranslateString(h, key, found.s, params, o);
    }
  }

  /** The string case: what a wrapped string leaf translates to. */
  lemma TranslateString(h: Handle, key: string, s: string, params: map<string, string>, o: WrapMessages.WrapOptions)
    requires WrapMessages.Wrap(Str(s), o) == Ok(Dlv(h.nsp, key))
    ensures !ParamRegex.HasPlaceholder(s) ==> Translate(h, key, Some(params)) == Ok(Str(s))
    ensures ParamRegex.HasPlaceholder(s) ==>
      match ParamRegex.Substitute(s, params, o.missingParam)
      case Ok(text) => Translate(h, key, Some(params)) == Ok(Str(text))
      case Err(e) => Translate(h, key, Some(params)) == Err(e)
  {
    WrapMessages.WrapStringCases(s, o);
    if ParamRegex.HasPlaceholder(s) {
      assert Callable(Dlv(h.nsp, key));
    } else {
      assert !Callable(Dlv(h.nsp, key));
    }
  }

  // ---------------------------------------------------------------------
  // `Object.assign(tFunction, nsp)`
  // ---------------------------------------------------------------------

  /**
   * Own or inherited properties of a strict-mode function that an
   * assignment cannot change: `name` and `length` are read-only, and
   * `arguments` and `caller` are accessors on `Function.prototype` whose
   * setter throws.
   */
  predicate FixedOnFunction(k: string) {
    k == "name" || k == "length" || k == "arguments" || k == "caller"
  }

  /** `Object.assign(tFunction, nsp)` as written: properties are set one by one, and the first fixed one throws. */
  function AssignOntoFunction(target: seq<Prop>, src: seq<Prop>): (r: Result<seq<Prop>>)
    ensures r.Err? ==> r.error.cls == TypeError
    decreases |src|
  {
    if src == [] then Ok(target)
    else if FixedOnFunction(src[0].key) then
      Err(Error(TypeError, "Cannot assign to read only property '" + src[0].key + "' of function"))
    else AssignOntoFunction(SetField(target, src[0].key, src[0].val), src[1..])
  }

  /** Copying every enumerable property onto the handle, as the handle's type promises. */
  function Expose(target: seq<Prop>, src: seq<Prop>): (r: seq<Prop>)
    ensures forall k :: k in Keys(r) <==> k in Keys(target) || k in Keys(src)
    decreases |src|
  {
    if src == [] then target
    else
      var r := Expose(SetField(target, src[0].key, src[0].val), src[1..]);
      assert Keys(src) == [src[0].key] + Keys(src[1..]);
      r
  }

  predicate UniqueKeys(ps: seq<Prop>) {
    forall i, j | 0 <= i < j < |ps| :: ps[i].key != ps[j].key
  }

  /** Each exposed property reads back the value the namespace has under that key. */
  lemma {:induction false} ExposeValues(target: seq<Prop>, src: seq<Prop>, k: string)
    requires UniqueKeys(src) && k in Keys(src)
    ensures FindProp(Expose(target, src), k) == FindProp(src, k)
    decreases |src|
  {
    if src[0].key == k {
      ExposeKeeps(SetField(target, k, src[0].val), src[1..], k);
    } else {
      ExposeValues(SetField(target, src[0].key, src[0].val), src[1..], k);
    }
  }

  lemma {:induction false} ExposeKeeps(target: seq<Prop>, src: seq<Prop>, k: string)
    requires k !in Keys(src)
    ensures FindProp(Expose(target, src), k) == FindProp(target, k)
    decreases |src|
  {
    if src != [] {
      assert src[0].key != k;
      SetFieldOthers(target, src[0].key, src[0].val, k);
      ExposeKeeps(SetField(target, src[0].key, src[0].val), src[1..], k);
    }
  }

  /**
   * The assignment as written succeeds exactly when the namespace has no
   * fixed key, and then it exposes what the intended copy exposes.
   */
  lemma {:induction false} AssignOntoFunctionFails(target: seq<Prop>, src: seq<Prop>)
    ensures AssignOntoFunction(target, src).Ok? <==> forall i | 0 <= i < |src| :: !FixedOnFunction(src[i].key)
    ensures AssignOntoFunction(target, src).Ok? ==> AssignOntoFunction(target, src).value == Expose(target, src)
    decreases |src|
  {
    if src != [] && !FixedOnFunction(src[0].key) {
      AssignOntoFunctionFails(SetField(target, src[0].key, src[0].val), src[1..]);
      assert forall i | 1 <= i < |src| :: src[i] == src[1..][i - 1];
    }
  }

  /** `createTFunction(nsp, path)` as written: `Object.assign` may throw. */
  function CreateTFunctionAsWritten(nsp: Value, path: string, notFound: ErrorClass): (r: Result<Handle>)
    ensures r.Ok? <==> forall i | 0 <= i < |Enumerable(nsp)| :: !FixedOnFunction(Enumerable(nsp)[i].key)
    ensures r.Err? ==> r.error.cls == TypeError
    ensures r.Ok? ==> r.value == CreateTFunction(nsp, path, notFound)
  {
    AssignOntoFunctionFails([], Enumerable(nsp));
    var exposed :- AssignOntoFunction([], Enumerable(nsp));
    Ok(Handle(nsp, path, notFound, exposed))
  }

  /** `createTFunction(nsp, path)` with every enumerable property exposed. */
  function CreateTFunction(nsp: Value, path: string, notFound: ErrorClass): (h: Handle)
    ensures h.nsp == nsp && h.path == path && h.notFound == notFound
    ensures forall k :: k in Keys(h.exposed) <==> k in Keys(Enumerable(nsp))
  {
    Handle(nsp, path, notFound, Expose([], Enumerable(nsp)))
  }

  /** A namespace with a `name` entry makes the written handle throw, where the intended one exposes it. */
  lemma NameKeyBreaksAssign(path: string, notFound: ErrorClass)
    ensures var nsp := Obj([Prop("name", Str("Name")), Prop("email", Str("Email"))]);
      && CreateTFunctionAsWritten(nsp, path, notFound).Err?
      && CreateTFunctionAsWritten(nsp, path, notFound).error.cls == TypeError
      && FindProp(CreateTFunction(nsp, path, notFound).exposed, "name") == Str("Name")
  {
    var ps := [Prop("name", Str("Name")), Prop("email", Str("Email"))];
    assert Enumerable(Obj(ps)) == ps;
    assert FixedOnFunction(ps[0].key);
    assert AssignOntoFunction([], ps).Err?;
    NameEmailUnique(ps);
    ExposeValues([], ps, "name");
  }

  lemma NameEmailUnique(ps: seq<Prop>)
    requires ps == [Prop("name", Str("Name")), Prop("email", Str("Email"))]
    ensures UniqueKeys(ps) && "name" in Keys(ps) && FindProp(ps, "name") == Str("Name")
  {
    assert Keys(ps) == ["name", "email"];
  }
}
