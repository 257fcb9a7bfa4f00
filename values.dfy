/**
 * The JavaScript values the translation runtime handles: message trees as
 * loaded from JSON, and the same trees after wrapping, where strings with
 * placeholders have become parameterised functions and reference objects
 * have become lazily loading components.
 */
module Values {
  import opened Wrappers
  import Text

  /** Identity of a `refLoader` function: the throwing default of `createConfig`, or one the user supplied. */
  datatype RefLoader = DefaultRefLoader | UserRefLoader(id: nat)

  /** The error classes of `src/utils/errors.ts`, plus the engine's own failures. */
  datatype ErrorClass =
    | IntlCacheError
    | IntlRefLoaderError
    | IntlWithLocaleError
    | IntlServerError
    | IntlMissingParamError
    | IntlClientError
    | PlainError              // `new Error(...)`
    | TypeError               // raised by the engine (property of null, read-only property, ...)
    | Undeclared(name: string) // a class that is imported but that errors.ts does not declare
    | Unmodelled              // a state this value model cannot represent (see README)

  datatype Error = Error(cls: ErrorClass, message: string)

  datatype Result<+T> = Ok(value: T) | Err(error: Error) {
    predicate IsFailure() { Err? }
    function PropagateFailure<U>(): Result<U> requires Err? { Err(error) }
    function Extract(): T requires Ok? { value }
  }

  /**
   * A JavaScript value. `Obj` lists its own enumerable properties in
   * enumeration order. `ParamFn` is the function `wrapString` returns for
   * a template (it has no `displayName`); `missing` is the class it throws
   * for an absent parameter. `RefThunk` is the `IntlRef` component
   * `wrapRef` returns for the reference value `ref`, closing over `loader`;
   * its `displayName` is `ref.path`.
   */
  datatype Value =
    | Undefined
    | Null
    | Bool(b: bool)
    | Num(n: int)
    | Str(s: string)
    | Arr(elems: seq<Value>)
    | Obj(props: seq<Prop>)
    | ParamFn(template: string, missing: ErrorClass)
    | RefThunk(ref: Value, loader: RefLoader)

  datatype Prop = Prop(key: string, val: Value)

  /** `x == null`. */
  predicate Nullish(v: Value) { v.Undefined? || v.Null? }

  /** JavaScript truthiness (numbers are integers here, so NaN does not arise). */
  predicate Truthy(v: Value) {
    !(v.Undefined? || v.Null? || v == Bool(false) || v == Num(0) || v == Str(""))
  }

  /** `typeof v === "object"`: arrays, plain objects and null. */
  predicate TypeofObject(v: Value) { v.Obj? || v.Arr? || v.Null? }

  /** `typeof v === "function"`. */
  predicate IsFunction(v: Value) { v.ParamFn? || v.RefThunk? }

  function Keys(ps: seq<Prop>): (ks: seq<string>)
    ensures |ks| == |ps| && forall i | 0 <= i < |ps| :: ks[i] == ps[i].key
  {
    if ps == [] then [] else [ps[0].key] + Keys(ps[1..])
  }

  /** The value of the first property named `k`, or `Undefined`. */
  function FindProp(ps: seq<Prop>, k: string): (r: Value)
    ensures k !in Keys(ps) ==> r == Undefined
    ensures k in Keys(ps) ==> exists i | 0 <= i < |ps| :: ps[i].key == k && r == ps[i].val
  {
    if ps == [] then Undefined else if ps[0].key == k then ps[0].val else FindProp(ps[1..], k)
  }

  /** `o[k] = x` on a plain object: the first property named `k` is replaced, or `k` is appended. */
  function SetField(ps: seq<Prop>, k: string, x: Value): (r: seq<Prop>)
    ensures FindProp(r, k) == x
    ensures Keys(r) == if k in Keys(ps) then Keys(ps) else Keys(ps) + [k]
  {
    if ps == [] then [Prop(k, x)]
    else if ps[0].key == k then [Prop(k, x)] + ps[1..]
    else [ps[0]] + SetField(ps[1..], k, x)
  }

  /** Setting one property leaves every other property as it was. */
  lemma {:induction false} SetFieldOthers(ps: seq<Prop>, k: string, x: Value, k': string)
    requires k' != k
    ensures FindProp(SetField(ps, k, x), k') == FindProp(ps, k')
  {
    if ps != [] && ps[0].key != k {
      SetFieldOthers(ps[1..], k, x, k');
    }
  }

  /** `k in v` for an object or a function (own properties; the prototype chain is not modelled). */
  predicate HasProp(v: Value, k: string) {
    match v
    case Obj(ps) => k in Keys(ps)
    case Arr(es) => k == "length" || (Text.IsIndex(k) && Text.IndexValue(k) < |es|)
    case ParamFn(_, _) => k == "name" || k == "length"
    case RefThunk(_, _) => k == "displayName" || k == "name" || k == "length"
    case _ => false
  }

  /**
   * `v[k]` for a value that is not null or undefined. Own properties only:
   * what objects inherit from their prototypes is not modelled.
   */
  function Get(v: Value, k: string): Value {
    match v
    case Obj(ps) => FindProp(ps, k)
    case Arr(es) =>
      if k == "length" then Num(|es|)
      else if Text.IsIndex(k) && Text.IndexValue(k) < |es| then es[Text.IndexValue(k)]
      else Undefined
    case Str(s) =>
      if k == "length" then Num(|s|)
      else if Text.IsIndex(k) && Text.IndexValue(k) < |s| then Str([s[Text.IndexValue(k)]])
      else Undefined
    case ParamFn(_, _) =>
      if k == "name" then Str("") else if k == "length" then Num(1) else Undefined
    case RefThunk(ref, _) =>
      if k == "displayName" then Get(ref, "path")
      else if k == "name" then Str("IntlRef") else if k == "length" then Num(0) else Undefined
    case _ => Undefined
  }

  /** Own enumerable properties of `v`, as `for..in` and `Object.assign` visit them. */
  function Enumerable(v: Value): seq<Prop> {
    match v
    case Obj(ps) => ps
    case Arr(es) => IndexProps(es, 0)
    case Str(s) => CharProps(s, 0)
    case RefThunk(ref, _) => [Prop("displayName", Get(ref, "path"))]
    case _ => []
  }

  function IndexProps(es: seq<Value>, from: nat): seq<Prop>
    requires from <= |es|
    decreases |es| - from
  {
    if from == |es| then [] else [Prop(IndexKey(from), es[from])] + IndexProps(es, from + 1)
  }

  function CharProps(s: string, from: nat): seq<Prop>
    requires from <= |s|
    decreases |s| - from
  {
    if from == |s| then [] else [Prop(IndexKey(from), Str([s[from]]))] + CharProps(s, from + 1)
  }

  /** The decimal spelling of `n`. */
  function IndexKey(n: nat): string {
    if n < 10 then [('0' as int + n) as char] else IndexKey(n / 10) + [('0' as int + n % 10) as char]
  }
}
