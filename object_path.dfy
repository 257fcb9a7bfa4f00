/**
 * The three helper libraries the runtime leans on, written out on values:
 * `dlv` (read at a dotted path), `dset` and its `dset/merge` variant
 * (write at a dotted path, creating intermediate containers), and `klona`
 * (deep copy).
 */
module ObjectPath {
  import opened Wrappers
  import opened Values
  import Text

  /** One step of `dlv`: `obj ? obj[key] : undefined`. */
  function Step(v: Value, k: string): Value {
    if Truthy(v) then Get(v, k) else Undefined
  }

  function DlvKeys(v: Value, keys: seq<string>): Value
    decreases |keys|
  {
    if keys == [] then v else DlvKeys(Step(v, keys[0]), keys[1..])
  }

  /** `dlv(obj, key)`: the key is split on `.` and walked from `obj`. */
  function Dlv(v: Value, key: string): Value {
    DlvKeys(v, Text.Split(key, '.'))
  }

  /** Walking a path in two pieces is walking it at once. */
  lemma {:induction false} DlvKeysAppend(v: Value, a: seq<string>, b: seq<string>)
    ensures DlvKeys(v, a + b) == DlvKeys(DlvKeys(v, a), b)
    decreases |a|
  {
    if a == [] {
      assert a + b == b;
    } else {
      assert (a + b)[1..] == a[1..] + b;
      DlvKeysAppend(Step(v, a[0]), a[1..], b);
    }
  }

  /** Once the walk has fallen off the tree it stays off. */
  lemma {:induction false} DlvKeysFromNullish(v: Value, keys: seq<string>)
    requires Nullish(v) && keys != []
    ensures DlvKeys(v, keys) == Undefined
    decreases |keys|
  {
    if |keys| > 1 {
      DlvKeysFromNullish(Undefined, keys[1..]);
    }
  }

  /** The keys `dset` refuses to walk through: it stops at the first one. */
  predicate Reserved(k: string) {
    k == "__proto__" || k == "constructor" || k == "prototype"
  }

  const PropertyOfNullish := Error(TypeError, "Cannot read properties of null or undefined")

  /**
   * `t[k] = x` in strict mode. Array elements past the end leave holes,
   * which are read back as `undefined`. A named property on an array or a
   * function is not representable here.
   */
  function SetProp(t: Value, k: string, x: Value): (r: Result<Value>)
    ensures r.Ok? ==> (r.value.Obj? || r.value.Arr?) && Get(r.value, k) == x
    ensures r.Ok? <==> t.Obj? || (t.Arr? && Text.IsIndex(k))
  {
    match t
    case Obj(ps) => Ok(Obj(SetField(ps, k, x)))
    case Arr(es) =>
      if Text.IsIndex(k) then
        var n := Text.IndexValue(k);
        var es' := if n < |es| then es[n := x] else es + seq(n - |es|, _ => Undefined) + [x];
        assert es'[n] == x;
        Ok(Arr(es'))
      else Err(Error(Unmodelled, "named property on an array"))
    case ParamFn(_, _) => Err(Error(Unmodelled, "property on a function"))
    case RefThunk(_, _) => Err(Error(Unmodelled, "property on a function"))
    case _ => Err(PropertyOfNullish)
  }

  /**
   * `merge(a, b)` of `dset/merge`: when both are of type "object", `b`'s
   * elements or enumerable properties are merged into `a` one by one;
   * otherwise the result is `b`.
   */
  function Merge(a: Value, b: Value): Result<Value>
    decreases b
  {
    if !(TypeofObject(a) && TypeofObject(b)) then Ok(b)
    else match b
      case Null => Ok(a)
      case Arr(ys) =>
        if a.Arr? then
          var es :- MergeElems(a.elems, ys);
          Ok(Arr(es))
        else if a.Null? then
          (if ys == [] then Ok(Null) else Err(PropertyOfNullish))
        else
          var ps :- MergeIndexed(a.props, ys, 0);
          Ok(Obj(ps))
      case Obj(ys) =>
        if a.Obj? then
          var ps :- MergeProps(a.props, ys);
          Ok(Obj(ps))
        else if a.Null? then
          (if ys == [] || Reserved(ys[0].key) then Ok(Null) else Err(PropertyOfNullish))
        else MergePropsIntoArray(a, ys)
  }

  /** `for (k = 0; k < b.length; k++) a[k] = merge(a[k], b[k])`. */
  function MergeElems(xs: seq<Value>, ys: seq<Value>): (r: Result<seq<Value>>)
    ensures r.Ok? ==> |r.value| == if |xs| < |ys| then |ys| else |xs|
    decreases ys
  {
    if ys == [] then Ok(xs)
    else
      var head :- Merge(if xs == [] then Undefined else xs[0], ys[0]);
      var tail :- MergeElems(if xs == [] then [] else xs[1..], ys[1..]);
      Ok([head] + tail)
  }

  /**
   * `for (k in b) a[k] = merge(a[k], b[k])` for an array `b` merged into a
   * plain object: the keys visited are "0", "1", ... in order.
   */
  function MergeIndexed(xs: seq<Prop>, ys: seq<Value>, from: nat): (r: Result<seq<Prop>>)
    requires from <= |ys|
    ensures r.Ok? ==> forall k | k in Keys(xs) :: k in Keys(r.value)
    ensures r.Ok? ==> forall i | from <= i < |ys| :: IndexKey(i) in Keys(r.value)
    decreases ys, |ys| - from
  {
    if from == |ys| then Ok(xs)
    else match Merge(FindProp(xs, IndexKey(from)), ys[from])
      case Err(e) => Err(e)
      case Ok(m) =>
        var xs' := SetField(xs, IndexKey(from), m);
        var key := IndexKey(from);
        assert key in Keys(xs');
        var r := MergeIndexed(xs', ys, from + 1);
        assert r.Ok? ==> key in Keys(r.value);
        r
  }

  /**
   * The same loop for a plain object `b` merged into an array `a`: each key
   * is written onto the array, which a named key cannot be.
   */
  function MergePropsIntoArray(a: Value, ys: seq<Prop>): Result<Value>
    decreases ys
  {
    if ys == [] || Reserved(ys[0].key) then Ok(a)
    else
      var m :- Merge(Get(a, ys[0].key), ys[0].val);
      var a' :- SetProp(a, ys[0].key, m);
      MergePropsIntoArray(a', ys[1..])
  }

  /** `for (k in b) { if (reserved) break; a[k] = merge(a[k], b[k]) }`. */
  function MergeProps(xs: seq<Prop>, ys: seq<Prop>): Result<seq<Prop>>
    decreases ys
  {
    if ys == [] || Reserved(ys[0].key) then Ok(xs)
    else
      var m :- Merge(FindProp(xs, ys[0].key), ys[0].val);
      MergeProps(SetField(xs, ys[0].key, m), ys[1..])
  }

  /**
   * `dset(obj, keys, val)` (plain, `merge` false) and `dset/merge`
   * (`merge` true) on an already split path. Intermediate values of type
   * "object" are walked into; anything else is replaced by a fresh array
   * when the next key is number-like and by a fresh object otherwise.
   */
  function DSetKeys(t: Value, keys: seq<string>, val: Value, merge: bool): Result<Value>
    decreases |keys|
  {
    if keys == [] || Reserved(keys[0]) then Ok(t)
    else if Nullish(t) then Err(PropertyOfNullish)
    else if |keys| == 1 then
      var x :- if merge then Merge(Get(t, keys[0]), val) else Ok(val);
      SetProp(t, keys[0], x)
    else
      var cur := Get(t, keys[0]);
      var child := if TypeofObject(cur) then cur else if Text.NumberLike(keys[1]) then Arr([]) else Obj([]);
      var sub :- DSetKeys(child, keys[1..], val, merge);
      SetProp(t, keys[0], sub)
  }

  /** `dset(obj, key, val)` from the `dset` package. */
  function DSet(t: Value, key: string, val: Value): Result<Value> {
    DSetKeys(t, Text.Split(key, '.'), val, false)
  }

  /** `dset(obj, key, val)` from `dset/merge`. */
  function DSetMerge(t: Value, key: string, val: Value): Result<Value> {
    DSetKeys(t, Text.Split(key, '.'), val, true)
  }

  /** The value `dset/merge` merges `val` into: what the walk finds at the last key. */
  function Slot(t: Value, keys: seq<string>): Value
    requires keys != []
    decreases |keys|
  {
    var cur := Get(t, keys[0]);
    if |keys| == 1 then cur
    else if TypeofObject(cur) then Slot(cur, keys[1..])
    else Undefined
  }

  predicate NoneReserved(keys: seq<string>) {
    forall i | 0 <= i < |keys| :: !Reserved(keys[i])
  }

  /** A successful `dset` wrote into an object, or into an array at an index. */
  lemma DSetKeysOkShape(t: Value, keys: seq<string>, val: Value, merge: bool)
    requires keys != [] && !Reserved(keys[0])
    requires DSetKeys(t, keys, val, merge).Ok?
    ensures t.Obj? || (t.Arr? && Text.IsIndex(keys[0]))
  {
  }

  /**
   * After a successful `dset`, reading the same path gives the value
   * written: `val` itself, or for `dset/merge` the merge of `val` into what
   * was there.
   */
  lemma {:induction false} DSetThenDlv(t: Value, keys: seq<string>, val: Value, merge: bool)
    requires keys != [] && NoneReserved(keys)
    requires DSetKeys(t, keys, val, merge).Ok?
    ensures var t' := DSetKeys(t, keys, val, merge).value;
      && (t'.Obj? || t'.Arr?)
      && (!merge ==> DlvKeys(t', keys) == val)
      && (merge ==> Merge(Slot(t, keys), val) == Ok(DlvKeys(t', keys)))
    decreases |keys|
  {
    var k := keys[0];
    assert !Reserved(k);
    if |keys| == 1 {
      DSetLast(t, k, val, merge);
    } else {
      var rest := keys[1..];
      var cur := Get(t, k);
      var child := if TypeofObject(cur) then cur else if Text.NumberLike(keys[1]) then Arr([]) else Obj([]);
      assert NoneReserved(rest) by {
        forall i | 0 <= i < |rest| ensures !Reserved(rest[i]) {
          assert rest[i] == keys[i + 1];
        }
      }
      DSetInner(t, keys, val, merge);
      var sub := DSetKeys(child, rest, val, merge).value;
      DSetThenDlv(child, rest, val, merge);
      if !TypeofObject(cur) {
        DSetKeysOkShape(child, rest, val, merge);
        SlotOfFresh(child, rest);
      }
    }
  }

  /** The last step of `dset`: the merged (or plain) value is stored at the key. */
  lemma DSetLast(t: Value, k: string, val: Value, merge: bool)
    requires !Reserved(k) && DSetKeys(t, [k], val, merge).Ok?
    ensures var t' := DSetKeys(t, [k], val, merge).value;
      && (t'.Obj? || t'.Arr?)
      && (!merge ==> DlvKeys(t', [k]) == val)
      && (merge ==> Merge(Slot(t, [k]), val) == Ok(DlvKeys(t', [k])))
  {
    var x := if merge then Merge(Get(t, k), val).value else val;
    assert DSetKeys(t, [k], val, merge) == SetProp(t, k, x);
  }

  /** An inner step of `dset`: the updated child is stored at the first key. */
  lemma DSetInner(t: Value, keys: seq<string>, val: Value, merge: bool)
    requires |keys| > 1 && !Reserved(keys[0]) && DSetKeys(t, keys, val, merge).Ok?
    ensures var cur := Get(t, keys[0]);
      var child := if TypeofObject(cur) then cur else if Text.NumberLike(keys[1]) then Arr([]) else Obj([]);
      && DSetKeys(child, keys[1..], val, merge).Ok?
      && var t' := DSetKeys(t, keys, val, merge).value;
      && (t'.Obj? || t'.Arr?)
      && DlvKeys(t', keys) == DlvKeys(DSetKeys(child, keys[1..], val, merge).value, keys[1..])
      && Slot(t, keys) == (if TypeofObject(cur) then Slot(child, keys[1..]) else Undefined)
  {
  }

  /** A freshly created container holds nothing at a path that `dset` can write. */
  lemma SlotOfFresh(t: Value, keys: seq<string>)
    requires t == Arr([]) || t == Obj([])
    requires keys != [] && (t.Arr? ==> Text.IsIndex(keys[0]))
    ensures Slot(t, keys) == Undefined
  {
  }

  /** Where `dlv` finds nothing, the merge target of `dset/merge` is empty too. */
  lemma {:induction false} SlotOfMissing(t: Value, keys: seq<string>)
    requires TypeofObject(t) && keys != []
    requires DlvKeys(t, keys) == Undefined
    ensures Slot(t, keys) == Undefined
    decreases |keys|
  {
    var cur := Get(t, keys[0]);
    if t.Null? {
      assert cur == Undefined;
    } else if |keys| > 1 && TypeofObject(cur) {
      if cur.Null? {
        DlvKeysFromNullish(Null, keys[1..]);
        SlotOfNull(keys[1..]);
      } else {
        SlotOfMissing(cur, keys[1..]);
      }
    }
  }

  lemma SlotOfNull(keys: seq<string>)
    requires keys != []
    ensures Slot(Null, keys) == Undefined
  {
  }

  /** `dset` only ever adds the first key of the path to the top level of an object. */
  lemma {:induction false} DSetTopKeys(ps: seq<Prop>, keys: seq<string>, val: Value, merge: bool)
    requires keys != [] && DSetKeys(Obj(ps), keys, val, merge).Ok?
    ensures var t' := DSetKeys(Obj(ps), keys, val, merge).value;
      t'.Obj? && forall k | k in Keys(t'.props) :: k in Keys(ps) || k == keys[0]
  {
    if Reserved(keys[0]) {
    } else if |keys| == 1 {
      var x := if merge then Merge(Get(Obj(ps), keys[0]), val).value else val;
      assert DSetKeys(Obj(ps), keys, val, merge) == SetProp(Obj(ps), keys[0], x);
    } else {
      var cur := Get(Obj(ps), keys[0]);
      var child := if TypeofObject(cur) then cur else if Text.NumberLike(keys[1]) then Arr([]) else Obj([]);
      var sub := DSetKeys(child, keys[1..], val, merge).value;
      assert DSetKeys(Obj(ps), keys, val, merge) == SetProp(Obj(ps), keys[0], sub);
    }
  }

  /** `klona(x)`: a structural deep copy. */
  function DeepCopy(v: Value): (r: Value)
    ensures r == v
  {
    match v
    case Arr(es) => Arr(CopyElems(es))
    case Obj(ps) => Obj(CopyProps(ps))
    case _ => v
  }

  function CopyElems(es: seq<Value>): (r: seq<Value>)
    ensures r == es
  {
    if es == [] then [] else [DeepCopy(es[0])] + CopyElems(es[1..])
  }

  function CopyProps(ps: seq<Prop>): (r: seq<Prop>)
    ensures r == ps
  {
    if ps == [] then [] else [Prop(ps[0].key, DeepCopy(ps[0].val))] + CopyProps(ps[1..])
  }
}
