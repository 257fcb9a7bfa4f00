/**
 * `wrapMessages` (src/utils/wrapMessages.tsx) and its older duplicate
 * `wrap` (src/create-intl/get-translations.tsx): the transformation of a
 * raw message tree into the tree translate handles read from.
 */
module WrapMessages {
  import opened Wrappers
  import opened Values
  import opened ObjectPath
  import ParamRegex

  /**
   * What a wrap depends on: the reference property, the `refLoader` (absent
   * or falsy: `None`), and the classes thrown for a missing parameter and
   * a missing loader (`IntlMissingParamError`/`IntlRefLoaderError` in the
   * current wrapper, plain `Error` in the legacy one).
   */
  datatype WrapOptions = WrapOptions(
    refProp: string,
    refLoader: Option<RefLoader>,
    missingParam: ErrorClass,
    missingLoader: ErrorClass)

  const MissingRefLoader := "Missing ref loader"

  /** `wrapString`, with the placeholder test made independent of earlier calls. */
  function WrapString(s: string, missingParam: ErrorClass): (r: Value)
    ensures r == Str(s) || r == ParamFn(s, missingParam)
    ensures r.Str? <==> !ParamRegex.HasPlaceholder(s)
  {
    if ParamRegex.HasPlaceholder(s) then ParamFn(s, missingParam) else Str(s)
  }

  /** `isRef(input, refProp)` for a value of type "object" (`refProp in input`). */
  predicate IsRef(v: Value, refProp: string) {
    (v.Obj? || v.Arr?) && HasProp(v, refProp)
  }

  /**
   * `wrapRef(ref, { refLoader })`: fails without a loader; otherwise builds
   * the `IntlRef` component, whose `displayName` is `ref.path` (reading it
   * off a null or undefined `ref` is a TypeError). The loader is only
   * captured, not called.
   */
  function WrapRef(ref: Value, o: WrapOptions): (r: Result<Value>)
    ensures o.refLoader.None? ==> r == Err(Error(o.missingLoader, MissingRefLoader))
    ensures o.refLoader.Some? && Nullish(ref) ==> r == Err(PropertyOfNullish)
    ensures r.Ok? <==> o.refLoader.Some? && !Nullish(ref)
    ensures r.Ok? ==>
      && r.value == RefThunk(ref, o.refLoader.value)
      && IsFunction(r.value)
      && Get(r.value, "displayName") == Get(ref, "path")
  {
    if o.refLoader.None? then Err(Error(o.missingLoader, MissingRefLoader))
    else if Nullish(ref) then Err(PropertyOfNullish)
    else Ok(RefThunk(ref, o.refLoader.value))
  }

  /**
   * The corrected `wrapMessages(input, options)`: strings by `WrapString`,
   * reference objects (recognised before arrays) by `WrapRef`, arrays element
   * by element, plain objects key by key in enumeration order; anything
   * else, functions included, is returned as it is.
   */
  function Wrap(v: Value, o: WrapOptions): Result<Value> {
    match v
    case Str(s) => Ok(WrapString(s, o.missingParam))
    case Arr(es) =>
      if HasProp(v, o.refProp) then WrapRef(Get(v, o.refProp), o)
      else
        var ws :- WrapElems(es, o);
        Ok(Arr(ws))
    case Obj(ps) =>
      if HasProp(v, o.refProp) then WrapRef(Get(v, o.refProp), o)
      else
        var qs :- WrapProps(ps, o);
        Ok(Obj(qs))
    case _ => Ok(v)
  }

  /** `input.map(item => wrapMessages(item, options))`. */
  function WrapElems(es: seq<Value>, o: WrapOptions): (r: Result<seq<Value>>)
    ensures r.Ok? ==> |r.value| == |es| && forall i | 0 <= i < |es| :: Wrap(es[i], o) == Ok(r.value[i])
    ensures r.Ok? <==> forall i | 0 <= i < |es| :: Wrap(es[i], o).Ok?
  {
    if es == [] then Ok([])
    else
      var w :- Wrap(es[0], o);
      var ws :- WrapElems(es[1..], o);
      Ok([w] + ws)
  }

  /** The `for..in` loop filling `output` with each own key's wrapped value. */
  function WrapProps(ps: seq<Prop>, o: WrapOptions): (r: Result<seq<Prop>>)
    ensures r.Ok? ==> Keys(r.value) == Keys(ps) && forall i | 0 <= i < |ps| :: Wrap(ps[i].val, o) == Ok(r.value[i].val)
    ensures r.Ok? <==> forall i | 0 <= i < |ps| :: Wrap(ps[i].val, o).Ok?
  {
    if ps == [] then Ok([])
    else
      var w :- Wrap(ps[0].val, o);
      var qs :- WrapProps(ps[1..], o);
      Ok([Prop(ps[0].key, w)] + qs)
  }

  /**
   * Where wrapping fails: at a reference object reached through plain
   * containers whose loader is missing or whose reference is null or
   * undefined. Strings, primitives and functions never fail.
   */
  predicate WrapsCleanly(v: Value, o: WrapOptions) {
    match v
    case Arr(es) =>
      if HasProp(v, o.refProp) then o.refLoader.Some? && !Nullish(Get(v, o.refProp))
      else forall i | 0 <= i < |es| :: WrapsCleanly(es[i], o)
    case Obj(ps) =>
      if HasProp(v, o.refProp) then o.refLoader.Some? && !Nullish(Get(v, o.refProp))
      else forall i | 0 <= i < |ps| :: WrapsCleanly(ps[i].val, o)
    case _ => true
  }

  lemma {:induction false} WrapFailsExactly(v: Value, o: WrapOptions)
    ensures Wrap(v, o).Ok? <==> WrapsCleanly(v, o)
  {
    match v
    case Arr(es) =>
      if !HasProp(v, o.refProp) {
        forall i | 0 <= i < |es| ensures Wrap(es[i], o).Ok? <==> WrapsCleanly(es[i], o) {
          WrapFailsExactly(es[i], o);
        }
      }
    case Obj(ps) =>
      if !HasProp(v, o.refProp) {
        forall i | 0 <= i < |ps| ensures Wrap(ps[i].val, o).Ok? <==> WrapsCleanly(ps[i].val, o) {
          WrapFailsExactly(ps[i].val, o);
        }
      }
    case _ =>
  }

  /** Null, undefined, booleans, numbers and functions come back unchanged. */
  lemma WrapKeepsNonObjects(v: Value, o: WrapOptions)
    requires !v.Str? && !v.Arr? && !v.Obj?
    ensures Wrap(v, o) == Ok(v)
  {
  }

  /**
   * A string comes back unchanged exactly when the placeholder pattern
   * finds nothing in it; otherwise it becomes a function whose call
   * substitutes the parameters.
   */
  lemma WrapStringCases(s: string, o: WrapOptions)
    ensures Wrap(Str(s), o) == Ok(Str(s)) <==> !ParamRegex.HasPlaceholder(s)
    ensures ParamRegex.HasPlaceholder(s) ==> Wrap(Str(s), o) == Ok(ParamFn(s, o.missingParam))
  {
  }

  /** Wrapping twice is wrapping once. */
  lemma {:induction false} WrapIdempotent(v: Value, w: Value, o: WrapOptions)
    requires Wrap(v, o) == Ok(w)
    ensures Wrap(w, o) == Ok(w)
  {
    match v
    case Str(s) =>
    case Arr(es) =>
      if !HasProp(v, o.refProp) {
        var ws := w.elems;
        forall i | 0 <= i < |ws| ensures Wrap(ws[i], o) == Ok(ws[i]) {
          WrapIdempotent(es[i], ws[i], o);
        }
        WrapElemsFixed(ws, o);
      }
    case Obj(ps) =>
      if !HasProp(v, o.refProp) {
        var qs := w.props;
        forall i | 0 <= i < |qs| ensures Wrap(qs[i].val, o) == Ok(qs[i].val) {
          WrapIdempotent(ps[i].val, qs[i].val, o);
        }
        WrapPropsFixed(qs, o);
      }
    case _ =>
  }

  lemma {:induction false} WrapElemsFixed(ws: seq<Value>, o: WrapOptions)
    requires forall i | 0 <= i < |ws| :: Wrap(ws[i], o) == Ok(ws[i])
    ensures WrapElems(ws, o) == Ok(ws)
  {
    if ws != [] {
      WrapElemsFixed(ws[1..], o);
      assert [ws[0]] + ws[1..] == ws;
    }
  }

  lemma {:induction false} WrapPropsFixed(qs: seq<Prop>, o: WrapOptions)
    requires forall i | 0 <= i < |qs| :: Wrap(qs[i].val, o) == Ok(qs[i].val)
    ensures WrapProps(qs, o) == Ok(qs)
  {
    if qs != [] {
      WrapPropsFixed(qs[1..], o);
      assert [Prop(qs[0].key, qs[0].val)] + qs[1..] == qs;
    }
  }

  /** Wrapping keeps null and undefined, and only those, nullish. */
  lemma WrapKeepsNullish(v: Value, w: Value, o: WrapOptions)
    requires Wrap(v, o) == Ok(w)
    ensures Nullish(w) <==> Nullish(v)
  {
  }

  /** Reading one property of a wrapped plain container reads the wrapped property. */
  lemma {:induction false} WrapGet(v: Value, w: Value, k: string, o: WrapOptions)
    requires Wrap(v, o) == Ok(w)
    requires (v.Obj? || v.Arr?) && !HasProp(v, o.refProp)
    ensures Wrap(Get(v, k), o) == Ok(Get(w, k))
  {
    if v.Obj? {
      WrapFindProp(v.props, w.props, k, o);
    }
  }

  lemma {:induction false} WrapFindProp(ps: seq<Prop>, qs: seq<Prop>, k: string, o: WrapOptions)
    requires WrapProps(ps, o) == Ok(qs)
    ensures Wrap(FindProp(ps, k), o) == Ok(FindProp(qs, k))
  {
    if ps != [] {
      assert Keys(qs) == Keys(ps);
      assert qs[0].key == ps[0].key;
      if ps[0].key != k {
        var rest := WrapProps(ps[1..], o);
        assert rest.Ok? && qs == [Prop(ps[0].key, qs[0].val)] + rest.value;
        assert qs[1..] == rest.value;
        WrapFindProp(ps[1..], qs[1..], k, o);
      }
    }
  }

  /** Every container along `keys` (before the end) is a plain array or object, or the walk has hit null/undefined. */
  predicate PlainAlong(v: Value, keys: seq<string>, refProp: string)
    decreases |keys|
  {
    keys == [] || Nullish(v)
    || ((v.Obj? || v.Arr?) && !HasProp(v, refProp) && PlainAlong(Get(v, keys[0]), keys[1..], refProp))
  }

  /**
   * A dotted lookup in the wrapped tree finds the wrapped value of the
   * same lookup in the raw tree, as long as the walk does not pass through
   * a reference object.
   */
  lemma {:induction false} WrapDlv(v: Value, w: Value, keys: seq<string>, o: WrapOptions)
    requires Wrap(v, o) == Ok(w)
    requires PlainAlong(v, keys, o.refProp)
    ensures Wrap(DlvKeys(v, keys), o) == Ok(DlvKeys(w, keys))
    decreases |keys|
  {
    if keys != [] {
      if Nullish(v) {
        DlvKeysFromNullish(v, keys);
        DlvKeysFromNullish(w, keys);
      } else {
        WrapGet(v, w, keys[0], o);
        assert Step(v, keys[0]) == Get(v, keys[0]);
        assert Step(w, keys[0]) == Get(w, keys[0]);
        WrapDlv(Get(v, keys[0]), Get(w, keys[0]), keys[1..], o);
      }
    }
  }

  // ---------------------------------------------------------------------
  // The wrapper as written: `paramRegex` is one module-level `/g` regex,
  // and its `test` starts at, and moves, the regex's `lastIndex`.
  // ---------------------------------------------------------------------

  /** A wrap result together with the regex's `lastIndex` afterwards. */
  datatype Wrapped<T> = Wrapped(out: Result<T>, lastIndex: nat)

  /** `wrapString(value)` as written, starting from `lastIndex`. */
  function WrapStringAsWritten(s: string, missingParam: ErrorClass, lastIndex: nat): (r: Wrapped<Value>)
    ensures r.out.Ok? && (r.out.value == Str(s) || r.out.value == ParamFn(s, missingParam))
    ensures r.out.value.ParamFn? ==> ParamRegex.HasPlaceholder(s)
    ensures lastIndex == 0 ==> r.out == Ok(WrapString(s, missingParam))
  {
    var t := ParamRegex.Test(s, lastIndex);
    Wrapped(Ok(if t.found then ParamFn(s, missingParam) else Str(s)), t.lastIndex)
  }

  /** `wrapMessages(input, options)` as written, threading `lastIndex` through the traversal in order. */
  function WrapAsWritten(v: Value, o: WrapOptions, lastIndex: nat): Wrapped<Value> {
    match v
    case Str(s) => WrapStringAsWritten(s, o.missingParam, lastIndex)
    case Arr(es) =>
      if HasProp(v, o.refProp) then Wrapped(WrapRef(Get(v, o.refProp), o), lastIndex)
      else
        var r := WrapElemsAsWritten(es, o, lastIndex);
        Wrapped(if r.out.Ok? then Ok(Arr(r.out.value)) else Err(r.out.error), r.lastIndex)
    case Obj(ps) =>
      if HasProp(v, o.refProp) then Wrapped(WrapRef(Get(v, o.refProp), o), lastIndex)
      else
        var r := WrapPropsAsWritten(ps, o, lastIndex);
        Wrapped(if r.out.Ok? then Ok(Obj(r.out.value)) else Err(r.out.error), r.lastIndex)
    case _ => Wrapped(Ok(v), lastIndex)
  }

  function WrapElemsAsWritten(es: seq<Value>, o: WrapOptions, lastIndex: nat): Wrapped<seq<Value>> {
    if es == [] then Wrapped(Ok([]), lastIndex)
    else
      var h := WrapAsWritten(es[0], o, lastIndex);
      if h.out.Err? then Wrapped(Err(h.out.error), h.lastIndex)
      else
        var t := WrapElemsAsWritten(es[1..], o, h.lastIndex);
        Wrapped(if t.out.Ok? then Ok([h.out.value] + t.out.value) else t.out, t.lastIndex)
  }

  function WrapPropsAsWritten(ps: seq<Prop>, o: WrapOptions, lastIndex: nat): Wrapped<seq<Prop>> {
    if ps == [] then Wrapped(Ok([]), lastIndex)
    else
      var h := WrapAsWritten(ps[0].val, o, lastIndex);
      if h.out.Err? then Wrapped(Err(h.out.error), h.lastIndex)
      else
        var t := WrapPropsAsWritten(ps[1..], o, h.lastIndex);
        Wrapped(if t.out.Ok? then Ok([Prop(ps[0].key, h.out.value)] + t.out.value) else t.out, t.lastIndex)
  }

  /**
   * `Demoted(x, y)`: `y` is `x` with some parameterised functions left as
   * their raw template strings.
   */
  predicate Demoted(x: Value, y: Value) {
    if x.ParamFn? && y == Str(x.template) then true
    else match x
      case Arr(xs) => y.Arr? && |y.elems| == |xs| && forall i | 0 <= i < |xs| :: Demoted(xs[i], y.elems[i])
      case Obj(xs) =>
        && y.Obj? && |y.props| == |xs|
        && forall i | 0 <= i < |xs| :: y.props[i].key == xs[i].key && Demoted(xs[i].val, y.props[i].val)
      case _ => x == y
  }

  /**
   * What the shared `lastIndex` can do, and all it can do: the written
   * wrapper fails exactly when the corrected one fails, and succeeds with
   * the corrected tree except that some templates stay plain strings.
   */
  lemma {:induction false} AsWrittenDemotes(v: Value, o: WrapOptions, lastIndex: nat)
    ensures WrapAsWritten(v, o, lastIndex).out.Ok? <==> Wrap(v, o).Ok?
    ensures WrapAsWritten(v, o, lastIndex).out.Ok? ==> Demoted(Wrap(v, o).value, WrapAsWritten(v, o, lastIndex).out.value)
    ensures WrapAsWritten(v, o, lastIndex).out.Err? ==> WrapAsWritten(v, o, lastIndex).out == Wrap(v, o)
  {
    match v
    case Str(s) =>
      ParamRegex.TestFromZero(s);
    case Arr(es) =>
      if !HasProp(v, o.refProp) {
        ElemsAsWrittenDemote(es, o, lastIndex);
      }
    case Obj(ps) =>
      if !HasProp(v, o.refProp) {
        PropsAsWrittenDemote(ps, o, lastIndex);
      }
    case _ =>
  }

  lemma {:induction false} ElemsAsWrittenDemote(es: seq<Value>, o: WrapOptions, lastIndex: nat)
    ensures WrapElemsAsWritten(es, o, lastIndex).out.Ok? <==> WrapElems(es, o).Ok?
    ensures WrapElemsAsWritten(es, o, lastIndex).out.Ok? ==>
      var xs := WrapElems(es, o).value; var ys := WrapElemsAsWritten(es, o, lastIndex).out.value;
      |ys| == |xs| && forall i | 0 <= i < |xs| :: Demoted(xs[i], ys[i])
    ensures WrapElemsAsWritten(es, o, lastIndex).out.Err? ==>
      WrapElemsAsWritten(es, o, lastIndex).out.error == WrapElems(es, o).error
  {
    if es != [] {
      var h := WrapAsWritten(es[0], o, lastIndex);
      AsWrittenDemotes(es[0], o, lastIndex);
      if h.out.Ok? {
        ElemsAsWrittenDemote(es[1..], o, h.lastIndex);
      }
    }
  }

  lemma {:induction false} PropsAsWrittenDemote(ps: seq<Prop>, o: WrapOptions, lastIndex: nat)
    ensures WrapPropsAsWritten(ps, o, lastIndex).out.Ok? <==> WrapProps(ps, o).Ok?
    ensures WrapPropsAsWritten(ps, o, lastIndex).out.Ok? ==>
      var xs := WrapProps(ps, o).value; var ys := WrapPropsAsWritten(ps, o, lastIndex).out.value;
      |ys| == |xs| && forall i | 0 <= i < |xs| :: ys[i].key == xs[i].key && Demoted(xs[i].val, ys[i].val)
    ensures WrapPropsAsWritten(ps, o, lastIndex).out.Err? ==>
      WrapPropsAsWritten(ps, o, lastIndex).out.error == WrapProps(ps, o).error
  {
    if ps != [] {
      var h := WrapAsWritten(ps[0].val, o, lastIndex);
      AsWrittenDemotes(ps[0].val, o, lastIndex);
      if h.out.Ok? {
        PropsAsWrittenDemote(ps[1..], o, h.lastIndex);
      }
    }
  }

  /**
   * The discrepancy on a concrete tree: after `"Hello {name}"` matched,
   * `lastIndex` is 12, past the end of `"Bye {x}"`, so the second string
   * is searched from there, fails, and stays a raw string, while the
   * corrected wrapper makes both parameterised.
   */
  lemma AsWrittenMissesSecondTemplate(o: WrapOptions)
    requires o.refProp == "$ref"
    ensures var v := Obj([Prop("a", Str("Hello {name}")), Prop("b", Str("Bye {x}"))]);
      && WrapAsWritten(v, o, 0).out
         == Ok(Obj([Prop("a", ParamFn("Hello {name}", o.missingParam)), Prop("b", Str("Bye {x}"))]))
      && Wrap(v, o)
         == Ok(Obj([Prop("a", ParamFn("Hello {name}", o.missingParam)), Prop("b", ParamFn("Bye {x}", o.missingParam))]))
  {
    var ps := [Prop("a", Str("Hello {name}")), Prop("b", Str("Bye {x}"))];
    assert Keys(ps) == ["a", "b"];
    assert !HasProp(Obj(ps), o.refProp);
    AsWrittenOnPair(ps, o);
    CorrectedOnPair(ps, o);
  }

  lemma AsWrittenOnPair(ps: seq<Prop>, o: WrapOptions)
    requires ps == [Prop("a", Str("Hello {name}")), Prop("b", Str("Bye {x}"))]
    ensures WrapPropsAsWritten(ps, o, 0).out
      == Ok([Prop("a", ParamFn("Hello {name}", o.missingParam)), Prop("b", Str("Bye {x}"))])
  {
    HelloMatches();
    AsWrittenTwoStrings("a", "Hello {name}", "b", "Bye {x}", o, 0);
  }

  lemma CorrectedOnPair(ps: seq<Prop>, o: WrapOptions)
    requires ps == [Prop("a", Str("Hello {name}")), Prop("b", Str("Bye {x}"))]
    ensures WrapProps(ps, o)
      == Ok([Prop("a", ParamFn("Hello {name}", o.missingParam)), Prop("b", ParamFn("Bye {x}", o.missingParam))])
  {
    HelloMatches();
    ParamRegex.TestFromZero("Hello {name}");
    ByeMatches();
    TwoStrings("a", "Hello {name}", "b", "Bye {x}", o);
  }

  /** Two string properties, wrapped as written: the second test starts where the first left `lastIndex`. */
  lemma AsWrittenTwoStrings(k1: string, s1: string, k2: string, s2: string, o: WrapOptions, lastIndex: nat)
    ensures var t1 := ParamRegex.Test(s1, lastIndex); var t2 := ParamRegex.Test(s2, t1.lastIndex);
      WrapPropsAsWritten([Prop(k1, Str(s1)), Prop(k2, Str(s2))], o, lastIndex)
      == Wrapped(Ok([Prop(k1, if t1.found then ParamFn(s1, o.missingParam) else Str(s1)),
                     Prop(k2, if t2.found then ParamFn(s2, o.missingParam) else Str(s2))]), t2.lastIndex)
  {
    var t1 := ParamRegex.Test(s1, lastIndex);
    var t2 := ParamRegex.Test(s2, t1.lastIndex);
    var w1 := if t1.found then ParamFn(s1, o.missingParam) else Str(s1);
    var w2 := if t2.found then ParamFn(s2, o.missingParam) else Str(s2);
    var ps := [Prop(k1, Str(s1)), Prop(k2, Str(s2))];
    assert ps[1..] == [Prop(k2, Str(s2))];
    AsWrittenOneString(k2, s2, o, t1.lastIndex);
    assert ps[0].val == Str(s1);
    assert WrapAsWritten(ps[0].val, o, lastIndex) == Wrapped(Ok(w1), t1.lastIndex);
    var r := WrapPropsAsWritten(ps, o, lastIndex);
    assert r.out.Ok? && r.lastIndex == t2.lastIndex;
    assert r.out.value == [Prop(k1, w1)] + [Prop(k2, w2)] == [Prop(k1, w1), Prop(k2, w2)];
  }

  lemma AsWrittenOneString(k: string, s: string, o: WrapOptions, lastIndex: nat)
    ensures var t := ParamRegex.Test(s, lastIndex);
      WrapPropsAsWritten([Prop(k, Str(s))], o, lastIndex)
      == Wrapped(Ok([Prop(k, if t.found then ParamFn(s, o.missingParam) else Str(s))]), t.lastIndex)
  {
    var t := ParamRegex.Test(s, lastIndex);
    var w := if t.found then ParamFn(s, o.missingParam) else Str(s);
    var ps := [Prop(k, Str(s))];
    assert ps[1..] == [];
    assert ps[0].val == Str(s);
    assert WrapAsWritten(ps[0].val, o, lastIndex) == Wrapped(Ok(w), t.lastIndex);
    assert WrapPropsAsWritten([], o, t.lastIndex) == Wrapped(Ok([]), t.lastIndex);
    var r := WrapPropsAsWritten(ps, o, lastIndex);
    assert r.out.Ok? && r.lastIndex == t.lastIndex;
    assert r.out.value == [Prop(k, w)];
  }

  lemma TwoStrings(k1: string, s1: string, k2: string, s2: string, o: WrapOptions)
    ensures WrapProps([Prop(k1, Str(s1)), Prop(k2, Str(s2))], o)
      == Ok([Prop(k1, WrapString(s1, o.missingParam)), Prop(k2, WrapString(s2, o.missingParam))])
  {
    var ps := [Prop(k1, Str(s1)), Prop(k2, Str(s2))];
    assert ps[1..] == [Prop(k2, Str(s2))];
    OneString(k2, s2, o);
    assert ps[0].val == Str(s1);
    assert Wrap(ps[0].val, o) == Ok(WrapString(s1, o.missingParam));
    var r := WrapProps(ps, o);
    assert r.Ok?;
    assert r.value == [Prop(k1, WrapString(s1, o.missingParam))] + [Prop(k2, WrapString(s2, o.missingParam))]
      == [Prop(k1, WrapString(s1, o.missingParam)), Prop(k2, WrapString(s2, o.missingParam))];
  }

  lemma OneString(k: string, s: string, o: WrapOptions)
    ensures WrapProps([Prop(k, Str(s))], o) == Ok([Prop(k, WrapString(s, o.missingParam))])
  {
    var ps := [Prop(k, Str(s))];
    assert ps[1..] == [];
    assert ps[0].val == Str(s);
    assert Wrap(ps[0].val, o) == Ok(WrapString(s, o.missingParam));
    assert WrapProps([], o) == Ok([]);
    var r := WrapProps(ps, o);
    assert r.Ok?;
    assert r.value == [Prop(k, WrapString(s, o.missingParam))];
  }

  lemma HelloMatches()
    ensures ParamRegex.Test("Hello {name}", 0) == ParamRegex.TestOutcome(true, 12)
  {
    var s := "Hello {name}";
    var m := ParamRegex.Match(6, 12, "name");
    HelloMatchAt();
    assert ParamRegex.FindMatch(s, 6) == Some(m);
    ParamRegex.FindMatchSkips(s, 5);
    ParamRegex.FindMatchSkips(s, 4);
    ParamRegex.FindMatchSkips(s, 3);
    ParamRegex.FindMatchSkips(s, 2);
    ParamRegex.FindMatchSkips(s, 1);
    ParamRegex.FindMatchSkips(s, 0);
  }

  lemma HelloMatchAt()
    ensures ParamRegex.MatchAt("Hello {name}", 6) == Some(ParamRegex.Match(6, 12, "name"))
  {
    var s := "Hello {name}";
    assert ParamRegex.SkipSpaces(s, 7) == 7;
    assert ParamRegex.SkipName(s, 11) == 11;
    assert ParamRegex.SkipName(s, 10) == 11;
    assert ParamRegex.SkipName(s, 9) == 11;
    assert ParamRegex.SkipName(s, 8) == 11;
    assert ParamRegex.SkipName(s, 7) == 11;
    assert ParamRegex.SkipSpaces(s, 11) == 11;
    assert s[6] == '{' && s[11] == '}' && s[7..11] == "name";
  }

  lemma ByeMatches()
    ensures ParamRegex.HasPlaceholder("Bye {x}")
  {
    var s := "Bye {x}";
    assert ParamRegex.SkipSpaces(s, 5) == 5;
    assert ParamRegex.SkipName(s, 6) == 6;
    assert ParamRegex.SkipName(s, 5) == 6;
    assert ParamRegex.SkipSpaces(s, 6) == 6;
    assert ParamRegex.MatchAt(s, 4).Some?;
  }
}
