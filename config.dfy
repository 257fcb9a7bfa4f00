/**
 * `createConfig` (src/core/config.ts): the user's options with defaults
 * for `localeParam`, `refProp` and `refLoader`, and what running a
 * reference component does with the configured `refLoader`.
 */
module Config {
  import opened Wrappers
  import opened Values
  import WrapMessages

  /** A key of an options object: absent, or present with a value (`None` when it is `undefined`). */
  datatype Field<T> = Absent | Given(value: Option<T>)

  /** Identity of the `loader` function the user passed. */
  datatype LocaleLoader = LocaleLoader(id: nat)

  datatype IntlOptions = IntlOptions(
    locales: seq<string>,
    defaultLocale: string,
    localeParam: Field<string>,
    loader: LocaleLoader,
    refProp: Field<string>,
    refLoader: Field<RefLoader>)

  /** The config; a field is `None` where the user explicitly passed `undefined`. */
  datatype IntlConfig = IntlConfig(
    locales: seq<string>,
    defaultLocale: string,
    localeParam: Option<string>,
    loader: LocaleLoader,
    refProp: Option<string>,
    refLoader: Option<RefLoader>)

  /** `{ key: d, ...options }` for one key: the spread wins whenever the key is present. */
  function WithDefault<T>(f: Field<T>, d: T): Option<T> {
    match f
    case Absent => Some(d)
    case Given(v) => v
  }

  /** `createConfig(options)`. */
  function CreateConfig(o: IntlOptions): IntlConfig {
    IntlConfig(
      o.locales, o.defaultLocale,
      WithDefault(o.localeParam, "locale"),
      o.loader,
      WithDefault(o.refProp, "$ref"),
      WithDefault(o.refLoader, DefaultRefLoader))
  }

  /**
   * Defaults apply exactly to absent keys: a present key, even one set to
   * `undefined`, comes through as given; the other options are copied.
   */
  lemma CreateConfigFields(o: IntlOptions)
    ensures var c := CreateConfig(o);
      && c.locales == o.locales && c.defaultLocale == o.defaultLocale && c.loader == o.loader
      && (c.localeParam == Some("locale") <==> o.localeParam.Absent? || o.localeParam == Given(Some("locale")))
      && (c.refProp == Some("$ref") <==> o.refProp.Absent? || o.refProp == Given(Some("$ref")))
      && (c.refLoader == Some(DefaultRefLoader) <==> o.refLoader.Absent? || o.refLoader == Given(Some(DefaultRefLoader)))
      && (c.localeParam.None? <==> o.localeParam == Given(None))
      && (c.refProp.None? <==> o.refProp == Given(None))
      && (c.refLoader.None? <==> o.refLoader == Given(None))
  {
  }

  /** The options that spell a config out in full. */
  function OptionsOf(c: IntlConfig): IntlOptions {
    IntlOptions(c.locales, c.defaultLocale, Given(c.localeParam), c.loader, Given(c.refProp), Given(c.refLoader))
  }

  /** Feeding a config back as options gives the same config: defaults never override a present key. */
  lemma CreateConfigFixed(c: IntlConfig)
    ensures CreateConfig(OptionsOf(c)) == c
  {
  }

  /** The property key a possibly `undefined` name reads: `undefined` becomes "undefined". */
  function PropKey(name: Option<string>): string {
    match name
    case Some(k) => k
    case None => "undefined"
  }

  /** `wrapMessages(..., config)`: the current wrapper's options and error classes. */
  function WrapOptionsOf(c: IntlConfig): WrapMessages.WrapOptions {
    WrapMessages.WrapOptions(PropKey(c.refProp), c.refLoader, IntlMissingParamError, IntlRefLoaderError)
  }

  const NoRefLoader := Error(IntlRefLoaderError, "No \"refLoader\" provided")

  /** Calling the configured `refLoader`; what a user loader returns is a parameter. */
  function RunRefLoader(l: RefLoader, userModule: Result<Value>): (r: Result<Value>)
    ensures l == DefaultRefLoader ==> r == Err(NoRefLoader)
  {
    match l
    case DefaultRefLoader => Err(NoRefLoader)
    case UserRefLoader(_) => userModule
  }

  /**
   * Running the `IntlRef` component: load the module, then take its
   * `default` export when it has one (`"default" in mod`, a TypeError on a
   * primitive).
   */
  function RenderRef(thunk: Value, userModule: Result<Value>): (r: Result<Value>)
    requires thunk.RefThunk?
    ensures thunk.loader == DefaultRefLoader ==> r == Err(NoRefLoader)
    ensures thunk.loader.UserRefLoader? && userModule.Err? ==> r == userModule
    ensures thunk.loader.UserRefLoader? && userModule.Ok? && userModule.value.Obj? ==>
      var m := userModule.value;
      r == Ok(if "default" in Keys(m.props) then FindProp(m.props, "default") else m)
  {
    var mod :- RunRefLoader(thunk.loader, userModule);
    if !(mod.Obj? || mod.Arr? || IsFunction(mod)) then Err(Error(TypeError, "Cannot use 'in' operator to search for 'default'"))
    else if HasProp(mod, "default") then Ok(Get(mod, "default"))
    else Ok(mod)
  }

  /**
   * Without a user `refLoader`, wrapping a reference object succeeds, but
   * the component it becomes fails with `IntlRefLoaderError` when it runs.
   */
  lemma DefaultRefLoaderFailsLate(o: IntlOptions, v: Value, userModule: Result<Value>)
    requires o.refLoader.Absent?
    requires v.Obj? && HasProp(v, PropKey(CreateConfig(o).refProp)) && !Nullish(Get(v, PropKey(CreateConfig(o).refProp)))
    ensures var w := WrapMessages.Wrap(v, WrapOptionsOf(CreateConfig(o)));
      && w.Ok? && w.value.RefThunk?
      && RenderRef(w.value, userModule) == Err(NoRefLoader)
  {
  }
}
