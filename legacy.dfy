/**
 * The older runtime: `getTranslations` of src/create-intl/get-translations.tsx,
 * which wraps a namespace of the caller's `messages` and writes it back in
 * place, and `createIntl` of src/server.tsx with its own per-request state.
 */
module Legacy {
  import opened Wrappers
  import opened Values
  import opened ObjectPath
  import Text
  import Config
  import WrapMessages
  import TFunction
  import ParamRegex

  /** The legacy `wrap`: the current wrapper's cases, with plain `Error`s. */
  function LegacyWrapOptions(refProp: string, refLoader: Option<RefLoader>): WrapMessages.WrapOptions {
    WrapMessages.WrapOptions(refProp, refLoader, PlainError, PlainError)
  }

  function LegacyNotFound(path: string): Error {
    Error(PlainError, "Namespace \"" + path + "\" not found in locale")
  }

  datatype LegacyOutcome = LegacyOutcome(result: Result<TFunction.Handle>, messages: Value)

  /**
   * `getTranslations({ path, messages, refProp, refLoader })`: the result
   * and the caller's `messages` afterwards.
   */
  function Translations(messages: Value, path: string, refProp: string, refLoader: Option<RefLoader>): (r: LegacyOutcome)
    ensures Nullish(Dlv(messages, path)) ==> r == LegacyOutcome(Err(LegacyNotFound(path)), messages)
    ensures r.result.Ok? ==> r.result.value.path == path && r.result.value.notFound == PlainError
    ensures r.result.Ok? ==>
      WrapMessages.Wrap(Dlv(messages, path), LegacyWrapOptions(refProp, refLoader)) == Ok(r.result.value.nsp)
    ensures r.result.Err? ==> r.messages == messages
  {
    var nsp := Dlv(messages, path);
    if Nullish(nsp) then LegacyOutcome(Err(LegacyNotFound(path)), messages)
    else match WrapMessages.Wrap(nsp, LegacyWrapOptions(refProp, refLoader))
      case Err(e) => LegacyOutcome(Err(e), messages)
      case Ok(w) =>
        match DSet(messages, path, w)
        case Err(e) => LegacyOutcome(Err(e), messages)
        case Ok(m) => LegacyOutcome(Ok(TFunction.CreateTFunction(w, path, PlainError)), m)
  }

  /** The wrapped namespace is written back into the caller's tree at `path`. */
  lemma TranslationsWriteBack(messages: Value, path: string, refProp: string, refLoader: Option<RefLoader>)
    requires NoneReserved(Text.Split(path, '.'))
    requires Translations(messages, path, refProp, refLoader).result.Ok?
    ensures var r := Translations(messages, path, refProp, refLoader);
      Dlv(r.messages, path) == r.result.value.nsp
  {
    var w := WrapMessages.Wrap(Dlv(messages, path), LegacyWrapOptions(refProp, refLoader)).value;
    DSetThenDlv(messages, Text.Split(path, '.'), w, false);
  }

  /**
   * Asking again for the same namespace of the mutated tree finds the
   * already wrapped values, which wrap to themselves, so the second handle
   * reads the same namespace as the first.
   */
  lemma TranslationsAgain(messages: Value, path: string, refProp: string, refLoader: Option<RefLoader>)
    requires NoneReserved(Text.Split(path, '.'))
    requires Translations(messages, path, refProp, refLoader).result.Ok?
    ensures var r := Translations(messages, path, refProp, refLoader);
      var again := Translations(r.messages, path, refProp, refLoader);
      again.result.Ok? ==> again.result == r.result
  {
    var o := LegacyWrapOptions(refProp, refLoader);
    var r := Translations(messages, path, refProp, refLoader);
    TranslationsWriteBack(messages, path, refProp, refLoader);
    var w := r.result.value.nsp;
    WrapMessages.WrapIdempotent(Dlv(messages, path), w, o);
  }

  /**
   * Through the legacy handle, a raw string leaf of the namespace
   * translates as the legacy `wrapString` made it: to itself when it has no
   * placeholder, otherwise to its substitution or a plain `Error`.
   */
  lemma ServedStringLeaf(messages: Value, path: string, refProp: string, refLoader: Option<RefLoader>,
                         key: string, params: map<string, string>)
    requires Translations(messages, path, refProp, refLoader).result.Ok?
    requires WrapMessages.PlainAlong(Dlv(messages, path), Text.Split(key, '.'), refProp)
    requires Dlv(Dlv(messages, path), key).Str?
    ensures var h := Translations(messages, path, refProp, refLoader).result.value;
      var text := Dlv(Dlv(messages, path), key).s;
      && (!ParamRegex.HasPlaceholder(text) ==> TFunction.Translate(h, key, Some(params)) == Ok(Str(text)))
      && (ParamRegex.HasPlaceholder(text) ==>
            match ParamRegex.Substitute(text, params, PlainError)
            case Ok(out) => TFunction.Translate(h, key, Some(params)) == Ok(Str(out))
            case Err(e) => TFunction.Translate(h, key, Some(params)) == Err(e))
  {
    var h := Translations(messages, path, refProp, refLoader).result.value;
    TFunction.TranslateWrapped(Dlv(messages, path), h, key, params, LegacyWrapOptions(refProp, refLoader));
  }

  /** The caller's `messages` object, which the legacy `getTranslations` updates in place. */
  class MessageTree {
    var root: Value

    constructor(root: Value)
      ensures this.root == root
    {
      this.root := root;
    }

    /** `getTranslations({ path, messages: this, refProp, refLoader })`. */
    method GetTranslations(path: string, refProp: string, refLoader: Option<RefLoader>) returns (r: Result<TFunction.Handle>)
      modifies this
      ensures LegacyOutcome(r, root) == Translations(old(root), path, refProp, refLoader)
    {
      var nsp := Dlv(root, path);
      if Nullish(nsp) {
        return Err(LegacyNotFound(path));
      }
      var wrapped := WrapMessages.Wrap(nsp, LegacyWrapOptions(refProp, refLoader));
      if wrapped.Err? {
        return Err(wrapped.error);
      }
      var written := DSet(root, path, wrapped.value);
      if written.Err? {
        return Err(written.error);
      }
      root := written.value;
      r := Ok(TFunction.CreateTFunction(wrapped.value, path, PlainError));
    }
  }

  // ---------------------------------------------------------------------
  // createIntl (src/server.tsx)
  // ---------------------------------------------------------------------

  /** The options of the legacy `createIntl`; `None` for an absent or `undefined` option. */
  datatype LegacyOptions = LegacyOptions(
    locales: seq<string>,
    defaultLocale: string,
    localeParam: Option<string>,
    loader: Config.LocaleLoader,
    refProp: Option<string>,
    refLoader: Option<RefLoader>)

  /** `option || fallback` for a string option: absent, `undefined` and `""` fall back. */
  function OrDefault(option: Option<string>, fallback: string): (r: string)
    ensures r == fallback <==> option.None? || option == Some("") || option == Some(fallback)
    ensures r != fallback ==> option == Some(r)
  {
    match option
    case Some(v) => if v == "" then fallback else v
    case None => fallback
  }

  /** What the legacy `getTranslations` returns: a cached subtree as it is, or a handle. */
  datatype LegacyResult = CachedValue(value: Value) | Translator(handle: TFunction.Handle)

  /** `{ locale?, messages? }` for the legacy `setIntlCache`. */
  datatype LegacyPatch = LegacyPatch(locale: Option<string>, messages: Option<Value>)

  /**
   * The legacy `getTranslations(path)` given the per-request `messages`:
   * a truthy value at `path` is returned as it is; otherwise `loaded` (what
   * `options.loader(locale)` returns or throws) is unwrapped from its
   * `default` export and handed to the legacy `getTranslations`.
   */
  function LegacyGet(cached: Value, path: string, loaded: Result<Value>, refProp: string, refLoader: Option<RefLoader>): (r: Result<LegacyResult>)
    ensures Truthy(Dlv(cached, path)) ==> r == Ok(CachedValue(Dlv(cached, path)))
    ensures !Truthy(Dlv(cached, path)) && r.Ok? ==> r.value.Translator?
    ensures !Truthy(Dlv(cached, path)) && loaded.Err? ==> r == Err(loaded.error)
    ensures !Truthy(Dlv(cached, path)) && loaded.Ok? && !InOperand(loaded.value) ==> r.Err? && r.error.cls == TypeError
    ensures !Truthy(Dlv(cached, path)) && loaded.Ok? && InOperand(loaded.value) ==>
      var t := Translations(ModuleMessages(loaded.value), path, refProp, refLoader).result;
      r == (if t.Ok? then Ok(Translator(t.value)) else Err(t.error))
  {
    var hit := Dlv(cached, path);
    if Truthy(hit) then Ok(CachedValue(hit))
    else
      var mod :- loaded;
      if !InOperand(mod) then Err(Error(TypeError, "Cannot use 'in' operator to search for 'default'"))
      else
        var handle :- Translations(ModuleMessages(mod), path, refProp, refLoader).result;
        Ok(Translator(handle))
  }

  /** A value the `in` operator accepts on its right: an object, an array or a function. */
  predicate InOperand(v: Value) {
    v.Obj? || v.Arr? || IsFunction(v)
  }

  /** `"default" in mod ? mod.default : mod`. */
  function ModuleMessages(mod: Value): Value {
    if HasProp(mod, "default") then Get(mod, "default") else mod
  }

  /** A module object without a `default` export is itself the message tree. */
  lemma LegacyGetBareModule(cached: Value, path: string, props: seq<Prop>, refProp: string, refLoader: Option<RefLoader>)
    requires !Truthy(Dlv(cached, path)) && "default" !in Keys(props)
    ensures var r := LegacyGet(cached, path, Ok(Obj(props)), refProp, refLoader);
      var t := Translations(Obj(props), path, refProp, refLoader).result;
      r == (if t.Ok? then Ok(Translator(t.value)) else Err(t.error))
  {
  }

  /** A module whose `default` export is the tree reads the same as the bare tree. */
  lemma LegacyGetUnwrapsDefault(cached: Value, path: string, tree: Value, refProp: string, refLoader: Option<RefLoader>)
    requires !Truthy(Dlv(cached, path))
    ensures var r := LegacyGet(cached, path, Ok(Obj([Prop("default", tree)])), refProp, refLoader);
      var t := Translations(tree, path, refProp, refLoader).result;
      r == (if t.Ok? then Ok(Translator(t.value)) else Err(t.error))
  {
    var wrapped := Obj([Prop("default", tree)]);
    assert Keys(wrapped.props) == ["default"];
    assert Get(wrapped, "default") == tree;
  }

  /** The object `createIntl(options)` returns, with the request's `{ locale, messages }`. */
  class LegacyIntl {
    const locales: seq<string>
    const defaultLocale: string
    const loader: Config.LocaleLoader
    const refProp: string
    const localeParam: string
    const refLoader: Option<RefLoader>
    var locale: string
    var messages: Value

    /** `createIntl(options)` and the first `intlCache()` of the request. */
    constructor(options: LegacyOptions)
      ensures locales == options.locales && defaultLocale == options.defaultLocale
      ensures loader == options.loader && refLoader == options.refLoader
      ensures refProp == OrDefault(options.refProp, "$ref")
      ensures localeParam == OrDefault(options.localeParam, "locale")
      ensures locale == options.defaultLocale && messages == Obj([])
    {
      locales := options.locales;
      defaultLocale := options.defaultLocale;
      loader := options.loader;
      refProp := OrDefault(options.refProp, "$ref");
      localeParam := OrDefault(options.localeParam, "locale");
      refLoader := options.refLoader;
      locale := options.defaultLocale;
      messages := Obj([]);
    }

    /** `hasLocale(input)`: `input` is one of the configured locales. */
    predicate HasLocale(input: Value)
      ensures HasLocale(input) <==> exists i | 0 <= i < |locales| :: input == Str(locales[i])
    {
      exists i | 0 <= i < |locales| :: input == Str(locales[i])
    }

    /** `setIntlCache(partial)`: `Object.assign` of the supplied fields. */
    method SetIntlCache(p: LegacyPatch)
      modifies this
      ensures locale == (if p.locale.Some? then p.locale.value else old(locale))
      ensures messages == (if p.messages.Some? then p.messages.value else old(messages))
    {
      if p.locale.Some? { locale := p.locale.value; }
      if p.messages.Some? { messages := p.messages.value; }
    }

    /** The locale a `withLocale` render sets for the awaited `params`. */
    function SelectedLocale(params: Value): (l: string)
      requires !Nullish(params)
      ensures l == defaultLocale || l in locales
      ensures HasLocale(Get(params, localeParam)) ==> Str(l) == Get(params, localeParam)
    {
      var requested := Get(params, localeParam);
      if HasLocale(requested) then requested.s else defaultLocale
    }

    /**
     * `WithLocale(props)` of the legacy `withLocale`: reading the locale
     * parameter off missing `params` is a TypeError; otherwise the locale is
     * always written, falling back to the default.
     */
    method WithLocale(params: Value) returns (r: Result<()>)
      modifies this
      ensures Nullish(params) ==> r == Err(PropertyOfNullish) && locale == old(locale) && messages == old(messages)
      ensures !Nullish(params) ==> r == Ok(()) && locale == SelectedLocale(params) && messages == old(messages)
    {
      if Nullish(params) {
        return Err(PropertyOfNullish);
      }
      SetIntlCache(LegacyPatch(Some(SelectedLocale(params)), None));
      r := Ok(());
    }

    /** `getTranslations(path)`; it never writes the request's state. */
    method GetTranslations(path: string, loaded: Result<Value>) returns (r: Result<LegacyResult>)
      ensures r == LegacyGet(messages, path, loaded, refProp, refLoader)
    {
      var nsp := Dlv(messages, path);
      if Truthy(nsp) {
        return Ok(CachedValue(nsp));
      }
      if loaded.Err? {
        return Err(loaded.error);
      }
      var mod := loaded.value;
      if !InOperand(mod) {
        return Err(Error(TypeError, "Cannot use 'in' operator to search for 'default'"));
      }
      var tree := ModuleMessages(mod);
      var holder := new MessageTree(tree);
      var handle := holder.GetTranslations(path, refProp, refLoader);
      if handle.Err? {
        return Err(handle.error);
      }
      r := Ok(Translator(handle.value));
    }
  }
}
