/**
 * The server side of the runtime: `loadTranslations`
 * (src/server/loadTranslations.ts), which loads the current locale's
 * messages once, and `getTranslations` (src/server/getTranslations.tsx),
 * which serves a namespace from the server partition or wraps it from the
 * raw messages and caches it there.
 */
module Server {
  import opened Wrappers
  import opened Values
  import opened ObjectPath
  import Text
  import Config
  import Cache
  import WrapMessages
  import TFunction
  import ParamRegex

  // ---------------------------------------------------------------------
  // loadTranslations
  // ---------------------------------------------------------------------

  /** What a `loadTranslations` call did: its outcome, whether it called the loader, the cache afterwards. */
  datatype LoadOutcome = LoadOutcome(result: Result<()>, calledLoader: bool, state: Cache.CacheState)

  /**
   * `loadTranslations()`: `loaded` is what `config.loader(locale)` returns
   * or throws, should it be called. The value is stored as it is, for the
   * current locale only, and only when that locale holds nothing truthy.
   */
  function Load(s: Cache.CacheState, loaded: Result<Value>): (r: LoadOutcome)
    ensures r.state.config == s.config && r.state.locale == s.locale
    ensures r.state.server == s.server && r.state.client == s.client
    ensures !Cache.Initialized(s) ==> r == LoadOutcome(Err(Cache.NotInitialized), false, s)
    ensures r.calledLoader <==> Cache.Initialized(s) && !Truthy(Cache.At(s.messages, s.locale))
    ensures r.state != s ==> r.calledLoader && loaded.Ok? && r.state.messages == s.messages[s.locale := loaded.value]
    ensures r.calledLoader && loaded.Ok? ==> r.result.Ok? && r.state.messages == s.messages[s.locale := loaded.value]
    ensures r.calledLoader && loaded.Err? ==> r.result == Err(loaded.error) && r.state == s
  {
    match Cache.Access(s)
    case Err(e) => LoadOutcome(Err(e), false, s)
    case Ok(_) =>
      if Truthy(Cache.At(s.messages, s.locale)) then LoadOutcome(Ok(()), false, s)
      else match loaded
        case Err(e) => LoadOutcome(Err(e), true, s)
        case Ok(v) => LoadOutcome(Ok(()), true, s.(messages := s.messages[s.locale := v]))
  }

  /** Two calls in a row call the loader at most once, once the first has stored something truthy. */
  lemma LoadOnce(s: Cache.CacheState, first: Result<Value>, second: Result<Value>)
    requires Load(s, first).calledLoader && first.Ok? && Truthy(first.value)
    ensures var s1 := Load(s, first).state; Load(s1, second) == LoadOutcome(Ok(()), false, s1)
  {
  }

  /** A loader that throws leaves nothing behind, so the next call tries again. */
  lemma LoadRetries(s: Cache.CacheState, first: Result<Value>, second: Result<Value>)
    requires Load(s, first).calledLoader && first.Err?
    ensures Load(s, first).state == s && Load(Load(s, first).state, second).calledLoader
  {
  }

  /** `loadTranslations()` on the request's cache object. */
  method LoadTranslations(cache: Cache.IntlCache, loaded: Result<Value>) returns (r: Result<()>, calledLoader: bool)
    modifies cache
    ensures LoadOutcome(r, calledLoader, cache.State()) == Load(old(cache.State()), loaded)
  {
    var got := cache.GetIntlCache();
    if got.Err? {
      return Err(got.error), false;
    }
    if Truthy(Cache.At(cache.messages, cache.locale)) {
      return Ok(()), false;
    }
    calledLoader := true;
    if loaded.Err? {
      return Err(loaded.error), calledLoader;
    }
    cache.messages := cache.messages[cache.locale := loaded.value];
    r := Ok(());
  }

  // ---------------------------------------------------------------------
  // getTranslations
  // ---------------------------------------------------------------------

  datatype ServerOutcome = ServerOutcome(result: Result<TFunction.Handle>, state: Cache.CacheState)

  function LocaleNotLoaded(locale: string): Error {
    Error(IntlServerError, "Locale \"" + locale + "\" not loaded")
  }

  function NamespaceNotFound(path: string, locale: string): Error {
    Error(IntlServerError, "Namespace \"" + path + "\" not found in locale \"" + locale + "\"")
  }

  /** The handle `getTranslations` returns for the namespace value `nsp`. */
  function ServerHandle(nsp: Value, path: string): TFunction.Handle {
    TFunction.CreateTFunction(nsp, path, IntlServerError)
  }

  /** `getTranslations(path)` on the cache state `s`. */
  function Translations(s: Cache.CacheState, path: string): (r: ServerOutcome)
    ensures r.state.config == s.config && r.state.locale == s.locale
    ensures r.state.messages == s.messages && r.state.client == s.client
    ensures forall l | l != s.locale :: Cache.At(r.state.server, l) == Cache.At(s.server, l)
    ensures !Cache.Initialized(s) ==> r == ServerOutcome(Err(Cache.NotInitialized), s)
    ensures Cache.Initialized(s) && Nullish(Cache.At(s.messages, s.locale)) ==>
      r == ServerOutcome(Err(LocaleNotLoaded(s.locale)), s)
    ensures r.result.Ok? ==> r.result.value.path == path && r.result.value.notFound == IntlServerError
    ensures Cache.Initialized(s) && r.result.Ok? ==>
      var hit := Dlv(Cache.At(s.server, s.locale), path);
      if !Nullish(hit) then r.result.value.nsp == hit && r.state == s
      else WrapMessages.Wrap(DeepCopy(Dlv(Cache.At(s.messages, s.locale), path)), Config.WrapOptionsOf(s.config.value))
             == Ok(r.result.value.nsp)
  {
    match Cache.Access(s)
    case Err(e) => ServerOutcome(Err(e), s)
    case Ok(_) =>
      var c := s.config.value;
      var locale := s.locale;
      var messages := Cache.At(s.messages, locale);
      if Nullish(messages) then ServerOutcome(Err(LocaleNotLoaded(locale)), s)
      else
        var server := Cache.At(s.server, locale);
        var cached := Dlv(server, path);
        if !Nullish(cached) then ServerOutcome(Ok(ServerHandle(cached, path)), s)
        else
          var raw := Dlv(messages, path);
          if Nullish(raw) then ServerOutcome(Err(NamespaceNotFound(path, locale)), s)
          else match WrapMessages.Wrap(DeepCopy(raw), Config.WrapOptionsOf(c))
            case Err(e) => ServerOutcome(Err(e), s)
            case Ok(nsp) =>
              var base := if Truthy(server) then server else Obj([]);
              match DSetMerge(base, path, nsp)
              case Err(e) => ServerOutcome(Err(e), s.(server := s.server[locale := base]))
              case Ok(t) => ServerOutcome(Ok(ServerHandle(nsp, path)), s.(server := s.server[locale := t]))
  }

  /**
   * What a request served is what the server partition holds at the path
   * afterwards: a hit reads it from there, a miss has just merged it in.
   */
  lemma TranslationsServes(s: Cache.CacheState, path: string)
    requires NoneReserved(Text.Split(path, '.'))
    requires Dlv(Cache.At(s.server, s.locale), path) != Null
    requires Translations(s, path).result.Ok?
    ensures var r := Translations(s, path);
      Dlv(Cache.At(r.state.server, s.locale), path) == r.result.value.nsp
  {
    var server := Cache.At(s.server, s.locale);
    if Nullish(Dlv(server, path)) {
      var c := s.config.value;
      var keys := Text.Split(path, '.');
      var raw := Dlv(Cache.At(s.messages, s.locale), path);
      var nsp := WrapMessages.Wrap(DeepCopy(raw), Config.WrapOptionsOf(c)).value;
      var base := if Truthy(server) then server else Obj([]);
      DSetThenDlv(base, keys, nsp, true);
      DSetKeysOkShape(base, keys, nsp, true);
      if Truthy(server) {
        SlotOfMissing(base, keys);
      } else {
        SlotOfFresh(base, keys);
      }
      assert Cache.At(Translations(s, path).state.server, s.locale) == DSetMerge(base, path, nsp).value;
    }
  }

  /**
   * Through the handle a miss returns, a raw string leaf of the namespace
   * translates as `wrapString` made it: to itself when it has no
   * placeholder, otherwise to its substitution or the missing-parameter
   * error.
   */
  lemma ServedStringLeaf(s: Cache.CacheState, path: string, key: string, params: map<string, string>)
    requires Cache.Initialized(s) && Nullish(Dlv(Cache.At(s.server, s.locale), path))
    requires Translations(s, path).result.Ok?
    requires var raw := Dlv(Cache.At(s.messages, s.locale), path);
      WrapMessages.PlainAlong(raw, Text.Split(key, '.'), Config.WrapOptionsOf(s.config.value).refProp)
      && Dlv(raw, key).Str?
    ensures var h := Translations(s, path).result.value;
      var text := Dlv(Dlv(Cache.At(s.messages, s.locale), path), key).s;
      && (!ParamRegex.HasPlaceholder(text) ==> TFunction.Translate(h, key, Some(params)) == Ok(Str(text)))
      && (ParamRegex.HasPlaceholder(text) ==>
            match ParamRegex.Substitute(text, params, IntlMissingParamError)
            case Ok(out) => TFunction.Translate(h, key, Some(params)) == Ok(Str(out))
            case Err(e) => TFunction.Translate(h, key, Some(params)) == Err(e))
  {
    var raw := Dlv(Cache.At(s.messages, s.locale), path);
    assert DeepCopy(raw) == raw;
    TFunction.TranslateWrapped(raw, Translations(s, path).result.value, key, params, Config.WrapOptionsOf(s.config.value));
  }

  /** A namespace already in the server partition is served from there and nothing is written. */
  lemma HitWritesNothing(s: Cache.CacheState, path: string)
    requires Cache.Initialized(s) && !Nullish(Cache.At(s.messages, s.locale))
    requires !Nullish(Dlv(Cache.At(s.server, s.locale), path))
    ensures Translations(s, path) == ServerOutcome(Ok(ServerHandle(Dlv(Cache.At(s.server, s.locale), path), path)), s)
  {
  }

  /** A namespace missing from both partitions fails naming both path and locale, and nothing is written. */
  lemma MissingNamespace(s: Cache.CacheState, path: string)
    requires Cache.Initialized(s) && !Nullish(Cache.At(s.messages, s.locale))
    requires Nullish(Dlv(Cache.At(s.server, s.locale), path))
    requires Nullish(Dlv(Cache.At(s.messages, s.locale), path))
    ensures Translations(s, path) == ServerOutcome(Err(NamespaceNotFound(path, s.locale)), s)
  {
  }

  /** Every server partition the runtime writes is a plain object. */
  predicate ServerShaped(s: Cache.CacheState) {
    forall l | l in s.server :: s.server[l].Obj?
  }

  lemma TranslationsKeepShape(s: Cache.CacheState, path: string)
    requires ServerShaped(s)
    ensures ServerShaped(Translations(s, path).state)
  {
    var r := Translations(s, path);
    if Cache.Initialized(s) && !Nullish(Cache.At(s.messages, s.locale)) {
      var server := Cache.At(s.server, s.locale);
      var base := if Truthy(server) then server else Obj([]);
      assert base.Obj?;
      var keys := Text.Split(path, '.');
      var c := s.config.value;
      var raw := Dlv(Cache.At(s.messages, s.locale), path);
      var w := WrapMessages.Wrap(DeepCopy(raw), Config.WrapOptionsOf(c));
      if w.Ok? && DSetMerge(base, path, w.value).Ok? {
        DSetTopKeys(base.props, keys, w.value, true);
      }
    }
  }

  /**
   * After a miss has wrapped and cached a namespace, the same request is a
   * hit: it serves the same wrapped namespace and writes nothing.
   */
  lemma MissThenHit(s: Cache.CacheState, path: string)
    requires ServerShaped(s) && Cache.Initialized(s)
    requires Dlv(Cache.At(s.server, s.locale), path) == Undefined
    requires NoneReserved(Text.Split(path, '.'))
    requires Translations(s, path).result.Ok?
    ensures var s1 := Translations(s, path).state;
      && Translations(s1, path) == ServerOutcome(Translations(s, path).result, s1)
  {
    var c := s.config.value;
    var messages := Cache.At(s.messages, s.locale);
    var server := Cache.At(s.server, s.locale);
    var keys := Text.Split(path, '.');
    var raw := Dlv(messages, path);
    var nsp := WrapMessages.Wrap(DeepCopy(raw), Config.WrapOptionsOf(c)).value;
    var base := if Truthy(server) then server else Obj([]);
    var t := DSetMerge(base, path, nsp).value;
    WrapMessages.WrapKeepsNullish(raw, nsp, Config.WrapOptionsOf(c));
    DSetThenDlv(base, keys, nsp, true);
    if Truthy(server) {
      assert server.Obj?;
      SlotOfMissing(base, keys);
    } else {
      SlotOfFresh(base, keys);
    }
    assert Dlv(t, path) == nsp;
    var s1 := Translations(s, path).state;
    assert Cache.At(s1.server, s.locale) == t;
  }

  /**
   * Caching `"k1.k2"` in an empty server partition creates the object at
   * `"k1"` too, so a later request for `"k1"` is a hit that sees only the
   * cached child `k2`.
   */
  lemma ParentBecomesHit(s: Cache.CacheState, k1: string, k2: string)
    requires ServerShaped(s) && Cache.Initialized(s) && s.locale !in s.server
    requires '.' !in k1 && '.' !in k2
    requires !Reserved(k1) && !Reserved(k2) && !Text.NumberLike(k2)
    requires Translations(s, k1 + "." + k2).result.Ok?
    ensures var s1 := Translations(s, k1 + "." + k2).state;
      var nsp := Translations(s, k1 + "." + k2).result.value.nsp;
      Translations(s1, k1) == ServerOutcome(Ok(ServerHandle(Obj([Prop(k2, nsp)]), k1)), s1)
  {
    var path := k1 + "." + k2;
    SplitPair(k1, k2);
    var c := s.config.value;
    var messages := Cache.At(s.messages, s.locale);
    DlvKeysFromNullish(Undefined, [k1, k2]);
    assert Dlv(Cache.At(s.server, s.locale), path) == Undefined;
    var raw := Dlv(messages, path);
    var nsp := WrapMessages.Wrap(DeepCopy(raw), Config.WrapOptionsOf(c)).value;
    WrapMessages.WrapKeepsNullish(raw, nsp, Config.WrapOptionsOf(c));
    var t := Obj([Prop(k1, Obj([Prop(k2, nsp)]))]);
    DSetPairFresh(k1, k2, nsp);
    var s1 := Translations(s, path).state;
    assert Cache.At(s1.server, s.locale) == t;
    DlvTop(t, k1);
  }

  lemma SplitPair(k1: string, k2: string)
    requires '.' !in k1 && '.' !in k2
    ensures Text.Split(k1 + "." + k2, '.') == [k1, k2]
  {
    Text.SplitAround(k1, '.', k2);
    Text.SplitNoSep(k1, '.');
    Text.SplitNoSep(k2, '.');
    assert k1 + ['.'] + k2 == k1 + "." + k2;
  }

  /** `dset/merge` of a two-key path into an empty object builds the two levels. */
  lemma DSetPairFresh(k1: string, k2: string, nsp: Value)
    requires !Reserved(k1) && !Reserved(k2) && !Text.NumberLike(k2)
    ensures DSetKeys(Obj([]), [k1, k2], nsp, true) == Ok(Obj([Prop(k1, Obj([Prop(k2, nsp)]))]))
  {
    var inner := Obj([Prop(k2, nsp)]);
    DSetOneFresh(k2, nsp);
    DSetThroughFresh(Obj([]), k1, k2, nsp);
    assert SetField([], k1, inner) == [Prop(k1, inner)];
  }

  /** Two keys below a missing first one: the inner write goes into a fresh object. */
  lemma DSetThroughFresh(t: Value, k1: string, k2: string, nsp: Value)
    requires t.Obj? && !Reserved(k1) && !Text.NumberLike(k2) && Get(t, k1) == Undefined
    ensures DSetKeys(Obj([]), [k2], nsp, true).Ok? ==>
      DSetKeys(t, [k1, k2], nsp, true) == SetProp(t, k1, DSetKeys(Obj([]), [k2], nsp, true).value)
  {
    assert [k1, k2][1..] == [k2];
  }

  /** `dset/merge` of a one-key path into an empty object. */
  lemma DSetOneFresh(k: string, nsp: Value)
    requires !Reserved(k)
    ensures DSetKeys(Obj([]), [k], nsp, true) == Ok(Obj([Prop(k, nsp)]))
  {
    assert Get(Obj([]), k) == Undefined;
    assert Merge(Undefined, nsp) == Ok(nsp);
    assert SetField([], k, nsp) == [Prop(k, nsp)];
  }

  lemma DlvTop(t: Value, k: string)
    requires t.Obj? && '.' !in k
    ensures Dlv(t, k) == FindProp(t.props, k)
  {
    Text.SplitNoSep(k, '.');
    assert Text.Split(k, '.') == [k];
    assert DlvKeys(t, [k]) == DlvKeys(Step(t, k), []) == Get(t, k);
  }

  /** `getTranslations(path)` on the request's cache object. */
  method GetTranslations(cache: Cache.IntlCache, path: string) returns (r: Result<TFunction.Handle>)
    modifies cache
    ensures ServerOutcome(r, cache.State()) == Translations(old(cache.State()), path)
  {
    var got := cache.GetIntlCache();
    if got.Err? {
      return Err(got.error);
    }
    var c := cache.config.value;
    var locale := cache.locale;
    var messages := Cache.At(cache.messages, locale);
    if Nullish(messages) {
      return Err(LocaleNotLoaded(locale));
    }
    var nsp := Dlv(Cache.At(cache.server, locale), path);
    if Nullish(nsp) {
      nsp := Dlv(messages, path);
      if Nullish(nsp) {
        return Err(NamespaceNotFound(path, locale));
      }
      var wrapped := WrapMessages.Wrap(DeepCopy(nsp), Config.WrapOptionsOf(c));
      if wrapped.Err? {
        return Err(wrapped.error);
      }
      nsp := wrapped.value;
      if !Truthy(Cache.At(cache.server, locale)) {
        cache.server := cache.server[locale := Obj([])];
      }
      var written := DSetMerge(cache.server[locale], path, nsp);
      if written.Err? {
        return Err(written.error);
      }
      cache.server := cache.server[locale := written.value];
    }
    r := Ok(ServerHandle(nsp, path));
  }
}
