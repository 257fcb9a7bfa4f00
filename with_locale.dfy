/**
 * `createWithLocale` (src/server/createWithLocale.tsx): the `WithLocale`
 * component's steps on the request's cache, and the namespace list
 * `withNamespaces` accumulates.
 */
module WithLocale {
  import opened Wrappers
  import opened Values
  import Config
  import Cache
  import Server
  import Provider

  /** `oneOf(values, value)`: `values.some(item => item === value)` over the configured locales. */
  function OneOf(values: seq<string>, value: Value): (r: bool)
    ensures r <==> exists i | 0 <= i < |values| :: Str(values[i]) == value
  {
    if values == [] then false
    else Str(values[0]) == value || OneOf(values[1..], value)
  }

  function NotProvided(what: string): Error {
    Error(IntlWithLocaleError, "No \"" + what + "\" provided to the component wrapped by \"withLocale\"")
  }

  datatype RenderOutcome = RenderOutcome(result: Result<Option<Provider.Context>>, state: Cache.CacheState)

  /**
   * One render of `WithLocale(props)`: `props.params` is taken as already
   * awaited, and `loaded` is what the locale loader returns or throws. The
   * steps are init, an optional locale change, `loadTranslations`, then
   * the provider over `namespaces`.
   */
  function RenderSteps(s: Cache.CacheState, config: Config.IntlConfig, namespaces: seq<string>, props: Value, loaded: Result<Value>): (r: RenderOutcome)
    ensures Nullish(props) ==> r == RenderOutcome(Err(NotProvided("props")), s)
    ensures !Nullish(props) && Nullish(Get(props, "params")) ==>
      r == RenderOutcome(Err(NotProvided("params")), Cache.Init(s, config))
  {
    if Nullish(props) then RenderOutcome(Err(NotProvided("props")), s)
    else
      var s1 := Cache.Init(s, config);
      var params := Get(props, "params");
      if Nullish(params) then RenderOutcome(Err(NotProvided("params")), s1)
      else
        var locale := Get(params, Config.PropKey(config.localeParam));
        var s2 := if OneOf(config.locales, locale) then Cache.Apply(s1, Cache.Patch(None, Some(locale.s), None, None, None)) else s1;
        var loading := Server.Load(s2, loaded);
        if loading.result.Err? then RenderOutcome(Err(loading.result.error), loading.state)
        else RenderOutcome(Provider.Provide(loading.state, namespaces), loading.state)
  }

  /**
   * Past the argument checks, the locale is the requested one when it is
   * configured and the default otherwise; the loader is always called,
   * because init has just emptied the messages; and the messages hold at
   * most what it returned for that locale.
   */
  lemma RenderSelectsAndLoads(s: Cache.CacheState, config: Config.IntlConfig, namespaces: seq<string>, props: Value, loaded: Result<Value>)
    requires !Nullish(props) && !Nullish(Get(props, "params"))
    ensures var requested := Get(Get(props, "params"), Config.PropKey(config.localeParam));
      var locale := if OneOf(config.locales, requested) then requested.s else config.defaultLocale;
      var r := RenderSteps(s, config, namespaces, props, loaded);
      && r.state.locale == locale
      && r.state.config == Some(config)
      && Server.Load(Cache.Init(s, config).(locale := locale), loaded).calledLoader
      && r.state.messages == (if loaded.Ok? then map[locale := loaded.value] else map[])
      && r.state.server == map[] && r.state.client == map[]
      && (loaded.Err? ==> r.result == Err(loaded.error))
      && (loaded.Ok? ==> r.result == Provider.Provide(r.state, namespaces))
  {
  }

  /** The component `withLocale(Component)` returns, with its own namespace list. */
  class WithLocaleComponent {
    const config: Config.IntlConfig
    /** `WithLocale.__i18n__.namespaces`. */
    var namespaces: seq<string>
    /** `WithLocale.__intl__.namespaces`: the arguments of the latest `withNamespaces` call. */
    var lastDeclared: Option<seq<string>>

    constructor(config: Config.IntlConfig)
      ensures this.config == config && namespaces == [] && lastDeclared == None
    {
      this.config := config;
      namespaces := [];
      lastDeclared := None;
    }

    /** `withNamespaces(...namespaces)`: appends to the shared list and returns the same component. */
    method WithNamespaces(added: seq<string>) returns (c: WithLocaleComponent)
      modifies this
      ensures namespaces == old(namespaces) + added
      ensures lastDeclared == Some(added)
      ensures c == this
    {
      namespaces := namespaces + added;
      lastDeclared := Some(added);
      c := this;
    }

    /** `WithLocale(props)` on the request's cache. */
    method Render(cache: Cache.IntlCache, props: Value, loaded: Result<Value>) returns (r: Result<Option<Provider.Context>>)
      modifies cache
      ensures RenderOutcome(r, cache.State()) == RenderSteps(old(cache.State()), config, namespaces, props, loaded)
    {
      if Nullish(props) {
        return Err(NotProvided("props"));
      }
      cache.InitIntlCache(config);
      var params := Get(props, "params");
      if Nullish(params) {
        return Err(NotProvided("params"));
      }
      var locale := Get(params, Config.PropKey(config.localeParam));
      if OneOf(config.locales, locale) {
        var _ := cache.SetIntlCache(Cache.Patch(None, Some(locale.s), None, None, None));
      }
      var loadResult, _ := Server.LoadTranslations(cache, loaded);
      if loadResult.Err? {
        return Err(loadResult.error);
      }
      r := Provider.IntlProvider(cache, namespaces);
    }
  }
}
