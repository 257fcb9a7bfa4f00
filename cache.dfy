/**
 * The per-request cache (src/core/cache.ts): one object, uninitialised
 * until `initIntlCache` fills it with the config, the current locale and
 * three per-locale partitions of message trees.
 */
module Cache {
  import opened Wrappers
  import opened Values
  import Config

  /** The fields of the cache object; `config` is `None` while it is uninitialised. */
  datatype CacheState = CacheState(
    config: Option<Config.IntlConfig>,
    locale: string,
    messages: map<string, Value>,
    server: map<string, Value>,
    client: map<string, Value>)

  /** A `Partial<IntlCache>`: `None` for a key the partial object does not have. */
  datatype Patch = Patch(
    config: Option<Option<Config.IntlConfig>>,
    locale: Option<string>,
    messages: Option<map<string, Value>>,
    server: Option<map<string, Value>>,
    client: Option<map<string, Value>>)

  const NotInitialized := Error(IntlCacheError, "Not initialized")

  /** `partition[locale]`: `undefined` where the partition has no entry. */
  function At(partition: map<string, Value>, locale: string): (v: Value)
    ensures locale !in partition ==> v == Undefined
  {
    if locale in partition then partition[locale] else Undefined
  }

  predicate Initialized(s: CacheState) { s.config.Some? }

  /** `createCache()`: `{ config: undefined }`; the other fields do not exist yet. */
  const Fresh := CacheState(None, "", map[], map[], map[])

  /** `initIntlCache(config)`: whatever the cache held, it now holds `config`, its default locale and empty partitions. */
  function Init(s: CacheState, c: Config.IntlConfig): (r: CacheState)
    ensures Initialized(r)
  {
    CacheState(Some(c), c.defaultLocale, map[], map[], map[])
  }

  /** Re-initialising never fails and forgets everything loaded before. */
  lemma InitForgets(s: CacheState, s': CacheState, c: Config.IntlConfig)
    ensures Init(s, c) == Init(s', c) == Init(Fresh, c)
    ensures Init(s, c).messages == map[] && Init(s, c).server == map[] && Init(s, c).client == map[]
    ensures Init(s, c).locale == c.defaultLocale
  {
  }

  /** `getIntlCache()`. */
  function Access(s: CacheState): (r: Result<CacheState>)
    ensures r.Ok? <==> Initialized(s)
    ensures r.Err? ==> r.error == NotInitialized
    ensures r.Ok? ==> r.value == s
  {
    if s.config.None? then Err(NotInitialized) else Ok(s)
  }

  /** `Object.assign(cache, partial)`: every key the patch has replaces that field. */
  function Apply(s: CacheState, p: Patch): CacheState {
    CacheState(
      if p.config.Some? then p.config.value else s.config,
      if p.locale.Some? then p.locale.value else s.locale,
      if p.messages.Some? then p.messages.value else s.messages,
      if p.server.Some? then p.server.value else s.server,
      if p.client.Some? then p.client.value else s.client)
  }

  /** `setIntlCache(partial)`: fails on an uninitialised cache, otherwise overwrites only the supplied fields. */
  function Set(s: CacheState, p: Patch): (r: Result<CacheState>)
    ensures r.Ok? <==> Initialized(s)
    ensures r.Err? ==> r.error == NotInitialized
  {
    var _ :- Access(s);
    Ok(Apply(s, p))
  }

  /** A patch of one field changes that field and no other. */
  lemma SetOnlySupplied(s: CacheState, p: Patch)
    requires Initialized(s)
    ensures var r := Set(s, p).value;
      && (p.config.None? ==> r.config == s.config)
      && (p.locale.None? ==> r.locale == s.locale)
      && (p.messages.None? ==> r.messages == s.messages)
      && (p.server.None? ==> r.server == s.server)
      && (p.client.None? ==> r.client == s.client)
      && (p.locale.Some? ==> r.locale == p.locale.value)
  {
  }

  /** A patch whose `config` key holds `undefined` makes the cache uninitialised again. */
  lemma SetCanUninitialise(s: CacheState, p: Patch)
    requires Initialized(s) && p.config == Some(None)
    ensures Set(s, p).Ok? && Access(Set(s, p).value).Err?
  {
  }

  /** The one cache object of a request; `getCache` always returns this object. */
  class IntlCache {
    var config: Option<Config.IntlConfig>
    var locale: string
    var messages: map<string, Value>
    var server: map<string, Value>
    var client: map<string, Value>

    function State(): CacheState
      reads this
    {
      CacheState(config, locale, messages, server, client)
    }

    /** `createCache()`. */
    constructor()
      ensures State() == Fresh
    {
      config := None;
      locale := "";
      messages := map[];
      server := map[];
      client := map[];
    }

    /** `initIntlCache(config)`. */
    method InitIntlCache(c: Config.IntlConfig)
      modifies this
      ensures State() == Init(old(State()), c)
    {
      config, locale := Some(c), c.defaultLocale;
      messages, server, client := map[], map[], map[];
    }

    /** `getIntlCache()`: the fields, once the cache is initialised. */
    method GetIntlCache() returns (r: Result<CacheState>)
      ensures r == Access(State())
    {
      if config.None? {
        return Err(NotInitialized);
      }
      return Ok(State());
    }

    /** `setIntlCache(partial)`. */
    method SetIntlCache(p: Patch) returns (r: Result<()>)
      modifies this
      ensures Set(old(State()), p).Err? ==> r == Err(NotInitialized) && State() == old(State())
      ensures Set(old(State()), p).Ok? ==> r == Ok(()) && State() == Set(old(State()), p).value
    {
      var got := GetIntlCache();
      if got.Err? {
        return Err(got.error);
      }
      if p.config.Some? { config := p.config.value; }
      if p.locale.Some? { locale := p.locale.value; }
      if p.messages.Some? { messages := p.messages.value; }
      if p.server.Some? { server := p.server.value; }
      if p.client.Some? { client := p.client.value; }
      return Ok(());
    }
  }
}
