/**
 * `useTranslations` (src/client/useTranslations.tsx): the client-side
 * handle over a namespace of the provider's context.
 */
module UseTranslations {
  import opened Wrappers
  import opened Values
  import opened ObjectPath
  import Cache
  import Provider
  import TFunction

  const NamespaceHint := "Maybe you forgot to declare namespaces using `withLocale().withNamespaces(...)`?"

  function WithHint(message: string): string {
    message + "\n" + NamespaceHint
  }

  /** `IntlContextError` is imported but `src/utils/errors.ts` does not declare it. */
  const NoContext := Error(Undeclared("IntlContextError"), WithHint("`useTranslations` must be used within `<IntlProvider />`"))

  function NamespaceNotFound(path: string, locale: string): Error {
    Error(IntlClientError, WithHint("Namespace \"" + path + "\" not found in locale \"" + locale + "\""))
  }

  /** `useTranslations(path)` with the context the nearest provider supplies (`None` outside any provider). */
  function Use(context: Option<Provider.Context>, path: string): (r: Result<TFunction.Handle>)
    ensures context.None? ==> r == Err(NoContext)
    ensures context.Some? && Nullish(Dlv(context.value.messages, path)) ==>
      r == Err(NamespaceNotFound(path, context.value.locale))
    ensures context.Some? && !Nullish(Dlv(context.value.messages, path)) ==>
      r == Ok(TFunction.CreateTFunction(Dlv(context.value.messages, path), path, IntlClientError))
  {
    match context
    case None => Err(NoContext)
    case Some(ctx) =>
      var nsp := Dlv(ctx.messages, path);
      if Nullish(nsp) then Err(NamespaceNotFound(path, ctx.locale))
      else Ok(TFunction.CreateTFunction(nsp, path, IntlClientError))
  }

  /**
   * The context holds raw messages, so a client handle returns a string
   * as it is, placeholders included, and never substitutes parameters.
   */
  lemma ClientStringsStayRaw(context: Option<Provider.Context>, path: string, key: string, params: Option<map<string, string>>)
    requires Use(context, path).Ok?
    requires Dlv(Use(context, path).value.nsp, key).Str?
    ensures TFunction.Translate(Use(context, path).value, key, params) == Ok(Dlv(Use(context, path).value.nsp, key))
  {
  }

  /**
   * Under a provider for separate namespaces, each of them gives a client
   * handle over its raw subtree from the current locale's messages.
   */
  lemma ProvidedNamespacesResolve(s: Cache.CacheState, namespaces: seq<string>, i: nat)
    requires Provider.Separate(namespaces) && i < |namespaces|
    requires Provider.Provide(s, namespaces).Ok?
    ensures var raw := Dlv(Cache.At(s.messages, s.locale), namespaces[i]);
      Use(Provider.Provide(s, namespaces).value, namespaces[i])
      == Ok(TFunction.CreateTFunction(raw, namespaces[i], IntlClientError))
  {
    Provider.ProvidePlaces(s, namespaces);
    Provider.FillNeedsEveryNamespace(Cache.At(s.messages, s.locale), s.locale, namespaces, Obj([]));
  }
}
