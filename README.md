# next-i18n translation runtime, modelled in Dafny

This project models the translation runtime of next-i18n, an
internationalisation library for Next.js.

The runtime takes a message tree (JSON-like data, one tree per locale) and
turns it into translate handles:

- **Wrapping** (`wrapMessages`, and its older duplicate `wrap`). A string
  with a `{ name }` placeholder becomes a parameterised function. An
  object carrying the reference property (`$ref` by default) becomes a
  lazily loading component. Arrays and objects are rebuilt, and every other
  value passes through.
- **The per-request cache** (`initIntlCache`, `getIntlCache`,
  `setIntlCache`). It holds the config, the current locale and three
  per-locale partitions: `messages`, `server` and `client`.
- **Loading and serving** (`loadTranslations` and the server
  `getTranslations`). The server side loads a locale's messages once. It
  then serves a namespace from the server partition, or wraps a deep copy
  of the raw namespace and caches it there.
- **Translate handles** (`createTFunction` and the inline `tFunction`s). A
  handle looks up a dotted key and calls what it finds only when that is a
  function without a `displayName`. On the client, `IntlProvider` builds a
  context of raw namespaces and `useTranslations` makes handles over it.
- **Configuration and locale selection** (`createConfig`, `oneOf`,
  `hasLocale`, `withLocale`/`withNamespaces`), plus the legacy
  `createIntl` of `src/server.tsx`.
- **The type-level algebra** (`NamespacePaths`, `Paths`, `TemplateParam`,
  `Interpolate`). These are written as functions over trees and strings.
- **The message compiler** (`src/compiler.ts`). This covers how one locale
  file becomes a namespace (the key path, the extension dispatch, reference
  objects), and when an output file is rewritten.

JavaScript values are one datatype, `Values.Value`. An object is an ordered
list of properties, in enumeration order. `dlv`, `dset`, `dset/merge` and
`klona` are written out as functions in `ObjectPath`. Collaborators are
parameters:

- the locale loader and the ref loader, as the outcome of the call;
- `YAML.parse`/`JSON.parse`;
- `camelCase`/`pascalCase`;
- `Uppercase`/`Lowercase` at the type level;
- file reads and copies.

Where the source updates state in place, the model does too:

- the cache is a class (`Cache.IntlCache`);
- the legacy runtime's state is a class (`Legacy.LegacyIntl`), and so is
  the caller's message tree (`Legacy.MessageTree`);
- the `WithLocale` component is a class (`WithLocale.WithLocaleComponent`);
- the compiler's output directory is a class (`Compiler.Disk`);
- the provider's loop is a `while` loop (`Provider.IntlProvider`).

Each such method is proved equal to a specification function, and the
properties are proved about that function.

## Model

| member | source | states |
|---|---|---|
| Text.Split | src/compiler.ts:103 | `split` on one character always yields at least one part, and no part contains the separator |
| Text.JoinSplit | src/compiler.ts:103 | joining the parts of a split with the separator gives back the original string |
| Text.SplitJoin | src/compiler.ts:103 | splitting a join of separator-free parts gives back exactly those parts |
| Text.TrimStart | src/types/TemplateParam.ts:19 | the result is a suffix of the input, starting with a non-space, and everything dropped is white space |
| Text.TrimEnd | src/types/TemplateParam.ts:19 | the result is a prefix of the input, ending with a non-space, and everything dropped is white space |
| Text.FindFrom | src/compiler.ts:100 | the result is the first occurrence of the pattern at or after the start; none means the pattern occurs nowhere there |
| Text.ReplaceFirst | src/compiler.ts:100 | a string-pattern `replace` replaces only the first occurrence, and leaves the string unchanged when there is none |
| Text.Trim | src/types/TemplateParam.ts:19 | `trim` never lengthens a string, and what it returns neither starts nor ends with white space; what it drops is stated by Text.TrimRemovesSpace |
| Text.TrimRemovesSpace | src/types/TemplateParam.ts:19 | `trim` returns a contiguous piece of its input, and every character before or after that piece is white space, so exactly the leading and trailing white space is removed |
| Text.Join | src/compiler.ts:103 | the join that `split` undoes; Text.JoinSplit and Text.SplitJoin prove the two inverse to each other on separator-free parts |
| Text.IndexNumberLike | src/compiler.ts:129-135 | `dset` makes an array below every canonical array index: its value is a finite number |
| Text.OverflowNotNumberLike | src/compiler.ts:129-135 | a digit string whose value overflows a double (such as 310 nines) is not number-like, since `Infinity * 0` is NaN, so `dset` makes an object for it |
| Text.DigitsNoExponent | src/compiler.ts:129-135 | a digit string is a finite decimal exactly when its value is below the overflow threshold |
| Values.FindProp | src/utils/createTFunction.ts:6 | a property read finds the value of the first property with that key, and `undefined` for an absent key |
| Values.SetField | src/utils/createTFunction.ts:21 | assigning a property makes it read back the assigned value; the key list is kept, or the new key is appended at the end |
| Values.SetFieldOthers | src/utils/createTFunction.ts:21 | assigning one property leaves every other key's value unchanged |
| ObjectPath.DlvKeysAppend | src/utils/createTFunction.ts:6 | walking a dotted path in two pieces is the same as walking it at once |
| ObjectPath.DlvKeysFromNullish | src/utils/createTFunction.ts:6 | once the walk reaches null or undefined, every further key reads `undefined` |
| ObjectPath.SetProp | src/server/getTranslations.tsx:37 | a property write succeeds exactly on an object, or on an array at an index; the written key then reads back the value |
| ObjectPath.Step | src/utils/createTFunction.ts:6 | one step of `dlv`: any falsy value (`undefined`, `null`, `0`, `""`, `false`) yields `undefined`, anything else its own property; ObjectPath.DlvKeysFromNullish states what follows |
| ObjectPath.DlvKeys | src/utils/createTFunction.ts:6 | `dlv` on a split path; ObjectPath.DlvKeysAppend and ObjectPath.DlvKeysFromNullish state how walks compose and where they end |
| ObjectPath.Dlv | src/utils/createTFunction.ts:6 | `dlv(obj, key)`: the key split on `.` and walked; WrapMessages.WrapDlv and NamespacePaths.NamespaceResolves state what it finds |
| ObjectPath.MergeElems | src/client/provider.tsx:33 | merging arrays gives an array as long as the longer of the two |
| ObjectPath.Merge | src/server/getTranslations.tsx:37 | `merge` of `dset/merge`: a non-object on either side yields `b`; otherwise `b` is merged into `a` by index or by key, a reserved key ending the loop; ObjectPath.DSetThenDlv and ObjectPath.SlotOfMissing state its effect at the written path |
| ObjectPath.MergeIndexed | src/server/getTranslations.tsx:37 | an array merged into a plain object keeps every key the object had and adds one key per array index |
| ObjectPath.MergePropsIntoArray | src/server/getTranslations.tsx:37 | an object merged into an array writes each key onto the array in order, through `SetProp`, whose contract says which keys an array takes |
| ObjectPath.DSetKeys | src/compiler.ts:129-135 | `dset` on a split path: it stops at a reserved key, walks into values of type "object", and otherwise creates an array for a number-like next key and an object for any other; ObjectPath.DSetThenDlv is its contract |
| ObjectPath.DSet | src/create-intl/get-translations.tsx:117 | `dset` of the `dset` package on a dotted key; Legacy.TranslationsWriteBack states its effect |
| ObjectPath.DSetMerge | src/server/getTranslations.tsx:37 | `dset` of `dset/merge` on a dotted key; Server.TranslationsServes and Provider.FillPlaces state its effect |
| ObjectPath.DSetThenDlv | src/server/getTranslations.tsx:37 | after a successful `dset`, reading the same path gives the written value; after `dset/merge`, it gives the merge of the value into what was at that slot |
| ObjectPath.DSetKeysOkShape | src/server/getTranslations.tsx:37 | `dset` only succeeds on an object, or on an array when the first key is an index |
| ObjectPath.SlotOfMissing | src/server/getTranslations.tsx:37 | where `dlv` finds nothing, `dset/merge` has nothing to merge into, so it stores the value itself |
| ObjectPath.DSetTopKeys | src/client/provider.tsx:33 | `dset` into an object adds at most the path's first key to its top level |
| ObjectPath.DeepCopy | src/server/getTranslations.tsx:34 | `klona` yields a value structurally equal to its input |
| ParamRegex.MatchAt | src/utils/wrapMessages.tsx:7 | a match of the placeholder pattern spans from `{` to `}` and captures a non-empty name with no white space and no `}` |
| ParamRegex.HasPlaceholder | src/utils/wrapMessages.tsx:7 | the pattern matches somewhere in the string; ParamRegex.TestFromZero shows this is what `test` answers from a reset regex |
| ParamRegex.Names | src/utils/wrapMessages.tsx:7 | the placeholder names in scan order: none exactly when the string has no placeholder, and each name non-empty with no `}` or white space |
| ParamRegex.FindMatch | src/utils/wrapMessages.tsx:7 | the search returns the leftmost match at or after the start position; none means the pattern matches nowhere from there |
| ParamRegex.Test | src/utils/wrapMessages.tsx:10 | `test` succeeds exactly when a match starts at or after `lastIndex`; success moves `lastIndex` past the match, failure resets it to 0 |
| ParamRegex.TestFromZero | src/utils/wrapMessages.tsx:10 | from a reset regex, `test` says exactly whether the string has a placeholder |
| ParamRegex.SubstituteNoPlaceholder | src/utils/wrapMessages.tsx:12 | substitution leaves a string without placeholders unchanged, whatever the parameters |
| ParamRegex.FirstMissing | src/utils/wrapMessages.tsx:13-15 | the index of the first placeholder name that has no parameter: every earlier name has one |
| ParamRegex.ReplaceFromOutcome | src/utils/wrapMessages.tsx:12-18 | a replace scan succeeds exactly when every placeholder from the start on has a parameter; otherwise it fails naming the first one without, and produces no partial string |
| ParamRegex.SubstituteOutcome | src/utils/wrapMessages.tsx:11-19 | calling a parameterised string succeeds exactly when every placeholder has a parameter; otherwise it throws the missing-parameter error naming the first missing name in scan order |
| ParamRegex.ReplaceFrom | src/utils/wrapMessages.tsx:12-18 | the `replace` scan from a position; ParamRegex.ReplaceFromOutcome is its contract |
| ParamRegex.Substitute | src/utils/wrapMessages.tsx:11-19 | calling a parameterised string; ParamRegex.SubstituteOutcome and ParamRegex.SubstituteNoPlaceholder are its contract |
| WrapMessages.WrapString | src/utils/wrapMessages.tsx:9-23 | a string stays itself exactly when it has no placeholder, and otherwise becomes the parameterised function of the same template |
| WrapMessages.IsRef | src/utils/wrapMessages.tsx:25-30 | `refProp in input` for a value of type "object"; WrapMessages.WrapRef and WrapMessages.WrapFailsExactly state what follows from it |
| WrapMessages.WrapRef | src/utils/wrapMessages.tsx:32-58 | with no loader it fails with "Missing ref loader"; with a null ref it fails with a TypeError; otherwise it yields a function whose `displayName` is `ref.path`, and the loader is captured but not called |
| WrapMessages.Wrap | src/utils/wrapMessages.tsx:60-97 | the wrapper with every string tested from `lastIndex` 0; WrapMessages.WrapFailsExactly, WrapMessages.WrapStringCases, WrapMessages.WrapDlv and WrapMessages.WrapIdempotent are its contract |
| WrapMessages.WrapElems | src/utils/wrapMessages.tsx:82-84 | an array is wrapped element by element, keeping its length and order; it fails exactly when some element fails |
| WrapMessages.WrapProps | src/utils/wrapMessages.tsx:86-96 | an object yields exactly its own keys in order, each value wrapped; it fails exactly when some value fails |
| WrapMessages.WrapFailsExactly | src/utils/wrapMessages.tsx:60-97 | wrapping fails exactly at a reference object, reached through plain containers, whose loader is missing or whose reference is null |
| WrapMessages.WrapKeepsNonObjects | src/utils/wrapMessages.tsx:74-76 | null, undefined, booleans, numbers and functions are returned unchanged |
| WrapMessages.WrapStringCases | src/utils/wrapMessages.tsx:9-23 | a string comes back unchanged exactly when it has no placeholder; otherwise it becomes a parameterised function of that template |
| WrapMessages.WrapIdempotent | src/create-intl/get-translations.tsx:68-70 | wrapping an already wrapped tree changes nothing, because functions pass through |
| WrapMessages.WrapKeepsNullish | src/utils/wrapMessages.tsx:74-76 | wrapping keeps null and undefined nullish, and makes nothing else nullish |
| WrapMessages.WrapGet | src/utils/wrapMessages.tsx:93 | reading a key of a wrapped plain container gives the wrapped value of that key |
| WrapMessages.WrapDlv | src/utils/wrapMessages.tsx:82-96 | a dotted lookup in the wrapped tree finds the wrapped result of the same lookup in the raw tree, as long as the walk passes no reference object |
| WrapMessages.AsWrittenDemotes | src/utils/wrapMessages.tsx:7-10 | with the shared `lastIndex`, wrapping fails exactly when the corrected wrapper fails; on success it differs only in some templates left as plain strings |
| WrapMessages.WrapStringAsWritten | src/utils/wrapMessages.tsx:7-23 | as written, a string comes back as itself or as its template function, the latter only when it has a placeholder; from `lastIndex` 0 it agrees with `WrapString` |
| WrapMessages.WrapAsWritten | src/utils/wrapMessages.tsx:60-97 | the wrapper as written, threading the regex's `lastIndex` through the traversal in enumeration order; WrapMessages.AsWrittenDemotes is its contract |
| WrapMessages.AsWrittenMissesSecondTemplate | src/utils/wrapMessages.tsx:7-10 | for `{a: "Hello {name}", b: "Bye {x}"}`, the wrapper as written leaves `b` a raw string, while the corrected one parameterises both |
| TFunction.CallParamFn | src/utils/wrapMessages.tsx:11-19 | calling a parameterised function yields a string; without a params object it fails with a TypeError exactly when there is a placeholder to fill |
| TFunction.CallWithoutPlaceholder | src/utils/wrapMessages.tsx:12 | a template without placeholders is returned unchanged, with or without parameters |
| TFunction.Translate | src/utils/createTFunction.ts:5-19 | a nullish lookup fails naming key and namespace; a non-function, or a function with a `displayName` such as a reference component, is returned as is; only a parameterised function is called, and it yields a string |
| TFunction.Callable | src/utils/createTFunction.ts:14 | a function without a `displayName`; TFunction.Translate and TFunction.TranslateString state when a value is called |
| TFunction.TranslateWrapped | src/server/getTranslations.tsx:40-54 | through a handle over a wrapped namespace, a raw string leaf translates to itself when it has no placeholder, and otherwise to its substitution or the missing-parameter error; an absent key fails |
| TFunction.TranslateString | src/server/getTranslations.tsx:49-53 | a wrapped string leaf is called exactly when it has a placeholder |
| TFunction.AssignOntoFunction | src/utils/createTFunction.ts:21 | `Object.assign` onto a function can only fail with a TypeError |
| TFunction.AssignOntoFunctionFails | src/utils/createTFunction.ts:21 | `Object.assign(tFunction, nsp)` succeeds exactly when no key is `name`, `length`, `arguments` or `caller`, and then exposes what a full copy exposes |
| TFunction.Expose | src/utils/createTFunction.ts:21 | the handle's own keys are exactly the target's keys plus the namespace's enumerable keys |
| TFunction.ExposeValues | src/utils/createTFunction.ts:21 | each exposed property reads back the namespace's value under that key |
| TFunction.ExposeKeeps | src/utils/createTFunction.ts:21 | keys the namespace does not have keep their previous value on the handle |
| TFunction.CreateTFunction | src/utils/createTFunction.ts:4-24 | the handle reads the given namespace and path, and exposes exactly the namespace's enumerable keys |
| TFunction.CreateTFunctionAsWritten | src/utils/createTFunction.ts:4-24 | the handle as written fails, with a TypeError, exactly when the namespace has a `name`, `length`, `arguments` or `caller` key, and otherwise equals the intended handle |
| TFunction.NameKeyBreaksAssign | src/utils/createTFunction.ts:21 | a namespace `{name, email}` makes the handle as written throw a TypeError, where the intended handle exposes `name` |
| Cache.At | src/server/loadTranslations.ts:6 | a partition read is `undefined` for a locale with no entry |
| Cache.Init | src/core/cache.ts:51-59 | `initIntlCache` always leaves the cache initialised |
| Cache.InitForgets | src/core/cache.ts:43-59 | re-initialising never fails, gives the same state whatever was there before, resets the locale to the default, and empties all three partitions |
| Cache.Access | src/core/cache.ts:62-75 | `getIntlCache` succeeds exactly when `config` is set, and then returns the cache unchanged; otherwise it fails with "Not initialized" |
| Cache.Apply | src/core/cache.ts:87 | `Object.assign(cache, partial)`; Cache.SetOnlySupplied and Cache.SetCanUninitialise are its contract |
| Cache.Set | src/core/cache.ts:77-88 | `setIntlCache` fails exactly on an uninitialised cache, with "Not initialized" |
| Cache.SetOnlySupplied | src/core/cache.ts:87 | a patch changes only the fields it supplies |
| Cache.SetCanUninitialise | src/core/cache.ts:87 | a patch whose `config` is `undefined` makes the cache uninitialised again |
| Cache.IntlCache.constructor | src/core/cache.ts:22-29 | a fresh cache object is uninitialised and holds no data |
| Cache.IntlCache.InitIntlCache | src/core/cache.ts:33-60 | the cache object's new fields are exactly those of `Init` |
| Cache.IntlCache.GetIntlCache | src/core/cache.ts:62-75 | the answer is that of `Access` on the object's fields |
| Cache.IntlCache.SetIntlCache | src/core/cache.ts:77-88 | fails without changing the object when uninitialised; otherwise the object's new fields are those of `Set` |
| Config.CreateConfig | src/core/config.ts:32-44 | `createConfig`; Config.CreateConfigFields and Config.CreateConfigFixed are its contract |
| Config.CreateConfigFields | src/core/config.ts:32-44 | `locales`, `defaultLocale` and `loader` are copied; `localeParam`, `refProp` and `refLoader` take their default exactly when the key is absent (or holds the default), and a key set to `undefined` stays `undefined` |
| Config.CreateConfigFixed | src/core/config.ts:39-44 | a config passed back as options is reproduced exactly: defaults never override a present key |
| Config.RunRefLoader | src/core/config.ts:28-30 | the default `refLoader` always throws "No \"refLoader\" provided" |
| Config.WrapOptionsOf | src/server/getTranslations.tsx:34 | what `getTranslations` passes to `wrapMessages`: the config's `refProp` (the key "undefined" when it is unset) and `refLoader`, with the current wrapper's error classes |
| Config.RenderRef | src/utils/wrapMessages.tsx:48-53 | running the component: the default loader throws; a user loader's error propagates; a module object's `default` export is rendered when it has one, the module itself otherwise |
| Config.DefaultRefLoaderFailsLate | src/core/config.ts:42 | without a user `refLoader`, wrapping a reference object succeeds, but the component fails with `IntlRefLoaderError` when it runs |
| Server.Load | src/server/loadTranslations.ts:3-11 | on an initialised cache, the loader is called exactly when the current locale holds nothing truthy; its result is stored as is, for that locale only; a throw stores nothing; nothing else changes |
| Server.LoadOnce | src/server/loadTranslations.ts:6-10 | two calls in a row call the loader at most once, once the first stored a truthy tree |
| Server.LoadRetries | src/server/loadTranslations.ts:10 | a loader that throws leaves the cache as it was, so the next call calls the loader again |
| Server.LoadTranslations | src/server/loadTranslations.ts:3-11 | the result, whether the loader was called, and the cache object's new fields are those of `Load` |
| Server.Translations | src/server/getTranslations.tsx:17-58 | fails on an uninitialised cache, and with "Locale not loaded" when the locale has no messages, in both cases changing nothing; it never writes `messages`, `client` or another locale's server partition; the handle is for the requested path; a hit serves the cached namespace and writes nothing, a miss serves the wrapped copy of the raw namespace |
| Server.TranslationsServes | src/server/getTranslations.tsx:23-37 | after a successful request, the server partition holds at the path exactly the namespace the handle reads (for paths without reserved keys, and no cached `null` there) |
| Server.ServedStringLeaf | src/server/getTranslations.tsx:34-53 | through the handle a miss returns, a raw string leaf translates to itself when it has no placeholder, and otherwise to its substitution or the missing-parameter error |
| Server.HitWritesNothing | src/server/getTranslations.tsx:23-24 | a namespace already in the server partition is served from there, and nothing is wrapped or written |
| Server.MissingNamespace | src/server/getTranslations.tsx:26-32 | a namespace missing from both partitions fails, naming path and locale, and nothing is written |
| Server.TranslationsKeepShape | src/server/getTranslations.tsx:35-37 | every server partition stays a plain object |
| Server.MissThenHit | src/server/getTranslations.tsx:23-37 | after a miss has wrapped and cached a namespace, the same request is a hit that returns the same handle and writes nothing |
| Server.ParentBecomesHit | src/server/getTranslations.tsx:23-37 | after `"k1.k2"` is cached in an empty partition, a request for `"k1"` is a hit that sees only the cached child `k2` |
| Server.DSetPairFresh | src/server/getTranslations.tsx:37 | `dset/merge` of a two-key path into an empty object builds both levels |
| Server.GetTranslations | src/server/getTranslations.tsx:17-58 | the handle and the cache object's new fields are those of `Translations` |
| Provider.Provide | src/client/provider.tsx:7-39 | an empty list yields the children, without reading the cache; otherwise it fails on an uninitialised cache, and the context carries the cache's locale and the config's `refProp` |
| Provider.IntlProvider | src/client/provider.tsx:7-39 | the loop over the namespaces yields what `Provide` specifies, and the cache is only read |
| Provider.Fill | src/client/provider.tsx:24-34 | the provider's loop; Provider.FillNeedsEveryNamespace, Provider.FillTopKeys and Provider.FillPlaces are its contract |
| Provider.FillNeedsEveryNamespace | src/client/provider.tsx:27-31 | the provider succeeds only when every listed namespace exists in the raw messages |
| Provider.FillTopKeys | src/client/provider.tsx:16-34 | the context's top level holds nothing but the first segments of the listed namespaces |
| Provider.DSetOthers | src/client/provider.tsx:33 | `dset` into an object changes only the property named by the path's first key |
| Provider.PlaceFresh | src/client/provider.tsx:33 | a namespace placed under a new first segment reads back as the raw value |
| Provider.FillPlaces | src/client/provider.tsx:24-34 | for namespaces with distinct first segments, each reads back from the context as its raw subtree, and other top-level keys are untouched |
| Provider.ProvidePlaces | src/client/provider.tsx:25-33 | the context holds each listed namespace's raw, unwrapped subtree from `messages[locale]` at its path |
| UseTranslations.Use | src/client/useTranslations.tsx:13-41 | without a context it fails; a missing namespace fails with `IntlClientError`, naming path and context locale with the hint; otherwise it yields the handle over the context subtree for that path |
| UseTranslations.ClientStringsStayRaw | src/client/useTranslations.tsx:38 | a client handle returns a string leaf as it is, placeholders included, whatever the parameters |
| UseTranslations.ProvidedNamespacesResolve | src/client/useTranslations.tsx:28-38 | under a provider, each declared namespace gives a client handle over its raw subtree from the current locale's messages |
| WithLocale.OneOf | src/server/createWithLocale.tsx:31-32 | true exactly when some configured value is strictly equal to the given one |
| WithLocale.RenderSteps | src/server/createWithLocale.tsx:72-98 | null props fail before the cache is touched; null params fail after `initIntlCache` has run |
| WithLocale.RenderSelectsAndLoads | src/server/createWithLocale.tsx:77-97 | the locale is the requested one when it is configured, else the default; the loader is always called because init emptied the messages; the partitions hold only what it loaded; a loader error is returned, else the provider over the namespaces |
| WithLocale.WithLocaleComponent.constructor | src/server/createWithLocale.tsx:101-103 | a new component starts with an empty namespace list |
| WithLocale.WithLocaleComponent.WithNamespaces | src/server/createWithLocale.tsx:105-115 | the arguments are appended to the one shared list, in call order, and the same component is returned |
| WithLocale.WithLocaleComponent.Render | src/server/createWithLocale.tsx:72-98 | the result and the cache object's new fields are those of `RenderSteps` |
| Legacy.Translations | src/create-intl/get-translations.tsx:99-136 | a missing namespace fails with a plain `Error` naming the path; a failure leaves the messages unchanged; a successful handle is for that path and reads the legacy wrapper's result on the raw namespace |
| Legacy.TranslationsWriteBack | src/create-intl/get-translations.tsx:116-117 | the wrapped namespace is written back into the caller's tree at the path |
| Legacy.TranslationsAgain | src/create-intl/get-translations.tsx:110-117 | asking again for the same namespace of the mutated tree reads the same wrapped namespace |
| Legacy.ServedStringLeaf | src/create-intl/get-translations.tsx:116-131 | through the legacy handle, a raw string leaf translates to itself when it has no placeholder, and otherwise to its substitution or a plain `Error` |
| Legacy.MessageTree.constructor | src/create-intl/get-translations.tsx:105 | the holder holds the given tree |
| Legacy.MessageTree.GetTranslations | src/create-intl/get-translations.tsx:99-136 | the handle and the caller's tree after the in-place `dset` are those of `Translations` |
| Legacy.OrDefault | src/server.tsx:32-33 | an option falls back to its default exactly when it is absent, empty or already the default; any other value is kept |
| Legacy.LegacyGet | src/server.tsx:79-95 | a truthy cached subtree is returned as is; otherwise a loader error is passed on, a module the `in` operator rejects is a TypeError, and otherwise the outcome is that of the legacy `getTranslations` on the module's `default` export when it has one and on the module itself when not, its handle wrapped as a `Translator` |
| Legacy.LegacyGetUnwrapsDefault | src/server.tsx:91-94 | a loaded module whose `default` export is the tree gives the same result as the bare tree |
| Legacy.LegacyGetBareModule | src/server.tsx:91-94 | a loaded module object without a `default` export is itself the message tree the handle serves |
| Legacy.LegacyIntl.constructor | src/server.tsx:32-47 | `refProp`/`localeParam` fall back when falsy, and the request state starts as the default locale and empty messages |
| Legacy.LegacyIntl.HasLocale | src/server.tsx:37-38 | true exactly when the input is strictly equal to a configured locale |
| Legacy.LegacyIntl.SetIntlCache | src/server.tsx:53-57 | each supplied field replaces the state's field, and the others keep their value |
| Legacy.LegacyIntl.SelectedLocale | src/server.tsx:63-66 | the selected locale is a configured one or the default; a valid requested locale is selected |
| Legacy.LegacyIntl.WithLocale | src/server.tsx:62-71 | missing params fail with a TypeError; otherwise the locale is always written, the valid parameter or else the default, and the messages are untouched |
| Legacy.LegacyIntl.GetTranslations | src/server.tsx:79-95 | the result is that of `LegacyGet` on the request's messages, which it never writes |
| TemplateParam.IsLetter | src/types/TemplateParam.ts:3-7 | a character that case mapping changes; TemplateParam.AsciiLetters states which characters those are under ASCII |
| TemplateParam.ParamGuard | src/types/TemplateParam.ts:9-16 | a name passes exactly when every character is a letter, so the empty name passes |
| TemplateParam.IndexOf | src/types/TemplateParam.ts:20 | finds the first index at or after the start that holds the character |
| TemplateParam.FirstBraces | src/types/TemplateParam.ts:20 | the template splits at its first `{` and the first `}` after it; there is no split exactly when no `{` precedes a `}` |
| TemplateParam.Params | src/types/TemplateParam.ts:18-24 | the evidently intended reading, with the guard applied to each name on its own; a template without braces yields no parameters |
| TemplateParam.TrimIdempotent | src/types/TemplateParam.ts:19 | trimming twice is trimming once |
| TemplateParam.ParamsFlat | src/types/TemplateParam.ts:18-24 | under the per-name guard, the nested recursion of the type equals one pass over the braces: each `{…}` contributes its trimmed text when that passes the guard |
| TemplateParam.LastGuarded | src/types/TemplateParam.ts:9-16 | the index of a `{…}` text whose trimmed form passes the guard, or -1; TemplateParam.LastGuardedIsLast shows no later text passes |
| TemplateParam.LastGuardedIsLast | src/types/TemplateParam.ts:9-16 | no `{…}` text after the one `LastGuarded` picks passes the guard |
| TemplateParam.ParamsAsWrittenFlat | src/types/TemplateParam.ts:9-24 | the type as TypeScript evaluates it, where `ParamGuard`'s last branch answers the whole union `T`, demands every trimmed `{…}` text up to and including the last one made of letters only, and nothing when none is |
| TemplateParam.ParamsWithinAsWritten | src/types/TemplateParam.ts:9-24 | every name the per-name guard keeps, the type as written demands too |
| TemplateParam.AsWrittenAgrees | src/types/TemplateParam.ts:9-24 | when every `{…}` text passes the guard, the type as written and the per-name reading demand the same names |
| TemplateParam.AsWrittenKeepsEarlier | src/types/TemplateParam.ts:9-16 | in `"{p} {q}"` with `q` letters only and `p` not, the type as written demands `p` and the per-name reading does not |
| TemplateParam.AsWrittenKeepsNonLetter | src/types/TemplateParam.ts:9-16 | under ASCII, `"{first_name} {x}"` demands `first_name` as written, and not under the per-name guard |
| TemplateParam.NoBraceNoParams | src/types/TemplateParam.ts:20-22 | a template without `{` yields no parameters |
| TemplateParam.ScanPieces | src/types/TemplateParam.ts:20-21 | each `{…}` is read up to the first `}` after it, and the scan resumes after that `}` |
| TemplateParam.Scan | src/types/TemplateParam.ts:18-24 | the text of each `{…}`, in order; TemplateParam.ScanPieces and TemplateParam.ParamsFlat are its contract |
| TemplateParam.ParamsMap | src/types/TemplateParam.ts:26 | a record with a value for every name; TemplateParam.ParamsMapSuffices is its contract |
| TemplateParam.ParamsMapSuffices | src/types/TemplateParam.ts:26 | when the type's names cover the runtime's placeholder names, parameters typed `ParamsMap<TemplateParam<T>>` make the runtime substitution succeed |
| TemplateParam.ParamsMapSufficesAsWritten | src/types/TemplateParam.ts:18-26 | the same for the type as written: when its names cover the runtime's placeholder names, parameters with a value for each of them make the substitution succeed |
| TemplateParam.AsciiLetters | src/types/TemplateParam.ts:3-7 | under ASCII case mapping, the letters are exactly `a`–`z` and `A`–`Z`, so digits, `_` and spaces are not letters |
| Interpolate.Interpolate | src/types/Interpolate.ts:1-8 | a string without `{…}` is returned unchanged |
| Interpolate.InterpolateDefined | src/types/Interpolate.ts:4-7 | a result exists exactly when every key, read verbatim, has a value |
| Interpolate.InterpolateSelf | src/types/Interpolate.ts:4-6 | giving each key its own `{Key}` back reproduces the template, so the text around placeholders is copied verbatim |
| Interpolate.KeysVerbatim | src/types/Interpolate.ts:5 | keys are not trimmed: `{ name }` with a value only for `name` yields no result |
| NamespacePaths.Banned | src/types/NamespacePaths.ts:12-20 | null, undefined, primitives, functions, arrays and reference objects are not namespaces; NamespacePaths.PathsSound states that no produced path ends at one |
| NamespacePaths.Concat | src/types/NamespacePaths.ts:30-32 | joins a prefix and a key with `.`, the empty prefix contributing nothing; NamespacePaths.ConcatPathOf is its contract |
| NamespacePaths.PathsInner | src/types/NamespacePaths.ts:41-51 | the namespace paths below a prefix; NamespacePaths.PathsSound and NamespacePaths.PathsComplete are its contract |
| NamespacePaths.PropPaths | src/types/NamespacePaths.ts:47-50 | the union over an object's keys of each non-banned value's path and the paths below it |
| NamespacePaths.NamespacePaths | src/types/NamespacePaths.ts:53 | the paths from the root; NamespacePaths.NamespacePathsExactly is its contract |
| NamespacePaths.ConcatPathOf | src/types/NamespacePaths.ts:30-32 | `Concat` extends a dotted path by one key, and drops the separator after the empty root |
| NamespacePaths.AlongEnd | src/types/NamespacePaths.ts:48 | `dlv` at the end of a walk through namespace objects finds a namespace object |
| NamespacePaths.PathsSound | src/types/NamespacePaths.ts:41-51 | every produced path spells non-empty keys along which the tree holds namespace objects, neither arrays nor references nor primitives |
| NamespacePaths.PathsComplete | src/types/NamespacePaths.ts:37-51 | every key sequence along namespace objects is produced |
| NamespacePaths.NamespacePathsExactly | src/types/NamespacePaths.ts:53 | for a JSON-shaped tree, a string is a namespace path exactly when its segments are keys leading, prefix by prefix, through namespace objects |
| NamespacePaths.NamespaceResolves | src/types/NamespacePaths.ts:45-50 | at every namespace path, `dlv` finds a plain object that is not a reference object |
| NamespacePaths.PrefixClosed | src/types/NamespacePaths.ts:37-39 | the paths are prefix-closed: with `a.b` comes `a` |
| NamespacePaths.NonEmptyBelow | src/types/NamespacePaths.ts:30-32 | below a non-empty prefix, no produced path is empty |
| NamespacePaths.RootPath | src/types/NamespacePaths.ts:53 | the root path `""` is produced only by a top-level key `""` holding a namespace object |
| Paths.Paths | src/types/Paths.ts:27-36 | a primitive yields exactly the current path, an empty object yields nothing, and an array yields its number slot |
| Paths.ElemPaths | src/types/Paths.ts:29-32 | an array's paths: the `${number}` slot and the paths below each element |
| Paths.KeyPaths | src/types/Paths.ts:34-36 | an object's paths: each key and the paths below its value; Paths.PathsExactly is their contract |
| Paths.NamespacesArePaths | src/types/Paths.ts:27-36 | every namespace path is also a translation-key path |
| Paths.PathsSound | src/types/Paths.ts:33-36 | every key path of an array-free object spells a chain of present keys |
| Paths.PathsComplete | src/types/Paths.ts:33-36 | every chain of present keys is a key path |
| Paths.PathsExactly | src/types/Paths.ts:27-36 | for a JSON-shaped, array-free object, a string is a key path exactly when its segments are keys, each present in the object the segments before it reach |
| Compiler.IsRef | src/compiler.ts:86-90 | only a plain object or array can be a reference; a plain object is one exactly when it has the ref key |
| Compiler.LastIndex | src/compiler.ts:98 | the result is the last position holding the character; none means it does not occur |
| Compiler.Basename | src/compiler.ts:98 | the base name is a suffix of the path with no `/` in it |
| Compiler.Extname | src/compiler.ts:98 | `extname`; Compiler.ExtnameShape and Compiler.ExtnameOf are its contract |
| Compiler.Relative | src/compiler.ts:99-101 | `file.replace(root, "").slice(1)`; Compiler.RelativeOf states it for a file below the root |
| Compiler.StemAsWritten | src/compiler.ts:99-102 | the stem as written; Compiler.ExtensionInDirectory and Compiler.StemAgrees state where it differs from the intended stem |
| Compiler.Stem | src/compiler.ts:99-102 | the intended stem; Compiler.StemOf is its contract |
| Compiler.ExtnameShape | src/compiler.ts:98 | the extension is empty, or a suffix of the path that starts with its only `.` |
| Compiler.ExtnameOf | src/compiler.ts:98 | a file name with a non-empty stem and a dotted extension has that extension |
| Compiler.DropIndex | src/compiler.ts:104 | the filter removes every `_index` segment and keeps every other segment, with its multiplicity |
| Compiler.DropIndexAppend | src/compiler.ts:104 | the filter keeps the order of the segments it keeps |
| Compiler.DropSuffix | src/compiler.ts:102 | removing a suffix the string has leaves what precedes it; a string without the suffix is unchanged |
| Compiler.StemAgrees | src/compiler.ts:102 | where the extension occurs only at the end of the relative path, the stem as written equals the intended stem |
| Compiler.ExtensionInDirectory | src/compiler.ts:102 | for `d.x/n.x` below the root, the stem as written is `d/n.x` while the intended stem is `d.x/n` |
| Compiler.KeyPath | src/compiler.ts:99-105 | there is one camel-cased key per kept segment |
| Compiler.StemOf | src/compiler.ts:99-102 | below the root, the stem is the relative path without the file's extension |
| Compiler.KeyPathOf | src/compiler.ts:99-105 | a file below the root gets as key path its stem's segments, with `_index` dropped, each through `camelCase` |
| Compiler.RefKeyPath | src/compiler.ts:131 | only the last segment is PascalCased; the others are kept |
| Compiler.LoadFile | src/compiler.ts:44-79 | a Markdown file becomes a reference object whose path has the first root replaced by the locale; other files are read first, and a read error propagates; YAML and JSON go to their parsers; any other extension throws "Unknown file extension" |
| Compiler.MarkdownUnread | src/compiler.ts:50-57 | a Markdown file's result does not depend on the file system or the parsers |
| Compiler.ProcessFile | src/compiler.ts:92-146 | a namespace produced for a file records that file |
| Compiler.ProcessLoaded | src/compiler.ts:107-136 | once the file has loaded, `processFile` is the store step on the key path |
| Compiler.DSetFresh | src/compiler.ts:135 | `dset` into a fresh object succeeds along keys with no reserved name, where every number-like inner key is an index |
| Compiler.PlainPlaced | src/compiler.ts:134-136 | a file that is not a reference is stored at its key path |
| Compiler.RefPlaced | src/compiler.ts:111-133 | a reference with a string path, once copied, is stored at its key path with the last segment PascalCased |
| Compiler.MarkdownPlaced | src/compiler.ts:50-57 | a Markdown file, whatever the file system holds, is stored under its PascalCased key path as a reference to the same file below the locale |
| Compiler.Store | src/compiler.ts:111-136 | a namespace stored from a loaded file records that file; Compiler.PlainPlaced, Compiler.RefPlaced and Compiler.StoredAt state where the content goes |
| Compiler.StoredAt | src/compiler.ts:129-135 | the store step writes the content where the keys say, into an empty namespace |
| Compiler.MissingRefRefused | src/compiler.ts:114-116 | a reference whose value is null or undefined fails with "Missing ref", naming the key and the file |
| Compiler.EmptyPathDropped | src/compiler.ts:135 | a file whose key path is empty contributes an empty namespace |
| Compiler.RootIndexEmpty | src/compiler.ts:104 | the `_index` file directly under the root has an empty key path, whatever its extension |
| Compiler.WriteOutcome | src/compiler.ts:187-205 | nothing is written exactly when the file already holds the content, or is missing and the content is empty; a read error other than ENOENT is thrown; otherwise the write happens, or fails with the error of `mkdir`/`writeFile` |
| Compiler.WriteSettles | src/compiler.ts:197-202 | after a successful write, the file reads back the content, and writing it again changes nothing, whatever `mkdir`/`writeFile` would do |
| Compiler.Disk.constructor | src/compiler.ts:187 | the disk holds the given entries |
| Compiler.Disk.WriteChangedFile | src/compiler.ts:187-205 | the outcome is that of `WriteOutcome`, and the file changes only when it reports a successful write |

## Left out

- React: rendering, JSX, the context plumbing (`createContext`/`useContext`) and `React.cache` memoisation are not modelled. One cache object stands for one request.
- `await` and concurrency are not modelled. Loaders are called at sequential steps, and their outcome is a parameter: `loaded`, `userModule`, `read`. Interleaved `loadTranslations` calls are not modelled.
- The browser probe `typeof window !== "undefined"` in `wrapRef` is left out: the model assumes the server.
- Running the `IntlRef` component is `Config.RenderRef`. Its JSX result is the component value itself.
- The third-party libraries are written out as functions, not taken from the packages: `dlv`, `dset`, `dset/merge`, `klona`.
- `camelCase`/`pascalCase`, `YAML.parse`/`JSON.parse` and the type-level `Uppercase`/`Lowercase` are function parameters.
- `merge.recursive`, `sortKeys`, prettier, `glob`, `stat`, logging and timing are not modelled. Neither are `loadMessages`, `compileLocale`, `listLocales`, `createCompiler` and `main`, which orchestrate the compiler.
- `mkdir`, `existsSync` and `copyFile` for a referenced Markdown file are folded into one parameter, the copy's error.
- Numbers are integers: NaN, floating point and `-0` do not arise.
- Prototypes: inherited properties (`toString`, `__proto__`, …) are not modelled, and reads see own properties only. A params object is a map of own strings, so a parameter named like an `Object.prototype` member is not modelled.
- Integer-like keys are enumerated in insertion order, not in ascending order as JavaScript does.
- ObjectPath.SetProp: a named (non-index) property on an array or a function gives an `Unmodelled` error, because `Values.Value` has no array carrying named keys. The runtime does write such properties. `dset` creates a fresh array for any next key that `+key` reads as a number, and that key need not be a canonical index: `"01"`, `"1e3"`, `""` and `" "` all qualify. The compiler reaches this with `<root>/blog/2024/01.json` (key path `[blog, 2024, 01]`), and the server with `getTranslations("months.01")` on a missing namespace. There the runtime succeeds and the model reports `Unmodelled`. `Text.NumberLike` requires the key's value to be a finite double, compared exactly against 2^1024 - 2^970. For a literal with more than 20 significant digits at that very boundary, ECMAScript lets an engine round at the 20th digit first, which the model does not.
- ObjectPath.MergePropsIntoArray: an object merged into an array writes its keys onto the array; any key that is not a canonical index gives `Unmodelled`, as for `SetProp`.
- ObjectPath.DSetKeys: when `dset` fails halfway, the objects it already created are not kept: a failure leaves the input unchanged.
- Legacy.Translations: the loaded module object itself is not mutated. The tree the legacy `getTranslations` mutates is modelled as the `Legacy.MessageTree` holder, which is a fresh copy.
- Types do not constrain runtime values. `IntlParams`, the `NamespacePaths` argument types and `InferTranslate` are not enforced. Where the runtime reads a value the types promise, the model handles every value.
- InferTranslate.ts, TranslateFn.ts, TranslateProxy.ts, Ref.ts, shared.ts, CreateIntl.ts, IntlCache.ts and create-intl.ts are type-only or wiring, and are not part of this model. Error classes are the `Values.ErrorClass` datatype.
- `IntlProviderError` and `IntlContextError` are imported but are not declared in `src/utils/errors.ts`. They are modelled as `Undeclared(name)` classes: the runtime would in fact throw a different error at that point.
- TemplateParam.Params: type-fest `Trim` is modelled as JavaScript `trim` white space.
- TemplateParam.ParamsMapSuffices: stated for the per-name reading of the type, which the rest of the model uses; `TemplateParam.ParamsMapSufficesAsWritten` states it for the type as written.
- Paths.Paths: `Date`, `RegExp` and `symbol` are not values of this model. A function is the only non-JSON primitive.
- Paths.PathsExactly: stated only for array-free trees. Arrays contribute the `${number}` slot, whose paths are not key sequences of the tree.
- Paths.PathsSound: stated only for array-free trees, for the same reason.
- NamespacePaths.NamespacePathsExactly: stated for trees whose keys are distinct, non-empty and free of `.`, as JSON files produce. A key with a `.` in it cannot be told apart from a path.
- Provider.ProvidePlaces: proved only for namespaces whose first segments differ. Overlapping namespaces are merged by `dset/merge`, and what a later namespace does to an earlier one is not stated.
- Compiler.Extname: trailing `/` are not stripped. The compiler only passes file names found by `glob`, which have none.
- Compiler.ProcessFile: a file whose key path is empty (an `_index` file directly under the root) contributes nothing. That is what the code does (`Compiler.EmptyPathDropped`), and it is left as is.
- Server.Translations: the handle is built by `TFunction.CreateTFunction` and the namespace by `WrapMessages.Wrap`, the corrected halves of the first two findings. A namespace with a `name`, `length`, `arguments` or `caller` key makes the runtime throw after it has already written the wrapped namespace to the server partition; the model returns the handle. `TFunction.CreateTFunctionAsWritten` states exactly when that throw happens. Strings are tested from `lastIndex` 0; `WrapMessages.AsWrittenDemotes` states what the shared regex changes.
- Legacy.Translations: uses the corrected handle and the corrected wrapper, as `Server.Translations` does. With a `name`, `length`, `arguments` or `caller` key the runtime throws after the `dset` write-back; the model returns the handle.
- UseTranslations.Use: builds its handle with the corrected `TFunction.CreateTFunction`, so a namespace with a `name`, `length`, `arguments` or `caller` key yields a handle where the runtime throws a TypeError.
- UseTranslations.ProvidedNamespacesResolve: promises a handle for every provided namespace. The runtime throws instead when that namespace has a `name`, `length`, `arguments` or `caller` key (see `TFunction.CreateTFunctionAsWritten`).
- Compiler.KeyPath: uses the corrected `Compiler.Stem`, which removes the file's own extension. The code as written removes its first occurrence in the relative path, and `Compiler.StemAgrees` states when the two agree.
- Compiler.ProcessFile: places the namespace at the corrected key path of `Compiler.KeyPath`, with the same gap.
- Compiler.WriteOutcome: a failing `mkdir` or `writeFile` is a parameter, and the file is assumed to be left as it was. A partly written file and a directory created by a `mkdir` that succeeded before `writeFile` failed are not modelled.
- Compiler.Disk.WriteChangedFile: the same assumption about a failed write.
- ParamRegex.Test: `lastIndex` counts Unicode scalar values, where JavaScript counts UTF-16 code units. After a match in a template with a character outside the Basic Multilingual Plane before it, such as `"😀 {a}"`, the model's `lastIndex` is one lower than the runtime's, so a later string can be tested from a different position.
- WrapMessages.WrapAsWritten: threads the same `lastIndex` as `ParamRegex.Test`, with the same difference for characters outside the Basic Multilingual Plane.
- Server.Translations: the handle holds the namespace as a value. In the runtime, `dset/merge` stores the wrapped namespace object itself in the server partition (`merge(undefined, nsp)` returns `nsp`), and the handle reads that live object on every call. A later miss on a path below it merges into the same object, and handles returned earlier then see the new keys. The model's earlier handle does not: after a miss on `k1.k2`, a hit on `k1` and then a miss on `k1.k3`, the handle from the hit on `k1` finds `k3.u` in the runtime, where the model's reports it not found.
- Legacy.Translations: likewise, plain `dset` stores the wrapped namespace object itself in the caller's tree, so a later call on a path below it changes what earlier handles read. The model's handles keep the namespace they were built with.
- Server.TranslationsServes: stated for paths without reserved keys and for a server partition that does not hold `null` at the path. There `dset/merge` merges into the `null`, which fails for a non-empty namespace and keeps the `null` for an empty one.

## Findings

| source | as written | input that shows it | evidently intended | confidence | as-written member | corrected member |
|---|---|---|---|---|---|---|
| src/utils/wrapMessages.tsx:7-10 | `paramRegex` is one module-level `/g` regex. `test` starts at its `lastIndex` and moves it past each match, so a later string is tested from where an earlier match ended | `{a: "Hello {name}", b: "Bye {x}"}`: after `a` matches, `lastIndex` is 12, past the end of `b`, so `b` stays a raw string | every string tested from index 0, so every string with a placeholder becomes a parameterised function | not executed; high | WrapMessages.AsWrittenMissesSecondTemplate | WrapMessages.WrapStringCases |
| src/utils/createTFunction.ts:21 | `Object.assign(tFunction, nsp)` copies the namespace onto a function; `name` and `length` are read-only and `arguments`/`caller` throw on assignment | namespace `{name: "Name", email: "Email"}`: the assignment throws a TypeError (also src/server/getTranslations.tsx:56 and src/create-intl/get-translations.tsx:133) | the handle exposes every key of the namespace | not executed; high | TFunction.NameKeyBreaksAssign | TFunction.CreateTFunction |
| src/compiler.ts:102 | `.replace(ext, "")` removes the first occurrence of the extension in the relative path | `<root>/d.x/n.x`: the stem becomes `d/n.x` and the key path is `[d, n.x]` camel-cased | the file's own extension is removed: stem `d.x/n` | not executed; medium | Compiler.ExtensionInDirectory | Compiler.KeyPathOf |
| src/types/TemplateParam.ts:9-16 | `ParamGuard<T, U = T>` distributes over the union through `U`, but its last branch returns `T`, the whole union, so one name made of letters keeps every name of the union | `"{first_name} {x}"`: `x` passes, so the type is the union of `"first_name"` and `"x"`, and demands `first_name`, whose `_` is not a letter | each name kept on its own when it is made of letters only: `"x"` | not executed; high | TemplateParam.AsWrittenKeepsNonLetter | TemplateParam.ParamsFlat |
