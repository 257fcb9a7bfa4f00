/**
 * `IntlProvider` (src/client/provider.tsx): builds the client context from
 * the raw, unwrapped namespaces of the current locale.
 */
module Provider {
  import opened Wrappers
  import opened Values
  import opened ObjectPath
  import Text
  import Cache

  /** The context value: the locale, the config's `refProp`, and the namespaces placed at their paths. */
  datatype Context = Context(locale: string, refProp: Option<string>, messages: Value)

  /** `IntlProviderError` is imported but `src/utils/errors.ts` does not declare it. */
  function ProviderNotFound(path: string, locale: string): Error {
    Error(Undeclared("IntlProviderError"), "Namespace \"" + path + "\" not found in locale \"" + locale + "\"")
  }

  /** The loop from `namespaces` on: each namespace must exist and is merged into `acc` at its path. */
  function Fill(messages: Value, locale: string, namespaces: seq<string>, acc: Value): Result<Value>
    decreases |namespaces|
  {
    if namespaces == [] then Ok(acc)
    else
      var path := namespaces[0];
      if Nullish(Dlv(messages, path)) then Err(ProviderNotFound(path, locale))
      else
        var next :- DSetMerge(acc, path, Dlv(messages, path));
        Fill(messages, locale, namespaces[1..], next)
  }

  /**
   * `IntlProvider({ namespaces })`: `None` stands for returning the
   * children without a provider.
   */
  function Provide(s: Cache.CacheState, namespaces: seq<string>): (r: Result<Option<Context>>)
    ensures namespaces == [] ==> r == Ok(None)
    ensures namespaces != [] && !Cache.Initialized(s) ==> r == Err(Cache.NotInitialized)
    ensures r.Ok? && namespaces != [] ==>
      r.value.Some? && r.value.value.locale == s.locale && r.value.value.refProp == s.config.value.refProp
  {
    if namespaces == [] then Ok(None)
    else
      var _ :- Cache.Access(s);
      var messages :=
        Fill(Cache.At(s.messages, s.locale), s.locale, namespaces, Obj([]));
      match messages
      case Err(e) => Err(e)
      case Ok(m) => Ok(Some(Context(s.locale, s.config.value.refProp, m)))
  }

  /** `IntlProvider(props)` reading the request's cache, which it never writes. */
  method IntlProvider(cache: Cache.IntlCache, namespaces: seq<string>) returns (r: Result<Option<Context>>)
    ensures r == Provide(cache.State(), namespaces)
  {
    if |namespaces| == 0 {
      return Ok(None);
    }
    var got := cache.GetIntlCache();
    if got.Err? {
      return Err(got.error);
    }
    var config := cache.config.value;
    var locale := cache.locale;
    var messages := Cache.At(cache.messages, locale);
    var acc := Obj([]);
    var i := 0;
    while i < |namespaces|
      invariant 0 <= i <= |namespaces|
      invariant Fill(messages, locale, namespaces, Obj([])) == Fill(messages, locale, namespaces[i..], acc)
    {
      var path := namespaces[i];
      assert namespaces[i..][1..] == namespaces[i + 1..];
      if Nullish(Dlv(messages, path)) {
        return Err(ProviderNotFound(path, locale));
      }
      var next := DSetMerge(acc, path, Dlv(messages, path));
      if next.Err? {
        return Err(next.error);
      }
      acc := next.value;
      i := i + 1;
    }
    return Ok(Some(Context(locale, config.refProp, acc)));
  }

  /** The first segment of a namespace path. */
  function Top(path: string): string {
    Text.Split(path, '.')[0]
  }

  /** A namespace that is missing from the raw messages makes the provider fail. */
  lemma {:induction false} FillNeedsEveryNamespace(messages: Value, locale: string, namespaces: seq<string>, acc: Value)
    ensures Fill(messages, locale, namespaces, acc).Ok? ==>
      forall i | 0 <= i < |namespaces| :: !Nullish(Dlv(messages, namespaces[i]))
    decreases |namespaces|
  {
    if namespaces != [] && !Nullish(Dlv(messages, namespaces[0])) {
      var next := DSetMerge(acc, namespaces[0], Dlv(messages, namespaces[0]));
      if next.Ok? {
        FillNeedsEveryNamespace(messages, locale, namespaces[1..], next.value);
        assert forall i | 1 <= i < |namespaces| :: namespaces[i] == namespaces[1..][i - 1];
      }
    }
  }

  /** The context holds nothing at the top level but the first segments of the listed namespaces. */
  lemma {:induction false} FillTopKeys(messages: Value, locale: string, namespaces: seq<string>, acc: Value)
    requires acc.Obj?
    requires Fill(messages, locale, namespaces, acc).Ok?
    ensures var m := Fill(messages, locale, namespaces, acc).value;
      && m.Obj?
      && forall k | k in Keys(m.props) :: k in Keys(acc.props) || exists i | 0 <= i < |namespaces| :: k == Top(namespaces[i])
    decreases |namespaces|
  {
    if namespaces != [] {
      var path := namespaces[0];
      var keys := Text.Split(path, '.');
      var next := DSetMerge(acc, path, Dlv(messages, path)).value;
      DSetTopKeys(acc.props, keys, Dlv(messages, path), true);
      FillTopKeys(messages, locale, namespaces[1..], next);
      var m := Fill(messages, locale, namespaces, acc).value;
      forall k | k in Keys(m.props)
        ensures k in Keys(acc.props) || exists i | 0 <= i < |namespaces| :: k == Top(namespaces[i])
      {
        if k !in Keys(next.props) {
          var i :| 0 <= i < |namespaces[1..]| && k == Top(namespaces[1..][i]);
          assert k == Top(namespaces[i + 1]);
        } else if k !in Keys(acc.props) {
          assert k == Top(namespaces[0]);
        }
      }
    }
  }

  /** Namespaces whose paths can be written and whose first segments differ. */
  predicate Separate(namespaces: seq<string>) {
    && (forall i | 0 <= i < |namespaces| :: NoneReserved(Text.Split(namespaces[i], '.')))
    && (forall i, j | 0 <= i < j < |namespaces| :: Top(namespaces[i]) != Top(namespaces[j]))
  }

  /** A walk from a plain object starts at the property named by the first key. */
  lemma DlvFromObject(t: Value, keys: seq<string>)
    requires t.Obj? && keys != []
    ensures DlvKeys(t, keys) == DlvKeys(FindProp(t.props, keys[0]), keys[1..])
  {
  }

  /** `dset` into a plain object only changes the property named by the first key. */
  lemma DSetOthers(ps: seq<Prop>, keys: seq<string>, val: Value, merge: bool, k: string)
    requires keys != [] && k != keys[0] && DSetKeys(Obj(ps), keys, val, merge).Ok?
    ensures var t := DSetKeys(Obj(ps), keys, val, merge).value;
      t.Obj? && FindProp(t.props, k) == FindProp(ps, k)
  {
    if !Reserved(keys[0]) {
      var x;
      if |keys| == 1 {
        assert keys == [keys[0]];
        x := WrittenLast(ps, keys[0], val, merge);
      } else {
        x := WrittenInner(ps, keys, val, merge);
      }
      SetFieldOthers(ps, keys[0], x, k);
    }
  }

  /** The value `dset` stores under a single key. */
  lemma WrittenLast(ps: seq<Prop>, key: string, val: Value, merge: bool) returns (x: Value)
    requires !Reserved(key) && DSetKeys(Obj(ps), [key], val, merge).Ok?
    ensures DSetKeys(Obj(ps), [key], val, merge) == Ok(Obj(SetField(ps, key, x)))
  {
    x := if merge then Merge(FindProp(ps, key), val).value else val;
  }

  /** The value `dset` stores under the first of several keys. */
  lemma WrittenInner(ps: seq<Prop>, keys: seq<string>, val: Value, merge: bool) returns (x: Value)
    requires |keys| > 1 && !Reserved(keys[0]) && DSetKeys(Obj(ps), keys, val, merge).Ok?
    ensures DSetKeys(Obj(ps), keys, val, merge) == Ok(Obj(SetField(ps, keys[0], x)))
  {
    var cur := FindProp(ps, keys[0]);
    var child := if TypeofObject(cur) then cur else if Text.NumberLike(keys[1]) then Arr([]) else Obj([]);
    x := DSetKeys(child, keys[1..], val, merge).value;
  }

  /**
   * Placing one namespace at a fresh first segment: reading its path back
   * gives the raw value.
   */
  lemma PlaceFresh(acc: Value, path: string, val: Value)
    requires acc.Obj? && NoneReserved(Text.Split(path, '.'))
    requires Top(path) !in Keys(acc.props)
    requires DSetMerge(acc, path, val).Ok?
    ensures Dlv(DSetMerge(acc, path, val).value, path) == val
  {
    var keys := Text.Split(path, '.');
    DlvFromObject(acc, keys);
    if |keys| > 1 {
      DlvKeysFromNullish(Undefined, keys[1..]);
    }
    SlotOfMissing(acc, keys);
    DSetThenDlv(acc, keys, val, true);
  }

  /**
   * With separate namespaces, every listed namespace can be read back from
   * the context at its own path, and it is the raw subtree from the
   * messages; the properties the list does not touch stay as they were.
   */
  lemma {:induction false} FillPlaces(messages: Value, locale: string, namespaces: seq<string>, acc: Value)
    requires acc.Obj? && Separate(namespaces)
    requires forall i | 0 <= i < |namespaces| :: Top(namespaces[i]) !in Keys(acc.props)
    requires Fill(messages, locale, namespaces, acc).Ok?
    ensures var m := Fill(messages, locale, namespaces, acc).value;
      && m.Obj?
      && (forall i | 0 <= i < |namespaces| :: Dlv(m, namespaces[i]) == Dlv(messages, namespaces[i]))
      && (forall k | forall i | 0 <= i < |namespaces| :: k != Top(namespaces[i]) :: FindProp(m.props, k) == FindProp(acc.props, k))
    decreases |namespaces|
  {
    if namespaces != [] {
      var path := namespaces[0];
      var keys := Text.Split(path, '.');
      var val := Dlv(messages, path);
      var next := DSetMerge(acc, path, val).value;
      PlaceFresh(acc, path, val);
      DSetTopKeys(acc.props, keys, val, true);
      var rest := namespaces[1..];
      assert Separate(rest) by {
        forall i | 0 <= i < |rest| ensures NoneReserved(Text.Split(rest[i], '.')) {
          assert rest[i] == namespaces[i + 1];
        }
        forall i, j | 0 <= i < j < |rest| ensures Top(rest[i]) != Top(rest[j]) {
          assert rest[i] == namespaces[i + 1] && rest[j] == namespaces[j + 1];
        }
      }
      forall i | 0 <= i < |rest| ensures Top(rest[i]) !in Keys(next.props) {
        assert rest[i] == namespaces[i + 1];
        assert Top(rest[i]) != Top(path);
      }
      FillPlaces(messages, locale, rest, next);
      var m := Fill(messages, locale, namespaces, acc).value;
      assert m == Fill(messages, locale, rest, next).value;
      forall k | forall i | 0 <= i < |namespaces| :: k != Top(namespaces[i])
        ensures FindProp(m.props, k) == FindProp(acc.props, k)
      {
        assert forall i | 0 <= i < |rest| :: k != Top(rest[i]) by {
          forall i | 0 <= i < |rest| ensures k != Top(rest[i]) {
            assert rest[i] == namespaces[i + 1];
          }
        }
        DSetOthers(acc.props, keys, val, true, k);
      }
      assert Dlv(m, path) == val by {
        assert forall i | 0 <= i < |rest| :: Top(path) != Top(rest[i]) by {
          forall i | 0 <= i < |rest| ensures Top(path) != Top(rest[i]) {
            assert rest[i] == namespaces[i + 1];
          }
        }
        DlvFromObject(m, keys);
        DlvFromObject(next, keys);
      }
      forall i | 0 <= i < |namespaces| ensures Dlv(m, namespaces[i]) == Dlv(messages, namespaces[i]) {
        if i > 0 {
          assert namespaces[i] == rest[i - 1];
        }
      }
    }
  }

  /** The provider's context, for separate namespaces, holds each one's raw subtree at its path. */
  lemma ProvidePlaces(s: Cache.CacheState, namespaces: seq<string>)
    requires Separate(namespaces) && namespaces != []
    requires Provide(s, namespaces).Ok?
    ensures var ctx := Provide(s, namespaces).value.value;
      forall i | 0 <= i < |namespaces| ::
        Dlv(ctx.messages, namespaces[i]) == Dlv(Cache.At(s.messages, s.locale), namespaces[i])
  {
    FillPlaces(Cache.At(s.messages, s.locale), s.locale, namespaces, Obj([]));
  }
}
