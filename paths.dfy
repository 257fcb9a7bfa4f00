/**
 * `Paths<T>` of src/types/Paths.ts, the type of the translation keys a
 * namespace accepts, written as a function of a message tree: every
 * dotted path to a value, leaves and intermediate objects alike, with the
 * placeholder `${number}` standing for any array index.
 */
module Paths {
  import opened Values
  import Text
  import ObjectPath
  import NamespacePaths

  /** The key `Concat<Path, `${number}`>` puts in place of an array index. */
  const NumberSlot := "${number}"

  /**
   * `Paths<T, Path>`: a primitive (function included) yields the path
   * itself, an array its number slot and its elements' paths beneath it, an
   * object each key's path and that value's paths beneath it.
   */
  function Paths(v: Value, path: string): (r: set<string>)
    ensures !(v.Arr? || v.Obj?) ==> r == {path}
    ensures v == Obj([]) ==> r == {}
    ensures v.Arr? ==> NamespacePaths.Concat(path, NumberSlot) in r
  {
    match v
    case Arr(es) =>
      var slot := NamespacePaths.Concat(path, NumberSlot);
      {slot} + ElemPaths(es, slot)
    case Obj(ps) => KeyPaths(ps, path)
    case _ => {path}
  }

  /** The paths of every element, all under the same number slot. */
  function ElemPaths(es: seq<Value>, path: string): set<string> {
    if es == [] then {} else Paths(es[0], path) + ElemPaths(es[1..], path)
  }

  /** For each key, its path and the paths of its value beneath it. */
  function KeyPaths(ps: seq<Prop>, path: string): set<string> {
    if ps == [] then {}
    else
      var here := NamespacePaths.Concat(path, ps[0].key);
      {here} + Paths(ps[0].val, here) + KeyPaths(ps[1..], path)
  }

  lemma {:induction false} InKeyPaths(ps: seq<Prop>, path: string, i: nat, p: string)
    requires i < |ps|
    requires var here := NamespacePaths.Concat(path, ps[i].key); p == here || p in Paths(ps[i].val, here)
    ensures p in KeyPaths(ps, path)
    decreases i
  {
    if i > 0 {
      assert ps[1..][i - 1] == ps[i];
      InKeyPaths(ps[1..], path, i - 1, p);
    }
  }

  lemma {:induction false} FromKeyPaths(ps: seq<Prop>, path: string, p: string) returns (i: nat)
    requires p in KeyPaths(ps, path)
    ensures i < |ps|
    ensures var here := NamespacePaths.Concat(path, ps[i].key); p == here || p in Paths(ps[i].val, here)
    decreases |ps|
  {
    var here := NamespacePaths.Concat(path, ps[0].key);
    if p == here || p in Paths(ps[0].val, here) {
      i := 0;
    } else {
      var j := FromKeyPaths(ps[1..], path, p);
      i := j + 1;
    }
  }

  /** Every namespace path is also a translation key path: `NamespacePaths<T>` lies within `Paths<T>`. */
  lemma {:induction false} NamespacesArePaths(v: Value, refProp: string, path: string)
    ensures NamespacePaths.PathsInner(v, refProp, path) <= Paths(v, path)
    decreases v
  {
    forall p | p in NamespacePaths.PathsInner(v, refProp, path) ensures p in Paths(v, path) {
      var i := NamespacePaths.FromProperty(v, refProp, path, p);
      var pr := v.props[i];
      var here := NamespacePaths.Concat(path, pr.key);
      if p != here {
        NamespacesArePaths(pr.val, refProp, here);
      }
      InKeyPaths(v.props, path, i, p);
    }
  }

  /** A tree without arrays anywhere. */
  predicate ArrayFree(v: Value) {
    match v
    case Arr(_) => false
    case Obj(ps) => forall i | 0 <= i < |ps| :: ArrayFree(ps[i].val)
    case _ => true
  }

  /** Every key of `ks` names a property of the object reached by the keys before it. */
  predicate Present(v: Value, ks: seq<string>)
    decreases |ks|
  {
    ks == [] || (v.Obj? && ks[0] in Keys(v.props) && Present(ObjectPath.Step(v, ks[0]), ks[1..]))
  }

  lemma ArrayFreeProperty(v: Value, i: nat)
    requires v.Obj? && ArrayFree(v) && i < |v.props|
    ensures ArrayFree(v.props[i].val)
    ensures !v.props[i].val.Obj? ==> Paths(v.props[i].val, "") == {""}
  {
  }

  /** Extending a chain of present keys by a property of the object it starts from. */
  lemma PresentThrough(v: Value, i: nat, rest: seq<string>)
    requires v.Obj? && NamespacePaths.Plain(v) && i < |v.props|
    requires NamespacePaths.KeysOk(rest) && Present(v.props[i].val, rest)
    ensures var ks := [v.props[i].key] + rest; NamespacePaths.KeysOk(ks) && Present(v, ks)
  {
    var k := v.props[i].key;
    NamespacePaths.PlainStep(v, i);
    assert Keys(v.props)[i] == k;
    NamespacePaths.KeysOkCons(k, rest);
    assert ([k] + rest)[1..] == rest;
  }

  /** Every path of an array-free plain object spells a chain of present keys. */
  lemma {:induction false} PathsSound(v: Value, pre: seq<string>, p: string) returns (ks: seq<string>)
    requires v.Obj? && NamespacePaths.Plain(v) && ArrayFree(v)
    requires pre == [] || pre[0] != ""
    requires p in Paths(v, NamespacePaths.PathOf(pre))
    ensures ks != [] && NamespacePaths.KeysOk(ks) && p == NamespacePaths.PathOf(pre + ks) && Present(v, ks)
    decreases v
  {
    var path := NamespacePaths.PathOf(pre);
    var i := FromKeyPaths(v.props, path, p);
    var k, val := v.props[i].key, v.props[i].val;
    NamespacePaths.PlainStep(v, i);
    NamespacePaths.ConcatPathOf(pre, k);
    ArrayFreeProperty(v, i);
    var rest: seq<string> := [];
    if val.Obj? && p != NamespacePaths.Concat(path, k) {
      rest := PathsSound(val, pre + [k], p);
    }
    ks := [k] + rest;
    PresentThrough(v, i, rest);
    NamespacePaths.Spelling(pre, k, rest, p);
  }

  /** The property a present key names. */
  lemma PresentProperty(v: Value, k: string) returns (i: nat)
    requires v.Obj? && k in Keys(v.props)
    ensures i < |v.props| && v.props[i].key == k && v.props[i].val == ObjectPath.Step(v, k)
  {
    i :| 0 <= i < |v.props| && v.props[i].key == k && FindProp(v.props, k) == v.props[i].val;
  }

  /** A path under property `i` is a path of the object. */
  lemma CompleteStep(v: Value, pre: seq<string>, i: nat, ks: seq<string>)
    requires v.Obj? && i < |v.props| && ks != [] && v.props[i].key == ks[0] && ks[0] != ""
    requires pre == [] || pre[0] != ""
    requires ks[1..] != [] ==> NamespacePaths.PathOf(pre + ks) in Paths(v.props[i].val, NamespacePaths.PathOf(pre + [ks[0]]))
    ensures NamespacePaths.PathOf(pre + ks) in Paths(v, NamespacePaths.PathOf(pre))
  {
    var k := ks[0];
    NamespacePaths.ConcatPathOf(pre, k);
    if ks[1..] == [] {
      assert ks == [k];
    }
    InKeyPaths(v.props, NamespacePaths.PathOf(pre), i, NamespacePaths.PathOf(pre + ks));
  }

  /** Every chain of present keys is a path. */
  lemma {:induction false} PathsComplete(v: Value, pre: seq<string>, ks: seq<string>)
    requires ks != [] && NamespacePaths.KeysOk(ks) && Present(v, ks)
    requires pre == [] || pre[0] != ""
    ensures NamespacePaths.PathOf(pre + ks) in Paths(v, NamespacePaths.PathOf(pre))
    decreases |ks|
  {
    var k, rest := ks[0], ks[1..];
    var i := PresentProperty(v, k);
    NamespacePaths.KeysOkTail(ks);
    if rest != [] {
      PathsComplete(v.props[i].val, pre + [k], rest);
      assert pre + [k] + rest == pre + ks;
    }
    CompleteStep(v, pre, i, ks);
  }

  /**
   * For a plain, array-free object, a string is a translation key path
   * exactly when its dot-separated segments are non-empty keys, each
   * present in the object the segments before it reach.
   */
  lemma PathsExactly(v: Value, p: string)
    requires v.Obj? && NamespacePaths.Plain(v) && ArrayFree(v)
    ensures p in Paths(v, "") <==> NamespacePaths.KeysOk(Text.Split(p, '.')) && Present(v, Text.Split(p, '.'))
  {
    assert NamespacePaths.PathOf([]) == "";
    if p in Paths(v, "") {
      var ks := PathsSound(v, [], p);
      assert [] + ks == ks;
      Text.SplitJoin(ks, '.');
    }
    var ks := Text.Split(p, '.');
    if NamespacePaths.KeysOk(ks) && Present(v, ks) {
      Text.JoinSplit(p, '.');
      PathsComplete(v, [], ks);
      assert [] + ks == ks;
    }
  }
}
