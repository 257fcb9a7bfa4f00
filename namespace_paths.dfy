/**
 * `NamespacePaths<T, TRef>` of src/types/NamespacePaths.ts, the type of the
 * paths `getTranslations` and `useTranslations` accept, written as a
 * function of a message tree: every dotted path to a nested object that
 * is neither an array nor a reference object.
 */
module NamespacePaths {
  import opened Values
  import Text
  import ObjectPath

  /** `RefValue`: an object with string `ext`, `kind` and `path`. */
  predicate IsRefValue(r: Value) {
    r.Obj? && Get(r, "ext").Str? && Get(r, "kind").Str? && Get(r, "path").Str?
  }

  /** `RefObject<TRef>`: an object whose `refProp` property is a `RefValue`. */
  predicate IsRefObject(v: Value, refProp: string) {
    v.Obj? && refProp in Keys(v.props) && IsRefValue(Get(v, refProp))
  }

  /**
   * `Banned<TRef>`: null, undefined, numbers, strings, booleans, functions,
   * arrays and reference objects; that is, everything but a plain object
   * that is not a reference.
   */
  predicate Banned(v: Value, refProp: string) {
    !v.Obj? || IsRefObject(v, refProp)
  }

  /** `Concat<Head, Tail>`: the separator is dropped after an empty head. */
  function Concat(head: string, tail: string): string {
    if head == "" then tail else head + "." + tail
  }

  /**
   * `PathsInner<T, TRef, Path>`: for each key whose value is not banned, its
   * path under `path` and everything beneath it; nothing for a banned value.
   */
  function PathsInner(v: Value, refProp: string, path: string): set<string> {
    if Banned(v, refProp) then {} else PropPaths(v.props, refProp, path)
  }

  /** The union, over the properties in `ps`, of what each contributes. */
  function PropPaths(ps: seq<Prop>, refProp: string, path: string): set<string> {
    if ps == [] then {}
    else
      var here := if Banned(ps[0].val, refProp) then {}
        else {Concat(path, ps[0].key)} + PathsInner(ps[0].val, refProp, Concat(path, ps[0].key));
      here + PropPaths(ps[1..], refProp, path)
  }

  /** `NamespacePaths<T, TRef>`. */
  function NamespacePaths(v: Value, refProp: string): set<string> {
    PathsInner(v, refProp, "")
  }

  // ---------------------------------------------------------------------
  // Paths as key sequences
  // ---------------------------------------------------------------------

  /** The dotted spelling of a key sequence; the empty sequence is the root `""`. */
  function PathOf(ks: seq<string>): string {
    if ks == [] then "" else Text.Join(ks, '.')
  }

  lemma {:induction false} JoinSnoc(ks: seq<string>, k: string)
    requires ks != []
    ensures Text.Join(ks + [k], '.') == Text.Join(ks, '.') + "." + k
    decreases |ks|
  {
    if |ks| > 1 {
      JoinSnoc(ks[1..], k);
      assert (ks + [k])[1..] == ks[1..] + [k];
    }
  }

  /** `Concat` extends a path by one key, as long as the path does not start with an empty key. */
  lemma ConcatPathOf(pre: seq<string>, k: string)
    requires pre == [] || pre[0] != ""
    ensures Concat(PathOf(pre), k) == PathOf(pre + [k])
  {
    if pre != [] {
      JoinSnoc(pre, k);
      if |pre| > 1 { assert Text.Join(pre, '.')[0] == pre[0][0]; }
    }
  }

  /** Keys that are spelled back unambiguously: non-empty and without `.`. */
  predicate KeysOk(ks: seq<string>) {
    forall j | 0 <= j < |ks| :: ks[j] != "" && '.' !in ks[j]
  }

  /** Every prefix of `ks`, the root included, leads through `v` to a namespace object. */
  predicate Along(v: Value, ks: seq<string>, refProp: string)
    decreases |ks|
  {
    !Banned(v, refProp) && (ks == [] || Along(ObjectPath.Step(v, ks[0]), ks[1..], refProp))
  }

  /** At the end of such a walk `dlv` finds a namespace object. */
  lemma {:induction false} AlongEnd(v: Value, ks: seq<string>, refProp: string)
    requires Along(v, ks, refProp)
    ensures !Banned(ObjectPath.DlvKeys(v, ks), refProp)
    decreases |ks|
  {
    if ks != [] {
      AlongEnd(ObjectPath.Step(v, ks[0]), ks[1..], refProp);
    }
  }

  /** A walk through namespace objects passes through namespace objects on the way. */
  lemma {:induction false} AlongPrefix(v: Value, a: seq<string>, k: string, refProp: string)
    requires Along(v, a + [k], refProp)
    ensures Along(v, a, refProp)
    decreases |a|
  {
    if a != [] {
      assert (a + [k])[1..] == a[1..] + [k];
      AlongPrefix(ObjectPath.Step(v, a[0]), a[1..], k, refProp);
    }
  }

  /** A message tree as JSON produces it: keys distinct, non-empty and without `.`, all the way down. */
  predicate Plain(v: Value) {
    match v
    case Obj(ps) =>
      && (forall i, j | 0 <= i < j < |ps| :: ps[i].key != ps[j].key)
      && KeysOk(Keys(ps))
      && forall i | 0 <= i < |ps| :: Plain(ps[i].val)
    case _ => true
  }

  lemma {:induction false} FindPropUnique(ps: seq<Prop>, i: nat)
    requires i < |ps|
    requires forall a, b | 0 <= a < b < |ps| :: ps[a].key != ps[b].key
    ensures FindProp(ps, ps[i].key) == ps[i].val
  {
    if i > 0 {
      assert ps[0].key != ps[i].key;
      assert ps[1..][i - 1] == ps[i];
      FindPropUnique(ps[1..], i - 1);
    }
  }

  /** What one property contributes. */
  predicate Contributes(pr: Prop, refProp: string, path: string, p: string) {
    !Banned(pr.val, refProp)
    && (p == Concat(path, pr.key) || p in PathsInner(pr.val, refProp, Concat(path, pr.key)))
  }

  lemma {:induction false} InPropPaths(ps: seq<Prop>, refProp: string, path: string, i: nat, p: string)
    requires i < |ps| && Contributes(ps[i], refProp, path, p)
    ensures p in PropPaths(ps, refProp, path)
    decreases i
  {
    if i > 0 {
      assert ps[1..][i - 1] == ps[i];
      InPropPaths(ps[1..], refProp, path, i - 1, p);
    }
  }

  lemma {:induction false} FromPropPaths(ps: seq<Prop>, refProp: string, path: string, p: string) returns (i: nat)
    requires p in PropPaths(ps, refProp, path)
    ensures i < |ps| && Contributes(ps[i], refProp, path, p)
    decreases |ps|
  {
    if Contributes(ps[0], refProp, path, p) {
      i := 0;
    } else {
      var j := FromPropPaths(ps[1..], refProp, path, p);
      i := j + 1;
    }
  }

  /** A path one property contributes is among the paths of the object. */
  lemma InPathsInner(v: Value, refProp: string, path: string, i: nat, p: string)
    requires !Banned(v, refProp) && i < |v.props| && Contributes(v.props[i], refProp, path, p)
    ensures p in PathsInner(v, refProp, path)
  {
    InPropPaths(v.props, refProp, path, i, p);
  }

  /** Each path of an object comes from one of its properties. */
  lemma FromProperty(v: Value, refProp: string, path: string, p: string) returns (i: nat)
    requires p in PathsInner(v, refProp, path)
    ensures !Banned(v, refProp) && i < |v.props| && Contributes(v.props[i], refProp, path, p)
  {
    i := FromPropPaths(v.props, refProp, path, p);
  }

  /** One key of a plain object: the step reads that property's value. */
  lemma PlainStep(v: Value, i: nat)
    requires Plain(v) && v.Obj? && i < |v.props|
    ensures ObjectPath.Step(v, v.props[i].key) == v.props[i].val
    ensures v.props[i].key != "" && '.' !in v.props[i].key && Plain(v.props[i].val)
  {
    assert Keys(v.props)[i] == v.props[i].key;
    FindPropUnique(v.props, i);
  }

  lemma KeysOkCons(k: string, rest: seq<string>)
    requires k != "" && '.' !in k && KeysOk(rest)
    ensures KeysOk([k] + rest)
  {
    forall j | 0 < j < |[k] + rest| ensures ([k] + rest)[j] == rest[j - 1] { }
  }

  /** Extending a walk through namespace objects by a property of the object it starts from. */
  lemma AlongThrough(v: Value, refProp: string, i: nat, rest: seq<string>)
    requires !Banned(v, refProp) && Plain(v) && i < |v.props|
    requires KeysOk(rest) && Along(v.props[i].val, rest, refProp)
    ensures var ks := [v.props[i].key] + rest; KeysOk(ks) && Along(v, ks, refProp)
  {
    var k := v.props[i].key;
    PlainStep(v, i);
    KeysOkCons(k, rest);
    assert ([k] + rest)[1..] == rest;
  }

  /** The spelling of a path extended by one key and then by `rest`. */
  lemma Spelling(pre: seq<string>, k: string, rest: seq<string>, p: string)
    requires rest == [] ==> p == PathOf(pre + [k])
    requires rest != [] ==> p == PathOf(pre + [k] + rest)
    ensures p == PathOf(pre + ([k] + rest))
  {
    if rest == [] {
      assert [k] + rest == [k];
    } else {
      assert pre + [k] + rest == pre + ([k] + rest);
    }
  }

  /** Every produced path spells a key sequence along which the tree holds namespace objects. */
  lemma {:induction false} PathsSound(v: Value, refProp: string, pre: seq<string>, p: string) returns (ks: seq<string>)
    requires Plain(v) && (pre == [] || pre[0] != "")
    requires p in PathsInner(v, refProp, PathOf(pre))
    ensures ks != [] && KeysOk(ks) && p == PathOf(pre + ks) && Along(v, ks, refProp)
    decreases v
  {
    var i := FromProperty(v, refProp, PathOf(pre), p);
    var k, val := v.props[i].key, v.props[i].val;
    PlainStep(v, i);
    ConcatPathOf(pre, k);
    var rest: seq<string> := [];
    if p != Concat(PathOf(pre), k) {
      rest := PathsSound(val, refProp, pre + [k], p);
    }
    ks := [k] + rest;
    AlongThrough(v, refProp, i, rest);
    Spelling(pre, k, rest, p);
  }

  /** The property a step through an object reads, when it finds one. */
  lemma StepProperty(v: Value, k: string) returns (i: nat)
    requires v.Obj? && ObjectPath.Step(v, k) != Undefined
    ensures i < |v.props| && v.props[i].key == k && v.props[i].val == ObjectPath.Step(v, k)
  {
    i :| 0 <= i < |v.props| && v.props[i].key == k && FindProp(v.props, k) == v.props[i].val;
  }

  lemma KeysOkTail(ks: seq<string>)
    requires ks != [] && KeysOk(ks)
    ensures KeysOk(ks[1..]) && ks[0] != ""
  {
    forall j | 0 <= j < |ks[1..]| ensures ks[1..][j] == ks[j + 1] { }
  }

  /** One step of completeness: the property at `i` contributes the path through it. */
  lemma CompleteStep(v: Value, refProp: string, pre: seq<string>, i: nat, ks: seq<string>)
    requires !Banned(v, refProp) && i < |v.props| && ks != [] && v.props[i].key == ks[0]
    requires !Banned(v.props[i].val, refProp)
    requires pre == [] || pre[0] != ""
    requires ks[1..] != [] ==> PathOf(pre + ks) in PathsInner(v.props[i].val, refProp, PathOf(pre + [ks[0]]))
    ensures PathOf(pre + ks) in PathsInner(v, refProp, PathOf(pre))
  {
    ConcatPathOf(pre, ks[0]);
    if ks[1..] == [] {
      assert ks == [ks[0]];
    }
    InPathsInner(v, refProp, PathOf(pre), i, PathOf(pre + ks));
  }

  /** Every key sequence along namespace objects is produced. */
  lemma {:induction false} PathsComplete(v: Value, refProp: string, pre: seq<string>, ks: seq<string>)
    requires ks != [] && KeysOk(ks) && Along(v, ks, refProp)
    requires pre == [] || pre[0] != ""
    ensures PathOf(pre + ks) in PathsInner(v, refProp, PathOf(pre))
    decreases |ks|
  {
    var k, rest := ks[0], ks[1..];
    var i := StepProperty(v, k);
    KeysOkTail(ks);
    if rest != [] {
      PathsComplete(v.props[i].val, refProp, pre + [k], rest);
      assert pre + [k] + rest == pre + ks;
    }
    CompleteStep(v, refProp, pre, i, ks);
  }

  /**
   * For a plain tree, a string is a namespace path exactly when its
   * dot-separated segments are non-empty keys leading, prefix by prefix,
   * through namespace objects.
   */
  lemma NamespacePathsExactly(v: Value, refProp: string, p: string)
    requires Plain(v)
    ensures p in NamespacePaths(v, refProp) <==> KeysOk(Text.Split(p, '.')) && Along(v, Text.Split(p, '.'), refProp)
  {
    assert PathOf([]) == "";
    if p in NamespacePaths(v, refProp) {
      var ks := PathsSound(v, refProp, [], p);
      assert [] + ks == ks;
      Text.SplitJoin(ks, '.');
    }
    if KeysOk(Text.Split(p, '.')) && Along(v, Text.Split(p, '.'), refProp) {
      var ks := Text.Split(p, '.');
      Text.JoinSplit(p, '.');
      PathsComplete(v, refProp, [], ks);
      assert [] + ks == ks;
    }
  }

  /** What `dlv` finds at a namespace path of a plain tree is a namespace object. */
  lemma NamespaceResolves(v: Value, refProp: string, p: string)
    requires Plain(v) && p in NamespacePaths(v, refProp)
    ensures ObjectPath.Dlv(v, p).Obj? && !IsRefObject(ObjectPath.Dlv(v, p), refProp)
  {
    NamespacePathsExactly(v, refProp, p);
    AlongEnd(v, Text.Split(p, '.'), refProp);
  }

  /** The paths are prefix-closed: with `a.b` comes `a`. */
  lemma PrefixClosed(v: Value, refProp: string, q: string, k: string)
    requires Plain(v) && '.' !in k
    requires q + "." + k in NamespacePaths(v, refProp)
    ensures q in NamespacePaths(v, refProp)
  {
    NamespacePathsExactly(v, refProp, q + "." + k);
    Text.SplitAround(q, '.', k);
    Text.SplitNoSep(k, '.');
    var a := Text.Split(q, '.');
    var ks := a + [k];
    assert Text.Split(q + "." + k, '.') == ks;
    assert KeysOk(a) by {
      forall j | 0 <= j < |a| ensures a[j] == ks[j] { }
    }
    AlongPrefix(v, a, k, refProp);
    NamespacePathsExactly(v, refProp, q);
  }

  /** Below a non-empty path nothing is the empty path. */
  lemma {:induction false} NonEmptyBelow(v: Value, refProp: string, path: string)
    requires path != ""
    ensures "" !in PathsInner(v, refProp, path)
    decreases v
  {
    if "" in PathsInner(v, refProp, path) {
      var i := FromProperty(v, refProp, path, "");
      NonEmptyBelow(v.props[i].val, refProp, Concat(path, v.props[i].key));
    }
  }

  /** The root path `""` is produced only by a top-level key `""` holding a namespace. */
  lemma RootPath(v: Value, refProp: string)
    ensures "" in NamespacePaths(v, refProp) <==>
      !Banned(v, refProp) && exists i | 0 <= i < |v.props| :: v.props[i].key == "" && !Banned(v.props[i].val, refProp)
  {
    if "" in NamespacePaths(v, refProp) {
      var i := FromProperty(v, refProp, "", "");
      if v.props[i].key != "" {
        NonEmptyBelow(v.props[i].val, refProp, v.props[i].key);
      }
    }
    if !Banned(v, refProp) && exists i | 0 <= i < |v.props| :: v.props[i].key == "" && !Banned(v.props[i].val, refProp) {
      var i :| 0 <= i < |v.props| && v.props[i].key == "" && !Banned(v.props[i].val, refProp);
      InPathsInner(v, refProp, "", i, "");
    }
  }
}
